/** The newest parser `iterator` (include/parsertl/iterator.hpp): a forward iterator that
    stops at every reduce, so that the caller can run the semantic action for it. It owns a
    lexer iterator, the parser state and the token vector; the state machine pointer is
    null in the end iterator. */
module ParserIterator {
  import opened Wrappers
  import opened ParserStateMachine
  import opened TokenStream
  import opened MatchResults
  import opened Lookup

  datatype Iter = Iter(lx: Lexer, results: MatchResults, productions: seq<Token>, sm: Option<Machine>)

  /** The default-constructed iterator: default parser state and a null state machine. */
  const EndIter: Iter := Iter(Lexer([], 0, 0), Initial, [], None)

  /** The end iterator is the one without a state machine. */
  predicate IsEnd(it: Iter) {
    it.sm.None?
  }

  /** `n` successive `lookup` steps with the token vector. */
  function Steps(sm: Machine, c: TokenConfig, n: nat): Behaviour<TokenConfig>
    decreases n
  {
    if n == 0 then Defined(c)
    else
      match TokenStep(sm, c)
      case Undefined => Undefined
      case Defined(d) => Steps(sm, d, n - 1)
  }

  /** A state the iterator moves straight through: a shift or a goto. */
  predicate Moving(b: Behaviour<TokenConfig>) {
    b.Defined? && b.value.r.entry.action in {Shift, GoTo}
  }

  /** The `do … while (shift || go_to)` loop of `lookup`: at least one step, then more as
      long as the action is a shift or a goto. */
  function StepPastMoves(sm: Machine, c: TokenConfig, fuel: nat): (o: Outcome<TokenConfig>)
    ensures !o.Threw?
    ensures o.Returned? ==> !o.value.r.entry.action.Shift? && !o.value.r.entry.action.GoTo?
    decreases fuel
  {
    if fuel == 0 then OutOfFuel
    else
      match TokenStep(sm, c)
      case Undefined => Crashed
      case Defined(d) =>
        if d.r.entry.action in {Shift, GoTo} then StepPastMoves(sm, d, fuel - 1) else Returned(d)
  }

  /** `d` is the first state after `c`, `n >= 1` steps on, that is not a shift or a goto:
      every state strictly between is one. */
  ghost predicate FirstPause(sm: Machine, c: TokenConfig, n: nat, d: TokenConfig) {
    1 <= n && Steps(sm, c, n) == Defined(d) && d.r.entry.action !in {Shift, GoTo} &&
    forall k :: 1 <= k < n ==> Moving(Steps(sm, c, k))
  }

  /** The loop stops at the FIRST state after the start that is not a shift or a goto. */
  lemma {:induction false} StepPastMovesIsFirstPause(sm: Machine, c: TokenConfig, fuel: nat)
    requires StepPastMoves(sm, c, fuel).Returned?
    ensures exists n: nat :: n <= fuel && FirstPause(sm, c, n, StepPastMoves(sm, c, fuel).value)
    decreases fuel
  {
    var d := TokenStep(sm, c).value;
    assert Steps(sm, c, 1) == Defined(d) by {
      assert Steps(sm, d, 0) == Defined(d);
    }
    var e := StepPastMoves(sm, c, fuel).value;
    if d.r.entry.action in {Shift, GoTo} {
      assert e == StepPastMoves(sm, d, fuel - 1).value;
      StepPastMovesIsFirstPause(sm, d, fuel - 1);
      var n': nat :| n' <= fuel - 1 && FirstPause(sm, d, n', e);
      forall k | 1 <= k < n' + 1
        ensures Moving(Steps(sm, c, k))
      {
        assert Steps(sm, c, k) == Steps(sm, d, k - 1);
        if k > 1 {
          assert Moving(Steps(sm, d, k - 1));
        }
      }
      assert Steps(sm, c, n' + 1) == Steps(sm, d, n');
      assert FirstPause(sm, c, n' + 1, e);
    } else {
      assert FirstPause(sm, c, 1, e);
    }
  }

  /** `lookup`: run the loop; reaching accept or error makes this the end iterator.
      Calling it on the end iterator dereferences the null state machine. */
  function Advance(it: Iter, fuel: nat): (o: Outcome<Iter>)
    ensures !o.Threw?
    ensures IsEnd(it) ==> o == Crashed
    ensures o.Returned? ==> (IsEnd(o.value) <==> o.value.results.entry.action in {Accept, Error})
    ensures o.Returned? && !IsEnd(o.value) ==> o.value.sm == it.sm && o.value.results.entry.action == Reduce
  {
    if it.sm.None? then Crashed
    else
      var d :- StepPastMoves(it.sm.value, TokenConfig(it.lx, it.results, it.productions), fuel);
      var sm := if d.r.entry.action in {Accept, Error} then None else it.sm;
      Returned(Iter(d.lx, d.r, d.productions, sm))
  }

  /** The `(iter, sm)` constructor: reset the parser on the first lexeme and move to the
      first reduce, unless the very first action is already a reduce (a grammar that
      accepts empty input). */
  function Make(lx: Lexer, sm: Machine, fuel: nat): (o: Outcome<Iter>)
    ensures !o.Threw?
    ensures Reset(Current(lx).id, sm).entry.action == Reduce ==>
      o == Returned(Iter(lx, Reset(Current(lx).id, sm), [], Some(sm)))
    ensures Reset(Current(lx).id, sm).entry.action != Reduce ==>
      o == Advance(Iter(lx, Reset(Current(lx).id, sm), [], Some(sm)), fuel)
  {
    var it := Iter(lx, Reset(Current(lx).id, sm), [], Some(sm));
    if it.results.entry.action != Reduce then Advance(it, fuel) else Returned(it)
  }

  /** A live iterator always sits at a reduce: the constructor and every `++` stop only
      there or become the end iterator. */
  lemma MakeStopsAtReduce(lx: Lexer, sm: Machine, fuel: nat)
    requires Make(lx, sm, fuel).Returned?
    ensures !IsEnd(Make(lx, sm, fuel).value) ==>
      Make(lx, sm, fuel).value.results.entry.action == Reduce && Make(lx, sm, fuel).value.sm == Some(sm)
    ensures IsEnd(Make(lx, sm, fuel).value) ==> Make(lx, sm, fuel).value.results.entry.action in {Accept, Error}
  {
  }

  /** The state a live iterator moves to is the first reduce, accept or error that the
      parser reaches from its current state by `lookup` steps. */
  lemma AdvanceReachesFirstPause(it: Iter, fuel: nat)
    requires Advance(it, fuel).Returned?
    ensures var o := Advance(it, fuel).value;
      exists n: nat :: n <= fuel &&
        FirstPause(it.sm.value, TokenConfig(it.lx, it.results, it.productions), n,
                   TokenConfig(o.lx, o.results, o.productions))
  {
    var c := TokenConfig(it.lx, it.results, it.productions);
    StepPastMovesIsFirstPause(it.sm.value, c, fuel);
    var o := Advance(it, fuel).value;
    assert TokenConfig(o.lx, o.results, o.productions) == StepPastMoves(it.sm.value, c, fuel).value;
  }

  /** Postfix `++`: the iterator as it was, and the iterator after the step. */
  function PostIncrement(it: Iter, fuel: nat): (o: Outcome<(Iter, Iter)>)
    ensures o.Returned? <==> Advance(it, fuel).Returned?
    ensures o.Returned? ==> o.value.0 == it && Returned(o.value.1) == Advance(it, fuel)
  {
    var next :- Advance(it, fuel);
    Returned((it, next))
  }

  /** `operator ==`: the same state machine, and equal parser states unless both are at
      the end. */
  predicate Equal(a: Iter, b: Iter) {
    a.sm == b.sm && (a.sm.None? || a.results == b.results)
  }

  /** Equality is an equivalence; all end iterators are equal, an end iterator never equals
      a live one, and live iterators are equal exactly when their machines and parser
      states are (whatever their lexer positions and token vectors). */
  lemma EqualIsEquivalence(a: Iter, b: Iter, c: Iter)
    ensures Equal(a, a)
    ensures Equal(a, b) ==> Equal(b, a)
    ensures Equal(a, b) && Equal(b, c) ==> Equal(a, c)
    ensures IsEnd(a) && IsEnd(b) ==> Equal(a, b)
    ensures IsEnd(a) != IsEnd(b) ==> !Equal(a, b)
    ensures !IsEnd(a) ==> (Equal(a, b) <==> a.sm == b.sm && a.results == b.results)
  {
  }
}

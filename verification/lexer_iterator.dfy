/** parle's own lexer iterator (lib/parle/lexer/iterator.hpp): lexertl's lookup wrapped with
    a line counter, per-token PHP callbacks and a forward-only `reset`. lexertl's `lookup`
    is not part of this model: it is a parameter, a total step on match results. A
    callback is seen only through whether Zend could prepare and call it. */
module LexerIterator {
  import opened Wrappers

  /** The part of lexertl's match results the iterator reads or writes: the token id, the
      lexeme's [first, second), the end of input and the beginning-of-line flag. */
  datatype Results = Results(id: nat, first: nat, second: nat, eoi: nat, bol: bool)

  /** A new `match_results(start, end)`: an empty lexeme at `start`, at a line start. */
  function NewResults(start: nat, end: nat): (r: Results)
    ensures r.first == start && r.second == start && r.eoi == end && r.bol
  {
    Results(0, start, start, end, true)
  }

  /** How a registered token callback went. */
  datatype Callback = PrepareFails | CallFails | CallSucceeds

  /** The lexer object: lexertl's lookup and the callbacks registered by token id. */
  datatype Lexer = Lexer(step: Results -> Results, callbacks: map<nat, Callback>)

  /** `_sm` is the state machine's address, `None` for the null pointer of the end
      iterator. */
  datatype Iterator = Iterator(results: Results, sm: Option<nat>, line: nat)

  predicate AtEnd(it: Iterator) {
    it.sm.None?
  }

  /** The default constructor: the end iterator. */
  function Default(): (it: Iterator)
    ensures AtEnd(it) && it.line == 0
  {
    Iterator(NewResults(0, 0), None, 0)
  }

  const PrepareFailed: string := "Failed to prepare function call"
  const CallFailed: string := "Callback execution failed"

  /** What `lookup` leaves: the iterator, and the exception it raised in PHP, if any. */
  datatype Looked = Looked(it: Iterator, exception: Option<string>)

  /** `lookup`: count a line when the previous lexeme ended one, take the next lexeme, run
      its callback, and become the end iterator once the lexeme starts at end of input.
      Called on the end iterator it would dereference the null machine pointer. */
  function Lookup(lex: Lexer, it: Iterator): (r: Looked)
    requires !AtEnd(it)
    ensures r.it.line == if it.results.bol then it.line + 1 else it.line
    ensures r.it.results == lex.step(it.results)
    ensures AtEnd(r.it) <==> r.it.results.first == r.it.results.eoi
    ensures !AtEnd(r.it) ==> r.it.sm == it.sm
    ensures r.exception.Some? <==>
              r.it.results.id in lex.callbacks && lex.callbacks[r.it.results.id] != CallSucceeds
  {
    var line := if it.results.bol then it.line + 1 else it.line;
    var results := lex.step(it.results);
    var sm := if results.first == results.eoi then None else it.sm;
    var exception :=
      if results.id !in lex.callbacks then None
      else match lex.callbacks[results.id]
        case PrepareFails => Some(PrepareFailed)
        case CallFails => Some(CallFailed)
        case CallSucceeds => None;
    Looked(Iterator(results, sm, line), exception)
  }

  /** The constructor over [start, end): one lookup only when `doNext` asks for it. */
  function Make(lex: Lexer, start: nat, end: nat, sm: nat, doNext: bool): (r: Looked)
    ensures !doNext ==> r == Looked(Iterator(NewResults(start, end), Some(sm), 0), None)
    ensures doNext ==> r == Lookup(lex, Iterator(NewResults(start, end), Some(sm), 0))
  {
    var it := Iterator(NewResults(start, end), Some(sm), 0);
    if doNext then Lookup(lex, it) else Looked(it, None)
  }

  /** `set_bol`. */
  function SetBol(it: Iterator, bol: bool): (r: Iterator)
    ensures r.results.bol == bol && r.sm == it.sm && r.line == it.line
    ensures r.results.(bol := it.results.bol) == it.results
  {
    it.(results := it.results.(bol := bol))
  }

  const BackwardReset: string := "Can only reset to a forward position"

  /** `reset(start, end)`: refuse to move back; otherwise an empty lexeme at `start` with
      `end` as the new end of input. */
  function Reset(it: Iterator, start: nat, end: nat): (r: Result<Iterator>)
    ensures r.Failure? <==> it.results.first > start
    ensures r.Failure? ==> r.error == BackwardReset
    ensures r.Success? ==> r.value.results.first == start && r.value.results.second == start &&
                           r.value.results.eoi == end && r.value.sm == it.sm && r.value.line == it.line &&
                           r.value.results.id == it.results.id && r.value.results.bol == it.results.bol
  {
    if it.results.first > start then Failure(BackwardReset)
    else Success(it.(results := it.results.(first := start, second := start, eoi := end)))
  }

  /** Resets only move forward: after any run of resets that succeeded, the lexeme start
      never went back, and a reset to before it then fails. */
  lemma {:induction false} ResetsMoveForward(it: Iterator, starts: seq<nat>, end: nat)
    requires forall i :: 0 <= i < |starts| ==> Reset(Resets(it, starts[..i], end), starts[i], end).Success?
    ensures Resets(it, starts, end).results.first >= it.results.first
    ensures forall p: nat :: p < Resets(it, starts, end).results.first ==> Reset(Resets(it, starts, end), p, end).Failure?
    decreases |starts|
  {
    if starts != [] {
      var n := |starts| - 1;
      assert starts[..n][..n] == starts[..n];
      forall i | 0 <= i < n
        ensures Reset(Resets(it, starts[..n][..i], end), starts[..n][i], end).Success?
      {
        assert starts[..n][..i] == starts[..i];
      }
      ResetsMoveForward(it, starts[..n], end);
    }
  }

  /** The iterator after resetting to each start in turn, stopping at a refusal. */
  function Resets(it: Iterator, starts: seq<nat>, end: nat): Iterator
    decreases |starts|
  {
    if starts == [] then it
    else
      var before := Resets(it, starts[..|starts| - 1], end);
      match Reset(before, starts[|starts| - 1], end)
      case Success(next) => next
      case Failure(_) => before
  }

  /** `operator==`: the same machine, and either both are end iterators or their results
      agree. The line counter takes no part. */
  predicate Equal(a: Iterator, b: Iterator) {
    a.sm == b.sm && (a.sm.None? || a.results == b.results)
  }

  /** Equality is an equivalence; all end iterators are equal and none equals an iterator
      that is not at the end. */
  lemma EqualIsEquivalence(a: Iterator, b: Iterator, c: Iterator)
    ensures Equal(a, a)
    ensures Equal(a, b) ==> Equal(b, a)
    ensures Equal(a, b) && Equal(b, c) ==> Equal(a, c)
    ensures AtEnd(a) && AtEnd(b) ==> Equal(a, b)
    ensures AtEnd(a) && !AtEnd(b) ==> !Equal(a, b)
  {
  }

  /** Prefix `++` returns the iterator after the lookup; postfix `++` returns a copy of the
      iterator before it. */
  function Increment(lex: Lexer, it: Iterator, postfix: bool): (r: (Iterator, Looked))
    requires !AtEnd(it)
    ensures r.1 == Lookup(lex, it)
    ensures postfix ==> r.0 == it
    ensures !postfix ==> r.0 == r.1.it
  {
    var after := Lookup(lex, it);
    (if postfix then it else after.it, after)
  }

  /** `k` prefix increments, stopping at the end iterator; the lines counted are the
      lookups that started on a line start. */
  function Run(lex: Lexer, it: Iterator, k: nat): Iterator
    decreases k
  {
    if k == 0 || AtEnd(it) then it else Run(lex, Lookup(lex, it).it, k - 1)
  }

  /** How many of the next `k` lookups start at the beginning of a line. */
  function LineStarts(lex: Lexer, it: Iterator, k: nat): nat
    decreases k
  {
    if k == 0 || AtEnd(it) then 0
    else (if it.results.bol then 1 else 0) + LineStarts(lex, Lookup(lex, it).it, k - 1)
  }

  /** The line counter grows by exactly the number of lookups made at a line start, and once
      the iterator has reached the end it stays there. */
  lemma {:induction false} RunCountsLines(lex: Lexer, it: Iterator, k: nat)
    ensures Run(lex, it, k).line == it.line + LineStarts(lex, it, k)
    ensures AtEnd(it) ==> Run(lex, it, k) == it
    decreases k
  {
    if k > 0 && !AtEnd(it) {
      RunCountsLines(lex, Lookup(lex, it).it, k - 1);
    }
  }
}

/** The newest `search_iterator` (include/parsertl/search_iterator.hpp): each step runs the
    `captures` form of `search` from where the previous match ended, and exposes that
    match's captures; the state machine pointer is null in the end iterator. */
module SearchIterator {
  import opened Wrappers
  import opened ParserStateMachine
  import opened TokenStream
  import opened Capture
  import opened SearchMap

  datatype SearchIter = SearchIter(lx: Lexer, captures: seq<seq<Capture>>, sm: Option<Machine>)

  /** The default-constructed iterator. */
  const EndSearchIter: SearchIter := SearchIter(Lexer([], 0, 0), [], None)

  predicate IsEnd(it: SearchIter) {
    it.sm.None?
  }

  /** `lookup`: clear the captures and search from the lexer position; a match moves the
      lexer to where the match ended, a miss makes this the end iterator. Calling it on the
      end iterator dereferences the null state machine. */
  function Advance(it: SearchIter, fuel: nat): (o: Outcome<SearchIter>)
    ensures !o.Threw?
    ensures IsEnd(it) ==> o == Crashed
    ensures o.Returned? && IsEnd(o.value) ==> o.value.captures == []
    ensures o.Returned? && !IsEnd(o.value) ==>
      o.value.sm == it.sm && |o.value.captures| == SlotCount(it.sm.value.captures) + 1
  {
    if it.sm.None? then Crashed
    else
      var c :- SearchCaptures(it.sm.value, it.lx, fuel);
      if c.hit then Returned(SearchIter(c.end.value, c.captures, it.sm))
      else Returned(SearchIter(c.iter, [], None))
  }

  /** The `(iter, sm)` constructor: seed `captures[0]` with an empty span at the first
      lexeme, then search. */
  function Make(lx: Lexer, sm: Machine, fuel: nat): (o: Outcome<SearchIter>)
    ensures !o.Threw?
  {
    Advance(SearchIter(lx, [[Capture(Current(lx).first, Current(lx).first)]], Some(sm)), fuel)
  }

  /** The constructor's seed span is never seen: `lookup` clears the captures before the
      search, so construction is one search from the first lexeme, and a live iterator's
      whole-match capture starts at the lexeme where the match starts. */
  lemma MakeDiscardsSeed(lx: Lexer, sm: Machine, fuel: nat)
    ensures Make(lx, sm, fuel) == Advance(SearchIter(lx, [], Some(sm)), fuel)
    ensures Make(lx, sm, fuel).Returned? && !IsEnd(Make(lx, sm, fuel).value) ==>
      SearchCaptures(sm, lx, fuel).Returned? &&
      Make(lx, sm, fuel).value.captures[0][0].first == Current(SearchCaptures(sm, lx, fuel).value.iter).first
  {
  }

  /** The iterator only moves forwards: each step leaves the lexer at or after where it
      was, without passing end of input; a live iterator sits where its match ended. */
  lemma AdvanceMovesForward(it: SearchIter, fuel: nat)
    requires Advance(it, fuel).Returned?
    ensures AdvancedWithinInput(it.lx, Advance(it, fuel).value.lx)
    ensures !IsEnd(Advance(it, fuel).value) ==>
      var c := SearchCaptures(it.sm.value, it.lx, fuel).value;
      c.hit && Advance(it, fuel).value.lx == c.end.value && AdvancedWithinInput(c.iter, c.end.value)
  {
    MapSearchWithinInput(it.sm.value, it.lx, [], None, fuel);
    var c := SearchCaptures(it.sm.value, it.lx, fuel).value;
    if c.hit {
      AdvancedWithinInputTransitive(it.lx, c.iter, c.end.value);
    }
  }

  /** Postfix `++`. */
  function PostIncrement(it: SearchIter, fuel: nat): (o: Outcome<(SearchIter, SearchIter)>)
    ensures o.Returned? <==> Advance(it, fuel).Returned?
    ensures o.Returned? ==> o.value.0 == it && Returned(o.value.1) == Advance(it, fuel)
  {
    var next :- Advance(it, fuel);
    Returned((it, next))
  }

  /** `operator ==`: the same state machine and, unless at the end, the same captures. */
  predicate Equal(a: SearchIter, b: SearchIter) {
    a.sm == b.sm && (a.sm.None? || a.captures == b.captures)
  }

  /** All end iterators are equal, an end iterator never equals a live one, and live
      iterators are compared by machine and captures only (not by lexer position). */
  lemma EqualIsEquivalence(a: SearchIter, b: SearchIter, c: SearchIter)
    ensures Equal(a, a)
    ensures Equal(a, b) ==> Equal(b, a)
    ensures Equal(a, b) && Equal(b, c) ==> Equal(a, c)
    ensures IsEnd(a) && IsEnd(b) ==> Equal(a, b)
    ensures IsEnd(a) != IsEnd(b) ==> !Equal(a, b)
    ensures !IsEnd(a) ==> (Equal(a, b) <==> a.sm == b.sm && a.captures == b.captures)
  {
  }
}

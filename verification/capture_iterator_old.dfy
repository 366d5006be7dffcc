/** The older capture `iterator` (lib/parsertl14/parsertl/iterator.hpp): it walks the
    matches of a grammar over a character range, each step searching from where the
    previous whole match ended. The search it calls (over characters, with a lexer state
    machine and a parser state machine) is a parameter here: given the position to start
    from and the end of the input, it says whether it found a match and what it left in
    the captures. The two machine pointers are modelled by identities, `None` being null. */
module CaptureIteratorOld {
  import opened Wrappers

  /** A captured [first, second) character range. */
  type Span = (nat, nat)

  datatype Searched = Searched(hit: bool, captures: seq<seq<Span>>)

  /** A search over [from, end) with the iterator's two machines. */
  type SearchFn = (nat, nat) -> Searched

  datatype CaptureIter = CaptureIter(end: nat, captures: seq<seq<Span>>, lsm: Option<nat>, gsm: Option<nat>)

  /** The default constructor: no captures, both machines null. */
  const DefaultIter: CaptureIter := CaptureIter(0, [], None, None)

  predicate IsEnd(it: CaptureIter) {
    it.gsm.None?
  }

  /** Where the next search starts: the end of the last span in `captures[0]` (the whole
      match); reading it from an empty vector is undefined. */
  function Resume(it: CaptureIter): (p: Behaviour<nat>)
    ensures p.Defined? <==> |it.captures| > 0 && |it.captures[0]| > 0
    ensures p.Defined? ==> p.value == it.captures[0][|it.captures[0]| - 1].1
  {
    if |it.captures| == 0 || |it.captures[0]| == 0 then Undefined
    else Defined(it.captures[0][|it.captures[0]| - 1].1)
  }

  /** `lookup`: search from the end of the previous whole match; a miss nulls both machines.
      Searching with a null machine dereferences it. */
  function Advance(it: CaptureIter, search: SearchFn): (o: Behaviour<CaptureIter>)
    ensures o.Defined? <==> Resume(it).Defined? && it.lsm.Some? && it.gsm.Some?
    ensures o.Defined? ==>
      var s := search(Resume(it).value, it.end);
      o.value.end == it.end && o.value.captures == s.captures &&
      (s.hit ==> o.value.lsm == it.lsm && o.value.gsm == it.gsm) &&
      (!s.hit ==> o.value.lsm.None? && o.value.gsm.None?)
  {
    var from :- Resume(it);
    if it.lsm.None? || it.gsm.None? then Undefined
    else
      var s := search(from, it.end);
      if s.hit then Defined(it.(captures := s.captures))
      else Defined(CaptureIter(it.end, s.captures, None, None))
  }

  /** The `(start, end, lsm, gsm)` constructor: seed `captures[0]` with the empty span at
      `start`, then step. */
  function Make(start: nat, end: nat, lsm: nat, gsm: nat, search: SearchFn): (o: Behaviour<CaptureIter>)
  {
    Advance(CaptureIter(end, [[(start, start)]], Some(lsm), Some(gsm)), search)
  }

  /** The constructor runs one search, from `start` to `end`; the iterator is live exactly
      when that search hits, and then it holds the search's captures. */
  lemma MakeSearchesFromStart(start: nat, end: nat, lsm: nat, gsm: nat, search: SearchFn)
    ensures Make(start, end, lsm, gsm, search).Defined?
    ensures var it := Make(start, end, lsm, gsm, search).value;
      it.captures == search(start, end).captures && it.end == end &&
      (IsEnd(it) <==> !search(start, end).hit) &&
      (!IsEnd(it) ==> it.lsm == Some(lsm) && it.gsm == Some(gsm))
  {
  }

  /** Successive matches are chained: after a live step, the next step searches from the
      end of the whole-match span that the previous search left last in `captures[0]`. */
  lemma StepsChain(it: CaptureIter, search: SearchFn)
    requires Advance(it, search).Defined? && !IsEnd(Advance(it, search).value)
    requires var s := search(Resume(it).value, it.end); |s.captures| > 0 && |s.captures[0]| > 0
    ensures var s := search(Resume(it).value, it.end);
      Advance(Advance(it, search).value, search) ==
        Advance(CaptureIter(it.end, s.captures, it.lsm, it.gsm), search) &&
      Advance(Advance(it, search).value, search).Defined? &&
      Advance(Advance(it, search).value, search).value.captures ==
        search(s.captures[0][|s.captures[0]| - 1].1, it.end).captures
  {
  }

  /** Stepping the end iterator is undefined: both machines are null. */
  lemma EndCannotAdvance(it: CaptureIter, search: SearchFn)
    requires IsEnd(it)
    ensures Advance(it, search) == Undefined
  {
  }

  /** Postfix `++`. */
  function PostIncrement(it: CaptureIter, search: SearchFn): (o: Behaviour<(CaptureIter, CaptureIter)>)
    ensures o.Defined? <==> Advance(it, search).Defined?
    ensures o.Defined? ==> o.value.0 == it && Defined(o.value.1) == Advance(it, search)
  {
    var next :- Advance(it, search);
    Defined((it, next))
  }

  /** `operator ==`: both machines the same and, unless at the end, the same captures. */
  predicate Equal(a: CaptureIter, b: CaptureIter) {
    a.lsm == b.lsm && a.gsm == b.gsm && (a.gsm.None? || a.captures == b.captures)
  }

  /** The default iterator is the end iterator, and equals every iterator whose machines
      are both null, whatever their captures; a live iterator never equals it. */
  lemma DefaultIsEnd(it: CaptureIter)
    ensures IsEnd(DefaultIter)
    ensures Equal(it, DefaultIter) <==> it.lsm.None? && it.gsm.None?
  {
  }
}

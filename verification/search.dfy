/** The newest `search` (include/parsertl/search.hpp), `prod_set` form: try a parse from
    each start position in turn; an attempt succeeds when it reaches accept, or when it
    fails but an earlier shift left a snapshot from which the input, cut short there,
    parses. The lexer iterator equals the end iterator exactly when it holds the
    end-of-input token. */
module Search {
  import opened Wrappers
  import opened ParserStateMachine
  import opened TokenStream
  import opened MatchResults
  import opened Lookup
  import opened Parse
  import opened SearchRun

  /** A default-constructed lexer iterator, read as end of input. */
  const EoiLexer: Lexer := Lexer([], 0, 0)

  /** The result of one attempt: a match ending at `end`, or a miss leaving the snapshot
      position for the next attempt. Both carry the `prod_set` contents. */
  datatype Tried = Hit(end: Lexer, reduced: set<nat>) | Missed(lastEoi: Option<Lexer>, reduced: set<nat>)

  /** The body of the outer loop for the start `start`, with `last_eoi_` as the previous
      attempts left it; `prod_set` and `last_results_` are cleared first. */
  function Attempt(sm: Machine, start: Lexer, lastEoi: Option<Lexer>, fuel: nat): (o: Outcome<Tried>)
    ensures !o.Threw?
  {
    var c := Config(start, Reset(Current(start).id, sm));
    var a :- Run(sm, c, Snapshot(lastEoi, Initial), {}, OnLexeme, fuel);
    if a.c.r.entry.action == Accept then Returned(Hit(a.c.lx, a.reduced))
    else if a.snap.at.Some? && Current(a.snap.at.value).id != 0 then
      var f :- Finish(sm, Config(EoiLexer, a.snap.results), a.reduced, OnLexeme, fuel);
      if f.accepted then Returned(Hit(a.snap.at.value, f.reduced)) else Returned(Missed(a.snap.at, f.reduced))
    else Returned(Missed(a.snap.at, a.reduced))
  }

  /** Whether an attempt from `start` matches, and where the match ends: a direct accept
      ends where the attempt stopped; the fallback ends at the snapshot. */
  predicate HitsAt(sm: Machine, start: Lexer, end: Lexer, fuel: nat) {
    var o := Attempt(sm, start, None, fuel);
    o.Returned? && o.value.Hit? && o.value.end == end
  }

  predicate MissesAt(sm: Machine, start: Lexer, fuel: nat) {
    var o := Attempt(sm, start, None, fuel);
    o.Returned? && o.value.Missed?
  }

  /** A snapshot left over from an earlier attempt never makes a later attempt match:
      without a fresh snapshot, the fallback parses from cleared results, whose entry is
      an error. */
  lemma AttemptIgnoresStaleSnapshot(sm: Machine, start: Lexer, lastEoi: Option<Lexer>, fuel: nat)
    ensures Attempt(sm, start, lastEoi, fuel).Returned? <==> Attempt(sm, start, None, fuel).Returned?
    ensures Attempt(sm, start, lastEoi, fuel).Returned? ==>
      (Attempt(sm, start, lastEoi, fuel).value.Hit? <==> Attempt(sm, start, None, fuel).value.Hit?)
    ensures Attempt(sm, start, lastEoi, fuel).Returned? && Attempt(sm, start, lastEoi, fuel).value.Hit? ==>
      Attempt(sm, start, lastEoi, fuel) == Attempt(sm, start, None, fuel)
    ensures Attempt(sm, start, lastEoi, fuel).Returned? ==>
      Attempt(sm, start, lastEoi, fuel).value.reduced == Attempt(sm, start, None, fuel).value.reduced
    ensures Attempt(sm, start, lastEoi, fuel) == Crashed <==> Attempt(sm, start, None, fuel) == Crashed
  {
    var c := Config(start, Reset(Current(start).id, sm));
    RunSnapshotIndependent(sm, c, Snapshot(lastEoi, Initial), Snapshot(None, Initial), {}, OnLexeme, fuel);
  }

  datatype Found = Found(hit: bool, iter: Lexer, end: Option<Lexer>)

  /** The outer loop from start `iter`, with the `prod_set` contents and `last_eoi_` the
      earlier attempts left. After a miss the start moves on by one token; the loop ends
      when the start reaches end of input. */
  function SearchFrom(sm: Machine, iter: Lexer, prods: set<nat>, lastEoi: Option<Lexer>, fuel: nat)
    : (o: Outcome<(Found, set<nat>)>)
    ensures !o.Threw?
    decreases |iter.tokens| - iter.pos
  {
    if Current(iter).id == 0 then Returned((Found(false, iter, None), prods))
    else
      var t :- Attempt(sm, iter, lastEoi, fuel);
      match t
      case Hit(end, reduced) => Returned((Found(true, iter, Some(end)), reduced))
      case Missed(l, reduced) => SearchFrom(sm, Next(iter), reduced, l, fuel)
  }

  /** `search(iter, end, sm, prod_set)`: the hit flag, where `iter` was left (the start of
      the match) and `end` (`None` is the end iterator), with the final `prod_set`. */
  function SearchSet(sm: Machine, iter: Lexer, prods: set<nat>, fuel: nat): (o: Outcome<(Found, set<nat>)>)
    ensures !o.Threw?
    ensures Current(iter).id == 0 ==> o == Returned((Found(false, iter, None), prods))
  {
    SearchFrom(sm, iter, prods, None, fuel)
  }

  /** The search finds the FIRST start position from which an attempt matches: every start
      it passed over (none of them end of input) misses; on success the match starts at
      `iter` and ends at `end`; on failure the start reached end of input and `end` is the
      end iterator. */
  lemma SearchFindsFirstMatch(sm: Machine, iter: Lexer, prods: set<nat>, lastEoi: Option<Lexer>, fuel: nat)
    requires SearchFrom(sm, iter, prods, lastEoi, fuel).Returned?
    ensures
      var f := SearchFrom(sm, iter, prods, lastEoi, fuel).value.0;
      AdvancedWithinInput(iter, f.iter) &&
      (forall p :: iter.pos <= p < f.iter.pos ==> MissesAt(sm, iter.(pos := p), fuel)) &&
      (f.hit ==> f.end.Some? && HitsAt(sm, f.iter, f.end.value, fuel)) &&
      (!f.hit ==> Current(f.iter).id == 0 && f.end == None)
  {
    SearchAdvances(sm, iter, prods, lastEoi, fuel);
    SearchStopsAtMatch(sm, iter, prods, lastEoi, fuel);
    SearchSkipsMisses(sm, iter, prods, lastEoi, fuel);
  }

  /** The search moves its start only forwards, never over end of input. */
  lemma {:induction false} SearchAdvances(sm: Machine, iter: Lexer, prods: set<nat>, lastEoi: Option<Lexer>, fuel: nat)
    requires SearchFrom(sm, iter, prods, lastEoi, fuel).Returned?
    ensures AdvancedWithinInput(iter, SearchFrom(sm, iter, prods, lastEoi, fuel).value.0.iter)
    decreases |iter.tokens| - iter.pos
  {
    if Current(iter).id != 0 {
      var t := Attempt(sm, iter, lastEoi, fuel).value;
      if t.Missed? {
        var rest := Next(iter);
        assert SearchFrom(sm, iter, prods, lastEoi, fuel) == SearchFrom(sm, rest, t.reduced, t.lastEoi, fuel);
        SearchAdvances(sm, rest, t.reduced, t.lastEoi, fuel);
        assert AdvancedWithinInput(iter, rest);
        AdvancedWithinInputTransitive(iter, rest, SearchFrom(sm, rest, t.reduced, t.lastEoi, fuel).value.0.iter);
      }
    }
  }

  /** Where the search stops: at a start that matches, or at end of input. */
  lemma {:induction false} SearchStopsAtMatch(sm: Machine, iter: Lexer, prods: set<nat>, lastEoi: Option<Lexer>,
                                              fuel: nat)
    requires SearchFrom(sm, iter, prods, lastEoi, fuel).Returned?
    ensures
      var f := SearchFrom(sm, iter, prods, lastEoi, fuel).value.0;
      (f.hit ==> f.end.Some? && HitsAt(sm, f.iter, f.end.value, fuel)) &&
      (!f.hit ==> Current(f.iter).id == 0 && f.end == None)
    decreases |iter.tokens| - iter.pos
  {
    if Current(iter).id != 0 {
      AttemptIgnoresStaleSnapshot(sm, iter, lastEoi, fuel);
      var t := Attempt(sm, iter, lastEoi, fuel).value;
      if t.Missed? {
        var rest := Next(iter);
        assert SearchFrom(sm, iter, prods, lastEoi, fuel) == SearchFrom(sm, rest, t.reduced, t.lastEoi, fuel);
        SearchStopsAtMatch(sm, rest, t.reduced, t.lastEoi, fuel);
      }
    }
  }

  /** Every start the search passes over misses. */
  lemma {:induction false} SearchSkipsMisses(sm: Machine, iter: Lexer, prods: set<nat>, lastEoi: Option<Lexer>,
                                             fuel: nat)
    requires SearchFrom(sm, iter, prods, lastEoi, fuel).Returned?
    ensures
      var f := SearchFrom(sm, iter, prods, lastEoi, fuel).value.0;
      forall p :: iter.pos <= p < f.iter.pos ==> MissesAt(sm, iter.(pos := p), fuel)
    decreases |iter.tokens| - iter.pos
  {
    if Current(iter).id != 0 {
      AttemptIgnoresStaleSnapshot(sm, iter, lastEoi, fuel);
      var t := Attempt(sm, iter, lastEoi, fuel).value;
      if t.Missed? {
        var rest := Next(iter);
        assert SearchFrom(sm, iter, prods, lastEoi, fuel) == SearchFrom(sm, rest, t.reduced, t.lastEoi, fuel);
        SearchSkipsMisses(sm, rest, t.reduced, t.lastEoi, fuel);
        var f := SearchFrom(sm, rest, t.reduced, t.lastEoi, fuel).value.0;
        assert MissesAt(sm, iter, fuel);
        MissesExtend(sm, iter, f.iter, fuel);
      }
    }
  }

  /** Misses from the next token on, and a miss here, are misses from here on. */
  lemma MissesExtend(sm: Machine, iter: Lexer, last: Lexer, fuel: nat)
    requires MissesAt(sm, iter, fuel)
    requires forall p :: iter.pos + 1 <= p < last.pos ==> MissesAt(sm, Next(iter).(pos := p), fuel)
    ensures forall p :: iter.pos <= p < last.pos ==> MissesAt(sm, iter.(pos := p), fuel)
  {
    forall p | iter.pos <= p < last.pos
      ensures MissesAt(sm, iter.(pos := p), fuel)
    {
      if p == iter.pos {
        assert iter.(pos := p) == iter;
      } else {
        assert iter.(pos := p) == Next(iter).(pos := p);
      }
    }
  }

  /** A match lies within the input: it ends at or after its start, with no end-of-input
      token in between. */
  lemma MatchWithinInput(sm: Machine, start: Lexer, end: Lexer, fuel: nat)
    requires HitsAt(sm, start, end, fuel)
    ensures AdvancedWithinInput(start, end)
  {
    var c := Config(start, Reset(Current(start).id, sm));
    assert AdvancedWithinInput(start, c.lx);
    RunNeverPassesEoi(sm, c, Snapshot(None, Initial), {}, fuel);
    RunSnapshotWithinInput(sm, start, c, Snapshot(None, Initial), {}, fuel);
  }

  /** A direct accept is what `parse` from the same start would report: the attempt hits
      by accept exactly when `parse` accepts, at the same lexer position. */
  lemma AcceptIsParse(sm: Machine, start: Lexer, fuel: nat)
    requires Run(sm, Config(start, Reset(Current(start).id, sm)), Snapshot(None, Initial), {}, OnLexeme, fuel).Returned?
    ensures
      var c := Config(start, Reset(Current(start).id, sm));
      var a := Run(sm, c, Snapshot(None, Initial), {}, OnLexeme, fuel).value;
      var p := Parse.Parse(sm, c, fuel + 1);
      (a.c.r.entry.action == Accept && p.Returned? ==> p.value.0 && p.value.1.lx == a.c.lx) &&
      (a.c.r.entry.action == Error ==> p == Returned((false, a.c)))
  {
    RunIsParse(sm, Config(start, Reset(Current(start).id, sm)), Snapshot(None, Initial), {}, fuel);
  }
}

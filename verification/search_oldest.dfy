/** The oldest `search` (lib/parsertl/search.hpp). Its attempts run like the older
    generation's (a shift moves on when the lookahead id is non-zero; the EOI snapshot is
    carried between attempts), but instead of reporting the ids it reduced by, it takes a
    set of required rule ids and raises `hit` when any of them is reduced by. The search
    stops at the first start whose attempt accepts, and then reports `hit`, which an empty
    requirement makes true. */
module SearchOldest {
  import opened Wrappers
  import opened ParserStateMachine
  import opened TokenStream
  import opened MatchResults
  import opened Lookup
  import opened Parse
  import opened SearchRun
  import opened SearchOlder
  import Search

  /** The `hit_` update of a move: raised by a reduce by a required rule. */
  function HitBy(c: Config, required: set<nat>, hit: bool): (h: bool)
    ensures h <==> hit || (c.r.entry.action == Reduce && c.r.entry.param in required)
  {
    hit || (c.r.entry.action == Reduce && c.r.entry.param in required)
  }

  datatype Ran = Ran(c: Config, snap: Snapshot, hit: bool)

  /** The inner loop of an attempt. */
  function OldestRun(sm: Machine, c: Config, snap: Snapshot, required: set<nat>, hit: bool, fuel: nat): (o: Outcome<Ran>)
    ensures !o.Threw?
    ensures o.Returned? ==> o.value.c.r.entry.action in {Accept, Error}
    ensures o.Returned? && hit ==> o.value.hit
    decreases fuel
  {
    if c.r.entry.action in {Accept, Error} then Returned(Ran(c, snap, hit))
    else if fuel == 0 then OutOfFuel
    else
      match Move(sm, c, OnLookahead)
      case Undefined => Crashed
      case Defined(d) => OldestRun(sm, d, Record(sm, c, d, snap), required, HitBy(c, required, hit), fuel - 1)
  }

  datatype Reran = Reran(accepted: bool, c: Config, hit: bool)

  /** `details::parse` with the required set. */
  function OldestFinish(sm: Machine, c: Config, required: set<nat>, hit: bool, fuel: nat): (o: Outcome<Reran>)
    ensures !o.Threw?
    ensures o.Returned? && hit ==> o.value.hit
    decreases fuel
  {
    if c.r.entry.action == Error then Returned(Reran(false, c, hit))
    else if fuel == 0 then OutOfFuel
    else
      match Body(sm, c, OnLookahead)
      case Undefined => Crashed
      case Defined(d) =>
        var h := HitBy(c, required, hit);
        if d.r.entry.action == Accept then
          match PopAccepted(sm, d)
          case Undefined => Crashed
          case Defined(e) => Returned(Reran(true, e, h))
        else OldestFinish(sm, d, required, h, fuel - 1)
  }

  datatype OldestTried = Stopped(end: Lexer, hit: bool) | Passed(carried: Carried)

  /** One attempt: `hit_` starts false (it is reset after every failed attempt). */
  function OldestAttempt(sm: Machine, start: Lexer, k: Carried, required: set<nat>, fuel: nat): (o: Outcome<OldestTried>)
    ensures !o.Threw?
  {
    var c := Config(start, Reset(Current(start).id, sm));
    var a :- OldestRun(sm, c, Snapshot(k.lastEoi, k.lastResults), required, false, fuel);
    if a.c.r.entry.action == Accept then Returned(Stopped(a.c.lx, a.hit || required == {}))
    else if a.snap.at.Some? && Current(a.snap.at.value).id != 0 then
      var f :- OldestFinish(sm, Config(Search.EoiLexer, a.snap.results), required, a.hit, fuel);
      if f.accepted then Returned(Stopped(a.snap.at.value, f.hit || required == {}))
      else Returned(Passed(Carried(a.snap.at, f.c.r)))
    else Returned(Passed(Carried(a.snap.at, a.snap.results)))
  }

  function OldestSearchFrom(sm: Machine, iter: Lexer, required: set<nat>, k: Carried, fuel: nat)
    : (o: Outcome<Search.Found>)
    ensures !o.Threw?
    decreases |iter.tokens| - iter.pos
  {
    if Current(iter).id == 0 then Returned(Search.Found(false, iter, None))
    else
      var t :- OldestAttempt(sm, iter, k, required, fuel);
      match t
      case Stopped(end, hit) => Returned(Search.Found(hit, iter, Some(end)))
      case Passed(k1) => OldestSearchFrom(sm, Next(iter), required, k1, fuel)
  }

  /** `search(iter, end, sm, prod_set)`: the returned `hit_`, where `iter` was left and
      `end`. Unlike the later generations, `end` is set whenever an attempt accepts, even
      when no required rule was reduced by and the result is false. */
  function OldestSearch(sm: Machine, iter: Lexer, required: set<nat>, fuel: nat): (o: Outcome<Search.Found>)
    ensures !o.Threw?
    ensures Current(iter).id == 0 ==> o == Returned(Search.Found(false, iter, None))
  {
    OldestSearchFrom(sm, iter, required, Fresh, fuel)
  }

  /** `hit_` over an inner loop is exactly "the ids reduced by meet the required set". */
  lemma {:induction false} OldestRunIsRun(sm: Machine, c: Config, snap: Snapshot, required: set<nat>, reduced: set<nat>,
                                          fuel: nat)
    ensures
      var o := OldestRun(sm, c, snap, required, reduced * required != {}, fuel);
      var a := Run(sm, c, snap, reduced, OnLookahead, fuel);
      (o.Returned? <==> a.Returned?) && (o == Crashed <==> a == Crashed) &&
      (o.Returned? ==> o.value.c == a.value.c && o.value.snap == a.value.snap &&
                       (o.value.hit <==> a.value.reduced * required != {}))
    decreases fuel
  {
    if c.r.entry.action !in {Accept, Error} && fuel > 0 {
      match Move(sm, c, OnLookahead)
      case Undefined =>
      case Defined(d) =>
        var r1 := reduced + ReducedBy(c);
        assert HitBy(c, required, reduced * required != {}) == (r1 * required != {}) by {
          if c.r.entry.action == Reduce && c.r.entry.param in required {
            assert c.r.entry.param in r1 * required;
          }
        }
        OldestRunIsRun(sm, d, Record(sm, c, d, snap), required, r1, fuel - 1);
    }
  }

  lemma {:induction false} OldestFinishIsFinish(sm: Machine, c: Config, required: set<nat>, reduced: set<nat>, fuel: nat)
    ensures
      var o := OldestFinish(sm, c, required, reduced * required != {}, fuel);
      var f := Finish(sm, c, reduced, OnLookahead, fuel);
      (o.Returned? <==> f.Returned?) && (o == Crashed <==> f == Crashed) &&
      (o.Returned? ==> o.value.accepted == f.value.accepted && o.value.c == f.value.c &&
                       (o.value.hit <==> f.value.reduced * required != {}))
    decreases fuel
  {
    if c.r.entry.action != Error && fuel > 0 {
      match Body(sm, c, OnLookahead)
      case Undefined =>
      case Defined(d) =>
        var r1 := reduced + ReducedBy(c);
        assert HitBy(c, required, reduced * required != {}) == (r1 * required != {}) by {
          if c.r.entry.action == Reduce && c.r.entry.param in required {
            assert c.r.entry.param in r1 * required;
          }
        }
        if d.r.entry.action != Accept {
          OldestFinishIsFinish(sm, d, required, r1, fuel - 1);
        }
    }
  }

  /** An oldest attempt stops exactly where an older attempt hits, and its `hit_` says
      whether the older attempt's `prod_set` meets the required set (or that is empty). */
  lemma OldestAttemptIsOlderFiltered(sm: Machine, start: Lexer, k: Carried, required: set<nat>, fuel: nat)
    ensures OldestAttempt(sm, start, k, required, fuel).Returned? <==> OldAttempt(sm, start, k, fuel).Returned?
    ensures OldestAttempt(sm, start, k, required, fuel) == Crashed <==> OldAttempt(sm, start, k, fuel) == Crashed
    ensures OldestAttempt(sm, start, k, required, fuel).Returned? ==>
      var o := OldestAttempt(sm, start, k, required, fuel).value;
      var n := OldAttempt(sm, start, k, fuel).value;
      (o.Stopped? <==> n.OldHit?) &&
      (o.Stopped? ==> o.end == n.end && (o.hit <==> required == {} || n.reduced * required != {})) &&
      (o.Passed? ==> o.carried == n.carried)
  {
    var c := Config(start, Reset(Current(start).id, sm));
    var s := Snapshot(k.lastEoi, k.lastResults);
    assert {} * required == {};
    OldestRunIsRun(sm, c, s, required, {}, fuel);
    var a := Run(sm, c, s, {}, OnLookahead, fuel);
    if a.Returned? && a.value.c.r.entry.action != Accept && a.value.snap.at.Some? &&
       Current(a.value.snap.at.value).id != 0 {
      OldestFinishIsFinish(sm, Config(Search.EoiLexer, a.value.snap.results), required, a.value.reduced, fuel);
    }
  }

  /** The oldest search stops at the same start and end as the older `prod_set` search; its
      result is the older result filtered by the requirement. */
  lemma {:induction false} OldestIsOlderFiltered(sm: Machine, iter: Lexer, required: set<nat>, prods: set<nat>,
                                                 k: Carried, fuel: nat)
    ensures OldestSearchFrom(sm, iter, required, k, fuel).Returned? <==> OldSearchFrom(sm, iter, prods, k, fuel).Returned?
    ensures OldestSearchFrom(sm, iter, required, k, fuel).Returned? ==>
      var o := OldestSearchFrom(sm, iter, required, k, fuel).value;
      var (n, ids) := OldSearchFrom(sm, iter, prods, k, fuel).value;
      o.iter == n.iter && o.end == n.end &&
      (o.hit <==> n.hit && (required == {} || ids * required != {}))
    decreases |iter.tokens| - iter.pos
  {
    if Current(iter).id != 0 {
      OldestAttemptIsOlderFiltered(sm, iter, k, required, fuel);
      var t := OldAttempt(sm, iter, k, fuel);
      if t.Returned? && t.value.OldMissed? {
        OldestIsOlderFiltered(sm, Next(iter), required, t.value.reduced, t.value.carried, fuel);
      }
    }
  }

  // ---- the token-vector form ----

  datatype TokenRan = TokenRan(c: TokenConfig, snap: Snapshot, hit: bool)

  /** The inner loop keeping the caller's token vector, which is never cleared. */
  function OldestTokenRun(sm: Machine, c: TokenConfig, snap: Snapshot, required: set<nat>, hit: bool, fuel: nat)
    : (o: Outcome<TokenRan>)
    ensures !o.Threw?
    ensures o.Returned? ==> o.value.c.r.entry.action in {Accept, Error}
    decreases fuel
  {
    if c.r.entry.action in {Accept, Error} then Returned(TokenRan(c, snap, hit))
    else if fuel == 0 then OutOfFuel
    else
      match TokenStep(sm, c)
      case Undefined => Crashed
      case Defined(d) =>
        var cc := Config(c.lx, c.r);
        OldestTokenRun(sm, d, Record(sm, cc, Config(d.lx, d.r), snap), required, HitBy(cc, required, hit), fuel - 1)
  }

  /** One attempt of the token form; the re-parse leaves the token vector alone. */
  function OldestTokenAttempt(sm: Machine, start: Lexer, p: seq<Token>, k: Carried, required: set<nat>, fuel: nat)
    : (o: Outcome<(OldestTried, seq<Token>)>)
    ensures !o.Threw?
  {
    var c := TokenConfig(start, Reset(Current(start).id, sm), p);
    var a :- OldestTokenRun(sm, c, Snapshot(k.lastEoi, k.lastResults), required, false, fuel);
    if a.c.r.entry.action == Accept then Returned((Stopped(a.c.lx, a.hit || required == {}), a.c.productions))
    else if a.snap.at.Some? && Current(a.snap.at.value).id != 0 then
      var f :- OldestFinish(sm, Config(Search.EoiLexer, a.snap.results), required, a.hit, fuel);
      if f.accepted then Returned((Stopped(a.snap.at.value, f.hit || required == {}), a.c.productions))
      else Returned((Passed(Carried(a.snap.at, f.c.r)), a.c.productions))
    else Returned((Passed(Carried(a.snap.at, a.snap.results)), a.c.productions))
  }

  function OldestTokenSearchFrom(sm: Machine, iter: Lexer, p: seq<Token>, required: set<nat>, k: Carried, fuel: nat)
    : (o: Outcome<(Search.Found, seq<Token>)>)
    ensures !o.Threw?
    decreases |iter.tokens| - iter.pos
  {
    if Current(iter).id == 0 then Returned((Search.Found(false, iter, None), p))
    else
      var (t, p1) :- OldestTokenAttempt(sm, iter, p, k, required, fuel);
      match t
      case Stopped(end, hit) => Returned((Search.Found(hit, iter, Some(end)), p1))
      case Passed(k1) => OldestTokenSearchFrom(sm, Next(iter), p1, required, k1, fuel)
  }

  /** `search(iter, end, sm, prod_set, productions)`. */
  function OldestTokenSearch(sm: Machine, iter: Lexer, required: set<nat>, p: seq<Token>, fuel: nat)
    : (o: Outcome<(Search.Found, seq<Token>)>)
    ensures !o.Threw?
    ensures Current(iter).id == 0 ==> o == Returned((Search.Found(false, iter, None), p))
  {
    OldestTokenSearchFrom(sm, iter, p, required, Fresh, fuel)
  }

  /** The token vector never steers the inner loop. */
  lemma {:induction false} OldestTokenRunIsRun(sm: Machine, c: TokenConfig, snap: Snapshot, required: set<nat>, hit: bool,
                                               fuel: nat)
    requires OldestTokenRun(sm, c, snap, required, hit, fuel).Returned?
    ensures
      var t := OldestTokenRun(sm, c, snap, required, hit, fuel).value;
      OldestRun(sm, Config(c.lx, c.r), snap, required, hit, fuel) == Returned(Ran(Config(t.c.lx, t.c.r), t.snap, t.hit))
    decreases fuel
  {
    if c.r.entry.action !in {Accept, Error} {
      var d := TokenStep(sm, c).value;
      var cc := Config(c.lx, c.r);
      var dd := Config(d.lx, d.r);
      assert Move(sm, cc, OnLookahead) == Defined(dd) by {
        TokenStepAgreesWithStep(sm, c);
        MoveOnLookaheadIsLookup(sm, cc);
      }
      assert OldestTokenRun(sm, c, snap, required, hit, fuel) ==
             OldestTokenRun(sm, d, Record(sm, cc, dd, snap), required, HitBy(cc, required, hit), fuel - 1);
      OldestTokenRunIsRun(sm, d, Record(sm, cc, dd, snap), required, HitBy(cc, required, hit), fuel - 1);
    }
  }

  /** When the token form completes, the plain form completes with the same result. */
  lemma {:induction false} OldestTokenIsOldest(sm: Machine, iter: Lexer, p: seq<Token>, required: set<nat>, k: Carried,
                                               fuel: nat)
    requires OldestTokenSearchFrom(sm, iter, p, required, k, fuel).Returned?
    ensures OldestSearchFrom(sm, iter, required, k, fuel) == Returned(OldestTokenSearchFrom(sm, iter, p, required, k, fuel).value.0)
    decreases |iter.tokens| - iter.pos
  {
    if Current(iter).id != 0 {
      var c := TokenConfig(iter, Reset(Current(iter).id, sm), p);
      OldestTokenRunIsRun(sm, c, Snapshot(k.lastEoi, k.lastResults), required, false, fuel);
      var (t, p1) := OldestTokenAttempt(sm, iter, p, k, required, fuel).value;
      if t.Passed? {
        OldestTokenIsOldest(sm, Next(iter), p1, required, t.carried, fuel);
      }
    }
  }
}

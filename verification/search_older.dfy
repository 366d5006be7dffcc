/** The older `search` (lib/parsertl14/parsertl/search.hpp), in its `prod_set` and
    `prod_map` forms. It differs from the newest in three ways: a shift moves the lexer on
    when the lookahead symbol id (not the current lexeme) is non-zero; the EOI snapshot
    (`last_eoi_`, `last_results_`) is never cleared between attempts, and the re-parse from
    it works on `last_results_` in place; and the `prod_map` form keeps one token vector for
    the whole search, which the re-parse reads but never changes. */
module SearchOlder {
  import opened Wrappers
  import opened ParserStateMachine
  import opened TokenStream
  import opened MatchResults
  import opened Lookup
  import opened Parse
  import opened SearchRun
  import Search

  /** What one attempt leaves for the next: `last_eoi_` and `last_results_`. */
  datatype Carried = Carried(lastEoi: Option<Lexer>, lastResults: MatchResults)

  /** Both default-constructed, as at the start of the search. */
  const Fresh: Carried := Carried(None, Initial)

  datatype OldTried = OldHit(end: Lexer, reduced: set<nat>) | OldMissed(carried: Carried, reduced: set<nat>)

  /** The body of the outer loop for the start `start`: only `prod_set` is cleared. */
  function OldAttempt(sm: Machine, start: Lexer, k: Carried, fuel: nat): (o: Outcome<OldTried>)
    ensures !o.Threw?
  {
    var c := Config(start, Reset(Current(start).id, sm));
    var a :- Run(sm, c, Snapshot(k.lastEoi, k.lastResults), {}, OnLookahead, fuel);
    if a.c.r.entry.action == Accept then Returned(OldHit(a.c.lx, a.reduced))
    else if a.snap.at.Some? && Current(a.snap.at.value).id != 0 then
      var f :- Finish(sm, Config(Search.EoiLexer, a.snap.results), a.reduced, OnLookahead, fuel);
      if f.accepted then Returned(OldHit(a.snap.at.value, f.reduced))
      else Returned(OldMissed(Carried(a.snap.at, f.c.r), f.reduced))
    else Returned(OldMissed(Carried(a.snap.at, a.snap.results), a.reduced))
  }

  /** The outer loop: while the start is not at end of input, attempt, and on a miss move
      the start on by one token (`++iter_` is unconditional, but the loop test has already
      ruled out end of input). */
  function OldSearchFrom(sm: Machine, iter: Lexer, prods: set<nat>, k: Carried, fuel: nat)
    : (o: Outcome<(Search.Found, set<nat>)>)
    ensures !o.Threw?
    decreases |iter.tokens| - iter.pos
  {
    if Current(iter).id == 0 then Returned((Search.Found(false, iter, None), prods))
    else
      var t :- OldAttempt(sm, iter, k, fuel);
      match t
      case OldHit(end, reduced) => Returned((Search.Found(true, iter, Some(end)), reduced))
      case OldMissed(k1, reduced) => OldSearchFrom(sm, Next(iter), reduced, k1, fuel)
  }

  /** `search(iter, end, sm, prod_set)` of the older generation. */
  function OldSearchSet(sm: Machine, iter: Lexer, prods: set<nat>, fuel: nat): (o: Outcome<(Search.Found, set<nat>)>)
    ensures !o.Threw?
    ensures Current(iter).id == 0 ==> o == Returned((Search.Found(false, iter, None), prods))
  {
    OldSearchFrom(sm, iter, prods, Fresh, fuel)
  }

  // ---- agreement with the newest search ----

  /** The two advance rules can only disagree on a shift whose lookahead is not the current
      lexeme. */
  predicate Aligned(c: Config) {
    c.r.entry.action == Shift ==> c.r.tokenId == Current(c.lx).id
  }

  /** What a table the generator builds guarantees: the entry a reduce reads, in the column
      of the rule's lhs, is never a shift (non-terminal columns hold gotos). */
  ghost predicate GotoColumnsNeverShift(sm: Machine) {
    forall s: nat, k :: 0 <= k < |sm.rules| ==> At(sm, s, sm.rules[k].lhs).action != Shift
  }

  /** From an aligned configuration both advance rules make the same move, and it leads to
      an aligned configuration again. */
  lemma MoveKeepsAligned(sm: Machine, c: Config)
    requires GotoColumnsNeverShift(sm)
    requires Aligned(c)
    ensures Move(sm, c, OnLexeme) == Move(sm, c, OnLookahead)
    ensures Move(sm, c, OnLexeme).Defined? && c.r.entry.action != Accept ==> Aligned(Move(sm, c, OnLexeme).value)
  {
    if c.r.entry.action == Reduce && Step(sm, c).Defined? {
      var d := Step(sm, c).value;
      assert d.r.entry == At(sm, d.r.stack[|d.r.stack| - 1], sm.rules[c.r.entry.param].lhs);
    }
  }

  /** With such a table, an inner loop started in an aligned configuration runs the same
      under either advance rule. */
  lemma {:induction false} RunAdvanceAgrees(sm: Machine, c: Config, snap: Snapshot, reduced: set<nat>, fuel: nat)
    requires GotoColumnsNeverShift(sm)
    requires Aligned(c)
    ensures Run(sm, c, snap, reduced, OnLookahead, fuel) == Run(sm, c, snap, reduced, OnLexeme, fuel)
    decreases fuel
  {
    if c.r.entry.action !in {Accept, Error} && fuel > 0 {
      MoveKeepsAligned(sm, c);
      match Move(sm, c, OnLexeme)
      case Undefined =>
      case Defined(d) =>
        RunAdvanceAgrees(sm, d, Record(sm, c, d, snap), reduced + ReducedBy(c), fuel - 1);
    }
  }

  /** The same for `details::parse`. */
  lemma {:induction false} FinishAdvanceAgrees(sm: Machine, c: Config, reduced: set<nat>, fuel: nat)
    requires GotoColumnsNeverShift(sm)
    requires Aligned(c)
    ensures Finish(sm, c, reduced, OnLookahead, fuel) == Finish(sm, c, reduced, OnLexeme, fuel)
    decreases fuel
  {
    if c.r.entry.action != Error && fuel > 0 && c.r.entry.action != Accept {
      MoveKeepsAligned(sm, c);
      match Move(sm, c, OnLexeme)
      case Undefined =>
      case Defined(d) =>
        if d.r.entry.action != Accept {
          FinishAdvanceAgrees(sm, d, reduced + ReducedBy(c), fuel - 1);
        }
    }
  }

  /** A `details::parse` that does not accept leaves its results at an error entry. */
  lemma {:induction false} FinishFailsAtError(sm: Machine, c: Config, reduced: set<nat>, adv: Advance, fuel: nat)
    requires Finish(sm, c, reduced, adv, fuel).Returned?
    requires !Finish(sm, c, reduced, adv, fuel).value.accepted
    ensures Finish(sm, c, reduced, adv, fuel).value.c.r.entry.action == Error
    decreases fuel
  {
    if c.r.entry.action != Error {
      var d := Body(sm, c, adv).value;
      FinishFailsAtError(sm, d, reduced + ReducedBy(c), adv, fuel - 1);
    }
  }

  /** A snapshot whose results would shift has the end-of-input lookahead: true of every
      snapshot a run records, and of the default one. */
  predicate SnapAligned(s: Snapshot) {
    s.results.entry.action == Shift ==> s.results.tokenId == 0
  }

  lemma {:induction false} RunKeepsSnapAligned(sm: Machine, c: Config, snap: Snapshot, reduced: set<nat>, adv: Advance,
                                               fuel: nat)
    requires SnapAligned(snap)
    ensures Run(sm, c, snap, reduced, adv, fuel).Returned? ==> SnapAligned(Run(sm, c, snap, reduced, adv, fuel).value.snap)
    decreases fuel
  {
    if c.r.entry.action !in {Accept, Error} && fuel > 0 {
      match Move(sm, c, adv)
      case Undefined =>
      case Defined(d) =>
        RunKeepsSnapAligned(sm, d, Record(sm, c, d, snap), reduced + ReducedBy(c), adv, fuel - 1);
    }
  }

  /** A carried snapshot cannot make a later attempt match: either `last_eoi_` is at end of
      input (no re-parse is tried), or `last_results_` is where a failed re-parse left it. */
  predicate Harmless(k: Carried) {
    (k.lastEoi.Some? ==> Current(k.lastEoi.value).id == 0) || k.lastResults.entry.action == Error
  }

  /** An older attempt reports what the newest reports for the same start: the same hit or
      miss, the same end and the same `prod_set`, and what it carries on stays harmless. */
  lemma OldAttemptAgrees(sm: Machine, start: Lexer, k: Carried, l: Option<Lexer>, fuel: nat)
    requires GotoColumnsNeverShift(sm)
    requires Harmless(k)
    ensures OldAttempt(sm, start, k, fuel).Returned? <==> Search.Attempt(sm, start, l, fuel).Returned?
    ensures OldAttempt(sm, start, k, fuel) == Crashed <==> Search.Attempt(sm, start, l, fuel) == Crashed
    ensures OldAttempt(sm, start, k, fuel).Returned? ==>
      var o := OldAttempt(sm, start, k, fuel).value;
      var n := Search.Attempt(sm, start, l, fuel).value;
      (o.OldHit? <==> n.Hit?) && o.reduced == n.reduced &&
      (o.OldHit? ==> o.end == n.end) && (o.OldMissed? ==> Harmless(o.carried))
  {
    var c := Config(start, Reset(Current(start).id, sm));
    var s1 := Snapshot(k.lastEoi, k.lastResults);
    var s2 := Snapshot(None, Initial);
    RunAdvanceAgrees(sm, c, s1, {}, fuel);
    RunSnapshotIndependent(sm, c, s1, s2, {}, OnLexeme, fuel);
    RunKeepsSnapAligned(sm, c, s2, {}, OnLexeme, fuel);
    Search.AttemptIgnoresStaleSnapshot(sm, start, l, fuel);
    var r1 := Run(sm, c, s1, {}, OnLexeme, fuel);
    if r1.Returned? {
      var a := r1.value;
      if a.c.r.entry.action != Accept && a.snap.at.Some? && Current(a.snap.at.value).id != 0 {
        var e := Config(Search.EoiLexer, a.snap.results);
        FinishAdvanceAgrees(sm, e, a.reduced, fuel);
        var f := Finish(sm, e, a.reduced, OnLexeme, fuel);
        if f.Returned? && !f.value.accepted {
          FinishFailsAtError(sm, e, a.reduced, OnLexeme, fuel);
        }
      }
    }
  }

  /** With a table the generator builds, the older search finds exactly what the newest
      finds, whatever each carries in: same outcome, same start and end, same `prod_set`. */
  lemma {:induction false} OldSearchAgrees(sm: Machine, iter: Lexer, prods: set<nat>, k: Carried, l: Option<Lexer>,
                                           fuel: nat)
    requires GotoColumnsNeverShift(sm)
    requires Harmless(k)
    ensures OldSearchFrom(sm, iter, prods, k, fuel) == Search.SearchFrom(sm, iter, prods, l, fuel)
    decreases |iter.tokens| - iter.pos
  {
    if Current(iter).id != 0 {
      OldAttemptAgrees(sm, iter, k, l, fuel);
      var o := OldAttempt(sm, iter, k, fuel);
      var n := Search.Attempt(sm, iter, l, fuel);
      if o.Returned? && o.value.OldMissed? {
        OldSearchAgrees(sm, Next(iter), o.value.reduced, o.value.carried, n.value.lastEoi, fuel);
      }
    }
  }

  /** So the older search, too, stops at the first start from which an attempt matches,
      and never moves its start past end of input. */
  lemma OldSearchFindsFirstMatch(sm: Machine, iter: Lexer, prods: set<nat>, fuel: nat)
    requires GotoColumnsNeverShift(sm)
    requires OldSearchSet(sm, iter, prods, fuel).Returned?
    ensures
      var f := OldSearchSet(sm, iter, prods, fuel).value.0;
      AdvancedWithinInput(iter, f.iter) &&
      (forall p :: iter.pos <= p < f.iter.pos ==> Search.MissesAt(sm, iter.(pos := p), fuel)) &&
      (f.hit ==> f.end.Some? && Search.HitsAt(sm, f.iter, f.end.value, fuel)) &&
      (!f.hit ==> Current(f.iter).id == 0 && f.end == None)
  {
    OldSearchAgrees(sm, iter, prods, Fresh, None, fuel);
    Search.SearchFindsFirstMatch(sm, iter, prods, None, fuel);
  }

  // ---- the prod_map form ----

  /** The ids a sequence of recorded reductions is keyed by. */
  function Keys(m: seq<(nat, seq<Token>)>): (ks: set<nat>)
    ensures forall k :: 0 <= k < |m| ==> m[k].0 in ks
    ensures forall id :: id in ks ==> exists k :: 0 <= k < |m| && m[k].0 == id
  {
    if m == [] then {} else Keys(m[..|m| - 1]) + {m[|m| - 1].0}
  }

  lemma KeysAppend(m: seq<(nat, seq<Token>)>, x: (nat, seq<Token>))
    ensures Keys(m + [x]) == Keys(m) + {x.0}
  {
    assert (m + [x])[..|m|] == m;
  }

  lemma RecordedKeys(sm: Machine, c: Config, p: seq<Token>, m: seq<(nat, seq<Token>)>)
    requires c.r.entry.action == Reduce ==> c.r.entry.param < |sm.rules| && |sm.rules[c.r.entry.param].rhs| <= |p|
    ensures Keys(m + RecordedFrom(sm, c, p)) == Keys(m) + ReducedBy(c)
  {
    var rec := RecordedFrom(sm, c, p);
    if c.r.entry.action == Reduce {
      KeysAppend(m, rec[0]);
      assert rec == [rec[0]];
    } else {
      assert m + rec == m;
    }
  }

  /** What a move records: every reduce, whatever its rhs length, records its rule id and
      the last |rhs| tokens of the token vector `p`. */
  function RecordedFrom(sm: Machine, c: Config, p: seq<Token>): (m: seq<(nat, seq<Token>)>)
    requires c.r.entry.action == Reduce ==> c.r.entry.param < |sm.rules| && |sm.rules[c.r.entry.param].rhs| <= |p|
    ensures Keys(m) == ReducedBy(c)
    ensures c.r.entry.action == Reduce ==> m == [(c.r.entry.param, p[|p| - |sm.rules[c.r.entry.param].rhs|..])]
  {
    if c.r.entry.action != Reduce then [] else
      var m := [(c.r.entry.param, p[|p| - |sm.rules[c.r.entry.param].rhs|..])];
      assert m == [] + [m[0]];
      m
  }

  /** The first pass of an attempt in token mode: a move is the token-vector `lookup`. */
  function OldTokenRun(sm: Machine, c: TokenConfig, snap: Snapshot, m: seq<(nat, seq<Token>)>, fuel: nat)
    : (o: Outcome<(TokenConfig, Snapshot, seq<(nat, seq<Token>)>)>)
    ensures !o.Threw?
    ensures o.Returned? ==> o.value.0.r.entry.action in {Accept, Error} && m <= o.value.2
    decreases fuel
  {
    if c.r.entry.action in {Accept, Error} then Returned((c, snap, m))
    else if fuel == 0 then OutOfFuel
    else
      match TokenStep(sm, c)
      case Undefined => Crashed
      case Defined(d) =>
        var cc := Config(c.lx, c.r);
        TokenStepAgreesWithStep(sm, c);
        OldTokenRun(sm, d, Record(sm, cc, Config(d.lx, d.r), snap), m + RecordedFrom(sm, cc, c.productions), fuel - 1)
  }

  /** The re-parse in token mode: the token vector is read-only, so every reduce records
      the tail of the vector the first pass left; a rule longer than that vector reads
      before its start. */
  function OldTokenFinish(sm: Machine, c: Config, p: seq<Token>, m: seq<(nat, seq<Token>)>, fuel: nat)
    : (o: Outcome<(bool, Config, seq<(nat, seq<Token>)>)>)
    ensures !o.Threw?
    ensures o.Returned? ==> m <= o.value.2
    decreases fuel
  {
    if c.r.entry.action == Error then Returned((false, c, m))
    else if fuel == 0 then OutOfFuel
    else if c.r.entry.action == Reduce &&
            (c.r.entry.param >= |sm.rules| || |sm.rules[c.r.entry.param].rhs| > |p|) then Crashed
    else
      match Body(sm, c, OnLookahead)
      case Undefined => Crashed
      case Defined(d) =>
        var m1 := m + RecordedFrom(sm, c, p);
        if d.r.entry.action == Accept then
          match PopAccepted(sm, d)
          case Undefined => Crashed
          case Defined(e) => Returned((true, e, m1))
        else OldTokenFinish(sm, d, p, m1, fuel - 1)
  }

  datatype OldMapTried =
    | OldMapHit(end: Lexer, prodMap: seq<(nat, seq<Token>)>)
    | OldMapMissed(carried: Carried, prodMap: seq<(nat, seq<Token>)>, productions: seq<Token>)

  /** One attempt of the older `prod_map` search, with the token vector `p` the earlier
      attempts left. */
  function OldMapAttempt(sm: Machine, start: Lexer, p: seq<Token>, k: Carried, fuel: nat): (o: Outcome<OldMapTried>)
    ensures !o.Threw?
  {
    var c := TokenConfig(start, Reset(Current(start).id, sm), p);
    var (a, snap, m) :- OldTokenRun(sm, c, Snapshot(k.lastEoi, k.lastResults), [], fuel);
    if a.r.entry.action == Accept then Returned(OldMapHit(a.lx, m))
    else if snap.at.Some? && Current(snap.at.value).id != 0 then
      var (accepted, e, m1) :- OldTokenFinish(sm, Config(Search.EoiLexer, snap.results), a.productions, m, fuel);
      if accepted then Returned(OldMapHit(snap.at.value, m1))
      else Returned(OldMapMissed(Carried(snap.at, e.r), m1, a.productions))
    else Returned(OldMapMissed(Carried(snap.at, snap.results), m, a.productions))
  }

  function OldMapSearchFrom(sm: Machine, iter: Lexer, m: seq<(nat, seq<Token>)>, p: seq<Token>, k: Carried, fuel: nat)
    : (o: Outcome<(Search.Found, seq<(nat, seq<Token>)>)>)
    ensures !o.Threw?
    decreases |iter.tokens| - iter.pos
  {
    if Current(iter).id == 0 then Returned((Search.Found(false, iter, None), m))
    else
      var t :- OldMapAttempt(sm, iter, p, k, fuel);
      match t
      case OldMapHit(end, m1) => Returned((Search.Found(true, iter, Some(end)), m1))
      case OldMapMissed(k1, m1, p1) => OldMapSearchFrom(sm, Next(iter), m1, p1, k1, fuel)
  }

  /** `search(iter, end, sm, prod_map)` of the older generation: the token vector starts
      empty. */
  function OldSearchMap(sm: Machine, iter: Lexer, m: seq<(nat, seq<Token>)>, fuel: nat)
    : (o: Outcome<(Search.Found, seq<(nat, seq<Token>)>)>)
    ensures !o.Threw?
    ensures Current(iter).id == 0 ==> o == Returned((Search.Found(false, iter, None), m))
  {
    OldMapSearchFrom(sm, iter, m, [], Fresh, fuel)
  }

  /** The token vector never steers the first pass, and the ids it records are the ids the
      plain pass reduces by. */
  lemma {:induction false} OldTokenRunIsRun(sm: Machine, c: TokenConfig, snap: Snapshot, m: seq<(nat, seq<Token>)>,
                                            fuel: nat)
    requires OldTokenRun(sm, c, snap, m, fuel).Returned?
    ensures
      var t := OldTokenRun(sm, c, snap, m, fuel).value;
      var a := Run(sm, Config(c.lx, c.r), snap, Keys(m), OnLookahead, fuel);
      a.Returned? && a.value.c == Config(t.0.lx, t.0.r) && a.value.snap == t.1 && a.value.reduced == Keys(t.2)
    decreases fuel
  {
    if c.r.entry.action !in {Accept, Error} {
      var d := TokenStep(sm, c).value;
      var cc := Config(c.lx, c.r);
      var dd := Config(d.lx, d.r);
      assert Move(sm, cc, OnLookahead) == Defined(dd) by {
        TokenStepAgreesWithStep(sm, c);
        MoveOnLookaheadIsLookup(sm, cc);
      }
      var m1 := m + RecordedFrom(sm, cc, c.productions);
      assert Keys(m1) == Keys(m) + ReducedBy(cc) by {
        RecordedKeys(sm, cc, c.productions, m);
      }
      assert OldTokenRun(sm, c, snap, m, fuel) == OldTokenRun(sm, d, Record(sm, cc, dd, snap), m1, fuel - 1);
      assert Run(sm, cc, snap, Keys(m), OnLookahead, fuel) ==
             Run(sm, dd, Record(sm, cc, dd, snap), Keys(m1), OnLookahead, fuel - 1);
      OldTokenRunIsRun(sm, d, Record(sm, cc, dd, snap), m1, fuel - 1);
    }
  }

  /** The re-parse with the token vector stops where the plain re-parse stops, recording the
      ids it reduces by. */
  lemma {:induction false} OldTokenFinishIsFinish(sm: Machine, c: Config, p: seq<Token>, m: seq<(nat, seq<Token>)>,
                                                  fuel: nat)
    requires OldTokenFinish(sm, c, p, m, fuel).Returned?
    ensures
      var t := OldTokenFinish(sm, c, p, m, fuel).value;
      var f := Finish(sm, c, Keys(m), OnLookahead, fuel);
      f.Returned? && f.value == Finished(t.0, t.1, Keys(t.2))
    decreases fuel
  {
    if c.r.entry.action != Error {
      RecordedKeys(sm, c, p, m);
      var d := Body(sm, c, OnLookahead).value;
      if d.r.entry.action != Accept {
        OldTokenFinishIsFinish(sm, d, p, m + RecordedFrom(sm, c, p), fuel - 1);
      }
    }
  }

  /** When the older `prod_map` search completes, the `prod_set` search from the same start
      completes with the same result, and the ids the map is keyed by are the set's ids. */
  lemma {:induction false} OldMapIsOldSet(sm: Machine, iter: Lexer, m: seq<(nat, seq<Token>)>, p: seq<Token>, k: Carried,
                                          fuel: nat)
    requires OldMapSearchFrom(sm, iter, m, p, k, fuel).Returned?
    ensures OldSearchFrom(sm, iter, Keys(m), k, fuel).Returned?
    ensures OldSearchFrom(sm, iter, Keys(m), k, fuel).value.0 == OldMapSearchFrom(sm, iter, m, p, k, fuel).value.0
    ensures OldSearchFrom(sm, iter, Keys(m), k, fuel).value.1 == Keys(OldMapSearchFrom(sm, iter, m, p, k, fuel).value.1)
    decreases |iter.tokens| - iter.pos
  {
    if Current(iter).id != 0 {
      var c := TokenConfig(iter, Reset(Current(iter).id, sm), p);
      var s := Snapshot(k.lastEoi, k.lastResults);
      OldTokenRunIsRun(sm, c, s, [], fuel);
      var (a, snap, m0) := OldTokenRun(sm, c, s, [], fuel).value;
      if a.r.entry.action != Accept && snap.at.Some? && Current(snap.at.value).id != 0 {
        OldTokenFinishIsFinish(sm, Config(Search.EoiLexer, snap.results), a.productions, m0, fuel);
      }
      var t := OldMapAttempt(sm, iter, p, k, fuel).value;
      if t.OldMapMissed? {
        OldMapIsOldSet(sm, Next(iter), t.prodMap, t.productions, t.carried, fuel);
      }
    }
  }
}

/** The machinery the `search` variants of every parsertl generation share: one pass of the
    inner loop (`details::next`), the EOI snapshot it may take after a shift, and the
    re-parse from a snapshot (`details::parse`). The generations differ in the rule that
    decides whether a shift moves the lexer on: the newest tests the current lexeme, the
    older ones the lookahead symbol id. */
module SearchRun {
  import opened Wrappers
  import opened ParserStateMachine
  import opened TokenStream
  import opened MatchResults
  import opened Lookup
  import opened Parse

  /** Which id a shift tests before moving the lexer on. */
  datatype Advance = OnLexeme | OnLookahead

  predicate Advances(adv: Advance, c: Config) {
    match adv
    case OnLexeme => Current(c.lx).id != 0
    case OnLookahead => c.r.tokenId != 0
  }

  /** A shift: push the target state, move the lexer on when `advance`, and read the
      entry for the new lookahead in the target state. */
  function ShiftTo(sm: Machine, c: Config, advance: bool): (d: Config)
    ensures d.r.stack == c.r.stack + [c.r.entry.param]
    ensures d.lx == (if advance then Next(c.lx) else c.lx)
    ensures d.r.tokenId == Current(d.lx).id
    ensures d.r.entry == LookaheadEntry(sm, c.r.entry.param, d.r.tokenId)
  {
    var lx := if advance then Next(c.lx) else c.lx;
    var id := Current(lx).id;
    Config(lx, MatchResults(c.r.stack + [c.r.entry.param], id, LookaheadEntry(sm, c.r.entry.param, id)))
  }

  /** One `details::next` move: a shift by the generation's rule, any other action as in
      `lookup`. */
  function Move(sm: Machine, c: Config, adv: Advance): (o: Behaviour<Config>)
    ensures c.r.entry.action == Shift ==> o == Defined(ShiftTo(sm, c, Advances(adv, c)))
    ensures c.r.entry.action != Shift ==> o == Step(sm, c)
  {
    if c.r.entry.action == Shift then Defined(ShiftTo(sm, c, Advances(adv, c))) else Step(sm, c)
  }

  /** With the newest rule, a move is the `parse` loop body. */
  lemma MoveOnLexemeIsLoopBody(sm: Machine, c: Config)
    requires c.r.entry.action != Accept
    ensures Move(sm, c, OnLexeme) == LoopBody(sm, c)
  {
  }

  /** With the older rule, a move is exactly one `lookup`. */
  lemma MoveOnLookaheadIsLookup(sm: Machine, c: Config)
    ensures Move(sm, c, OnLookahead) == Step(sm, c)
  {
  }

  /** The ids a move reduces by (what `prod_set` receives). */
  function ReducedBy(c: Config): set<nat> {
    if c.r.entry.action == Reduce then {c.r.entry.param} else {}
  }

  /** What the search remembers of the last shift that landed in a state able to act on
      end of input: where the lexer then stood, and the parser state as if the input
      ended there. `at == None` is a default-constructed lexer iterator. */
  datatype Snapshot = Snapshot(at: Option<Lexer>, results: MatchResults)

  /** The entry of state `s` for end of input (`sm.at(s)`, column 0). */
  function EoiEntry(sm: Machine, s: nat): Entry {
    At(sm, s, 0)
  }

  /** The snapshot after moving from `c` to `d`: replaced only by a shift into a state
      whose end-of-input entry is not an error. */
  function Record(sm: Machine, c: Config, d: Config, snap: Snapshot): (s: Snapshot)
    ensures c.r.entry.action == Shift && EoiEntry(sm, c.r.entry.param).action != Error ==>
      s.at == Some(d.lx) && s.results.stack == d.r.stack && s.results.tokenId == 0 &&
      s.results.entry == EoiEntry(sm, c.r.entry.param)
    ensures !(c.r.entry.action == Shift && EoiEntry(sm, c.r.entry.param).action != Error) ==> s == snap
  {
    if c.r.entry.action == Shift && EoiEntry(sm, c.r.entry.param).action != Error then
      Snapshot(Some(d.lx), MatchResults(d.r.stack, 0, EoiEntry(sm, c.r.entry.param)))
    else snap
  }

  datatype Attempted = Attempted(c: Config, snap: Snapshot, reduced: set<nat>)

  /** The inner loop of a search attempt: `next` until the entry is accept or error. */
  function Run(sm: Machine, c: Config, snap: Snapshot, reduced: set<nat>, adv: Advance, fuel: nat)
    : (o: Outcome<Attempted>)
    ensures !o.Threw?
    ensures o.Returned? ==> o.value.c.r.entry.action in {Accept, Error}
    ensures o.Returned? ==> reduced <= o.value.reduced
    ensures c.r.entry.action in {Accept, Error} ==> o == Returned(Attempted(c, snap, reduced))
    decreases fuel
  {
    if c.r.entry.action in {Accept, Error} then Returned(Attempted(c, snap, reduced))
    else if fuel == 0 then OutOfFuel
    else
      match Move(sm, c, adv)
      case Undefined => Crashed
      case Defined(d) => Run(sm, d, Record(sm, c, d, snap), reduced + ReducedBy(c), adv, fuel - 1)
  }

  /** One pass of the `details::parse` loop body: accept is left to the test after it. */
  function Body(sm: Machine, c: Config, adv: Advance): (o: Behaviour<Config>)
    ensures c.r.entry.action == Accept ==> o == Defined(c)
    ensures c.r.entry.action != Accept ==> o == Move(sm, c, adv)
  {
    if c.r.entry.action == Accept then Defined(c) else Move(sm, c, adv)
  }

  datatype Finished = Finished(accepted: bool, c: Config, reduced: set<nat>)

  /** `details::parse` with a `prod_set`: run to error, or to accept and pop its rhs. */
  function Finish(sm: Machine, c: Config, reduced: set<nat>, adv: Advance, fuel: nat): (o: Outcome<Finished>)
    ensures !o.Threw?
    ensures o.Returned? ==> reduced <= o.value.reduced
    ensures c.r.entry.action == Error ==> o == Returned(Finished(false, c, reduced))
    decreases fuel
  {
    if c.r.entry.action == Error then Returned(Finished(false, c, reduced))
    else if fuel == 0 then OutOfFuel
    else
      match Body(sm, c, adv)
      case Undefined => Crashed
      case Defined(d) =>
        var seen := reduced + ReducedBy(c);
        if d.r.entry.action == Accept then
          match PopAccepted(sm, d)
          case Undefined => Crashed
          case Defined(e) => Returned(Finished(true, e, seen))
        else Finish(sm, d, seen, adv, fuel - 1)
  }

  /** `details::parse` with the newest rule is `parse` that also collects the ids it
      reduced by. */
  lemma {:induction false} FinishIsParse(sm: Machine, c: Config, reduced: set<nat>, fuel: nat)
    ensures Finish(sm, c, reduced, OnLexeme, fuel).Returned? <==> Parse.Parse(sm, c, fuel).Returned?
    ensures Finish(sm, c, reduced, OnLexeme, fuel).Returned? ==>
      var f := Finish(sm, c, reduced, OnLexeme, fuel).value;
      Parse.Parse(sm, c, fuel).value == (f.accepted, f.c)
    decreases fuel
  {
    if c.r.entry.action != Error && fuel > 0 {
      if c.r.entry.action != Accept {
        MoveOnLexemeIsLoopBody(sm, c);
      }
      match Body(sm, c, OnLexeme)
      case Undefined =>
      case Defined(d) =>
        if d.r.entry.action != Accept {
          FinishIsParse(sm, d, reduced + ReducedBy(c), fuel - 1);
        }
    }
  }

  /** A search attempt's inner loop followed by the pop `parse` does on accept is `parse`
      itself: the attempt accepts exactly when `parse` would, at the same lexer position. */
  lemma {:induction false} RunIsParse(sm: Machine, c: Config, snap: Snapshot, reduced: set<nat>, fuel: nat)
    requires Run(sm, c, snap, reduced, OnLexeme, fuel).Returned?
    ensures
      var a := Run(sm, c, snap, reduced, OnLexeme, fuel).value.c;
      Parse.Parse(sm, c, fuel + 1) ==
        if a.r.entry.action == Error then Returned((false, a))
        else match PopAccepted(sm, a)
             case Undefined => Crashed
             case Defined(e) => Returned((true, e))
    decreases fuel
  {
    if c.r.entry.action == Accept {
      assert LoopBody(sm, c) == Defined(c);
    } else if c.r.entry.action != Error {
      MoveOnLexemeIsLoopBody(sm, c);
      var d := Move(sm, c, OnLexeme).value;
      RunIsParse(sm, d, Record(sm, c, d, snap), reduced + ReducedBy(c), fuel - 1);
      if d.r.entry.action == Accept {
        assert Run(sm, d, Record(sm, c, d, snap), reduced + ReducedBy(c), OnLexeme, fuel - 1).value.c == d;
      }
    }
  }

  /** With the newest rule, a run never moves its lexer over an end-of-input token. */
  lemma {:induction false} RunNeverPassesEoi(sm: Machine, c: Config, snap: Snapshot, reduced: set<nat>, fuel: nat)
    ensures Run(sm, c, snap, reduced, OnLexeme, fuel).Returned? ==>
      AdvancedWithinInput(c.lx, Run(sm, c, snap, reduced, OnLexeme, fuel).value.c.lx)
    decreases fuel
  {
    if c.r.entry.action !in {Accept, Error} && fuel > 0 {
      MoveOnLexemeIsLoopBody(sm, c);
      match Move(sm, c, OnLexeme)
      case Undefined =>
      case Defined(d) =>
        var o := Run(sm, d, Record(sm, c, d, snap), reduced + ReducedBy(c), OnLexeme, fuel - 1);
        RunNeverPassesEoi(sm, d, Record(sm, c, d, snap), reduced + ReducedBy(c), fuel - 1);
        if o.Returned? {
          AdvancedWithinInputTransitive(c.lx, d.lx, o.value.c.lx);
        }
    }
  }

  /** With the newest rule, a snapshot taken during a run lies between where the run
      started (`origin`) and where it stopped. */
  lemma {:induction false} RunSnapshotWithinInput(sm: Machine, origin: Lexer, c: Config, snap: Snapshot,
                                                  reduced: set<nat>, fuel: nat)
    requires AdvancedWithinInput(origin, c.lx)
    requires snap.at.Some? ==> AdvancedWithinInput(origin, snap.at.value) && AdvancedWithinInput(snap.at.value, c.lx)
    ensures Run(sm, c, snap, reduced, OnLexeme, fuel).Returned? ==>
      var a := Run(sm, c, snap, reduced, OnLexeme, fuel).value;
      a.snap.at.Some? ==> AdvancedWithinInput(origin, a.snap.at.value) && AdvancedWithinInput(a.snap.at.value, a.c.lx)
    decreases fuel
  {
    if c.r.entry.action !in {Accept, Error} && fuel > 0 {
      MoveOnLexemeIsLoopBody(sm, c);
      match Move(sm, c, OnLexeme)
      case Undefined =>
      case Defined(d) =>
        AdvancedWithinInputTransitive(origin, c.lx, d.lx);
        var s := Record(sm, c, d, snap);
        if s.at.Some? && s.at.value != d.lx {
          assert s == snap;
          AdvancedWithinInputTransitive(snap.at.value, c.lx, d.lx);
        }
        RunSnapshotWithinInput(sm, origin, d, s, reduced + ReducedBy(c), fuel - 1);
    }
  }

  /** The snapshot a run starts with matters only if the run takes none of its own: both
      runs stop in the same place having reduced by the same rules, and either each still
      holds the snapshot it started with or both hold the same new one. */
  lemma {:induction false} RunSnapshotIndependent(sm: Machine, c: Config, s1: Snapshot, s2: Snapshot,
                                                  reduced: set<nat>, adv: Advance, fuel: nat)
    ensures Run(sm, c, s1, reduced, adv, fuel).Returned? <==> Run(sm, c, s2, reduced, adv, fuel).Returned?
    ensures Run(sm, c, s1, reduced, adv, fuel).Returned? ==>
      var a1 := Run(sm, c, s1, reduced, adv, fuel).value;
      var a2 := Run(sm, c, s2, reduced, adv, fuel).value;
      a1.c == a2.c && a1.reduced == a2.reduced &&
      ((a1.snap == s1 && a2.snap == s2) || (a1.snap == a2.snap && a1.snap.at.Some?))
    ensures Run(sm, c, s1, reduced, adv, fuel) == Crashed <==> Run(sm, c, s2, reduced, adv, fuel) == Crashed
    decreases fuel
  {
    if c.r.entry.action !in {Accept, Error} && fuel > 0 {
      match Move(sm, c, adv)
      case Undefined =>
      case Defined(d) =>
        RunSnapshotIndependent(sm, d, Record(sm, c, d, s1), Record(sm, c, d, s2), reduced + ReducedBy(c), adv, fuel - 1);
    }
  }
}

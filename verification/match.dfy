/** `match`: parse the whole input from its first lexeme. The plain form is `parse`; the
    `captures` form runs `lookup` with the token vector until error or accept and, at every
    reduce by a rule with capture pairs, appends to each pair's slot the span from the
    pair's first rhs token to its second. The newest form (include/parsertl/match.hpp)
    seeds `captures[0]` with the first lexeme's span; the older form
    (lib/parsertl14/parsertl/match.hpp) with the whole input range. */
module Match {
  import opened Wrappers
  import opened ParserStateMachine
  import opened TokenStream
  import opened MatchResults
  import opened Lookup
  import opened Parse
  import opened SearchRun
  import opened Capture
  import opened SearchMap
  import opened SearchOlder

  /** The configuration `match` starts from. */
  function Start(sm: Machine, lx: Lexer): (c: Config)
    ensures c.lx == lx && c.r.stack == [0] && c.r.tokenId == Current(lx).id
  {
    Config(lx, Reset(Current(lx).id, sm))
  }

  /** The plain `match`: whether `parse` from the first lexeme accepts. */
  function MatchPlain(sm: Machine, lx: Lexer, fuel: nat): (o: Outcome<bool>)
    ensures o.Returned? <==> Parse.Parse(sm, Start(sm, lx), fuel).Returned?
    ensures o.Returned? ==> (o.value <==> Parse.Parse(sm, Start(sm, lx), fuel).value.1.r.entry.action == Accept)
  {
    ParseStopsAtErrorOrAccept(sm, Start(sm, lx), fuel);
    var p :- Parse.Parse(sm, Start(sm, lx), fuel);
    Returned(p.0)
  }

  /** The spans of the capture pairs `pairs[i..]` of a row starting at slot `first + 1`,
      each read with `dollar` from the token vector while reducing. */
  function DollarSpans(sm: Machine, c: TokenConfig, caps: seq<seq<Capture>>, row: CaptureRow, i: nat)
    : (o: Behaviour<seq<seq<Capture>>>)
    requires c.r.entry.action == Reduce
    ensures o.Defined? ==> |o.value| == |caps| && (|caps| > 0 ==> o.value[0] == caps[0])
    decreases |row.pairs| - i
  {
    if i >= |row.pairs| then Defined(caps)
    else
      var (a, b) := row.pairs[i];
      var slot := row.first + i + 1;
      match (Dollar(c.r, sm, a, c.productions), Dollar(c.r, sm, b, c.productions))
      case (Defined(Success(t1)), Defined(Success(t2))) =>
        if slot >= |caps| then Undefined
        else DollarSpans(sm, c, caps[slot := caps[slot] + [Capture(t1.first, t2.second)]], row, i + 1)
      case _ => Undefined
  }

  /** Reading the pairs with `dollar` gives the spans the `search` capture loop builds from
      the rule's rhs tokens: both read the same tokens off the top of the token vector. */
  lemma {:induction false} DollarSpansAreRhsSpans(sm: Machine, c: TokenConfig, caps: seq<seq<Capture>>, row: CaptureRow,
                                                  i: nat)
    requires c.r.entry.action == Reduce && c.r.entry.param < |sm.rules|
    requires |sm.rules[c.r.entry.param].rhs| <= |c.productions|
    ensures DollarSpans(sm, c, caps, row, i) ==
      AddSpans(caps, row, c.productions[|c.productions| - |sm.rules[c.r.entry.param].rhs|..], i)
    decreases |row.pairs| - i
  {
    var n := |sm.rules[c.r.entry.param].rhs|;
    var below := c.productions[..|c.productions| - n];
    var toks := c.productions[|c.productions| - n..];
    assert c.productions == below + toks;
    if i < |row.pairs| {
      var (a, b) := row.pairs[i];
      if a < n {
        DollarReadsRhs(c.r, sm, below, toks, a);
      }
      if b < n {
        DollarReadsRhs(c.r, sm, below, toks, b);
      }
      var slot := row.first + i + 1;
      if a < |toks| && b < |toks| && slot < |caps| {
        DollarSpansAreRhsSpans(sm, c, caps[slot := caps[slot] + [Capture(toks[a].first, toks[b].second)]], row, i + 1);
      }
    }
  }

  /** What a reduce adds to the captures. As written, `sm._captures[param]` is read without
      a bound check; the corrected form, like `search`, skips a rule without a row. */
  function ReduceSpans(sm: Machine, c: TokenConfig, caps: seq<seq<Capture>>, guarded: bool)
    : (o: Behaviour<seq<seq<Capture>>>)
    requires c.r.entry.action == Reduce
    ensures o.Defined? ==> |o.value| == |caps| && (|caps| > 0 ==> o.value[0] == caps[0])
    ensures guarded && c.r.entry.param >= |sm.captures| ==> o == Defined(caps)
    ensures !guarded && c.r.entry.param >= |sm.captures| ==> o == Undefined
  {
    if c.r.entry.param >= |sm.captures| then (if guarded then Defined(caps) else Undefined)
    else DollarSpans(sm, c, caps, sm.captures[c.r.entry.param], 0)
  }

  /** The `match` loop with captures: at a reduce record the spans, then `lookup`; stop at
      error or accept. */
  function CaptureLoop(sm: Machine, c: TokenConfig, caps: seq<seq<Capture>>, guarded: bool, fuel: nat)
    : (o: Outcome<(TokenConfig, seq<seq<Capture>>)>)
    ensures !o.Threw?
    ensures o.Returned? ==> o.value.0.r.entry.action in {Error, Accept}
    ensures o.Returned? ==> |o.value.1| == |caps| && (|caps| > 0 ==> o.value.1[0] == caps[0])
    decreases fuel
  {
    if c.r.entry.action in {Error, Accept} then Returned((c, caps))
    else if fuel == 0 then OutOfFuel
    else
      var caps1 := if c.r.entry.action == Reduce then ReduceSpans(sm, c, caps, guarded) else Defined(caps);
      match caps1
      case Undefined => Crashed
      case Defined(caps2) =>
        match TokenStep(sm, c)
        case Undefined => Crashed
        case Defined(d) => CaptureLoop(sm, d, caps2, guarded, fuel - 1)
  }

  /** The number of capture slots `match` sizes the captures to. As written it reads
      `sm._captures.back()`, undefined when the grammar has no captures; the corrected form
      counts no slots then, as `search` does. */
  function SlotTotal(sm: Machine, guarded: bool): (n: Behaviour<nat>)
    ensures n.Defined? <==> guarded || |sm.captures| > 0
    ensures n.Defined? ==> n.value == SlotCount(sm.captures) + 1
  {
    if |sm.captures| == 0 && !guarded then Undefined else Defined(SlotCount(sm.captures) + 1)
  }

  datatype Matched = Matched(accepted: bool, captures: seq<seq<Capture>>)

  /** The `captures` form of `match` with `captures[0]` seeded with `seed`. */
  function MatchWith(sm: Machine, lx: Lexer, seed: Capture, guarded: bool, fuel: nat): (o: Outcome<Matched>)
    ensures !o.Threw?
    ensures o.Returned? ==> |o.value.captures| == SlotCount(sm.captures) + 1 && o.value.captures[0] == [seed]
  {
    match SlotTotal(sm, guarded)
    case Undefined => Crashed
    case Defined(n) =>
      var caps := [[seed]] + seq(n - 1, _ => []);
      var (d, caps1) :- CaptureLoop(sm, TokenConfig(lx, Reset(Current(lx).id, sm), []), caps, guarded, fuel);
      Returned(Matched(d.r.entry.action == Accept, caps1))
  }

  /** The newest `match(iter, sm, captures)` as written. */
  function MatchCapturesAsWritten(sm: Machine, lx: Lexer, fuel: nat): (o: Outcome<Matched>)
    ensures !o.Threw?
  {
    MatchWith(sm, lx, Capture(Current(lx).first, Current(lx).second), false, fuel)
  }

  /** The newest `match(iter, sm, captures)`, corrected: `captures[0]` holds the first
      lexeme's span and there is one more slot than the grammar's capture pairs. */
  function MatchCaptures(sm: Machine, lx: Lexer, fuel: nat): (o: Outcome<Matched>)
    ensures !o.Threw?
    ensures o.Returned? ==> |o.value.captures| == SlotCount(sm.captures) + 1 &&
                            o.value.captures[0] == [Capture(Current(lx).first, Current(lx).second)]
  {
    MatchWith(sm, lx, Capture(Current(lx).first, Current(lx).second), true, fuel)
  }

  /** The older `match(begin, end, captures, lsm, gsm)` (corrected the same way): the
      lexer runs over [begin, end) and `captures[0]` holds that whole range. */
  function MatchCapturesOld(sm: Machine, lx: Lexer, begin: nat, end: nat, fuel: nat): (o: Outcome<Matched>)
    ensures !o.Threw?
    ensures o.Returned? ==> |o.value.captures| == SlotCount(sm.captures) + 1 && o.value.captures[0] == [Capture(begin, end)]
  {
    MatchWith(sm, lx, Capture(begin, end), true, fuel)
  }

  /** The older `match` with captures as written: it reads `gsm._captures.back()` too. */
  function MatchCapturesOldAsWritten(sm: Machine, lx: Lexer, begin: nat, end: nat, fuel: nat): (o: Outcome<Matched>)
    ensures sm.captures == [] ==> o == Crashed
  {
    MatchWith(sm, lx, Capture(begin, end), false, fuel)
  }

  /** The older code as written differs from the corrected form only where it is
      undefined. */
  lemma OldAsWrittenAgreesWhenDefined(sm: Machine, lx: Lexer, begin: nat, end: nat, fuel: nat)
    ensures MatchCapturesOldAsWritten(sm, lx, begin, end, fuel).Returned? ==>
      MatchCapturesOldAsWritten(sm, lx, begin, end, fuel) == MatchCapturesOld(sm, lx, begin, end, fuel)
  {
    LoopGuardIrrelevant(sm, TokenConfig(lx, Reset(Current(lx).id, sm), []),
                        [[Capture(begin, end)]] + seq(SlotCount(sm.captures), _ => []), fuel);
  }

  /** As written, `match` with captures is undefined for every grammar without capture
      pairs, whatever the input: it reads the last capture row of an empty vector. */
  lemma NoCaptureRowsCrashes(sm: Machine, lx: Lexer, fuel: nat)
    requires sm.captures == []
    ensures MatchCapturesAsWritten(sm, lx, fuel) == Crashed
  {
  }

  /** Whenever the code as written returns, the corrected form returns the same: the two
      differ only where the code as written is undefined. */
  lemma AsWrittenAgreesWhenDefined(sm: Machine, lx: Lexer, fuel: nat)
    ensures MatchCapturesAsWritten(sm, lx, fuel).Returned? ==>
      MatchCapturesAsWritten(sm, lx, fuel) == MatchCaptures(sm, lx, fuel)
  {
    var c := TokenConfig(lx, Reset(Current(lx).id, sm), []);
    var caps := [[Capture(Current(lx).first, Current(lx).second)]] + seq(SlotCount(sm.captures), _ => []);
    LoopGuardIrrelevant(sm, c, caps, fuel);
  }

  /** The row guard only matters where the unguarded loop is undefined. */
  lemma {:induction false} LoopGuardIrrelevant(sm: Machine, c: TokenConfig, caps: seq<seq<Capture>>, fuel: nat)
    ensures CaptureLoop(sm, c, caps, false, fuel).Returned? ==>
      CaptureLoop(sm, c, caps, false, fuel) == CaptureLoop(sm, c, caps, true, fuel)
    decreases fuel
  {
    if c.r.entry.action !in {Error, Accept} && fuel > 0 {
      var caps1 := if c.r.entry.action == Reduce then ReduceSpans(sm, c, caps, false) else Defined(caps);
      if caps1.Defined? && TokenStep(sm, c).Defined? {
        LoopGuardIrrelevant(sm, TokenStep(sm, c).value, caps1.value, fuel - 1);
      }
    }
  }

  /** The capture loop moves the parser exactly as the inner loop of a search does with
      the lookahead rule, i.e. as repeated `lookup`. */
  lemma {:induction false} CaptureLoopIsRun(sm: Machine, c: TokenConfig, caps: seq<seq<Capture>>, guarded: bool,
                                            snap: Snapshot, reduced: set<nat>, fuel: nat)
    requires CaptureLoop(sm, c, caps, guarded, fuel).Returned?
    ensures Run(sm, Config(c.lx, c.r), snap, reduced, OnLookahead, fuel).Returned?
    ensures var d := CaptureLoop(sm, c, caps, guarded, fuel).value.0;
      Run(sm, Config(c.lx, c.r), snap, reduced, OnLookahead, fuel).value.c == Config(d.lx, d.r)
    decreases fuel
  {
    if c.r.entry.action !in {Error, Accept} {
      var d := TokenStep(sm, c).value;
      TokenStepAgreesWithStep(sm, c);
      MoveOnLookaheadIsLookup(sm, Config(c.lx, c.r));
      var cc := Config(c.lx, c.r);
      var caps1 := if c.r.entry.action == Reduce then ReduceSpans(sm, c, caps, guarded) else Defined(caps);
      assert CaptureLoop(sm, c, caps, guarded, fuel) == CaptureLoop(sm, d, caps1.value, guarded, fuel - 1);
      CaptureLoopIsRun(sm, d, caps1.value, guarded, Record(sm, cc, Config(d.lx, d.r), snap), reduced + ReducedBy(cc), fuel - 1);
    }
  }

  /** With a table the generator builds, `match` with captures accepts exactly when `parse`
      from the same start does (whenever `parse`, given one more step, returns). */
  lemma MatchCapturesAgreesWithParse(sm: Machine, lx: Lexer, fuel: nat)
    requires GotoColumnsNeverShift(sm)
    requires MatchCaptures(sm, lx, fuel).Returned?
    ensures Parse.Parse(sm, Start(sm, lx), fuel + 1).Returned? ==>
      (Parse.Parse(sm, Start(sm, lx), fuel + 1).value.0 <==> MatchCaptures(sm, lx, fuel).value.accepted)
  {
    var c := TokenConfig(lx, Reset(Current(lx).id, sm), []);
    var caps := [[Capture(Current(lx).first, Current(lx).second)]] + seq(SlotCount(sm.captures), _ => []);
    var snap := Snapshot(None, Initial);
    CaptureLoopIsRun(sm, c, caps, true, snap, {}, fuel);
    RunAdvanceAgrees(sm, Start(sm, lx), snap, {}, fuel);
    RunIsParse(sm, Start(sm, lx), snap, {}, fuel);
  }
}

/** The newest `search` (include/parsertl/search.hpp) in its `prod_map` and `captures`
    forms. The first pass of an attempt keeps the token vector but records nothing; when
    the attempt matches, the input from the start up to the last end-of-input snapshot is
    lexed again and parsed from scratch, and that parse records, for every reduction by a
    rule with a non-empty rhs, the rule id and the tokens of its rhs. */
module SearchMap {
  import opened Wrappers
  import opened ParserStateMachine
  import opened TokenStream
  import opened MatchResults
  import opened Lookup
  import opened Parse
  import opened SearchRun
  import opened Capture
  import Search

  /** The token a reduce pushes for the rule's lhs: it spans the rhs tokens; for an empty
      rhs it is a zero-width token at the end of the previous token, or at the current
      lexeme when there is none. */
  function SpanOf(sm: Machine, c: TokenConfig): (t: Behaviour<Token>)
    requires c.r.entry.param < |sm.rules|
    ensures var rule := sm.rules[c.r.entry.param];
      var n := |rule.rhs|;
      var p := c.productions;
      (t.Defined? <==> n <= |p|) &&
      (t.Defined? && n > 0 ==> t.value == Token(rule.lhs, p[|p| - n].first, p[|p| - 1].second)) &&
      (t.Defined? && n == 0 && |p| > 0 ==> t.value == Token(rule.lhs, p[|p| - 1].second, p[|p| - 1].second)) &&
      (t.Defined? && n == 0 && |p| == 0 ==> t.value == Token(rule.lhs, Current(c.lx).first, Current(c.lx).first))
  {
    var rule := sm.rules[c.r.entry.param];
    var n := |rule.rhs|;
    var p := c.productions;
    if n > |p| then Undefined
    else if n > 0 then Defined(Token(rule.lhs, p[|p| - n].first, p[|p| - 1].second))
    else if |p| > 0 then Defined(Token(rule.lhs, p[|p| - 1].second, p[|p| - 1].second))
    else Defined(Token(rule.lhs, Current(c.lx).first, Current(c.lx).first))
  }

  /** One `details::next` (or `details::parse` body) move in token mode. */
  function TokenMove(sm: Machine, c: TokenConfig): (o: Behaviour<TokenConfig>)
    ensures o.Defined? ==> Move(sm, Config(c.lx, c.r), OnLexeme) == Defined(Config(o.value.lx, o.value.r))
    ensures o.Defined? && c.r.entry.action == Shift ==> o.value.productions == c.productions + [Current(c.lx)]
    ensures o.Defined? && c.r.entry.action == Reduce ==>
      var n := |sm.rules[c.r.entry.param].rhs|;
      n <= |c.productions| && o.value.productions == c.productions[..|c.productions| - n] + [SpanOf(sm, c).value]
    ensures o.Defined? && c.r.entry.action !in {Shift, Reduce} ==> o.value.productions == c.productions
    ensures Move(sm, Config(c.lx, c.r), OnLexeme).Defined? && c.r.entry.action != Reduce ==> o.Defined?
  {
    match Move(sm, Config(c.lx, c.r), OnLexeme)
    case Undefined => Undefined
    case Defined(d) =>
      if c.r.entry.action == Shift then Defined(TokenConfig(d.lx, d.r, c.productions + [Current(c.lx)]))
      else if c.r.entry.action == Reduce then
        match SpanOf(sm, c)
        case Undefined => Undefined
        case Defined(t) =>
          var n := |sm.rules[c.r.entry.param].rhs|;
          Defined(TokenConfig(d.lx, d.r, c.productions[..|c.productions| - n] + [t]))
      else Defined(TokenConfig(d.lx, d.r, c.productions))
  }

  /** `last_eoi_` after moving from `c` to `d` (the `prod_map` form keeps no results). */
  function RecordAt(sm: Machine, c: TokenConfig, d: TokenConfig, lastEoi: Option<Lexer>): Option<Lexer> {
    Record(sm, Config(c.lx, c.r), Config(d.lx, d.r), Snapshot(lastEoi, Initial)).at
  }

  /** The first pass of an attempt in token mode. */
  function TokenRun(sm: Machine, c: TokenConfig, lastEoi: Option<Lexer>, fuel: nat)
    : (o: Outcome<(TokenConfig, Option<Lexer>)>)
    ensures !o.Threw?
    ensures o.Returned? ==> o.value.0.r.entry.action in {Accept, Error}
    decreases fuel
  {
    if c.r.entry.action in {Accept, Error} then Returned((c, lastEoi))
    else if fuel == 0 then OutOfFuel
    else
      match TokenMove(sm, c)
      case Undefined => Crashed
      case Defined(d) => TokenRun(sm, d, RecordAt(sm, c, d, lastEoi), fuel - 1)
  }

  /** The token vector never steers the first pass: when it completes, the plain pass
      stops in the same state with the same snapshot position. */
  lemma {:induction false} TokenRunIsRun(sm: Machine, c: TokenConfig, snap: Snapshot, reduced: set<nat>, fuel: nat)
    requires TokenRun(sm, c, snap.at, fuel).Returned?
    ensures
      var t := TokenRun(sm, c, snap.at, fuel).value;
      var a := Run(sm, Config(c.lx, c.r), snap, reduced, OnLexeme, fuel);
      a.Returned? && a.value.c == Config(t.0.lx, t.0.r) && a.value.snap.at == t.1
    decreases fuel
  {
    if c.r.entry.action !in {Accept, Error} {
      var d := TokenMove(sm, c).value;
      var cc := Config(c.lx, c.r);
      var dd := Config(d.lx, d.r);
      TokenRunIsRun(sm, d, Record(sm, cc, dd, snap), reduced + ReducedBy(cc), fuel - 1);
    }
  }

  /** A recorded reduction: the rule id and the tokens of its rhs. */
  type Reduction = (nat, seq<Token>)

  /** Every recorded reduction holds exactly its rule's (non-empty) rhs. */
  ghost predicate WellRecorded(sm: Machine, m: seq<Reduction>) {
    forall k :: 0 <= k < |m| ==> m[k].0 < |sm.rules| && |m[k].1| == |sm.rules[m[k].0].rhs| > 0
  }

  /** What a move adds to the `prod_map`: a reduce by a rule with a non-empty rhs records
      that rule's rhs tokens. */
  function Recorded(sm: Machine, c: TokenConfig): (m: seq<Reduction>)
    requires c.r.entry.action == Reduce ==> c.r.entry.param < |sm.rules| && |sm.rules[c.r.entry.param].rhs| <= |c.productions|
    ensures WellRecorded(sm, m)
  {
    if c.r.entry.action != Reduce then []
    else
      var n := |sm.rules[c.r.entry.param].rhs|;
      if n == 0 then [] else [(c.r.entry.param, c.productions[|c.productions| - n..])]
  }

  datatype Reparsed = Reparsed(accepted: bool, c: TokenConfig, prodMap: seq<Reduction>)

  /** `details::parse` in token mode with a `prod_map`. */
  function TokenFinish(sm: Machine, c: TokenConfig, m: seq<Reduction>, fuel: nat): (o: Outcome<Reparsed>)
    requires WellRecorded(sm, m)
    ensures !o.Threw?
    ensures o.Returned? ==> WellRecorded(sm, o.value.prodMap) && m <= o.value.prodMap
    decreases fuel
  {
    if c.r.entry.action == Error then Returned(Reparsed(false, c, m))
    else if fuel == 0 then OutOfFuel
    else
      var body := if c.r.entry.action == Accept then Defined(c) else TokenMove(sm, c);
      match body
      case Undefined => Crashed
      case Defined(d) =>
        var m1 := m + Recorded(sm, c);
        assert WellRecorded(sm, m1) by {
          assert forall k :: |m| <= k < |m1| ==> m1[k] == Recorded(sm, c)[k - |m|];
        }
        if d.r.entry.action == Accept then
          match PopAccepted(sm, Config(d.lx, d.r))
          case Undefined => Crashed
          case Defined(e) => Returned(Reparsed(true, TokenConfig(e.lx, e.r, d.productions), m1))
        else TokenFinish(sm, d, m1, fuel - 1)
  }

  /** The tokens from position `a` up to (not including) `b`. */
  function Between(ts: seq<Token>, a: nat, b: nat): (r: seq<Token>)
    requires a <= b
  {
    var lo := if a < |ts| then a else |ts|;
    var hi := if b < |ts| then b else |ts|;
    ts[lo..hi]
  }

  /** `lexer_iterator again_(iter->first, last_eoi->first, ...)`: the input from the start of
      the attempt to the snapshot position lexed again, ending at the snapshot's lexeme. A
      snapshot before the start would ask the lexer to scan a reversed range. */
  function Again(start: Lexer, at: Lexer): (o: Behaviour<Lexer>)
    ensures o.Defined? <==> start.pos <= at.pos
    ensures o.Defined? ==> o.value.pos == 0 && o.value.eoi == Current(at).first &&
                           o.value.tokens == Between(start.tokens, start.pos, at.pos)
  {
    if start.pos <= at.pos then Defined(Lexer(Between(start.tokens, start.pos, at.pos), 0, Current(at).first))
    else Undefined
  }

  /** The re-parse from `start` over the input lexed again up to `at`. */
  function Reparse(sm: Machine, start: Lexer, at: Option<Lexer>, fuel: nat): (o: Outcome<Reparsed>)
    ensures !o.Threw?
    ensures o.Returned? ==> WellRecorded(sm, o.value.prodMap)
  {
    if at.None? then Crashed  // the position of a default-constructed iterator
    else
      match Again(start, at.value)
      case Undefined => Crashed
      case Defined(lx) => TokenFinish(sm, TokenConfig(lx, Reset(Current(start).id, sm), []), [], fuel)
  }

  datatype MapTried = MapHit(end: Lexer, prodMap: seq<Reduction>) | MapMissed(lastEoi: Option<Lexer>, prodMap: seq<Reduction>)

  /** One attempt of the `prod_map` search. */
  function MapAttempt(sm: Machine, start: Lexer, lastEoi: Option<Lexer>, fuel: nat): (o: Outcome<MapTried>)
    ensures !o.Threw?
    ensures o.Returned? ==> WellRecorded(sm, o.value.prodMap)
  {
    var c := TokenConfig(start, Reset(Current(start).id, sm), []);
    var (a, at) :- TokenRun(sm, c, lastEoi, fuel);
    if a.r.entry.action == Accept then
      var p :- Reparse(sm, start, at, fuel);
      Returned(MapHit(a.lx, p.prodMap))
    else if at.Some? && Current(at.value).id != 0 then
      var p :- Reparse(sm, start, at, fuel);
      if p.accepted then Returned(MapHit(at.value, p.prodMap)) else Returned(MapMissed(at, p.prodMap))
    else Returned(MapMissed(at, []))
  }

  /** The outer loop of the `prod_map` search. */
  function MapSearchFrom(sm: Machine, iter: Lexer, m: seq<Reduction>, lastEoi: Option<Lexer>, fuel: nat)
    : (o: Outcome<(Search.Found, seq<Reduction>)>)
    requires WellRecorded(sm, m)
    ensures !o.Threw?
    ensures o.Returned? ==> WellRecorded(sm, o.value.1)
    ensures o.Returned? ==> (o.value.0.hit <==> o.value.0.end.Some?)
    decreases |iter.tokens| - iter.pos
  {
    if Current(iter).id == 0 then Returned((Search.Found(false, iter, None), m))
    else
      var t :- MapAttempt(sm, iter, lastEoi, fuel);
      match t
      case MapHit(end, p) => Returned((Search.Found(true, iter, Some(end)), p))
      case MapMissed(l, p) => MapSearchFrom(sm, Next(iter), p, l, fuel)
  }

  /** When the first pass of an attempt accepts, the `prod_map` form reports the same match
      as the `prod_set` form (unless re-lexing the matched input fails). */
  lemma DirectAcceptAgrees(sm: Machine, start: Lexer, fuel: nat)
    requires MapAttempt(sm, start, None, fuel).Returned?
    requires TokenRun(sm, TokenConfig(start, Reset(Current(start).id, sm), []), None, fuel).value.0.r.entry.action == Accept
    ensures Search.Attempt(sm, start, None, fuel).Returned?
    ensures MapAttempt(sm, start, None, fuel).value.MapHit?
    ensures Search.Attempt(sm, start, None, fuel).value == Search.Hit(MapAttempt(sm, start, None, fuel).value.end,
                                                                     Search.Attempt(sm, start, None, fuel).value.reduced)
  {
    TokenRunIsRun(sm, TokenConfig(start, Reset(Current(start).id, sm), []), Snapshot(None, Initial), {}, fuel);
  }

  // ---- captures ----

  /** The stable order in which a `std::multimap` keyed by rule id yields its entries:
      by key, and entries with equal keys in the order they were inserted. */
  function KeyOrder(m: seq<Reduction>): (r: seq<Reduction>)
    ensures multiset(r) == multiset(m)
    ensures SortedByKey(r)
    decreases |m|
  {
    if m == [] then []
    else
      var rest := KeyOrder(m[1..]);
      var r := InsertByKey(m[0], rest);
      assert SortedByKey(r) by {
        InsertKeepsSorted(m[0], rest);
      }
      assert multiset(r) == multiset(m) by {
        calc {
          multiset(r);
          multiset(rest) + multiset{m[0]};
          multiset(m[1..]) + multiset{m[0]};
          { assert m == [m[0]] + m[1..]; }
          multiset(m);
        }
      }
      r
  }

  predicate SortedByKey(s: seq<Reduction>) {
    forall i, j :: 0 <= i < j < |s| ==> s[i].0 <= s[j].0
  }

  /** Insert `x` before the first entry whose key is not smaller: `x` was inserted into the
      map before every entry of `s`, so it precedes those with an equal key. */
  function InsertByKey(x: Reduction, s: seq<Reduction>): (r: seq<Reduction>)
    ensures multiset(r) == multiset(s) + multiset{x}
  {
    if s == [] || x.0 <= s[0].0 then [x] + s
    else
      var r := [s[0]] + InsertByKey(x, s[1..]);
      assert s == [s[0]] + s[1..];
      r
  }

  predicate KeysAtLeast(s: seq<Reduction>, b: nat) {
    forall i :: 0 <= i < |s| ==> b <= s[i].0
  }

  lemma {:induction false} InsertKeepsBound(x: Reduction, s: seq<Reduction>, b: nat)
    requires b <= x.0 && KeysAtLeast(s, b)
    ensures KeysAtLeast(InsertByKey(x, s), b)
  {
    if s != [] && x.0 > s[0].0 {
      InsertKeepsBound(x, s[1..], b);
    }
  }

  lemma {:induction false} InsertKeepsSorted(x: Reduction, s: seq<Reduction>)
    requires SortedByKey(s)
    ensures SortedByKey(InsertByKey(x, s))
  {
    if s != [] && x.0 > s[0].0 {
      InsertKeepsSorted(x, s[1..]);
      InsertKeepsBound(x, s[1..], s[0].0);
      var r := InsertByKey(x, s);
      assert r == [s[0]] + InsertByKey(x, s[1..]);
    }
  }

  /** The entries with key `key`, in order. */
  function WithKey(s: seq<Reduction>, key: nat): (r: seq<Reduction>)
    ensures forall i :: 0 <= i < |r| ==> r[i].0 == key
  {
    if s == [] then []
    else (if s[0].0 == key then [s[0]] else []) + WithKey(s[1..], key)
  }

  lemma {:induction false} WithKeyInsert(x: Reduction, s: seq<Reduction>, key: nat)
    ensures WithKey(InsertByKey(x, s), key) == (if x.0 == key then [x] else []) + WithKey(s, key)
  {
    if s != [] && x.0 > s[0].0 {
      var r := InsertByKey(x, s);
      assert r[1..] == InsertByKey(x, s[1..]);
      WithKeyInsert(x, s[1..], key);
    }
  }

  /** The order is stable: the entries of each key keep their insertion order. */
  lemma {:induction false} KeyOrderIsStable(m: seq<Reduction>, key: nat)
    ensures WithKey(KeyOrder(m), key) == WithKey(m, key)
    decreases |m|
  {
    if m != [] {
      KeyOrderIsStable(m[1..], key);
      WithKeyInsert(m[0], KeyOrder(m[1..]), key);
    }
  }

  /** Append the spans of capture row `row`'s pairs from pair `i` on, read from the rhs
      tokens `toks`, to their slots. */
  function AddSpans(caps: seq<seq<Capture>>, row: CaptureRow, toks: seq<Token>, i: nat)
    : (o: Behaviour<seq<seq<Capture>>>)
    ensures o.Defined? ==> |o.value| == |caps|
    ensures o.Defined? ==> forall j :: 0 <= j < |caps| ==> caps[j] <= o.value[j]
    ensures o.Defined? && |caps| > 0 ==> o.value[0] == caps[0]
    decreases |row.pairs| - i
  {
    if i >= |row.pairs| then Defined(caps)
    else
      var (a, b) := row.pairs[i];
      var slot := row.first + i + 1;
      if a >= |toks| || b >= |toks| || slot >= |caps| then Undefined
      else AddSpans(caps[slot := caps[slot] + [Capture(toks[a].first, toks[b].second)]], row, toks, i + 1)
  }

  /** The capture loop over the reductions in multimap order. */
  function FillCaptures(caps: seq<seq<Capture>>, sm: Machine, m: seq<Reduction>): (o: Behaviour<seq<seq<Capture>>>)
    ensures o.Defined? ==> |o.value| == |caps|
    ensures o.Defined? ==> forall j :: 0 <= j < |caps| ==> caps[j] <= o.value[j]
    ensures o.Defined? && |caps| > 0 ==> o.value[0] == caps[0]
    decreases |m|
  {
    if m == [] then Defined(caps)
    else
      var next := if m[0].0 < |sm.captures| then AddSpans(caps, sm.captures[m[0].0], m[0].1, 0) else Defined(caps);
      match next
      case Undefined => Undefined
      case Defined(caps1) => FillCaptures(caps1, sm, m[1..])
  }

  /** The furthest end of any recorded reduction, starting from `last`. */
  function LastEnd(m: seq<Reduction>, last: nat): (r: nat)
    requires forall k :: 0 <= k < |m| ==> |m[k].1| > 0
    ensures r >= last
    ensures forall k :: 0 <= k < |m| ==> m[k].1[|m[k].1| - 1].second <= r
    ensures r == last || exists k :: 0 <= k < |m| && r == m[k].1[|m[k].1| - 1].second
  {
    if m == [] then last
    else
      var e := m[0].1[|m[0].1| - 1].second;
      var r := LastEnd(m[1..], if e > last then e else last);
      assert forall k :: 1 <= k < |m| ==> m[k] == m[1..][k - 1];
      r
  }

  /** The number of capture slots: where the last block starts plus its size. */
  function SlotCount(cs: seq<CaptureRow>): nat {
    if |cs| == 0 then 0 else cs[|cs| - 1].first + |cs[|cs| - 1].pairs|
  }

  datatype Captured = Captured(hit: bool, iter: Lexer, end: Option<Lexer>, captures: seq<seq<Capture>>)

  /** `search(iter, end, sm, captures)`. */
  function SearchCaptures(sm: Machine, iter: Lexer, fuel: nat): (o: Outcome<Captured>)
    ensures !o.Threw?
    ensures o.Returned? ==> (o.value.hit <==> o.value.end.Some?)
    ensures o.Returned? && !o.value.hit ==> o.value.captures == []
    ensures o.Returned? && o.value.hit ==>
      var first := Current(o.value.iter).first;
      |o.value.captures| == SlotCount(sm.captures) + 1 &&
      |o.value.captures[0]| == 1 && o.value.captures[0][0].first == first && first <= o.value.captures[0][0].second
  {
    var (f, m) :- MapSearchFrom(sm, iter, [], None, fuel);
    if !f.hit then Returned(Captured(false, f.iter, f.end, []))
    else
      var first := Current(f.iter).first;
      var caps := [[Capture(first, first)]] + seq(SlotCount(sm.captures), _ => []);
      match FillCaptures(caps, sm, KeyOrder(m))
      case Undefined => Crashed
      case Defined(filled) =>
        // slot 0 is never a capture pair's slot: it still holds the seed span alone
        assert filled[0] == [Capture(first, first)];
        Returned(Captured(true, f.iter, f.end, filled[0 := [Capture(first, LastEnd(m, first))]]))
  }

  /** `x` is the span capture row `row` assigns to slot `j` from the rhs tokens `toks`. */
  ghost predicate SpanFor(x: Capture, row: CaptureRow, toks: seq<Token>, j: nat) {
    exists i :: 0 <= i < |row.pairs| && row.first + i + 1 == j &&
      row.pairs[i].0 < |toks| && row.pairs[i].1 < |toks| &&
      x == Capture(toks[row.pairs[i].0].first, toks[row.pairs[i].1].second)
  }

  /** Every span `AddSpans` appends to a slot is one the row assigns to that slot. */
  lemma {:induction false} AddSpansSound(caps: seq<seq<Capture>>, row: CaptureRow, toks: seq<Token>, i: nat)
    requires AddSpans(caps, row, toks, i).Defined?
    ensures var o := AddSpans(caps, row, toks, i).value;
      forall j, n :: 0 <= j < |caps| && |caps[j]| <= n < |o[j]| ==> SpanFor(o[j][n], row, toks, j)
    decreases |row.pairs| - i
  {
    if i < |row.pairs| {
      var (a, b) := row.pairs[i];
      var slot := row.first + i + 1;
      var x := Capture(toks[a].first, toks[b].second);
      var caps1 := caps[slot := caps[slot] + [x]];
      AddSpansSound(caps1, row, toks, i + 1);
      var o := AddSpans(caps, row, toks, i).value;
      forall j, n | 0 <= j < |caps| && |caps[j]| <= n < |o[j]|
        ensures SpanFor(o[j][n], row, toks, j)
      {
        if j == slot && n == |caps[j]| {
          assert o[j][n] == caps1[j][n] == x;
        }
      }
    }
  }

  /** Pair `p` of capture row `row` has put its span, read from `toks`, in its slot of `o`. */
  predicate PairPlaced(o: seq<seq<Capture>>, row: CaptureRow, toks: seq<Token>, p: nat)
    requires p < |row.pairs|
  {
    var (a, b) := row.pairs[p];
    row.first + p + 1 < |o| && a < |toks| && b < |toks| &&
    Capture(toks[a].first, toks[b].second) in o[row.first + p + 1]
  }

  lemma PairPlacedGrows(o: seq<seq<Capture>>, o': seq<seq<Capture>>, row: CaptureRow, toks: seq<Token>, p: nat)
    requires p < |row.pairs| && PairPlaced(o, row, toks, p)
    requires |o| == |o'| && forall j :: 0 <= j < |o| ==> o[j] <= o'[j]
    ensures PairPlaced(o', row, toks, p)
  {
    var (a, b) := row.pairs[p];
    var j := row.first + p + 1;
    var x := Capture(toks[a].first, toks[b].second);
    var idx :| 0 <= idx < |o[j]| && o[j][idx] == x;
    assert o[j] <= o'[j];
    assert o'[j][idx] == x;
  }

  /** And every pair of the row, from pair `i` on, puts its span in its slot. */
  lemma {:induction false} AddSpansComplete(caps: seq<seq<Capture>>, row: CaptureRow, toks: seq<Token>, i: nat)
    requires AddSpans(caps, row, toks, i).Defined?
    ensures forall p :: i <= p < |row.pairs| ==> PairPlaced(AddSpans(caps, row, toks, i).value, row, toks, p)
    decreases |row.pairs| - i
  {
    if i < |row.pairs| {
      var (a, b) := row.pairs[i];
      var slot := row.first + i + 1;
      var x := Capture(toks[a].first, toks[b].second);
      var caps1 := caps[slot := caps[slot] + [x]];
      AddSpansComplete(caps1, row, toks, i + 1);
      var o := AddSpans(caps, row, toks, i).value;
      assert o == AddSpans(caps1, row, toks, i + 1).value;
      assert PairPlaced(caps1, row, toks, i) by {
        assert caps1[slot][|caps[slot]|] == x;
      }
      PairPlacedGrows(caps1, o, row, toks, i);
    }
  }

  /** The recorded reduction `r` puts the span `x` in slot `j`. */
  ghost predicate SpanFromReduction(sm: Machine, r: Reduction, x: Capture, j: nat) {
    r.0 < |sm.captures| && SpanFor(x, sm.captures[r.0], r.1, j)
  }

  /** Every span `FillCaptures` adds comes from one of the recorded reductions. */
  lemma {:induction false} FillCapturesSound(caps: seq<seq<Capture>>, sm: Machine, m: seq<Reduction>)
    requires FillCaptures(caps, sm, m).Defined?
    ensures var o := FillCaptures(caps, sm, m).value;
      forall j, n :: 0 <= j < |caps| && |caps[j]| <= n < |o[j]| ==>
        exists k :: 0 <= k < |m| && SpanFromReduction(sm, m[k], o[j][n], j)
    decreases |m|
  {
    if m != [] {
      var caps1 := if m[0].0 < |sm.captures| then AddSpans(caps, sm.captures[m[0].0], m[0].1, 0).value else caps;
      if m[0].0 < |sm.captures| {
        AddSpansSound(caps, sm.captures[m[0].0], m[0].1, 0);
      }
      FillCapturesSound(caps1, sm, m[1..]);
      var o := FillCaptures(caps, sm, m).value;
      assert o == FillCaptures(caps1, sm, m[1..]).value;
      forall j, n | 0 <= j < |caps| && |caps[j]| <= n < |o[j]|
        ensures exists k :: 0 <= k < |m| && SpanFromReduction(sm, m[k], o[j][n], j)
      {
        if n < |caps1[j]| {
          assert caps1[j] <= o[j];
          assert SpanFromReduction(sm, m[0], o[j][n], j);
        } else {
          var k :| 0 <= k < |m[1..]| && SpanFromReduction(sm, m[1..][k], o[j][n], j);
          assert m[1..][k] == m[k + 1];
        }
      }
    }
  }

  /** And every capture pair of every recorded reduction whose rule has a capture row is
      in its slot. */
  lemma {:induction false} FillCapturesComplete(caps: seq<seq<Capture>>, sm: Machine, m: seq<Reduction>)
    requires FillCaptures(caps, sm, m).Defined?
    ensures forall k, p :: 0 <= k < |m| && m[k].0 < |sm.captures| && 0 <= p < |sm.captures[m[k].0].pairs| ==>
      PairPlaced(FillCaptures(caps, sm, m).value, sm.captures[m[k].0], m[k].1, p)
    decreases |m|
  {
    if m != [] {
      var caps1 := if m[0].0 < |sm.captures| then AddSpans(caps, sm.captures[m[0].0], m[0].1, 0).value else caps;
      if m[0].0 < |sm.captures| {
        AddSpansComplete(caps, sm.captures[m[0].0], m[0].1, 0);
      }
      FillCapturesComplete(caps1, sm, m[1..]);
      var o := FillCaptures(caps, sm, m).value;
      assert o == FillCaptures(caps1, sm, m[1..]).value;
      forall k, p | 0 <= k < |m| && m[k].0 < |sm.captures| && 0 <= p < |sm.captures[m[k].0].pairs|
        ensures PairPlaced(o, sm.captures[m[k].0], m[k].1, p)
      {
        if k == 0 {
          PairPlacedGrows(caps1, o, sm.captures[m[0].0], m[0].1, p);
        } else {
          assert m[k] == m[1..][k - 1];
        }
      }
    }
  }

  /** Filling in multimap order finds the same spans as the recorded order would: every
      added span comes from a recorded reduction, and every pair of one is placed. */
  lemma FillInKeyOrder(caps: seq<seq<Capture>>, sm: Machine, m: seq<Reduction>)
    requires FillCaptures(caps, sm, KeyOrder(m)).Defined?
    ensures var o := FillCaptures(caps, sm, KeyOrder(m)).value;
      (forall j, n :: 0 <= j < |caps| && |caps[j]| <= n < |o[j]| ==>
         exists k :: 0 <= k < |m| && SpanFromReduction(sm, m[k], o[j][n], j)) &&
      (forall k, p :: 0 <= k < |m| && m[k].0 < |sm.captures| && 0 <= p < |sm.captures[m[k].0].pairs| ==>
         PairPlaced(o, sm.captures[m[k].0], m[k].1, p))
  {
    var km := KeyOrder(m);
    var o := FillCaptures(caps, sm, km).value;
    FillCapturesSound(caps, sm, km);
    FillCapturesComplete(caps, sm, km);
    forall j, n | 0 <= j < |caps| && |caps[j]| <= n < |o[j]|
      ensures exists k :: 0 <= k < |m| && SpanFromReduction(sm, m[k], o[j][n], j)
    {
      var k :| 0 <= k < |km| && SpanFromReduction(sm, km[k], o[j][n], j);
      assert km[k] in multiset(m) by {
        assert km[k] in multiset(km);
      }
      var k' :| 0 <= k' < |m| && m[k'] == km[k];
    }
    forall k, p | 0 <= k < |m| && m[k].0 < |sm.captures| && 0 <= p < |sm.captures[m[k].0].pairs|
      ensures PairPlaced(o, sm.captures[m[k].0], m[k].1, p)
    {
      assert m[k] in multiset(km) by {
        assert m[k] in multiset(m);
      }
      var k' :| 0 <= k' < |km| && km[k'] == m[k];
    }
  }

  /** Replacing slot 0 disturbs no capture pair, whose slots all lie above it. */
  lemma SlotZeroReplaced(o: seq<seq<Capture>>, y: seq<Capture>, row: CaptureRow, toks: seq<Token>, p: nat)
    requires |o| > 0 && p < |row.pairs| && PairPlaced(o, row, toks, p)
    ensures PairPlaced(o[0 := y], row, toks, p)
  {
  }

  /** What a successful `search` with captures holds, in terms of the reductions the
      `prod_map` search recorded: slot 0 is one span from the match start that covers every
      recorded reduction; every other span comes from a recorded reduction's capture row;
      and every capture pair of every recorded reduction is in its slot. */
  lemma SearchCapturesContents(sm: Machine, iter: Lexer, fuel: nat)
    requires SearchCaptures(sm, iter, fuel).Returned? && SearchCaptures(sm, iter, fuel).value.hit
    ensures MapSearchFrom(sm, iter, [], None, fuel).Returned?
    ensures
      var caps := SearchCaptures(sm, iter, fuel).value.captures;
      var m := MapSearchFrom(sm, iter, [], None, fuel).value.1;
      (forall k :: 0 <= k < |m| ==> |m[k].1| > 0 && m[k].1[|m[k].1| - 1].second <= caps[0][0].second) &&
      (forall j, n :: 1 <= j < |caps| && 0 <= n < |caps[j]| ==>
         exists k :: 0 <= k < |m| && SpanFromReduction(sm, m[k], caps[j][n], j)) &&
      (forall k, p :: 0 <= k < |m| && m[k].0 < |sm.captures| && 0 <= p < |sm.captures[m[k].0].pairs| ==>
         PairPlaced(caps, sm.captures[m[k].0], m[k].1, p))
  {
    var (f, m) := MapSearchFrom(sm, iter, [], None, fuel).value;
    var first := Current(f.iter).first;
    var caps0 := [[Capture(first, first)]] + seq(SlotCount(sm.captures), _ => []);
    var filled := FillCaptures(caps0, sm, KeyOrder(m)).value;
    assert SearchCaptures(sm, iter, fuel).value.captures == filled[0 := [Capture(first, LastEnd(m, first))]];
    FilledContents(sm, m, caps0, [Capture(first, LastEnd(m, first))]);
  }

  /** The captures after the fill with slot 0 replaced: every span above slot 0 comes from a
      recorded reduction, and every capture pair of every recorded reduction is placed. */
  lemma FilledContents(sm: Machine, m: seq<Reduction>, caps0: seq<seq<Capture>>, y: seq<Capture>)
    requires |caps0| > 0 && forall j :: 1 <= j < |caps0| ==> caps0[j] == []
    requires FillCaptures(caps0, sm, KeyOrder(m)).Defined?
    ensures var caps := FillCaptures(caps0, sm, KeyOrder(m)).value[0 := y];
      (forall j, n :: 1 <= j < |caps| && 0 <= n < |caps[j]| ==>
         exists k :: 0 <= k < |m| && SpanFromReduction(sm, m[k], caps[j][n], j)) &&
      (forall k, p :: 0 <= k < |m| && m[k].0 < |sm.captures| && 0 <= p < |sm.captures[m[k].0].pairs| ==>
         PairPlaced(caps, sm.captures[m[k].0], m[k].1, p))
  {
    var filled := FillCaptures(caps0, sm, KeyOrder(m)).value;
    var caps := filled[0 := y];
    FillInKeyOrder(caps0, sm, m);
    forall j, n | 1 <= j < |caps| && 0 <= n < |caps[j]|
      ensures exists k :: 0 <= k < |m| && SpanFromReduction(sm, m[k], caps[j][n], j)
    {
      assert caps[j] == filled[j] && |caps0[j]| == 0;
    }
    forall k, p | 0 <= k < |m| && m[k].0 < |sm.captures| && 0 <= p < |sm.captures[m[k].0].pairs|
      ensures PairPlaced(caps, sm.captures[m[k].0], m[k].1, p)
    {
      SlotZeroReplaced(filled, y, sm.captures[m[k].0], m[k].1, p);
    }
  }

  /** A snapshot position `at` left by an earlier attempt on the same input: when it does not
      lie before `start`, no end-of-input token lies between the two. */
  predicate ConsistentSnapshot(start: Lexer, at: Option<Lexer>) {
    at.Some? ==> at.value.tokens == start.tokens && at.value.eoi == start.eoi &&
                 (start.pos <= at.value.pos ==> AdvancedWithinInput(start, at.value))
  }

  /** An attempt of the `prod_map` search stays within the input: a match ends at or after
      its start without passing end of input, even when the fallback re-parses up to a
      snapshot an earlier attempt left; a miss leaves a snapshot consistent with the start. */
  lemma MapAttemptWithinInput(sm: Machine, start: Lexer, lastEoi: Option<Lexer>, fuel: nat)
    requires ConsistentSnapshot(start, lastEoi)
    requires MapAttempt(sm, start, lastEoi, fuel).Returned?
    ensures var t := MapAttempt(sm, start, lastEoi, fuel).value;
      (t.MapHit? ==> AdvancedWithinInput(start, t.end)) &&
      (t.MapMissed? ==> ConsistentSnapshot(start, t.lastEoi))
  {
    var c := TokenConfig(start, Reset(Current(start).id, sm), []);
    TokenRunWithin(sm, start, lastEoi, fuel);
    var (a, at) := TokenRun(sm, c, lastEoi, fuel).value;
    assert ConsistentSnapshot(start, at);
    var o := MapAttempt(sm, start, lastEoi, fuel);
    if a.r.entry.action == Accept {
      assert o.value.end == a.lx;
    } else if at.Some? && Current(at.value).id != 0 {
      var p := Reparse(sm, start, at, fuel);
      assert p.Returned?;
      assert Again(start, at.value).Defined?;
      assert o.value.MapHit? ==> o.value.end == at.value;
      assert o.value.MapMissed? ==> o.value.lastEoi == at;
    } else {
      assert o.value == MapMissed(at, []);
    }
  }

  /** The token-level run of an attempt never passes end of input, and the snapshot it
      leaves is either the one it was given or one it took at or after its start. */
  lemma TokenRunWithin(sm: Machine, start: Lexer, lastEoi: Option<Lexer>, fuel: nat)
    requires TokenRun(sm, TokenConfig(start, Reset(Current(start).id, sm), []), lastEoi, fuel).Returned?
    ensures var t := TokenRun(sm, TokenConfig(start, Reset(Current(start).id, sm), []), lastEoi, fuel).value;
      AdvancedWithinInput(start, t.0.lx) &&
      (t.1 == lastEoi || (t.1.Some? && AdvancedWithinInput(start, t.1.value)))
  {
    var c := TokenConfig(start, Reset(Current(start).id, sm), []);
    var cc := Config(start, Reset(Current(start).id, sm));
    TokenRunIsRun(sm, c, Snapshot(lastEoi, Initial), {}, fuel);
    RunSnapshotIndependent(sm, cc, Snapshot(lastEoi, Initial), Snapshot(None, Initial), {}, OnLexeme, fuel);
    RunNeverPassesEoi(sm, cc, Snapshot(None, Initial), {}, fuel);
    RunSnapshotWithinInput(sm, start, cc, Snapshot(None, Initial), {}, fuel);
  }

  /** A snapshot consistent with a start stays consistent with the start one token on. */
  lemma ConsistentAfterNext(start: Lexer, at: Option<Lexer>)
    requires ConsistentSnapshot(start, at)
    ensures ConsistentSnapshot(Next(start), at)
  {
    if at.Some? && Next(start).pos <= at.value.pos {
      forall k | Next(start).pos <= k < at.value.pos
        ensures TokenAt(Next(start), k).id != 0
      {
        assert TokenAt(Next(start), k) == TokenAt(start, k);
      }
    }
  }

  /** One step of the `prod_map` search's outer loop. */
  lemma MapSearchUnfold(sm: Machine, iter: Lexer, m: seq<Reduction>, lastEoi: Option<Lexer>, fuel: nat)
    requires WellRecorded(sm, m)
    requires Current(iter).id != 0
    requires MapSearchFrom(sm, iter, m, lastEoi, fuel).Returned?
    ensures MapAttempt(sm, iter, lastEoi, fuel).Returned?
    ensures var t := MapAttempt(sm, iter, lastEoi, fuel).value;
      (t.MapHit? ==> MapSearchFrom(sm, iter, m, lastEoi, fuel).value.0 == Search.Found(true, iter, Some(t.end))) &&
      (t.MapMissed? ==> MapSearchFrom(sm, iter, m, lastEoi, fuel) == MapSearchFrom(sm, Next(iter), t.prodMap, t.lastEoi, fuel))
  {
  }

  /** The `prod_map` search never moves backwards: where it leaves `iter` lies at or after
      where it began, and a match ends at or after its start, with no end-of-input token
      passed on the way. */
  lemma MapSearchWithinInput(sm: Machine, iter: Lexer, m: seq<Reduction>, lastEoi: Option<Lexer>, fuel: nat)
    requires WellRecorded(sm, m)
    requires ConsistentSnapshot(iter, lastEoi)
    requires MapSearchFrom(sm, iter, m, lastEoi, fuel).Returned?
    ensures var f := MapSearchFrom(sm, iter, m, lastEoi, fuel).value.0;
      AdvancedWithinInput(iter, f.iter) && (f.hit ==> f.end.Some? && AdvancedWithinInput(f.iter, f.end.value))
  {
    MapSearchAdvances(sm, iter, m, lastEoi, fuel);
    MapSearchEndWithin(sm, iter, m, lastEoi, fuel);
  }

  /** The `prod_map` search moves its start only forwards, never over end of input. */
  lemma {:induction false} MapSearchAdvances(sm: Machine, iter: Lexer, m: seq<Reduction>, lastEoi: Option<Lexer>,
                                             fuel: nat)
    requires WellRecorded(sm, m)
    requires MapSearchFrom(sm, iter, m, lastEoi, fuel).Returned?
    ensures AdvancedWithinInput(iter, MapSearchFrom(sm, iter, m, lastEoi, fuel).value.0.iter)
    decreases |iter.tokens| - iter.pos
  {
    if Current(iter).id != 0 {
      MapSearchUnfold(sm, iter, m, lastEoi, fuel);
      var t := MapAttempt(sm, iter, lastEoi, fuel).value;
      if t.MapMissed? {
        var rest := Next(iter);
        MapSearchAdvances(sm, rest, t.prodMap, t.lastEoi, fuel);
        assert AdvancedWithinInput(iter, rest);
        AdvancedWithinInputTransitive(iter, rest, MapSearchFrom(sm, rest, t.prodMap, t.lastEoi, fuel).value.0.iter);
      }
    }
  }

  /** A match the `prod_map` search reports ends at or after its start, with no
      end-of-input token passed on the way. */
  lemma {:induction false} MapSearchEndWithin(sm: Machine, iter: Lexer, m: seq<Reduction>, lastEoi: Option<Lexer>,
                                              fuel: nat)
    requires WellRecorded(sm, m)
    requires ConsistentSnapshot(iter, lastEoi)
    requires MapSearchFrom(sm, iter, m, lastEoi, fuel).Returned?
    ensures var f := MapSearchFrom(sm, iter, m, lastEoi, fuel).value.0;
      f.hit ==> f.end.Some? && AdvancedWithinInput(f.iter, f.end.value)
    decreases |iter.tokens| - iter.pos
  {
    if Current(iter).id != 0 {
      MapSearchUnfold(sm, iter, m, lastEoi, fuel);
      MapAttemptWithinInput(sm, iter, lastEoi, fuel);
      var t := MapAttempt(sm, iter, lastEoi, fuel).value;
      if t.MapMissed? {
        ConsistentAfterNext(iter, t.lastEoi);
        MapSearchEndWithin(sm, Next(iter), t.prodMap, t.lastEoi, fuel);
      }
    }
  }
}

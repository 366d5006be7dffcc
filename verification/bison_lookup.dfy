/** A cut-down bison `yyparse` driven by bison's packed tables (`bison_next`, `bison_lookup`),
    used to parse the EBNF of rule right-hand sides. */
module BisonLookup {
  import opened Wrappers
  import opened ParserStateMachine
  import opened TokenStream
  import opened MatchResults
  import opened Lookup

  /** Bison's packed parser tables and constants, all as (signed) integers. */
  datatype Tables = Tables(
    final: int, last: int, ntokens: int, pactNinf: int, tableNinf: int,
    translate: seq<int>, r1: seq<int>, r2: seq<int>, defact: seq<int>, defgoto: seq<int>,
    pact: seq<int>, pgoto: seq<int>, table: seq<int>, check: seq<int>)

  /** The number of parser states. */
  function States(t: Tables): nat {
    |t.pact|
  }

  /** The table shape every bison-generated parser has, plus the ranges of the stored values:
      what makes every read of the decoder below stay in range. */
  predicate WellFormed(t: Tables) {
    && t.last >= 0 && |t.table| == t.last + 1 && |t.check| == t.last + 1
    && |t.defact| == |t.pact| && 0 <= t.final < |t.pact|
    && |t.r1| == |t.r2| && |t.pgoto| == |t.defgoto| && t.ntokens > 0
    && (forall i :: 1 <= i < |t.r1| ==> t.ntokens <= t.r1[i] < t.ntokens + |t.pgoto|)
    && (forall i :: 0 <= i < |t.r2| ==> 0 <= t.r2[i])
    && (forall i :: 0 <= i < |t.defact| ==> 0 <= t.defact[i] < |t.r1|)
    && (forall i :: 0 <= i < |t.translate| ==> 0 <= t.translate[i] < t.ntokens)
    && (forall i :: 0 <= i < |t.table| ==> 0 <= t.table[i] < |t.pact|)
  }

  /** An `int` stored into a `std::size_t` field. */
  function ToSizeT(v: int): (n: nat)
    ensures 0 <= v ==> n == v
  {
    if v >= 0 then v else v % 0x1_0000_0000_0000_0000
  }

  /** The `yydefault` path: reduce by the state's default rule, or report a syntax error. */
  function DefaultAction(t: Tables, r: MatchResults): (o: Behaviour<MatchResults>)
    requires |r.stack| > 0
  {
    var top := r.stack[|r.stack| - 1];
    if top >= |t.defact| then Undefined
    else if t.defact[top] == 0 then Defined(r.(entry := Entry(Error, SyntaxError)))
    else Defined(r.(entry := Entry(Reduce, ToSizeT(t.defact[top]))))
  }

  /** `bison_next`: decide the action for the current state and the lexeme id `id`. */
  function NextAction(t: Tables, id: nat, r: MatchResults): (o: Behaviour<MatchResults>)
    // an unrecognised lexeme is reported without reading the tables
    ensures id == Npos ==> o == Defined(r.(entry := Entry(Error, UnknownToken)))
    // the stack is never changed
    ensures o.Defined? ==> o.value.stack == r.stack
    // on well-formed tables every read is in range
    ensures (WellFormed(t) && |r.stack| > 0 && r.stack[|r.stack| - 1] < States(t) &&
             (id == Npos || id < |t.translate|)) ==> o.Defined?
    // and the decoded action is one the runtime can act on
    ensures WellFormed(t) && id != Npos && o.Defined? ==>
      var e := o.value.entry;
      || e == Entry(Error, SyntaxError)
      || (e.action == Reduce && 1 <= e.param < |t.r1|)
      || (e.action == Shift && 0 < e.param < States(t) && e.param != t.final)
      || e == Entry(Accept, 0)
    // a state whose yypact is the "no lookahead needed" marker takes its default action
    ensures (id != Npos && |r.stack| > 0 && r.stack[|r.stack| - 1] < |t.pact| &&
             t.pact[r.stack[|r.stack| - 1]] == t.pactNinf) ==> o == DefaultAction(t, r)
  {
    if id == Npos then Defined(r.(entry := Entry(Error, UnknownToken)))
    else if |r.stack| == 0 then Undefined
    else
      var top := r.stack[|r.stack| - 1];
      if top >= |t.pact| then Undefined
      else if t.pact[top] == t.pactNinf then DefaultAction(t, r)
      else if id >= |t.translate| then Undefined
      else
        var tok := t.translate[id];
        var r1 := r.(tokenId := ToSizeT(tok));
        var n := t.pact[top] + tok;
        if n < 0 || t.last < n then DefaultAction(t, r1)
        else if n >= |t.check| then Undefined
        else if t.check[n] != tok then DefaultAction(t, r1)
        else if n >= |t.table| then Undefined
        else
          var v := t.table[n];
          if v <= 0 then
            if v == 0 || v == t.tableNinf then Defined(r1.(entry := Entry(Error, SyntaxError)))
            else Defined(r1.(entry := Entry(Reduce, -v)))
          else if v == t.final then Defined(r1.(entry := Entry(Accept, 0)))
          else Defined(r1.(entry := Entry(Shift, v)))
  }

  /** The go_to half of `bison_lookup`: pick the target state for `lhs` from the packed goto
      table when `yycheck` confirms the entry, else the default goto, and push it. */
  function TakeGoto(t: Tables, p: int, r: MatchResults): (o: Behaviour<MatchResults>)
    requires |r.stack| > 0
    ensures o.Defined? ==> |o.value.stack| == |r.stack| + 1 && o.value.stack[..|r.stack|] == r.stack
    ensures o.Defined? ==> o.value.entry.action == GoTo && o.value.stack[|r.stack|] == o.value.entry.param
  {
    var top := r.stack[|r.stack| - 1];
    if 0 <= p <= t.last && p < |t.check| && t.check[p] == top then
      if p >= |t.table| then Undefined
      else
        var target := ToSizeT(t.table[p]);
        Defined(MatchResults(r.stack + [target], r.tokenId, Entry(GoTo, target)))
    else if 0 <= p <= t.last && p >= |t.check| then Undefined
    else
      var k := r.tokenId - t.ntokens;
      if k < 0 || k >= |t.defgoto| then Undefined
      else
        var target := ToSizeT(t.defgoto[k]);
        Defined(MatchResults(r.stack + [target], r.tokenId, Entry(GoTo, target)))
  }

  /** The state change of a reduce: pop the rule's rhs, make its lhs the current symbol and
      take the goto. */
  function ReduceAndGoTo(t: Tables, r: MatchResults): (o: Behaviour<MatchResults>)
    requires r.entry.action == Reduce
  {
    var rule := r.entry.param;
    if rule >= |t.r2| || rule >= |t.r1| then Undefined
    else
      var size := t.r2[rule];
      if size < 0 || size >= |r.stack| then Undefined
      else
        var stack := r.stack[..|r.stack| - size];
        var lhs := t.r1[rule];
        var k := lhs - t.ntokens;
        if k < 0 || k >= |t.pgoto| then Undefined
        else TakeGoto(t, t.pgoto[k] + stack[|stack| - 1], MatchResults(stack, ToSizeT(lhs), Entry(GoTo, 0)))
  }

  /** `bison_lookup` without the token vector. */
  function Step(t: Tables, c: Config): (o: Behaviour<Config>)
    ensures c.r.entry.action in {Error, Accept} ==> o == Defined(c)
    // a shift pushes its state, moves on unless at end of input, and flags unknown lexemes;
    // the decision for the new lexeme is left to the next `bison_next`
    ensures c.r.entry.action == Shift ==>
      o.Defined? &&
      o.value.r.stack == c.r.stack + [c.r.entry.param] &&
      o.value.lx == (if c.r.tokenId != 0 then Next(c.lx) else c.lx) &&
      o.value.r.tokenId == Current(o.value.lx).id &&
      o.value.r.entry == (if Current(o.value.lx).id == Npos then Entry(Error, UnknownToken) else c.r.entry)
    // a reduce pops yyr2 states, makes yyr1 the current symbol and pushes the goto state
    ensures c.r.entry.action == Reduce && o.Defined? ==>
      var rule := c.r.entry.param;
      rule < |t.r1| && rule < |t.r2| && 0 <= t.r2[rule] < |c.r.stack| &&
      o.value.lx == c.lx &&
      o.value.r.tokenId == ToSizeT(t.r1[rule]) &&
      o.value.r.entry.action == GoTo &&
      o.value.r.stack == c.r.stack[..|c.r.stack| - t.r2[rule]] + [o.value.r.entry.param]
    // on well-formed tables, reducing by any rule but the accepting one never goes wrong
    // when the stack holds the rhs
    ensures (WellFormed(t) && c.r.entry.action == Reduce &&
             1 <= c.r.entry.param < |t.r1| && t.r2[c.r.entry.param] < |c.r.stack|) ==> o.Defined?
  {
    var r := c.r;
    match r.entry.action
    case Error => Defined(c)
    case Accept => Defined(c)
    case Shift =>
      var lx := if r.tokenId != 0 then Next(c.lx) else c.lx;
      var tokenId := Current(lx).id;
      var entry := if tokenId == Npos then Entry(Error, UnknownToken) else r.entry;
      Defined(Config(lx, MatchResults(r.stack + [r.entry.param], tokenId, entry)))
    case Reduce =>
      (match ReduceAndGoTo(t, r)
       case Undefined => Undefined
       case Defined(r2) => Defined(Config(c.lx, r2)))
    case GoTo =>
      if |r.stack| == 0 then Undefined
      else
        match TakeGoto(t, r.entry.param, r)
        case Undefined => Undefined
        case Defined(r2) => Defined(Config(c.lx, r2))
  }

  /** `bison_lookup` with the token vector. */
  function TokenStep(t: Tables, c: TokenConfig): (o: Behaviour<TokenConfig>)
    ensures o.Defined? ==> Step(t, Config(c.lx, c.r)) == Defined(Config(o.value.lx, o.value.r))
    ensures c.r.entry.action == Shift ==> o.Defined? && o.value.productions == c.productions + [Current(c.lx)]
    // a reduce replaces the rhs tokens by one spanning token; its id is left at npos and an
    // empty rhs leaves its span default-constructed
    ensures c.r.entry.action == Reduce && o.Defined? ==>
      var size := t.r2[c.r.entry.param];
      size <= |c.productions| &&
      o.value.productions == c.productions[..|c.productions| - size] +
        [if size > 0 then Token(Npos, c.productions[|c.productions| - size].first, c.productions[|c.productions| - 1].second)
         else Token(Npos, 0, 0)]
    ensures c.r.entry.action in {Error, Accept, GoTo} && o.Defined? ==> o.value.productions == c.productions
  {
    match Step(t, Config(c.lx, c.r))
    case Undefined => Undefined
    case Defined(s) =>
      match c.r.entry.action
      case Shift => Defined(TokenConfig(s.lx, s.r, c.productions + [Current(c.lx)]))
      case Reduce =>
        var size := t.r2[c.r.entry.param];
        if size > |c.productions| then Undefined
        else
          var tok := if size > 0 then Token(Npos, c.productions[|c.productions| - size].first, c.productions[|c.productions| - 1].second)
                     else Token(Npos, 0, 0);
          Defined(TokenConfig(s.lx, s.r, c.productions[..|c.productions| - size] + [tok]))
      case _ => Defined(TokenConfig(s.lx, s.r, c.productions))
  }
}

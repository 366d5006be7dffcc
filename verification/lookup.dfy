/** One step of the table-driven LR runtime (`lookup`), in the plain form and in the form
    that also maintains the vector of tokens the symbols on the stack stand for. */
module Lookup {
  import opened Wrappers
  import opened ParserStateMachine
  import opened TokenStream
  import opened MatchResults

  datatype Config = Config(lx: Lexer, r: MatchResults)

  datatype TokenConfig = TokenConfig(lx: Lexer, r: MatchResults, productions: seq<Token>)

  /** The entry for the new lookahead `tokenId` in state `top`: an unrecognised lexeme is an
      `unknown_token` error. */
  function LookaheadEntry(sm: Machine, top: nat, tokenId: nat): (e: Entry)
    ensures tokenId == Npos ==> e == Entry(Error, UnknownToken)
    ensures tokenId != Npos ==> e == At(sm, top, tokenId)
  {
    if tokenId == Npos then Entry(Error, UnknownToken) else At(sm, top, tokenId)
  }

  /** The plain `lookup`. */
  function Step(sm: Machine, c: Config): (o: Behaviour<Config>)
    // error: nothing changes
    ensures c.r.entry.action == Error ==> o == Defined(c)
    // shift: push the target state; the lexer moves on unless the lookahead is end of input
    ensures c.r.entry.action == Shift ==>
      o.Defined? &&
      o.value.r.stack == c.r.stack + [c.r.entry.param] &&
      o.value.lx == (if c.r.tokenId != 0 then Next(c.lx) else c.lx) &&
      o.value.r.tokenId == Current(o.value.lx).id &&
      o.value.r.entry == LookaheadEntry(sm, c.r.entry.param, o.value.r.tokenId)
    // reduce: pop |rhs| states, the lhs becomes the lookahead, read its goto entry
    ensures c.r.entry.action == Reduce ==>
      (o.Defined? <==> c.r.entry.param < |sm.rules| && |sm.rules[c.r.entry.param].rhs| < |c.r.stack|)
    ensures c.r.entry.action == Reduce && o.Defined? ==>
      var rule := sm.rules[c.r.entry.param];
      o.value.lx == c.lx &&
      o.value.r.stack == c.r.stack[..|c.r.stack| - |rule.rhs|] &&
      o.value.r.tokenId == rule.lhs &&
      o.value.r.entry == At(sm, o.value.r.stack[|o.value.r.stack| - 1], rule.lhs)
    // go_to: push the target state and take the current lexeme as lookahead again
    ensures c.r.entry.action == GoTo ==>
      o.Defined? &&
      o.value.lx == c.lx &&
      o.value.r.stack == c.r.stack + [c.r.entry.param] &&
      o.value.r.tokenId == Current(c.lx).id &&
      o.value.r.entry == At(sm, c.r.entry.param, Current(c.lx).id)
    // accept: pop the accepting rule's rhs, nothing else changes
    ensures c.r.entry.action == Accept ==>
      (o.Defined? <==> c.r.entry.param < |sm.rules| && |sm.rules[c.r.entry.param].rhs| <= |c.r.stack|)
    ensures c.r.entry.action == Accept && o.Defined? ==>
      o.value.lx == c.lx && o.value.r.tokenId == c.r.tokenId && o.value.r.entry == c.r.entry &&
      o.value.r.stack == c.r.stack[..|c.r.stack| - |sm.rules[c.r.entry.param].rhs|]
  {
    var r := c.r;
    match r.entry.action
    case Error => Defined(c)
    case Shift =>
      var stack := r.stack + [r.entry.param];
      var lx := if r.tokenId != 0 then Next(c.lx) else c.lx;
      var tokenId := Current(lx).id;
      Defined(Config(lx, MatchResults(stack, tokenId, LookaheadEntry(sm, r.entry.param, tokenId))))
    case Reduce =>
      if r.entry.param >= |sm.rules| then Undefined
      else
        var rule := sm.rules[r.entry.param];
        if |rule.rhs| >= |r.stack| then Undefined
        else
          var stack := r.stack[..|r.stack| - |rule.rhs|];
          Defined(Config(c.lx, MatchResults(stack, rule.lhs, At(sm, stack[|stack| - 1], rule.lhs))))
    case GoTo =>
      var stack := r.stack + [r.entry.param];
      var tokenId := Current(c.lx).id;
      Defined(Config(c.lx, MatchResults(stack, tokenId, At(sm, r.entry.param, tokenId))))
    case Accept =>
      if r.entry.param >= |sm.rules| then Undefined
      else
        var size := |sm.rules[r.entry.param].rhs|;
        if size > |r.stack| then Undefined
        else Defined(Config(c.lx, r.(stack := r.stack[..|r.stack| - size])))
  }

  /** The `lookup` overload that maintains the token vector. */
  function TokenStep(sm: Machine, c: TokenConfig): (o: Behaviour<TokenConfig>)
    // a shift also records the lexeme it consumed
    ensures c.r.entry.action == Shift ==>
      o.Defined? && o.value.productions == c.productions + [Current(c.lx)]
    // a reduce replaces the rhs tokens with one token for the lhs spanning them all
    ensures c.r.entry.action == Reduce && o.Defined? ==>
      c.r.entry.param < |sm.rules| &&
      var rule := sm.rules[c.r.entry.param];
      var n := |rule.rhs|;
      n <= |c.productions| &&
      |o.value.productions| == |c.productions| - n + 1 &&
      o.value.productions[..|c.productions| - n] == c.productions[..|c.productions| - n] &&
      o.value.productions[|c.productions| - n] ==
        (if n > 0 then Token(rule.lhs, c.productions[|c.productions| - n].first, c.productions[|c.productions| - 1].second)
         else Token(rule.lhs, Current(c.lx).first, Current(c.lx).first))
    // every other action leaves the token vector alone
    ensures c.r.entry.action in {Error, GoTo, Accept} && o.Defined? ==> o.value.productions == c.productions
  {
    var r := c.r;
    match r.entry.action
    case Shift =>
      var tok := Current(c.lx);
      var s := Step(sm, Config(c.lx, r)).value;
      Defined(TokenConfig(s.lx, s.r, c.productions + [tok]))
    case Reduce =>
      if r.entry.param >= |sm.rules| then Undefined
      else
        var rule := sm.rules[r.entry.param];
        var n := |rule.rhs|;
        if n >= |r.stack| || n > |c.productions| then Undefined
        else
          var span := if n > 0 then Token(rule.lhs, c.productions[|c.productions| - n].first, c.productions[|c.productions| - 1].second)
                      else Token(rule.lhs, Current(c.lx).first, Current(c.lx).first);
          var s := Step(sm, Config(c.lx, r)).value;
          Defined(TokenConfig(s.lx, s.r, c.productions[..|c.productions| - n] + [span]))
    case _ =>
      match Step(sm, Config(c.lx, r))
      case Undefined => Undefined
      case Defined(s) => Defined(TokenConfig(s.lx, s.r, c.productions))
  }

  /** Both overloads move the parser identically; the token vector adds only the extra
      requirement that a reduce finds its rhs tokens. */
  lemma TokenStepAgreesWithStep(sm: Machine, c: TokenConfig)
    ensures TokenStep(sm, c).Defined? ==>
      Step(sm, Config(c.lx, c.r)) == Defined(Config(TokenStep(sm, c).value.lx, TokenStep(sm, c).value.r))
    ensures Step(sm, Config(c.lx, c.r)).Defined? && |c.r.stack| <= |c.productions| + 1 ==> TokenStep(sm, c).Defined?
  {
  }

  /** Stack/token-vector balance: the stack holds one more entry than the token vector
      (the start state), except right after a reduce, when the pending goto has not yet
      pushed the lhs's state. */
  lemma StepKeepsBalance(sm: Machine, c: TokenConfig)
    requires TokenStep(sm, c).Defined?
    ensures |c.r.stack| == |c.productions| + 1 && c.r.entry.action == Shift ==>
      |TokenStep(sm, c).value.r.stack| == |TokenStep(sm, c).value.productions| + 1
    ensures |c.r.stack| == |c.productions| + 1 && c.r.entry.action == Reduce ==>
      |TokenStep(sm, c).value.r.stack| == |TokenStep(sm, c).value.productions|
    ensures |c.r.stack| == |c.productions| && c.r.entry.action == GoTo ==>
      |TokenStep(sm, c).value.r.stack| == |TokenStep(sm, c).value.productions| + 1
  {
  }
}

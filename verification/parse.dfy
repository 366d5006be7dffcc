/** `parse`: run the LR runtime over the whole input until it stops on an error or
    reaches accept. The C++ loop has no bound, so the model takes a fuel argument. */
module Parse {
  import opened Wrappers
  import opened ParserStateMachine
  import opened TokenStream
  import opened MatchResults
  import opened Lookup

  /** One pass of the loop body before the accept test. Unlike `lookup`, a shift moves the
      lexer on whenever the current lexeme is not end of input. */
  function LoopBody(sm: Machine, c: Config): (o: Behaviour<Config>)
    ensures o.Defined? ==> AdvancedWithinInput(c.lx, o.value.lx)
    ensures o.Defined? ==> |o.value.r.stack| > 0 || c.r.entry.action == Error || c.r.entry.action == Accept
    ensures c.r.entry.action == Shift ==>
      o.Defined? &&
      o.value.r.stack == c.r.stack + [c.r.entry.param] &&
      (o.value.lx.pos == c.lx.pos + 1 <==> Current(c.lx).id != 0) &&
      (Current(o.value.lx).id == Npos ==> o.value.r.entry == Entry(Error, UnknownToken))
  {
    var r := c.r;
    match r.entry.action
    case Shift =>
      var lx := if Current(c.lx).id != 0 then Next(c.lx) else c.lx;
      var tokenId := Current(lx).id;
      var stack := r.stack + [r.entry.param];
      Defined(Config(lx, MatchResults(stack, tokenId, LookaheadEntry(sm, r.entry.param, tokenId))))
    case Reduce => Step(sm, c)
    case GoTo => Step(sm, c)
    case _ => Defined(c)
  }

  /** The final pop done when the loop meets `accept`. */
  function PopAccepted(sm: Machine, c: Config): (o: Behaviour<Config>)
  {
    if c.r.entry.param >= |sm.rules| then Undefined
    else
      var size := |sm.rules[c.r.entry.param].rhs|;
      if size > |c.r.stack| then Undefined
      else Defined(Config(c.lx, c.r.(stack := c.r.stack[..|c.r.stack| - size])))
  }

  /** Returns whether the parse accepted, and the final configuration. */
  function Parse(sm: Machine, c: Config, fuel: nat): (o: Outcome<(bool, Config)>)
    ensures o.Returned? || o.Crashed? || o.OutOfFuel?
    decreases fuel
  {
    if c.r.entry.action == Error then Returned((false, c))
    else if fuel == 0 then OutOfFuel
    else
      match LoopBody(sm, c)
      case Undefined => Crashed
      case Defined(c1) =>
        if c1.r.entry.action == Accept then
          match PopAccepted(sm, c1)
          case Undefined => Crashed
          case Defined(c2) => Returned((true, c2))
        else Parse(sm, c1, fuel - 1)
  }

  /** `parse` returns true exactly when it stops at accept, and it only ever stops at
      error or accept. */
  lemma {:induction false} ParseStopsAtErrorOrAccept(sm: Machine, c: Config, fuel: nat)
    ensures Parse(sm, c, fuel).Returned? ==>
      var f := Parse(sm, c, fuel).value.1;
      (Parse(sm, c, fuel).value.0 <==> f.r.entry.action == Accept) &&
      (f.r.entry.action == Error || f.r.entry.action == Accept)
    decreases fuel
  {
    if c.r.entry.action != Error && fuel > 0 {
      match LoopBody(sm, c)
      case Undefined =>
      case Defined(c1) =>
        if c1.r.entry.action != Accept {
          ParseStopsAtErrorOrAccept(sm, c1, fuel - 1);
        }
    }
  }

  /** The lexer is never advanced over the end-of-input token. */
  lemma {:induction false} ParseNeverPassesEoi(sm: Machine, c: Config, fuel: nat)
    ensures Parse(sm, c, fuel).Returned? ==> AdvancedWithinInput(c.lx, Parse(sm, c, fuel).value.1.lx)
    decreases fuel
  {
    if c.r.entry.action != Error && fuel > 0 {
      match LoopBody(sm, c)
      case Undefined =>
      case Defined(c1) =>
        if c1.r.entry.action == Accept {
        } else {
          ParseNeverPassesEoi(sm, c1, fuel - 1);
          if Parse(sm, c, fuel).Returned? {
            AdvancedWithinInputTransitive(c.lx, c1.lx, Parse(sm, c, fuel).value.1.lx);
          }
        }
    }
  }

  /** More fuel never changes an outcome that was reached. */
  lemma {:induction false} ParseFuelMonotone(sm: Machine, c: Config, fuel: nat, more: nat)
    requires fuel <= more
    requires !Parse(sm, c, fuel).OutOfFuel?
    ensures Parse(sm, c, more) == Parse(sm, c, fuel)
    decreases fuel
  {
    if c.r.entry.action != Error && fuel > 0 {
      match LoopBody(sm, c)
      case Undefined =>
      case Defined(c1) =>
        if c1.r.entry.action != Accept {
          ParseFuelMonotone(sm, c1, fuel - 1, more - 1);
        }
    }
  }

  /** While the lookahead is the current lexeme (true after every shift and goto), a loop
      pass of `parse` is exactly one `lookup` step. */
  lemma LoopBodyIsLookup(sm: Machine, c: Config)
    requires c.r.entry.action in {Shift, Reduce, GoTo}
    requires c.r.tokenId == Current(c.lx).id
    ensures LoopBody(sm, c) == Step(sm, c)
  {
  }
}

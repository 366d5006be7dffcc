/** The parser runtime state (`match_results`): the LR stack of states, the current
    lookahead symbol id and the table entry that says what to do next. */
module MatchResults {
  import opened Wrappers
  import opened ParserStateMachine

  datatype MatchResults = MatchResults(stack: seq<nat>, tokenId: nat, entry: Entry)

  /** The default-constructed state: only the start state on the stack, no lookahead,
      and the default (syntax error) entry. */
  const Initial: MatchResults := MatchResults([0], Npos, DefaultEntry)

  /** `clear`: back to the default-constructed state, whatever the state was. */
  function Clear(r: MatchResults): (c: MatchResults)
    ensures c.stack == [0] && c.tokenId == Npos
    ensures c.entry.action == Error && c.entry.param == SyntaxError
  {
    Initial
  }

  /** `reset` (and the `(token_id, sm)` constructor): restart at state 0 with lookahead
      `tokenId`; an unrecognised lookahead is an immediate `unknown_token` error, otherwise
      the entry is the table cell of state 0 for that lookahead. */
  function Reset(tokenId: nat, sm: Machine): (r: MatchResults)
    ensures r.stack == [0] && r.tokenId == tokenId
    ensures tokenId == Npos ==> r.entry == Entry(Error, UnknownToken)
    ensures tokenId != Npos ==> r.entry == At(sm, 0, tokenId)
  {
    MatchResults([0], tokenId, if tokenId == Npos then Entry(Error, UnknownToken) else At(sm, 0, tokenId))
  }

  /** `reduce_id`: the rule being reduced by; throws outside a reduce. */
  function ReduceId(r: MatchResults): (res: Result<nat>)
    ensures res.Success? <==> r.entry.action == Reduce
    ensures res.Success? ==> res.value == r.entry.param
    ensures res.Failure? ==> res.error == "Not in a reduce state!"
  {
    if r.entry.action != Reduce then Failure("Not in a reduce state!") else Success(r.entry.param)
  }

  /** `production_size`: the rhs length of rule `index`; reading past the rule list is
      undefined. */
  function ProductionSize(sm: Machine, index: nat): (n: Behaviour<nat>)
    ensures n.Defined? <==> index < |sm.rules|
    ensures n.Defined? ==> n.value == |sm.rules[index].rhs|
  {
    if index < |sm.rules| then Defined(|sm.rules[index].rhs|) else Undefined
  }

  /** `dollar(index)`: the `index`-th rhs symbol's token of the rule being reduced, read from
      the top of the production (token) vector. Throws outside a reduce; reading outside the
      token vector, or by a rule that does not exist, is undefined. */
  function Dollar<T>(r: MatchResults, sm: Machine, index: nat, productions: seq<T>): (res: Behaviour<Result<T>>)
    ensures r.entry.action != Reduce ==> res == Defined(Failure("Not in a reduce state!"))
    ensures r.entry.action == Reduce && r.entry.param < |sm.rules| ==>
              (res.Defined? <==> index < |sm.rules[r.entry.param].rhs| <= |productions| + index)
    ensures res.Defined? && res.value.Success? ==>
              r.entry.param < |sm.rules| &&
              var k := |productions| - |sm.rules[r.entry.param].rhs| + index;
              0 <= k < |productions| && res.value.value == productions[k]
  {
    if r.entry.action != Reduce then Defined(Failure("Not in a reduce state!"))
    else
      match ProductionSize(sm, r.entry.param)
      case Undefined => Undefined
      case Defined(size) =>
        var k := |productions| - size + index;
        if 0 <= k < |productions| then Defined(Success(productions[k])) else Undefined
  }

  /** `$i` while reducing is the i-th of the rhs tokens on top of the token vector. */
  lemma DollarReadsRhs<T>(r: MatchResults, sm: Machine, below: seq<T>, rhs: seq<T>, i: nat)
    requires r.entry.action == Reduce && r.entry.param < |sm.rules|
    requires |rhs| == |sm.rules[r.entry.param].rhs|
    requires i < |rhs|
    ensures Dollar(r, sm, i, below + rhs) == Defined(Success(rhs[i]))
  {
    assert (below + rhs)[|below| + i] == rhs[i];
  }
}

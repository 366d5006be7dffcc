/** `fill_entry`: the table generator's decision for a slot that already holds an entry
    when another one wants it, resolving shift/reduce and reduce/reduce conflicts the way
    yacc does, by precedence and associativity. A conflict the rules cannot settle keeps
    the entry already there and is reported; the report's text is not modelled, only the
    fact that there is one. */
module FillEntry {
  import opened Wrappers
  import opened ParserStateMachine
  import opened Grammar

  /** The slot's entry afterwards, whether `fill_entry` changed it, and whether it reported a
      conflict. */
  datatype Fill = Fill(entry: Entry, modified: bool, conflict: bool)

  /** The precedence of an entry in column `id`: a shift takes its token's, a reduce its
      production's, anything else 0. Reading past the token or production lists is
      undefined. */
  function PrecedenceOf(e: Entry, id: nat, infos: seq<TokenInfo>, g: seq<Production>): (p: Behaviour<nat>)
    ensures e.action == Shift ==> (p.Defined? <==> id < |infos|)
    ensures e.action == Reduce ==> (p.Defined? <==> e.param < |g|)
    ensures e.action != Shift && e.action != Reduce ==> p == Defined(0)
    ensures p.Defined? && e.action == Shift ==> p.value == infos[id].precedence
    ensures p.Defined? && e.action == Reduce ==> p.value == g[e.param].precedence
  {
    match e.action
    case Shift => if id < |infos| then Defined(infos[id].precedence) else Undefined
    case Reduce => if e.param < |g| then Defined(g[e.param].precedence) else Undefined
    case _ => Defined(0)
  }

  /** A slot nothing has claimed yet. */
  predicate Vacant(e: Entry) {
    e == DefaultEntry
  }

  /** The newest `fill_entry`: slot `lhs` in column `id` is claimed by `rhs`. */
  function Resolve(lhs: Entry, id: nat, rhs: Entry, infos: seq<TokenInfo>, g: seq<Production>)
    : (o: Behaviour<Fill>)
    // an empty slot takes the new entry silently
    ensures Vacant(lhs) ==> o == Defined(Fill(rhs, true, false))
    // a slot already settled to an error by associativity is a conflict, and kept
    ensures lhs.action == Error && !Vacant(lhs) ==> o == Defined(Fill(lhs, false, true))
    ensures lhs.action != Error ==> (o.Defined? <==>
      id < |infos| && PrecedenceOf(lhs, id, infos, g).Defined? && PrecedenceOf(rhs, id, infos, g).Defined?)
    // shift/reduce: precedence 0 on either side favours the shift, with a report
    ensures (o.Defined? && lhs.action == Shift && rhs.action == Reduce &&
             (infos[id].precedence == 0 || g[rhs.param].precedence == 0))
            ==> o.value == Fill(lhs, false, true)
    // shift/reduce at equal precedence: the token's associativity decides
    ensures (o.Defined? && lhs.action == Shift && rhs.action == Reduce &&
             infos[id].precedence == g[rhs.param].precedence != 0)
            ==> o.value == match infos[id].assoc
        case LeftAssoc => Fill(rhs, true, false)
        case NonAssoc => Fill(Entry(Error, NonAssociative), true, false)
        case PrecedenceAssoc => Fill(lhs, false, true)
        case _ => Fill(lhs, false, false)
    // reduce/reduce: no precedence, or the same, keeps the first rule with a report
    ensures (o.Defined? && lhs.action == Reduce && rhs.action == Reduce &&
             (g[lhs.param].precedence == 0 || g[rhs.param].precedence == 0 ||
              g[lhs.param].precedence == g[rhs.param].precedence))
            ==> o.value == Fill(lhs, false, true)
    // any other pair of actions is a conflict, and the first entry stays
    ensures (o.Defined? && lhs.action != Error && !(lhs.action == Shift && rhs.action == Reduce) &&
             !(lhs.action == Reduce && rhs.action == Reduce))
            ==> o.value == Fill(lhs, false, true)
  {
    if lhs.action == Error then
      if lhs.param == SyntaxError then Defined(Fill(rhs, true, false)) else Defined(Fill(lhs, false, true))
    else if id >= |infos| then Undefined
    else
      var lp :- PrecedenceOf(lhs, id, infos, g);
      var rp :- PrecedenceOf(rhs, id, infos, g);
      if lhs.action == Shift && rhs.action == Reduce then
        if lp == 0 || rp == 0 then Defined(Fill(lhs, false, true))
        else if lp == rp then
          match infos[id].assoc
          case PrecedenceAssoc => Defined(Fill(lhs, false, true))
          case NonAssoc => Defined(Fill(Entry(Error, NonAssociative), true, false))
          case LeftAssoc => Defined(Fill(rhs, true, false))
          case _ => Defined(Fill(lhs, false, false))
        else if rp > lp then Defined(Fill(rhs, true, false))
        else Defined(Fill(lhs, false, false))
      else if lhs.action == Reduce && rhs.action == Reduce then
        if lp == 0 || rp == 0 || lp == rp then Defined(Fill(lhs, false, true))
        else if rp > lp then Defined(Fill(rhs, true, false))
        else Defined(Fill(lhs, false, false))
      else Defined(Fill(lhs, false, true))
  }

  /** Whatever the case, the slot ends up holding the old entry, the new one, or the
      non-associative error; it is marked modified exactly when it no longer holds the old
      entry (or took a new entry into an empty slot), and a conflict is only ever reported
      when the old entry is kept. */
  lemma ResolveKeepsOrReplaces(lhs: Entry, id: nat, rhs: Entry, infos: seq<TokenInfo>, g: seq<Production>)
    ensures var o := Resolve(lhs, id, rhs, infos, g);
      o.Defined? ==>
        && (o.value.entry == lhs || o.value.entry == rhs || o.value.entry == Entry(Error, NonAssociative))
        && (!o.value.modified ==> o.value.entry == lhs)
        && (o.value.modified && o.value.entry != rhs ==> o.value.entry == Entry(Error, NonAssociative))
        && (o.value.conflict ==> !o.value.modified && o.value.entry == lhs)
  {
  }

  /** The yacc rule shared by both kinds of conflict: when both sides have a precedence and
      they differ, the higher one wins, silently. */
  lemma HigherPrecedenceWins(lhs: Entry, id: nat, rhs: Entry, infos: seq<TokenInfo>, g: seq<Production>)
    requires rhs.action == Reduce && (lhs.action == Shift || lhs.action == Reduce)
    requires Resolve(lhs, id, rhs, infos, g).Defined?
    requires PrecedenceOf(lhs, id, infos, g).value != 0 && PrecedenceOf(rhs, id, infos, g).value != 0
    requires PrecedenceOf(lhs, id, infos, g).value != PrecedenceOf(rhs, id, infos, g).value
    ensures var winner := if PrecedenceOf(rhs, id, infos, g).value > PrecedenceOf(lhs, id, infos, g).value
                          then rhs else lhs;
      Resolve(lhs, id, rhs, infos, g).value == Fill(winner, winner == rhs, false)
  {
  }

  /** The older `fill_entry`: it changes the slot in place and reports a conflict only when
      the caller asked for warnings. Returns the slot's entry and whether a report was
      added. */
  function ResolveOld(lhs: Entry, id: nat, rhs: Entry, infos: seq<TokenInfo>, g: seq<Production>, warnings: bool)
    : (o: Behaviour<(Entry, bool)>)
    ensures o.Defined? && o.value.1 ==> warnings
  {
    if lhs.action == Error then
      if lhs.param == SyntaxError then Defined((rhs, false)) else Defined((lhs, warnings))
    else if id >= |infos| then Undefined
    else
      var lp :- PrecedenceOf(lhs, id, infos, g);
      var rp :- PrecedenceOf(rhs, id, infos, g);
      if lhs.action == Shift && rhs.action == Reduce then
        if lp == 0 || rp == 0 then Defined((lhs, warnings))
        else if lp == rp then
          match infos[id].assoc
          case PrecedenceAssoc => Defined((lhs, warnings))
          case NonAssoc => Defined((Entry(Error, NonAssociative), false))
          case LeftAssoc => Defined((rhs, false))
          case _ => Defined((lhs, false))
        else if rp > lp then Defined((rhs, false))
        else Defined((lhs, false))
      else if lhs.action == Reduce && rhs.action == Reduce then
        if lp == 0 || rp == 0 || lp == rp then Defined((lhs, warnings))
        else if rp > lp then Defined((rhs, false))
        else Defined((lhs, false))
      else Defined((lhs, warnings))
  }

  /** The two generations settle every slot alike; the older one reports exactly the
      conflicts the newer one does, when asked to. */
  lemma ResolveOldAgrees(lhs: Entry, id: nat, rhs: Entry, infos: seq<TokenInfo>, g: seq<Production>, warnings: bool)
    ensures ResolveOld(lhs, id, rhs, infos, g, warnings).Defined? <==> Resolve(lhs, id, rhs, infos, g).Defined?
    ensures Resolve(lhs, id, rhs, infos, g).Defined? ==>
      ResolveOld(lhs, id, rhs, infos, g, warnings).value ==
      (Resolve(lhs, id, rhs, infos, g).value.entry, warnings && Resolve(lhs, id, rhs, infos, g).value.conflict)
  {
  }
}

/** `basic_generator::build`, both generations: from a validated grammar, the LR(0)
    automaton, the rewritten grammar, nullability, FIRST and FOLLOW, the action table and
    the runtime rules. The stages are returned alongside the table so that what each one
    guarantees can be stated about the result. */
module Generator {
  import opened Wrappers
  import opened ParserStateMachine
  import opened ProductionChains
  import opened Grammar
  import opened Lr0
  import opened Rewrite
  import opened BitSet
  import opened Fixpoints
  import opened BuildTable

  /** Every terminal on a rhs is one of the `terminals` the registry has information for. */
  predicate TerminalsIn(g: seq<Production>, terminals: nat) {
    forall k, j :: 0 <= k < |g| && 0 <= j < |g[k].rhs| && g[k].rhs[j].kind == Terminal ==> g[k].rhs[j].id < terminals
  }

  /** What `validate()` leaves for the generator: chained alternatives, and every symbol on
      a rhs registered. */
  predicate Validated(g: seq<Production>, locs: seq<Location>, terminals: nat) {
    GrammarOk(g, locs) && TerminalsIn(g, terminals)
  }

  /** `copy_rules`: each production as the runtime's rule, symbols numbered as table
      columns and cut to `id_type`. */
  function CopyRules(g: seq<Production>, terminals: nat): (rs: seq<Rule>)
    ensures |rs| == |g|
  {
    seq(|g|, k requires 0 <= k < |g| =>
      Rule(AsId(terminals + g[k].lhs),
           seq(|g[k].rhs|, j requires 0 <= j < |g[k].rhs| => AsId(Column(terminals, g[k].rhs[j])))))
  }

  /** The runtime reduces by a copied rule exactly as the grammar says: it pops as many
      states as the production has rhs symbols, takes the goto on the lhs's column, and
      each rhs entry is the column of its symbol, all while the columns fit in `id_type`. */
  lemma CopyRulesAgree(g: seq<Production>, locs: seq<Location>, terminals: nat, k: nat)
    requires Validated(g, locs, terminals) && terminals + |locs| <= IdRange && k < |g|
    ensures var rs := CopyRules(g, terminals);
      && |rs[k].rhs| == |g[k].rhs|
      && rs[k].lhs == terminals + g[k].lhs
      && forall j :: 0 <= j < |g[k].rhs| ==> rs[k].rhs[j] == Column(terminals, g[k].rhs[j]) < terminals + |locs|
  {
    ChainLhsIn(g, locs, k);
  }

  /** A production's lhs has a location. */
  lemma ChainLhsIn(g: seq<Production>, locs: seq<Location>, k: nat)
    requires GrammarOk(g, locs) && k < |g|
    ensures g[k].lhs < |locs|
  {
    assert Links(g)[k].lhs == g[k].lhs;
  }

  /** Every stage of `build`, kept for what the result is stated in terms of. */
  datatype Stages = Stages(
    dfa: seq<State>,
    rewritten: Rewritten,
    nullable: seq<bool>,
    first: seq<seq<bool>>,
    follow: seq<seq<bool>>,
    rows: seq<seq<Entry>>,
    conflicts: seq<Conflict>)

  /** FOLLOW before the fixpoint: empty, but for end of input after the new start. */
  function InitialFollow(n: nat, terminals: nat, start: nat): (init: seq<seq<bool>>)
    requires start < n && terminals > 0
    ensures Shape(init, n, terminals)
    ensures forall a, t :: 0 <= a < n && 0 <= t < terminals ==> (init[a][t] <==> a == start && t == 0)
  {
    var sets := EmptySets(n, terminals);
    sets[start := sets[start][0 := true]]
  }

  /** The new grammar is within its keys and the original terminals. */
  lemma RewrittenIn(g: seq<Production>, dfa: seq<State>, terminals: nat, start: nat, keys: seq<Key>, ng: seq<Prod>)
    requires TargetsOk(dfa) && ProdsOk(g, dfa, terminals, start, keys, ng) && TerminalsIn(g, terminals)
    ensures GrammarIn(ng, |keys|, terminals) && LhsIn(ng, |keys|)
  {
    forall i | 0 <= i < |ng| ensures ProdIn(ng[i], |keys|, terminals) {
      var p := ng[i];
      assert ProdOk(g, dfa, terminals, start, keys, p);
      forall j | 0 <= j < |p.rhs| ensures SymbolIn(p.rhs[j], |keys|, terminals) {
        assert Renames(keys, g[p.production].rhs, p.rhs);
      }
    }
  }

  /** Every state of the automaton of a validated grammar meets what its row needs. */
  lemma RowsReady(g: seq<Production>, locs: seq<Location>, terminals: nat, dfa: seq<State>, ng: seq<Prod>,
                  follow: seq<seq<bool>>, infos: seq<TokenInfo>)
    requires Validated(g, locs, terminals) && terminals == |infos| && DfaOk(g, terminals, dfa)
    requires LhsIn(ng, |follow|) && Shape(follow, |follow|, terminals)
    ensures forall s :: 0 <= s < |dfa| ==> RowInputsOk(dfa[s], terminals + |locs|, g, ng, follow, infos)
  {
    forall k | 0 <= k < |g| ensures g[k].index < |g| {
      assert Links(g)[k].index == k;
    }
    forall s | 0 <= s < |dfa| ensures RowInputsOk(dfa[s], terminals + |locs|, g, ng, follow, infos) {
      assert StateOk(g, terminals, dfa, s);
      var st := dfa[s];
      forall t | 0 <= t < |st.transitions| ensures st.transitions[t].0 < terminals + |locs| {
        var col := st.transitions[t].0;
        assert HasTransition(st.transitions, col);
        assert Shifts(g, terminals, st.closure, col);
        var j :| 0 <= j < |st.closure| && ShiftsOn(g, terminals, st.closure[j], col);
        var it := st.closure[j];
        var sym := g[it.0].rhs[it.1];
        assert RhsOk(g[it.0].rhs, |locs|);
      }
    }
  }

  /** Nullability, FIRST and FOLLOW of the rewritten grammar `ng` with `n` non-terminals are
      the least solutions of their equations, FOLLOW starting from end of input after the
      new start. */
  ghost predicate LookaheadsOk(ng: seq<Prod>, n: nat, terminals: nat, newStart: nat,
                               nullable: seq<bool>, first: seq<seq<bool>>, follow: seq<seq<bool>>)
  {
    && newStart < n && terminals > 0
    && |nullable| == n && NullableClosed(ng, nullable) && LeastNullable(ng, nullable)
    && Shape(first, n, terminals) && FirstClosed(ng, nullable, first) && LeastFirst(ng, nullable, first, terminals)
    && Shape(follow, n, terminals) && follow[newStart][0]
    && FollowClosed(ng, nullable, first, follow)
    && LeastFollow(ng, nullable, first, InitialFollow(n, terminals, newStart), follow, terminals)
  }

  /** `build_first_sets`, end of input into FOLLOW of the new start, `build_follow_sets`. */
  method Lookaheads(ng: seq<Prod>, n: nat, terminals: nat, newStart: nat)
    returns (nullable: seq<bool>, first: seq<seq<bool>>, follow: seq<seq<bool>>)
    requires GrammarIn(ng, n, terminals) && newStart < n && terminals > 0
    ensures LookaheadsOk(ng, n, terminals, newStart, nullable, first, follow)
  {
    RewrittenLhs(ng, n, terminals);
    nullable := Nullables(ng, n);
    first := Firsts(ng, nullable, terminals);
    var init := InitialFollow(n, terminals, newStart);
    follow := Follows(ng, nullable, first, init, terminals);
    assert follow[newStart][0] by {
      assert Le(init[newStart], follow[newStart]);
      assert 0 in Members(init[newStart]);
    }
  }

  lemma RewrittenLhs(ng: seq<Prod>, n: nat, terminals: nat)
    requires GrammarIn(ng, n, terminals)
    ensures LhsIn(ng, n)
  {
    forall k | 0 <= k < |ng| ensures ng[k].lhs < n {
      assert ProdIn(ng[k], n, terminals);
    }
  }

  /** The automaton and the rewritten grammar of a validated grammar. */
  ghost predicate AutomatonStagesOk(g: seq<Production>, locs: seq<Location>, terminals: nat, start: nat,
                                    dfa: seq<State>, rw: Rewritten)
  {
    && GrammarOk(g, locs) && DfaOk(g, terminals, dfa) && InitialBasis(g, locs, start).Defined?
    && dfa[0].basis == InitialBasis(g, locs, start).value
    && AutomatonOk(g, dfa) && rw == Rewrite.Rewrite(g, dfa, terminals, start)
    && GrammarIn(rw.grammar, |rw.keys|, terminals)
  }

  /** The rows are the ones `build_table` builds from the automaton and FOLLOW sets. */
  ghost predicate RowsOk(g: seq<Production>, locs: seq<Location>, infos: seq<TokenInfo>, start: nat, gen: Generation,
                         st: Stages)
  {
    && LhsIn(st.rewritten.grammar, |st.follow|) && Shape(st.follow, |st.follow|, |infos|)
    && (forall s :: 0 <= s < |st.dfa| ==> RowInputsOk(st.dfa[s], |infos| + |locs|, g, st.rewritten.grammar, st.follow, infos))
    && BuildRows(st.dfa, 0, |infos| + |locs|, g, st.rewritten.grammar, st.follow, start, infos, gen)
       == Defined((st.rows, st.conflicts))
  }

  /** The table stages of `build` on a validated grammar, for generation `gen`. The start
      rule's first production must exist (`build_dfa` reads it), the rewritten start must
      have been found and there must be a terminal (`build` sets end of input in its FOLLOW
      set); otherwise the behaviour is undefined. On return, the automaton is the LR(0)
      automaton from the start rule, nullability, FIRST and FOLLOW are the least solutions
      of their equations over the rewritten grammar, with end of input following the new
      start, and each row is the one the state's transitions and completed items build. */
  method Tables(g: seq<Production>, locs: seq<Location>, infos: seq<TokenInfo>, start: nat, gen: Generation, fuel: nat)
    returns (o: Outcome<Stages>)
    requires Validated(g, locs, |infos|)
    ensures InitialBasis(g, locs, start).Undefined? ==> o == Crashed
    ensures |infos| == 0 ==> o == Crashed || o == OutOfFuel
    ensures !o.Threw?
    ensures o.Returned? ==> AutomatonStagesOk(g, locs, |infos|, start, o.value.dfa, o.value.rewritten)
    ensures o.Returned? ==>
      && LookaheadsOk(o.value.rewritten.grammar, |o.value.rewritten.keys|, |infos|, o.value.rewritten.start,
                      o.value.nullable, o.value.first, o.value.follow)
      && o.value.rewritten.keys[o.value.rewritten.start] == (start, (0, 0))
    ensures o.Returned? ==> RowsOk(g, locs, infos, start, gen, o.value)
  {
    var d := BuildDfa(g, locs, |infos|, start, fuel);
    if !d.Returned? {
      return match d case Crashed => Crashed case _ => OutOfFuel;
    }
    o := TablesFrom(g, locs, infos, start, gen, d.value);
  }

  /** The stages of `build` after `build_dfa`. */
  method TablesFrom(g: seq<Production>, locs: seq<Location>, infos: seq<TokenInfo>, start: nat, gen: Generation,
                    dfa: seq<State>)
    returns (o: Outcome<Stages>)
    requires Validated(g, locs, |infos|) && DfaOk(g, |infos|, dfa)
    requires InitialBasis(g, locs, start).Defined? && dfa[0].basis == InitialBasis(g, locs, start).value
    ensures |infos| == 0 ==> o == Crashed
    ensures o.Returned? || o.Crashed?
    ensures o.Returned? ==> AutomatonStagesOk(g, locs, |infos|, start, o.value.dfa, o.value.rewritten) && o.value.dfa == dfa
    ensures o.Returned? ==>
      && LookaheadsOk(o.value.rewritten.grammar, |o.value.rewritten.keys|, |infos|, o.value.rewritten.start,
                      o.value.nullable, o.value.first, o.value.follow)
      && o.value.rewritten.keys[o.value.rewritten.start] == (start, (0, 0))
    ensures o.Returned? ==> RowsOk(g, locs, infos, start, gen, o.value)
  {
    DfaIsAutomaton(g, |infos|, dfa);
    var rw := Rewrite.Rewrite(g, dfa, |infos|, start);
    RewrittenIn(g, dfa, |infos|, start, rw.keys, rw.grammar);
    assert AutomatonStagesOk(g, locs, |infos|, start, dfa, rw);
    if rw.start == Npos || |infos| == 0 {
      return Crashed;
    }
    var st := TablesOf(g, locs, infos, start, gen, dfa, rw);
    o := Returned(st);
  }

  /** The stages of `build` after `rewrite`. */
  method TablesOf(g: seq<Production>, locs: seq<Location>, infos: seq<TokenInfo>, start: nat, gen: Generation,
                  dfa: seq<State>, rw: Rewritten)
    returns (st: Stages)
    requires Validated(g, locs, |infos|) && AutomatonStagesOk(g, locs, |infos|, start, dfa, rw)
    requires rw.start != Npos && |infos| > 0
    ensures st.dfa == dfa && st.rewritten == rw
    ensures LookaheadsOk(rw.grammar, |rw.keys|, |infos|, rw.start, st.nullable, st.first, st.follow)
    ensures RowsOk(g, locs, infos, start, gen, st)
  {
    var nullable, first, follow := Lookaheads(rw.grammar, |rw.keys|, |infos|, rw.start);
    RewrittenLhs(rw.grammar, |follow|, |infos|);
    TableDefined(g, locs, dfa, rw.grammar, follow, infos, start, gen);
    var rows := BuildRows(dfa, 0, |infos| + |locs|, g, rw.grammar, follow, start, infos, gen).value;
    st := Stages(dfa, rw, nullable, first, follow, rows.0, rows.1);
  }

  /** The table of a validated grammar's automaton can always be built. */
  lemma TableDefined(g: seq<Production>, locs: seq<Location>, dfa: seq<State>, ng: seq<Prod>, follow: seq<seq<bool>>,
                     infos: seq<TokenInfo>, start: nat, gen: Generation)
    requires Validated(g, locs, |infos|) && DfaOk(g, |infos|, dfa)
    requires LhsIn(ng, |follow|) && Shape(follow, |follow|, |infos|)
    ensures forall s :: 0 <= s < |dfa| ==> RowInputsOk(dfa[s], |infos| + |locs|, g, ng, follow, infos)
    ensures BuildRows(dfa, 0, |infos| + |locs|, g, ng, follow, start, infos, gen).Defined?
  {
    RowsReady(g, locs, |infos|, dfa, ng, follow, infos);
    forall s | 0 <= s < |dfa| ensures BuildRow(dfa[s], s, |infos| + |locs|, g, ng, follow, start, infos, gen).Defined? {
      BuildRowOk(dfa[s], s, |infos| + |locs|, g, ng, follow, start, infos, gen);
    }
    BuildRowsDefined(dfa, 0, |infos| + |locs|, g, ng, follow, start, infos, gen);
  }

  /** Building the rows is defined when every row is. */
  lemma {:induction false} BuildRowsDefined(dfa: seq<State>, s: nat, columns: nat, g: seq<Production>, ng: seq<Prod>,
                                            follow: seq<seq<bool>>, start: nat, infos: seq<TokenInfo>, gen: Generation)
    requires s <= |dfa| && forall k :: 0 <= k < |dfa| ==> RowInputsOk(dfa[k], columns, g, ng, follow, infos)
    requires forall k :: 0 <= k < |dfa| ==> BuildRow(dfa[k], k, columns, g, ng, follow, start, infos, gen).Defined?
    ensures BuildRows(dfa, s, columns, g, ng, follow, start, infos, gen).Defined?
    decreases |dfa| - s
  {
    if s < |dfa| {
      BuildRowsDefined(dfa, s + 1, columns, g, ng, follow, start, infos, gen);
    }
  }

  /** Cell (s, c) of a built table: a syntax error exactly when state `s` has no transition
      on column `c` and `c` is in no completed item's lookahead; otherwise the shift or goto
      of its transition, or a reduce, accept or non-associative error of a completed item
      whose lookahead holds `c`; a goto column holds exactly its transition's goto. */
  lemma TableCells(g: seq<Production>, locs: seq<Location>, infos: seq<TokenInfo>, start: nat, gen: Generation,
                   st: Stages, s: nat, c: nat)
    requires RowsOk(g, locs, infos, start, gen, st) && s < |st.dfa| && c < |infos| + |locs|
    ensures |st.rows| == |st.dfa| && |st.rows[s]| == |infos| + |locs|
    ensures var ts := st.dfa[s].transitions;
      var reduced := Reduced(g, st.rewritten.grammar, st.follow, st.dfa[s].closure, s, 0, |infos|, c);
      var e := st.rows[s][c];
      && (e == DefaultEntry <==> !HasTransition(ts, c) && !reduced)
      && (e != DefaultEntry ==>
            ShiftCell(ts, c, e, |infos|) ||
            ReduceClaims(g, st.rewritten.grammar, st.follow, start, st.dfa[s].closure, s, 0, |infos|, c, e))
      && (c >= |infos| && HasTransition(ts, c) ==> ShiftCell(ts, c, e, |infos|))
  {
    BuildRowOk(st.dfa[s], s, |infos| + |locs|, g, st.rewritten.grammar, st.follow, start, infos, gen);
  }

  // ---------------------------------------------------------------- build

  /** The message of the exception the newer `build` throws when it met conflicts and the
      caller did not ask for them: the conflict report, whose text is not modelled. */
  const ConflictsMessage: string := "conflicts"

  /** The newer `build(rules, sm, warnings)` on a validated grammar. Conflicts are an error
      unless the caller fetches them (`wantWarnings`): then they are handed back and the
      machine is built anyway. The machine holds the built rows, the copied rules and the
      registry's captures. `st` is the outcome of the table stages. */
  method Build(g: seq<Production>, locs: seq<Location>, infos: seq<TokenInfo>, start: nat, captures: seq<CaptureRow>,
               wantWarnings: bool, fuel: nat)
    returns (o: Outcome<Machine>, warnings: seq<Conflict>, st: Outcome<Stages>)
    requires Validated(g, locs, |infos|)
    ensures InitialBasis(g, locs, start).Undefined? ==> o == Crashed
    ensures !st.Returned? ==> o == st.PropagateFailure() && warnings == []
    ensures st.Returned? ==> RowsOk(g, locs, infos, start, Newer, st.value)
    ensures st.Returned? && st.value.conflicts != [] && !wantWarnings ==> o == Threw(ConflictsMessage) && warnings == []
    ensures st.Returned? && (st.value.conflicts == [] || wantWarnings) ==>
      && o == Returned(ToMachine(|infos| + |locs|, st.value.rows, CopyRules(g, |infos|), captures))
      && warnings == st.value.conflicts
  {
    st := Tables(g, locs, infos, start, Newer, fuel);
    warnings := [];
    if !st.Returned? {
      o := st.PropagateFailure();
      return;
    }
    if st.value.conflicts != [] {
      if wantWarnings {
        warnings := st.value.conflicts;
      } else {
        o := Threw(ConflictsMessage);
        return;
      }
    }
    o := Returned(ToMachine(|infos| + |locs|, st.value.rows, CopyRules(g, |infos|), captures));
  }

  /** The rows the older generator builds are the newer generator's, and so are the
      conflicts it reports when asked to. */
  lemma OlderRowsAreNewer(g: seq<Production>, locs: seq<Location>, infos: seq<TokenInfo>, start: nat, w: bool, st: Stages)
    requires RowsOk(g, locs, infos, start, Older(w), st)
    ensures var newer := BuildRows(st.dfa, 0, |infos| + |locs|, g, st.rewritten.grammar, st.follow, start, infos, Newer);
      && newer.Defined? && newer.value.0 == st.rows
      && st.conflicts == (if w then newer.value.1 else [])
  {
    BuildRowsAgree(st.dfa, 0, |infos| + |locs|, g, st.rewritten.grammar, st.follow, start, infos, Older(w));
  }

  /** The older state machine: the flat table, its dimensions and the rules. */
  datatype FlatMachine = FlatMachine(table: seq<Entry>, columns: nat, rows: nat, rules: seq<Rule>)

  /** The older `build(rules, sm, warnings)`: it never throws on conflicts, and reports them
      only when the caller passed somewhere to put them. Its table is the newer one's, laid
      out flat, and the conflicts are the newer one's when reported. */
  method BuildOld(g: seq<Production>, locs: seq<Location>, infos: seq<TokenInfo>, start: nat, wantWarnings: bool,
                  fuel: nat)
    returns (o: Outcome<FlatMachine>, warnings: seq<Conflict>, st: Outcome<Stages>)
    requires Validated(g, locs, |infos|)
    ensures InitialBasis(g, locs, start).Undefined? ==> o == Crashed
    ensures !o.Threw?
    ensures !st.Returned? ==> o == st.PropagateFailure() && warnings == []
    ensures st.Returned? ==> RowsOk(g, locs, infos, start, Older(wantWarnings), st.value)
    ensures st.Returned? ==>
      var newer := BuildRows(st.value.dfa, 0, |infos| + |locs|, g, st.value.rewritten.grammar, st.value.follow,
                             start, infos, Newer);
      && newer.Defined? && newer.value.0 == st.value.rows
      && warnings == (if wantWarnings then newer.value.1 else [])
      && o == Returned(FlatMachine(Flatten(st.value.rows), |infos| + |locs|, |st.value.rows|, CopyRules(g, |infos|)))
  {
    st := Tables(g, locs, infos, start, Older(wantWarnings), fuel);
    warnings := [];
    if !st.Returned? {
      o := st.PropagateFailure();
      return;
    }
    OlderRowsAreNewer(g, locs, infos, start, wantWarnings, st.value);
    warnings := st.value.conflicts;
    o := Returned(FlatMachine(Flatten(st.value.rows), |infos| + |locs|, |st.value.rows|, CopyRules(g, |infos|)));
  }
}

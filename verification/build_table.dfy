/** `build_table`: the LALR(1) action and goto table. Row `s` is state `s` of the LR(0)
    automaton: each transition claims its column for a shift (terminal) or a goto
    (non-terminal), then each completed item claims every terminal of its lookahead for a
    reduce (an accept for the start rule). Each claim goes through `fill_entry`. Rows are
    built independently, as every step of the source touches only the row it is on. */
module BuildTable {
  import opened Wrappers
  import opened ParserStateMachine
  import opened Grammar
  import opened Lr0
  import opened Rewrite
  import opened FillEntry
  import opened BitSet
  import opened Fixpoints
  import Lookup
  import MatchResults

  /** The table's `id_type` is 16 bits wide: a state or rule number is stored modulo this. */
  const IdRange: nat := 0x1_0000

  /** `static_cast<id_type>(n)`. */
  function AsId(n: nat): (r: nat)
    ensures r < IdRange && (n < IdRange ==> r == n)
  {
    n % IdRange
  }

  /** The error an equal-precedence non-associative shift/reduce conflict leaves. */
  const NonAssocError: Entry := Entry(Error, NonAssociative)

  /** A conflict report: the state and column, the entry kept and the one refused. */
  datatype Conflict = Conflict(state: nat, column: nat, kept: Entry, refused: Entry)

  /** The two generator generations: the newer one reports every conflict; the older one
      reports only when the caller asked for warnings. */
  datatype Generation = Newer | Older(warnings: bool)

  /** Whether `gen` reports the conflicts it meets. */
  predicate Reports(gen: Generation) {
    gen.Newer? || gen.warnings
  }

  /** One `fill_entry` on column `c` of the row of state `s`. The newer generator writes the
      entry back only when it was modified; the older one changes it in place. Either way
      the cell ends as the newer `fill_entry` decides, and a conflict is recorded when one
      is met and reported. */
  function Claim(row: seq<Entry>, s: nat, c: nat, rhs: Entry, infos: seq<TokenInfo>, g: seq<Production>, gen: Generation)
    : (o: Behaviour<(seq<Entry>, seq<Conflict>)>)
    requires c < |row|
    ensures o.Defined? <==> Resolve(row[c], c, rhs, infos, g).Defined?
    ensures o.Defined? ==> |o.value.0| == |row| && o.value.0 == row[c := Resolve(row[c], c, rhs, infos, g).value.entry]
    ensures o.Defined? ==>
              o.value.1 == if Resolve(row[c], c, rhs, infos, g).value.conflict && Reports(gen)
                           then [Conflict(s, c, row[c], rhs)] else []
  {
    match gen
    case Newer =>
      var f :- Resolve(row[c], c, rhs, infos, g);
      ResolveKeepsOrReplaces(row[c], c, rhs, infos, g);
      Defined((if f.modified then row[c := f.entry] else row,
               if f.conflict then [Conflict(s, c, row[c], rhs)] else []))
    case Older(warnings) =>
      ResolveOldAgrees(row[c], c, rhs, infos, g, warnings);
      var f :- ResolveOld(row[c], c, rhs, infos, g, warnings);
      Defined((row[c := f.0], if f.1 then [Conflict(s, c, row[c], rhs)] else []))
  }

  /** What a claim leaves in its cell: the old entry, the claim, or the non-associative
      error (and that one only for a reduce claim); a cell once claimed is never empty
      again. */
  lemma ClaimLeaves(lhs: Entry, c: nat, rhs: Entry, infos: seq<TokenInfo>, g: seq<Production>)
    requires Resolve(lhs, c, rhs, infos, g).Defined? && rhs.action != Error
    ensures var e := Resolve(lhs, c, rhs, infos, g).value.entry;
      && (e == lhs || e == rhs || (e == NonAssocError && rhs.action == Reduce))
      && e != DefaultEntry
  {
    ResolveKeepsOrReplaces(lhs, c, rhs, infos, g);
  }

  // ---------------------------------------------------------------- shifts and gotos

  /** The entry a transition to `target` claims in column `c`: a shift on a terminal, a
      goto on a non-terminal. */
  function ShiftEntry(c: nat, target: nat, terminals: nat): Entry {
    Entry(if c < terminals then Shift else GoTo, AsId(target))
  }

  /** No two transitions share a column. */
  predicate DistinctColumns(ts: seq<(nat, nat)>) {
    forall t, u :: 0 <= t < u < |ts| ==> ts[t].0 != ts[u].0
  }

  /** Every transition's column is a column of the table. */
  predicate ColumnsIn(ts: seq<(nat, nat)>, columns: nat) {
    forall t :: 0 <= t < |ts| ==> ts[t].0 < columns
  }

  /** The transition loop of one row, from transition `t` on. */
  function ShiftRow(row: seq<Entry>, s: nat, ts: seq<(nat, nat)>, t: nat, infos: seq<TokenInfo>, g: seq<Production>, gen: Generation)
    : (o: Behaviour<(seq<Entry>, seq<Conflict>)>)
    requires ColumnsIn(ts, |row|) && t <= |ts|
    ensures o.Defined? ==> |o.value.0| == |row|
    decreases |ts| - t
  {
    if t == |ts| then Defined((row, []))
    else
      var a :- Claim(row, s, ts[t].0, ShiftEntry(ts[t].0, ts[t].1, |infos|), infos, g, gen);
      var b :- ShiftRow(a.0, s, ts, t + 1, infos, g, gen);
      Defined((b.0, a.1 + b.1))
  }

  /** No transition from `t` on uses column `c`. */
  predicate Unclaimed(ts: seq<(nat, nat)>, t: nat, c: nat) {
    forall u :: t <= u < |ts| ==> ts[u].0 != c
  }

  /** On a row whose transition columns are still empty, the transition loop cannot
      conflict: it is defined, reports nothing, writes each transition's entry into its
      column and leaves every other column alone. */
  lemma {:induction false} ShiftRowFills(row: seq<Entry>, s: nat, ts: seq<(nat, nat)>, t: nat,
                                         infos: seq<TokenInfo>, g: seq<Production>, gen: Generation)
    requires ColumnsIn(ts, |row|) && t <= |ts| && DistinctColumns(ts)
    requires forall u :: t <= u < |ts| ==> row[ts[u].0] == DefaultEntry
    ensures var o := ShiftRow(row, s, ts, t, infos, g, gen);
      && o.Defined? && o.value.1 == []
      && (forall u :: t <= u < |ts| ==> o.value.0[ts[u].0] == ShiftEntry(ts[u].0, ts[u].1, |infos|))
      && (forall c :: 0 <= c < |row| && Unclaimed(ts, t, c) ==> o.value.0[c] == row[c])
    decreases |ts| - t
  {
    if t < |ts| {
      var c := ts[t].0;
      var rhs := ShiftEntry(c, ts[t].1, |infos|);
      var row1 := row[c := rhs];
      assert Claim(row, s, c, rhs, infos, g, gen) == Defined((row1, []));
      forall u | t + 1 <= u < |ts| ensures row1[ts[u].0] == DefaultEntry {
        assert ts[u].0 != c;
      }
      ShiftRowFills(row1, s, ts, t + 1, infos, g, gen);
      var o := ShiftRow(row, s, ts, t, infos, g, gen);
      var b := ShiftRow(row1, s, ts, t + 1, infos, g, gen).value;
      assert o.value == (b.0, [] + b.1);
      assert [] + b.1 == b.1;
      forall c' | 0 <= c' < |row| && Unclaimed(ts, t, c') ensures o.value.0[c'] == row[c'] {
        assert Unclaimed(ts, t + 1, c');
      }
    }
  }

  // ---------------------------------------------------------------- reductions

  /** An item with the dot at the end of its production. */
  predicate Complete(g: seq<Production>, it: Item) {
    it.0 < |g| && it.1 == |g[it.0].rhs|
  }

  /** The entry a completed production `k` claims: accept for the start rule, otherwise a
      reduce by the production's number. */
  function ReduceEntry(g: seq<Production>, k: nat, start: nat): Entry
    requires k < |g|
  {
    Entry(if g[k].lhs == start then Accept else Reduce, AsId(g[k].index))
  }

  /** New production `p` stands for production `k` completed in state `s`: its original
      has the same lhs, the same rhs symbols and the same `%prec` text, and its path ends
      in `s`. */
  predicate Matches(g: seq<Production>, p: Prod, k: nat, s: nat) {
    && p.production < |g| && k < |g|
    && g[p.production].lhs == g[k].lhs && g[p.production].rhs == g[k].rhs && g[p.production].prec == g[k].prec
    && |p.rhsIndexes| > 0 && EndState(p) == s
  }

  /** The lookahead of production `k` completed in state `s`: `acc` together with the
      FOLLOW sets of the matching new productions among `ng[j..]`. */
  function Lookahead(g: seq<Production>, ng: seq<Prod>, follow: seq<seq<bool>>, k: nat, s: nat, j: nat, acc: seq<bool>)
    : (r: seq<bool>)
    requires LhsIn(ng, |follow|) && Shape(follow, |follow|, |acc|) && j <= |ng|
    ensures |r| == |acc|
    ensures forall id :: 0 <= id < |acc| ==>
      (r[id] <==> acc[id] || exists m :: j <= m < |ng| && Matches(g, ng[m], k, s) && follow[ng[m].lhs][id])
    decreases |ng| - j
  {
    if j == |ng| then acc
    else if Matches(g, ng[j], k, s) then
      var u := SetUnion(acc, follow[ng[j].lhs]).value.0;
      MembersWithin(follow[ng[j].lhs]);
      assert forall id :: 0 <= id < |acc| ==> (u[id] <==> acc[id] || follow[ng[j].lhs][id]) by {
        forall id | 0 <= id < |acc| ensures u[id] <==> acc[id] || follow[ng[j].lhs][id] {
          assert u[id] <==> id in Members(u);
          assert acc[id] <==> id in Members(acc);
          assert follow[ng[j].lhs][id] <==> id in Members(follow[ng[j].lhs]);
        }
      }
      Lookahead(g, ng, follow, k, s, j + 1, u)
    else Lookahead(g, ng, follow, k, s, j + 1, acc)
  }

  /** The reduction loop over the terminals `id..` of a lookahead set. */
  function ClaimAll(row: seq<Entry>, s: nat, la: seq<bool>, id: nat, e: Entry, infos: seq<TokenInfo>, g: seq<Production>, gen: Generation)
    : (o: Behaviour<(seq<Entry>, seq<Conflict>)>)
    requires |la| <= |row| && id <= |la|
    ensures o.Defined? ==> |o.value.0| == |row|
    decreases |la| - id
  {
    if id == |la| then Defined((row, []))
    else if !la[id] then ClaimAll(row, s, la, id + 1, e, infos, g, gen)
    else
      var a :- Claim(row, s, id, e, infos, g, gen);
      var b :- ClaimAll(a.0, s, la, id + 1, e, infos, g, gen);
      Defined((b.0, a.1 + b.1))
  }

  /** Every reduce entry names an existing production, so `fill_entry` can read its
      precedence. */
  predicate ParamsOk(row: seq<Entry>, productions: nat) {
    forall c :: 0 <= c < |row| && row[c].action == Reduce ==> row[c].param < productions
  }

  /** What claiming `e` over a lookahead does: every cell it writes ends as `e` or (for a
      reduce) the non-associative error, every claimed cell ends non-empty, and every other
      cell, and every non-empty one, stays as it was or non-empty. It is defined when the
      lookahead is within the terminals and every reduce names a production. */
  lemma {:induction false} ClaimAllOk(row: seq<Entry>, s: nat, la: seq<bool>, id: nat, e: Entry,
                                      infos: seq<TokenInfo>, g: seq<Production>, gen: Generation)
    requires |la| <= |row| && id <= |la| && |la| <= |infos|
    requires ParamsOk(row, |g|) && e.action != Error && (e.action == Reduce ==> e.param < |g|)
    ensures var o := ClaimAll(row, s, la, id, e, infos, g, gen);
      && o.Defined? && ParamsOk(o.value.0, |g|)
      && (forall c :: 0 <= c < |row| ==>
            o.value.0[c] == row[c] ||
            (id <= c < |la| && la[c] && (o.value.0[c] == e || (o.value.0[c] == NonAssocError && e.action == Reduce))))
      && (forall c :: 0 <= c < |row| && row[c] != DefaultEntry ==> o.value.0[c] != DefaultEntry)
      && (forall c :: id <= c < |la| && la[c] ==> o.value.0[c] != DefaultEntry)
    decreases |la| - id
  {
    if id < |la| {
      if !la[id] {
        ClaimAllOk(row, s, la, id + 1, e, infos, g, gen);
      } else {
        var lhs := row[id];
        assert Resolve(lhs, id, e, infos, g).Defined? by {
          if lhs.action != Error {
            assert PrecedenceOf(lhs, id, infos, g).Defined?;
          }
        }
        ClaimLeaves(lhs, id, e, infos, g);
        var a := Claim(row, s, id, e, infos, g, gen).value;
        assert ParamsOk(a.0, |g|);
        ClaimAllOk(a.0, s, la, id + 1, e, infos, g, gen);
      }
    }
  }

  /** The lookahead of production `k` completed in state `s`, over `terminals` terminals. */
  function LookaheadOf(g: seq<Production>, ng: seq<Prod>, follow: seq<seq<bool>>, k: nat, s: nat, terminals: nat)
    : (r: seq<bool>)
    requires LhsIn(ng, |follow|) && Shape(follow, |follow|, terminals)
    ensures |r| == terminals
    ensures forall id :: 0 <= id < terminals ==>
      (r[id] <==> exists m :: 0 <= m < |ng| && Matches(g, ng[m], k, s) && follow[ng[m].lhs][id])
  {
    Lookahead(g, ng, follow, k, s, 0, Empty(terminals))
  }

  /** The reduction loop of one row, over the closure items `i..`. */
  function ReduceRow(row: seq<Entry>, s: nat, closure: seq<Item>, i: nat, g: seq<Production>, ng: seq<Prod>,
                     follow: seq<seq<bool>>, start: nat, infos: seq<TokenInfo>, gen: Generation)
    : (o: Behaviour<(seq<Entry>, seq<Conflict>)>)
    requires ItemsOk(g, closure) && i <= |closure|
    requires LhsIn(ng, |follow|) && Shape(follow, |follow|, |infos|) && |infos| <= |row|
    ensures o.Defined? ==> |o.value.0| == |row|
    decreases |closure| - i
  {
    if i == |closure| then Defined((row, []))
    else if !Complete(g, closure[i]) then ReduceRow(row, s, closure, i + 1, g, ng, follow, start, infos, gen)
    else
      var k := closure[i].0;
      var la := LookaheadOf(g, ng, follow, k, s, |infos|);
      var a :- ClaimAll(row, s, la, 0, ReduceEntry(g, k, start), infos, g, gen);
      var b :- ReduceRow(a.0, s, closure, i + 1, g, ng, follow, start, infos, gen);
      Defined((b.0, a.1 + b.1))
  }

  /** Cell `c` holding `e` is accounted for by a completed item among `closure[i..]`: `c` is
      in its lookahead and `e` is its reduce or accept, or the non-associative error a
      reduce can leave. */
  ghost predicate ReduceClaims(g: seq<Production>, ng: seq<Prod>, follow: seq<seq<bool>>, start: nat,
                               closure: seq<Item>, s: nat, i: nat, terminals: nat, c: nat, e: Entry)
    requires LhsIn(ng, |follow|) && Shape(follow, |follow|, terminals)
  {
    exists m :: i <= m < |closure| && Complete(g, closure[m]) && c < terminals &&
      LookaheadOf(g, ng, follow, closure[m].0, s, terminals)[c] &&
      (e == ReduceEntry(g, closure[m].0, start) ||
       (e == NonAssocError && ReduceEntry(g, closure[m].0, start).action == Reduce))
  }

  /** Column `c` is in the lookahead of some completed item among `closure[i..]`. */
  ghost predicate Reduced(g: seq<Production>, ng: seq<Prod>, follow: seq<seq<bool>>,
                          closure: seq<Item>, s: nat, i: nat, terminals: nat, c: nat)
    requires LhsIn(ng, |follow|) && Shape(follow, |follow|, terminals)
  {
    exists m :: i <= m < |closure| && Complete(g, closure[m]) && c < terminals &&
      LookaheadOf(g, ng, follow, closure[m].0, s, terminals)[c]
  }

  /** Every production's number is a position in the grammar. */
  predicate IndexesIn(g: seq<Production>) {
    forall k :: 0 <= k < |g| ==> g[k].index < |g|
  }

  /** The reduction loop is defined, keeps reduce entries valid, and leaves each cell as it
      was or as one of the claims on it; a cell some lookahead covers ends non-empty, and a
      cell no lookahead covers is untouched. */
  lemma {:induction false} ReduceRowOk(row: seq<Entry>, s: nat, closure: seq<Item>, i: nat, g: seq<Production>,
                                       ng: seq<Prod>, follow: seq<seq<bool>>, start: nat, infos: seq<TokenInfo>,
                                       gen: Generation)
    requires ItemsOk(g, closure) && i <= |closure| && IndexesIn(g)
    requires LhsIn(ng, |follow|) && Shape(follow, |follow|, |infos|) && |infos| <= |row|
    requires ParamsOk(row, |g|)
    ensures var o := ReduceRow(row, s, closure, i, g, ng, follow, start, infos, gen);
      && o.Defined? && ParamsOk(o.value.0, |g|)
      && (forall c :: 0 <= c < |row| ==>
            o.value.0[c] == row[c] || ReduceClaims(g, ng, follow, start, closure, s, i, |infos|, c, o.value.0[c]))
      && (forall c :: 0 <= c < |row| && !Reduced(g, ng, follow, closure, s, i, |infos|, c) ==> o.value.0[c] == row[c])
      && (forall c :: 0 <= c < |row| && row[c] != DefaultEntry ==> o.value.0[c] != DefaultEntry)
      && (forall c :: 0 <= c < |row| && Reduced(g, ng, follow, closure, s, i, |infos|, c) ==> o.value.0[c] != DefaultEntry)
    decreases |closure| - i
  {
    if i < |closure| {
      if !Complete(g, closure[i]) {
        ReduceRowOk(row, s, closure, i + 1, g, ng, follow, start, infos, gen);
        ReducedShifts(g, ng, follow, closure, s, i, |infos|);
      } else {
        var k := closure[i].0;
        var la := LookaheadOf(g, ng, follow, k, s, |infos|);
        var e := ReduceEntry(g, k, start);
        ClaimAllOk(row, s, la, 0, e, infos, g, gen);
        var a := ClaimAll(row, s, la, 0, e, infos, g, gen).value;
        ReduceRowOk(a.0, s, closure, i + 1, g, ng, follow, start, infos, gen);
        var b := ReduceRow(a.0, s, closure, i + 1, g, ng, follow, start, infos, gen).value;
        forall c | 0 <= c < |row|
          ensures b.0[c] == row[c] || ReduceClaims(g, ng, follow, start, closure, s, i, |infos|, c, b.0[c])
          ensures !Reduced(g, ng, follow, closure, s, i, |infos|, c) ==> b.0[c] == row[c]
          ensures Reduced(g, ng, follow, closure, s, i, |infos|, c) ==> b.0[c] != DefaultEntry
        {
          if b.0[c] != a.0[c] {
            assert ReduceClaims(g, ng, follow, start, closure, s, i + 1, |infos|, c, b.0[c]);
            var m :| i + 1 <= m < |closure| && Complete(g, closure[m]) && c < |infos| &&
              LookaheadOf(g, ng, follow, closure[m].0, s, |infos|)[c] &&
              (b.0[c] == ReduceEntry(g, closure[m].0, start) ||
               (b.0[c] == NonAssocError && ReduceEntry(g, closure[m].0, start).action == Reduce));
            assert ReduceClaims(g, ng, follow, start, closure, s, i, |infos|, c, b.0[c]);
          } else if a.0[c] != row[c] {
            assert ReduceClaims(g, ng, follow, start, closure, s, i, |infos|, c, b.0[c]);
          }
          if !Reduced(g, ng, follow, closure, s, i, |infos|, c) {
            assert !Reduced(g, ng, follow, closure, s, i + 1, |infos|, c);
            assert !(c < |la| && la[c]);
          }
          if Reduced(g, ng, follow, closure, s, i, |infos|, c) {
            if !(c < |la| && la[c]) {
              var m :| i <= m < |closure| && Complete(g, closure[m]) && c < |infos| &&
                LookaheadOf(g, ng, follow, closure[m].0, s, |infos|)[c];
              assert m != i;
              assert Reduced(g, ng, follow, closure, s, i + 1, |infos|, c);
            }
          }
        }
      }
    }
  }

  /** Skipping an incomplete item changes neither what is reduced nor what is claimed. */
  lemma ReducedShifts(g: seq<Production>, ng: seq<Prod>, follow: seq<seq<bool>>,
                      closure: seq<Item>, s: nat, i: nat, terminals: nat)
    requires LhsIn(ng, |follow|) && Shape(follow, |follow|, terminals)
    requires i < |closure| && !Complete(g, closure[i])
    ensures forall c :: Reduced(g, ng, follow, closure, s, i, terminals, c) <==> Reduced(g, ng, follow, closure, s, i + 1, terminals, c)
    ensures forall start, c, e :: ReduceClaims(g, ng, follow, start, closure, s, i, terminals, c, e) <==>
                                  ReduceClaims(g, ng, follow, start, closure, s, i + 1, terminals, c, e)
  {
  }

  // ---------------------------------------------------------------- one row

  /** A row with every cell empty. */
  function EmptyRow(columns: nat): (r: seq<Entry>)
    ensures |r| == columns && forall c :: 0 <= c < columns ==> r[c] == DefaultEntry
  {
    seq(columns, _ => DefaultEntry)
  }

  /** What the row of a state needs: its transitions' columns are distinct columns of the
      table, its closure items name productions, the FOLLOW sets span the terminals, and
      there are no more terminals than columns. */
  predicate RowInputsOk(st: State, columns: nat, g: seq<Production>, ng: seq<Prod>, follow: seq<seq<bool>>,
                        infos: seq<TokenInfo>) {
    && ColumnsIn(st.transitions, columns) && DistinctColumns(st.transitions)
    && ItemsOk(g, st.closure) && IndexesIn(g)
    && LhsIn(ng, |follow|) && Shape(follow, |follow|, |infos|) && |infos| <= columns
  }

  /** The row of state `s`: the transitions first, then the reductions of the completed
      items. */
  function BuildRow(st: State, s: nat, columns: nat, g: seq<Production>, ng: seq<Prod>, follow: seq<seq<bool>>,
                    start: nat, infos: seq<TokenInfo>, gen: Generation)
    : (o: Behaviour<(seq<Entry>, seq<Conflict>)>)
    requires RowInputsOk(st, columns, g, ng, follow, infos)
    ensures o.Defined? ==> |o.value.0| == columns
  {
    var a :- ShiftRow(EmptyRow(columns), s, st.transitions, 0, infos, g, gen);
    var b :- ReduceRow(a.0, s, st.closure, 0, g, ng, follow, start, infos, gen);
    Defined((b.0, a.1 + b.1))
  }

  /** Cell `c` holds the entry of the transition on column `c`. */
  predicate ShiftCell(ts: seq<(nat, nat)>, c: nat, e: Entry, terminals: nat) {
    exists t :: 0 <= t < |ts| && ts[t].0 == c && e == ShiftEntry(c, ts[t].1, terminals)
  }

  /** The row of a state, cell by cell. Building it is always defined. A cell holds a shift
      or goto exactly for its transition, a reduce, accept or non-associative error only for
      a completed item whose lookahead contains the column, and is empty exactly when
      neither applies. A goto column (a non-terminal) never takes part in a conflict. */
  lemma BuildRowOk(st: State, s: nat, columns: nat, g: seq<Production>, ng: seq<Prod>, follow: seq<seq<bool>>,
                   start: nat, infos: seq<TokenInfo>, gen: Generation)
    requires RowInputsOk(st, columns, g, ng, follow, infos)
    ensures var o := BuildRow(st, s, columns, g, ng, follow, start, infos, gen);
      && o.Defined?
      && (forall c :: 0 <= c < columns ==>
            (o.value.0[c] == DefaultEntry <==>
             !HasTransition(st.transitions, c) && !Reduced(g, ng, follow, st.closure, s, 0, |infos|, c)))
      && (forall c :: 0 <= c < columns && o.value.0[c] != DefaultEntry ==>
            ShiftCell(st.transitions, c, o.value.0[c], |infos|) ||
            ReduceClaims(g, ng, follow, start, st.closure, s, 0, |infos|, c, o.value.0[c]))
      && (forall c :: 0 <= c < columns && HasTransition(st.transitions, c) &&
                      !Reduced(g, ng, follow, st.closure, s, 0, |infos|, c)
                      ==> ShiftCell(st.transitions, c, o.value.0[c], |infos|))
      && (forall c :: |infos| <= c < columns ==> !Reduced(g, ng, follow, st.closure, s, 0, |infos|, c))
  {
    var ts := st.transitions;
    var row := EmptyRow(columns);
    ShiftRowFills(row, s, ts, 0, infos, g, gen);
    var a := ShiftRow(row, s, ts, 0, infos, g, gen).value;
    forall c | 0 <= c < columns
      ensures a.0[c] == DefaultEntry <==> !HasTransition(ts, c)
      ensures HasTransition(ts, c) ==> ShiftCell(ts, c, a.0[c], |infos|)
      ensures a.0[c].action != Reduce
    {
      if HasTransition(ts, c) {
        var t :| 0 <= t < |ts| && ts[t].0 == c;
        assert ShiftCell(ts, c, a.0[c], |infos|);
      } else {
        assert Unclaimed(ts, 0, c);
      }
    }
    assert ParamsOk(a.0, |g|);
    ReduceRowOk(a.0, s, st.closure, 0, g, ng, follow, start, infos, gen);
  }

  /** The rows of states `s..` and the conflicts met building them, in order. */
  function BuildRows(dfa: seq<State>, s: nat, columns: nat, g: seq<Production>, ng: seq<Prod>, follow: seq<seq<bool>>,
                     start: nat, infos: seq<TokenInfo>, gen: Generation)
    : (o: Behaviour<(seq<seq<Entry>>, seq<Conflict>)>)
    requires s <= |dfa| && forall k :: 0 <= k < |dfa| ==> RowInputsOk(dfa[k], columns, g, ng, follow, infos)
    ensures o.Defined? ==> |o.value.0| == |dfa| - s
    ensures o.Defined? ==> forall k :: s <= k < |dfa| ==>
      var row := BuildRow(dfa[k], k, columns, g, ng, follow, start, infos, gen);
      row.Defined? && row.value.0 == o.value.0[k - s]
    decreases |dfa| - s
  {
    if s == |dfa| then Defined(([], []))
    else
      var a :- BuildRow(dfa[s], s, columns, g, ng, follow, start, infos, gen);
      var b :- BuildRows(dfa, s + 1, columns, g, ng, follow, start, infos, gen);
      Defined(([a.0] + b.0, a.1 + b.1))
  }

  // ---------------------------------------------------------------- the two generations

  /** `o` is what the newer generator's `n` becomes under `gen`: defined alike, the same
      cells, and the same conflicts if `gen` reports them, none otherwise. */
  predicate AsReported<T(==)>(o: Behaviour<(T, seq<Conflict>)>, n: Behaviour<(T, seq<Conflict>)>, gen: Generation) {
    && (o.Defined? <==> n.Defined?)
    && (o.Defined? ==> o.value.0 == n.value.0 && o.value.1 == if Reports(gen) then n.value.1 else [])
  }

  lemma {:induction false} ShiftRowAgrees(row: seq<Entry>, s: nat, ts: seq<(nat, nat)>, t: nat,
                                          infos: seq<TokenInfo>, g: seq<Production>, gen: Generation)
    requires ColumnsIn(ts, |row|) && t <= |ts|
    ensures AsReported(ShiftRow(row, s, ts, t, infos, g, gen), ShiftRow(row, s, ts, t, infos, g, Newer), gen)
    decreases |ts| - t
  {
    if t < |ts| {
      var a := Claim(row, s, ts[t].0, ShiftEntry(ts[t].0, ts[t].1, |infos|), infos, g, gen);
      if a.Defined? {
        ShiftRowAgrees(a.value.0, s, ts, t + 1, infos, g, gen);
      }
    }
  }

  lemma {:induction false} ClaimAllAgrees(row: seq<Entry>, s: nat, la: seq<bool>, id: nat, e: Entry,
                                          infos: seq<TokenInfo>, g: seq<Production>, gen: Generation)
    requires |la| <= |row| && id <= |la|
    ensures AsReported(ClaimAll(row, s, la, id, e, infos, g, gen), ClaimAll(row, s, la, id, e, infos, g, Newer), gen)
    decreases |la| - id
  {
    if id < |la| {
      if !la[id] {
        ClaimAllAgrees(row, s, la, id + 1, e, infos, g, gen);
      } else {
        var a := Claim(row, s, id, e, infos, g, gen);
        if a.Defined? {
          ClaimAllAgrees(a.value.0, s, la, id + 1, e, infos, g, gen);
        }
      }
    }
  }

  lemma {:induction false} ReduceRowAgrees(row: seq<Entry>, s: nat, closure: seq<Item>, i: nat, g: seq<Production>,
                                           ng: seq<Prod>, follow: seq<seq<bool>>, start: nat, infos: seq<TokenInfo>,
                                           gen: Generation)
    requires ItemsOk(g, closure) && i <= |closure|
    requires LhsIn(ng, |follow|) && Shape(follow, |follow|, |infos|) && |infos| <= |row|
    ensures AsReported(ReduceRow(row, s, closure, i, g, ng, follow, start, infos, gen),
                       ReduceRow(row, s, closure, i, g, ng, follow, start, infos, Newer), gen)
    decreases |closure| - i
  {
    if i < |closure| {
      if !Complete(g, closure[i]) {
        ReduceRowAgrees(row, s, closure, i + 1, g, ng, follow, start, infos, gen);
      } else {
        var la := LookaheadOf(g, ng, follow, closure[i].0, s, |infos|);
        var e := ReduceEntry(g, closure[i].0, start);
        ClaimAllAgrees(row, s, la, 0, e, infos, g, gen);
        var a := ClaimAll(row, s, la, 0, e, infos, g, gen);
        if a.Defined? {
          ReduceRowAgrees(a.value.0, s, closure, i + 1, g, ng, follow, start, infos, gen);
        }
      }
    }
  }

  /** The older generator builds the very row the newer one does; it reports the same
      conflicts when the caller asked for warnings, and none otherwise. */
  lemma BuildRowAgrees(st: State, s: nat, columns: nat, g: seq<Production>, ng: seq<Prod>, follow: seq<seq<bool>>,
                       start: nat, infos: seq<TokenInfo>, gen: Generation)
    requires RowInputsOk(st, columns, g, ng, follow, infos)
    ensures AsReported(BuildRow(st, s, columns, g, ng, follow, start, infos, gen),
                       BuildRow(st, s, columns, g, ng, follow, start, infos, Newer), gen)
  {
    ShiftRowAgrees(EmptyRow(columns), s, st.transitions, 0, infos, g, gen);
    var a := ShiftRow(EmptyRow(columns), s, st.transitions, 0, infos, g, gen);
    if a.Defined? {
      ReduceRowAgrees(a.value.0, s, st.closure, 0, g, ng, follow, start, infos, gen);
    }
  }

  /** The same, for the whole table. */
  lemma {:induction false} BuildRowsAgree(dfa: seq<State>, s: nat, columns: nat, g: seq<Production>, ng: seq<Prod>,
                                          follow: seq<seq<bool>>, start: nat, infos: seq<TokenInfo>, gen: Generation)
    requires s <= |dfa| && forall k :: 0 <= k < |dfa| ==> RowInputsOk(dfa[k], columns, g, ng, follow, infos)
    ensures AsReported(BuildRows(dfa, s, columns, g, ng, follow, start, infos, gen),
                       BuildRows(dfa, s, columns, g, ng, follow, start, infos, Newer), gen)
    decreases |dfa| - s
  {
    if s < |dfa| {
      BuildRowAgrees(dfa[s], s, columns, g, ng, follow, start, infos, gen);
      BuildRowsAgree(dfa, s + 1, columns, g, ng, follow, start, infos, gen);
    }
  }

  // ---------------------------------------------------------------- table storage

  /** Every row has `columns` cells. */
  predicate Rectangular(rows: seq<seq<Entry>>, columns: nat) {
    forall r :: 0 <= r < |rows| ==> |rows[r]| == columns
  }

  /** The older state machine's `_table`: the rows laid end to end, so that cell (r, c) is
      at `r * columns + c`. */
  function Flatten(rows: seq<seq<Entry>>): seq<Entry> {
    if |rows| == 0 then [] else rows[0] + Flatten(rows[1..])
  }

  /** The flat table has `rows * columns` cells. */
  lemma {:induction false} FlattenSize(rows: seq<seq<Entry>>, columns: nat)
    requires Rectangular(rows, columns)
    ensures |Flatten(rows)| == |rows| * columns
  {
    if |rows| > 0 {
      FlattenSize(rows[1..], columns);
      MulStep(|rows|, columns);
    }
  }

  lemma MulStep(r: nat, columns: nat)
    requires r > 0
    ensures r * columns == columns + (r - 1) * columns
  {
  }

  /** Cell (r, c) sits where the older runtime reads it, at `r * columns + c`. */
  lemma {:induction false} FlattenIndex(rows: seq<seq<Entry>>, columns: nat, r: nat, c: nat)
    requires Rectangular(rows, columns) && r < |rows| && c < columns
    ensures r * columns + c < |Flatten(rows)| && Flatten(rows)[r * columns + c] == rows[r][c]
  {
    FlattenSize(rows, columns);
    if r > 0 {
      FlattenSize(rows[1..], columns);
      FlattenIndex(rows[1..], columns, r - 1, c);
      MulStep(r, columns);
    }
  }

  /** The older runtime's read `_table[state * _columns + id]` of the flat table, with no
      check that `id` is below the column count; an index past the table is out of range in
      C++ and reads as the default entry here. */
  function FlatAt(flat: seq<Entry>, columns: nat, row: nat, column: nat): (e: Entry)
    ensures row * columns + column < |flat| ==> e in flat
  {
    var k := row * columns + column;
    if k < |flat| then flat[k] else DefaultEntry
  }

  /** Reading the flat table of a rectangular grid at (row, column) gives the grid cell (r, c)
      whose flat index is the same: the cell itself when column is below the column count, and
      a cell of a later row when it is not. */
  lemma FlatAtReadsCell(rows: seq<seq<Entry>>, columns: nat, row: nat, column: nat, r: nat, c: nat)
    requires Rectangular(rows, columns) && r < |rows| && c < columns
    requires r * columns + c == row * columns + column
    ensures FlatAt(Flatten(rows), columns, row, column) == rows[r][c]
  {
    FlattenIndex(rows, columns, r, c);
  }

  /** For a lexeme id below the column count, the flat reads of the older `lookup` and
      `match_results::reset` give the entry the model reads with `At`. */
  lemma FlatReadsAgree(rows: seq<seq<Entry>>, columns: nat, rules: seq<Rule>, captures: seq<CaptureRow>,
                       top: nat, tokenId: nat)
    requires Rectangular(rows, columns) && top < |rows| && tokenId < columns && tokenId != Npos
    ensures var sm := ToMachine(columns, rows, rules, captures);
      && Lookup.LookaheadEntry(sm, top, tokenId) == FlatAt(Flatten(rows), columns, top, tokenId)
      && MatchResults.Reset(tokenId, sm).entry == FlatAt(Flatten(rows), columns, 0, tokenId)
  {
    FlatAtReadsCell(rows, columns, top, tokenId, top, tokenId);
    AtReadsRows(columns, rows, rules, captures, top, tokenId);
    FlatAtReadsCell(rows, columns, 0, tokenId, 0, tokenId);
    AtReadsRows(columns, rows, rules, captures, 0, tokenId);
  }

  /** With two rows of one column, state 0 read with the out-of-range id 1 gets row 1's
      shift, where `At` on the same machine reads a syntax error. */
  lemma FlatAtCrossesRows()
    ensures var rows := [[DefaultEntry], [Entry(Shift, 1)]];
      && FlatAt(Flatten(rows), 1, 0, 1) == Entry(Shift, 1)
      && At(ToMachine(1, rows, [], []), 0, 1) == DefaultEntry
  {
    var rows := [[DefaultEntry], [Entry(Shift, 1)]];
    FlatAtReadsCell(rows, 1, 0, 1, 1, 0);
    AtReadsRows(1, rows, [], [], 0, 1);
  }

  /** The stored cells of a row from column `c` on: the non-empty ones, in column order. */
  function Compress(row: seq<Entry>, c: nat): (cells: seq<Cell>)
    requires c <= |row|
    ensures forall col: nat :: FindCell(cells, col) ==
                               (if c <= col < |row| && row[col] != DefaultEntry then Some(row[col]) else None)
    decreases |row| - c
  {
    if c == |row| then []
    else
      var rest := Compress(row, c + 1);
      if row[c] == DefaultEntry then rest
      else
        var cells := [Cell(c, row[c])] + rest;
        assert cells[1..] == rest;
        cells
  }

  /** The newer state machine holding `rows`, with the given rules and captures. */
  function ToMachine(columns: nat, rows: seq<seq<Entry>>, rules: seq<Rule>, captures: seq<CaptureRow>): Machine {
    Machine(columns, |rows|, rules, captures, seq(|rows|, r requires 0 <= r < |rows| => Compress(rows[r], 0)))
  }

  /** The runtime's `at(row, column)` on that machine reads back exactly the built cell,
      and reads a syntax error past the last row or column. */
  lemma AtReadsRows(columns: nat, rows: seq<seq<Entry>>, rules: seq<Rule>, captures: seq<CaptureRow>, r: nat, c: nat)
    requires Rectangular(rows, columns)
    ensures var sm := ToMachine(columns, rows, rules, captures);
      At(sm, r, c) == if r < |rows| && c < columns then rows[r][c] else DefaultEntry
  {
  }
}

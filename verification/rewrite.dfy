/** `rewrite`: the LALR(1) lookahead construction renames the grammar over the LR(0)
    automaton. Every production at dot 0 in some state becomes a new production whose lhs
    and rhs non-terminals are split by the pair of states they span, so that FIRST and
    FOLLOW computed over the new grammar give per-state lookaheads. */
module Rewrite {
  import opened Wrappers
  import opened ParserStateMachine
  import opened Grammar
  import opened Lr0

  /** A new non-terminal: the original non-terminal and the (from, to) states it spans. */
  type Key = (nat, (nat, nat))

  /** `prod`: the original production, the new lhs and its state pair, the renamed rhs,
      and for each rhs symbol the states before and after it (one (s, s) pair for an empty
      rhs). */
  datatype Prod = Prod(production: nat, lhs: nat, lhsIndexes: (nat, nat), rhs: seq<Symbol>,
                       rhsIndexes: seq<(nat, nat)>)

  /** The id of `k` in the trie map: its insertion position, assigning the next id when
      it is new. */
  function KeyId(keys: seq<Key>, k: Key): (r: (seq<Key>, nat))
    ensures r.1 < |r.0| && r.0[r.1] == k && |keys| <= |r.0| && r.0[..|keys|] == keys
    ensures k in keys ==> r.0 == keys
    ensures k !in keys ==> r.0 == keys + [k] && r.1 == |keys|
  {
    if k in keys then (keys, Find(keys, k)) else (keys + [k], |keys|)
  }

  /** The position of the first occurrence of `k`. */
  function Find(keys: seq<Key>, k: Key): (i: nat)
    requires k in keys
    ensures i < |keys| && keys[i] == k && k !in keys[..i]
  {
    if keys[0] == k then 0
    else
      assert k in keys[1..];
      var i := Find(keys[1..], k);
      assert keys[..i + 1] == [keys[0]] + keys[1..][..i];
      i + 1
  }

  /** The target of the first transition on `col`. */
  function Target(ts: seq<(nat, nat)>, col: nat): (r: Option<nat>)
    ensures r.Some? <==> HasTransition(ts, col)
    ensures r.Some? ==> exists t :: 0 <= t < |ts| && ts[t] == (col, r.value)
  {
    if |ts| == 0 then None
    else if ts[0].0 == col then Some(ts[0].1)
    else
      var r := Target(ts[1..], col);
      assert forall t :: 0 <= t < |ts| - 1 ==> ts[1..][t] == ts[t + 1];
      assert HasTransition(ts, col) ==> HasTransition(ts[1..], col) by {
        if HasTransition(ts, col) {
          var t :| 0 <= t < |ts| && ts[t].0 == col;
          assert t != 0;
          assert ts[1..][t - 1].0 == col;
        }
      }
      r
  }

  /** Every transition of the automaton leads to one of its states. */
  predicate TargetsOk(dfa: seq<State>) {
    forall s, t :: 0 <= s < |dfa| && 0 <= t < |dfa[s].transitions| ==> dfa[s].transitions[t].1 < |dfa|
  }

  /** The state reached from `index` over the symbol for `col`, staying put when there is
      no such transition. */
  function Over(dfa: seq<State>, index: nat, col: nat): (r: nat)
    requires TargetsOk(dfa) && index < |dfa|
    ensures r < |dfa|
  {
    match Target(dfa[index].transitions, col)
    case Some(t) => t
    case None => index
  }

  /** The renamed symbols agree with the original ones, non-terminals naming a key for the
      same original non-terminal. */
  predicate Renames(keys: seq<Key>, orig: seq<Symbol>, renamed: seq<Symbol>) {
    |orig| == |renamed| &&
    forall j :: 0 <= j < |orig| ==>
      renamed[j].kind == orig[j].kind &&
      (orig[j].kind == Terminal ==> renamed[j].id == orig[j].id) &&
      (orig[j].kind == NonTerminal ==> renamed[j].id < |keys| && keys[renamed[j].id].0 == orig[j].id)
  }

  /** Renaming stays valid as more keys are added. */
  lemma RenamesGrows(keys: seq<Key>, more: seq<Key>, orig: seq<Symbol>, renamed: seq<Symbol>)
    requires Renames(keys, orig, renamed) && |keys| <= |more| && more[..|keys|] == keys
    ensures Renames(more, orig, renamed)
  {
    forall j | 0 <= j < |orig| && orig[j].kind == NonTerminal
      ensures renamed[j].id < |more| && more[renamed[j].id].0 == orig[j].id
    {
      assert more[renamed[j].id] == keys[renamed[j].id];
    }
  }

  /** `indexes` is the path `rhs` takes through the automaton: each pair is (state before,
      state after) a symbol, each pair starts where the previous one ended, and each step
      follows the symbol's transition (staying put where there is none). */
  predicate Walks(dfa: seq<State>, terminals: nat, rhs: seq<Symbol>, indexes: seq<(nat, nat)>)
    requires TargetsOk(dfa)
  {
    && |indexes| == |rhs|
    && (forall j :: 0 <= j < |indexes| ==>
          indexes[j].0 < |dfa| && indexes[j].1 == Over(dfa, indexes[j].0, Column(terminals, rhs[j])))
    && (forall j :: 0 < j < |indexes| ==> indexes[j].0 == indexes[j - 1].1)
  }

  /** Each renamed non-terminal's key records the states the symbol spans. */
  predicate Spans(keys: seq<Key>, renamed: seq<Symbol>, indexes: seq<(nat, nat)>) {
    |renamed| == |indexes| &&
    forall j :: 0 <= j < |renamed| && renamed[j].kind == NonTerminal ==>
      renamed[j].id < |keys| && keys[renamed[j].id].1 == indexes[j]
  }

  /** A walk extends by one step at its front. */
  lemma WalksCons(dfa: seq<State>, terminals: nat, sym: Symbol, rest: seq<Symbol>, index: nat,
                  indexes: seq<(nat, nat)>)
    requires TargetsOk(dfa) && index < |dfa| && Walks(dfa, terminals, rest, indexes)
    requires |rest| > 0 ==> indexes[0].0 == Over(dfa, index, Column(terminals, sym))
    ensures Walks(dfa, terminals, [sym] + rest,
                  [(index, Over(dfa, index, Column(terminals, sym)))] + indexes)
  {
  }

  /** Spans concatenate. */
  lemma SpansCons(keys: seq<Key>, sym: Symbol, rest: seq<Symbol>, pair: (nat, nat), indexes: seq<(nat, nat)>)
    requires Spans(keys, [sym], [pair]) && Spans(keys, rest, indexes)
    ensures Spans(keys, [sym] + rest, [pair] + indexes)
  {
    var renamed, idx := [sym] + rest, [pair] + indexes;
    forall j | 0 <= j < |renamed| && renamed[j].kind == NonTerminal
      ensures renamed[j].id < |keys| && keys[renamed[j].id].1 == idx[j]
    {
      if j > 0 {
        assert renamed[j] == rest[j - 1] && idx[j] == indexes[j - 1];
      }
    }
  }

  lemma SpansGrows(keys: seq<Key>, more: seq<Key>, renamed: seq<Symbol>, indexes: seq<(nat, nat)>)
    requires Spans(keys, renamed, indexes) && |keys| <= |more| && more[..|keys|] == keys
    ensures Spans(more, renamed, indexes)
  {
    forall j | 0 <= j < |renamed| && renamed[j].kind == NonTerminal
      ensures renamed[j].id < |more| && more[renamed[j].id].1 == indexes[j]
    {
      assert more[renamed[j].id] == keys[renamed[j].id];
    }
  }

  /** Renamings concatenate. */
  lemma RenamesCons(keys: seq<Key>, sym: Symbol, rest: seq<Symbol>, sym1: Symbol, rest1: seq<Symbol>)
    requires Renames(keys, [sym], [sym1]) && Renames(keys, rest, rest1)
    ensures Renames(keys, [sym] + rest, [sym1] + rest1)
  {
    var orig, renamed := [sym] + rest, [sym1] + rest1;
    forall j | 0 <= j < |orig|
      ensures renamed[j].kind == orig[j].kind
      ensures orig[j].kind == Terminal ==> renamed[j].id == orig[j].id
      ensures orig[j].kind == NonTerminal ==> renamed[j].id < |keys| && keys[renamed[j].id].0 == orig[j].id
    {
      if j > 0 {
        assert orig[j] == rest[j - 1] && renamed[j] == rest1[j - 1];
      }
    }
  }

  /** One step of the rhs walk: `sym` taken from state `index` to `next`; a non-terminal
      is renamed to the key of that pair. */
  function RenameStep(sym: Symbol, index: nat, next: nat, keys: seq<Key>): (r: (Symbol, seq<Key>))
    ensures Renames(r.1, [sym], [r.0]) && Spans(r.1, [r.0], [(index, next)])
    ensures |keys| <= |r.1| && r.1[..|keys|] == keys
  {
    if sym.kind == NonTerminal then
      var (ks, id) := KeyId(keys, (sym.id, (index, next)));
      (Symbol(NonTerminal, id), ks)
    else (sym, keys)
  }

  /** The rhs walk of `rewrite`, standing in state `index`: each symbol's state pair is
      (state before, state after it), and each non-terminal is renamed to the key of that
      pair. Also returns the final state. */
  function RhsWalk(dfa: seq<State>, terminals: nat, rhs: seq<Symbol>, index: nat, keys: seq<Key>)
    : (r: (seq<Symbol>, seq<(nat, nat)>, seq<Key>, nat))
    requires TargetsOk(dfa) && index < |dfa|
    ensures Renames(r.2, rhs, r.0) && |r.1| == |rhs|
    ensures |keys| <= |r.2| && r.2[..|keys|] == keys
    ensures r.3 < |dfa|
    ensures |rhs| > 0 ==> r.1[0].0 == index && r.1[|r.1| - 1].1 == r.3
    ensures |rhs| == 0 ==> r.3 == index
    ensures Walks(dfa, terminals, rhs, r.1) && Spans(r.2, r.0, r.1)
  {
    if |rhs| == 0 then ([], [], keys, index)
    else
      var next := Over(dfa, index, Column(terminals, rhs[0]));
      var step := RenameStep(rhs[0], index, next, keys);
      var walk := RhsWalk(dfa, terminals, rhs[1..], next, step.1);
      WalkJoin(dfa, terminals, rhs, index, keys, step, walk);
      ([step.0] + walk.0, [(index, next)] + walk.1, walk.2, walk.3)
  }

  /** The rhs walk's contract for a first step followed by the rest of the walk. */
  lemma WalkJoin(dfa: seq<State>, terminals: nat, rhs: seq<Symbol>, index: nat, keys: seq<Key>,
                 step: (Symbol, seq<Key>), walk: (seq<Symbol>, seq<(nat, nat)>, seq<Key>, nat))
    requires TargetsOk(dfa) && index < |dfa| && |rhs| > 0
    requires step == RenameStep(rhs[0], index, Over(dfa, index, Column(terminals, rhs[0])), keys)
    requires Renames(walk.2, rhs[1..], walk.0) && |walk.1| == |rhs| - 1
    requires |step.1| <= |walk.2| && walk.2[..|step.1|] == step.1
    requires walk.3 < |dfa|
    requires |rhs| > 1 ==> walk.1[0].0 == Over(dfa, index, Column(terminals, rhs[0])) && walk.1[|walk.1| - 1].1 == walk.3
    requires |rhs| == 1 ==> walk.3 == Over(dfa, index, Column(terminals, rhs[0]))
    requires Walks(dfa, terminals, rhs[1..], walk.1) && Spans(walk.2, walk.0, walk.1)
    ensures var next := Over(dfa, index, Column(terminals, rhs[0]));
      var renamed, indexes := [step.0] + walk.0, [(index, next)] + walk.1;
      && Renames(walk.2, rhs, renamed) && |indexes| == |rhs|
      && |keys| <= |walk.2| && walk.2[..|keys|] == keys
      && indexes[0].0 == index && indexes[|indexes| - 1].1 == walk.3
      && Walks(dfa, terminals, rhs, indexes) && Spans(walk.2, renamed, indexes)
  {
    var sym, next := rhs[0], Over(dfa, index, Column(terminals, rhs[0]));
    RenamesGrows(step.1, walk.2, [sym], [step.0]);
    RenamesCons(walk.2, sym, rhs[1..], step.0, walk.0);
    SpansGrows(step.1, walk.2, [step.0], [(index, next)]);
    SpansCons(walk.2, step.0, walk.0, (index, next), walk.1);
    assert rhs == [sym] + rhs[1..];
    WalksCons(dfa, terminals, sym, rhs[1..], index, walk.1);
    assert walk.2[..|keys|] == walk.2[..|step.1|][..|keys|];
  }

  /** The state pair of a new lhs: (this state, its goto target on the lhs), the target
      staying 0 when there is no such transition; the start rule keeps (0, 0). */
  function LhsIndexes(dfa: seq<State>, terminals: nat, start: nat, s: nat, lhs: nat): (nat, nat)
    requires s < |dfa|
  {
    if lhs == start then (0, 0)
    else (s, match Target(dfa[s].transitions, terminals + lhs) case Some(t) => t case None => 0)
  }

  /** The state a new production ends in. */
  function EndState(p: Prod): nat
    requires |p.rhsIndexes| > 0
  {
    p.rhsIndexes[|p.rhsIndexes| - 1].1
  }

  /** A new production renames its original one: its lhs key stands for the original lhs
      and the states it spans, its rhs renames the original rhs, and its state pairs are
      the original rhs's path through the automaton from the state it was found in (one
      (s, s) pair for an empty rhs). */
  predicate ProdOk(g: seq<Production>, dfa: seq<State>, terminals: nat, start: nat, keys: seq<Key>, p: Prod)
    requires TargetsOk(dfa)
  {
    && p.production < |g|
    && p.lhs < |keys| && keys[p.lhs] == (g[p.production].lhs, p.lhsIndexes)
    && Renames(keys, g[p.production].rhs, p.rhs)
    && |p.rhsIndexes| > 0 && p.rhsIndexes[0].0 < |dfa|
    && p.lhsIndexes == LhsIndexes(dfa, terminals, start, p.rhsIndexes[0].0, g[p.production].lhs)
    && (|p.rhs| == 0 ==> p.rhsIndexes == [(p.rhsIndexes[0].0, p.rhsIndexes[0].0)])
    && (|p.rhs| > 0 ==> Walks(dfa, terminals, g[p.production].rhs, p.rhsIndexes) && Spans(keys, p.rhs, p.rhsIndexes))
  }

  lemma ProdOkGrows(g: seq<Production>, dfa: seq<State>, terminals: nat, start: nat, keys: seq<Key>,
                    more: seq<Key>, p: Prod)
    requires TargetsOk(dfa) && ProdOk(g, dfa, terminals, start, keys, p)
    requires |keys| <= |more| && more[..|keys|] == keys
    ensures ProdOk(g, dfa, terminals, start, more, p)
  {
    assert more[p.lhs] == keys[p.lhs];
    RenamesGrows(keys, more, g[p.production].rhs, p.rhs);
    if |p.rhs| > 0 {
      SpansGrows(keys, more, p.rhs, p.rhsIndexes);
    }
  }

  /** `rewrite` for one item at dot 0 of state `s`: production `k` becomes a new
      production starting in `s`. */
  function RewriteItem(g: seq<Production>, dfa: seq<State>, terminals: nat, start: nat, s: nat, k: nat, keys: seq<Key>)
    : (r: (Prod, seq<Key>))
    requires k < |g| && s < |dfa| && TargetsOk(dfa)
    ensures ProdOk(g, dfa, terminals, start, r.1, r.0) && r.0.production == k && r.0.rhsIndexes[0].0 == s
    ensures |keys| <= |r.1| && r.1[..|keys|] == keys
    // the lhs takes a new id exactly when its key is new
    ensures (g[k].lhs, r.0.lhsIndexes) !in keys <==> r.0.lhs == |keys|
  {
    var p := g[k];
    var lhsIndexes := LhsIndexes(dfa, terminals, start, s, p.lhs);
    var (keys1, lhs) := KeyId(keys, (p.lhs, lhsIndexes));
    var (rhs, walk, keys2, last) := RhsWalk(dfa, terminals, p.rhs, s, keys1);
    assert keys2[lhs] == keys1[lhs];
    assert keys2[..|keys|] == keys2[..|keys1|][..|keys|];
    var indexes := if |p.rhs| == 0 then [(s, s)] else walk;
    (Prod(k, lhs, lhsIndexes, rhs, indexes), keys2)
  }

  /** What the rewrite keeps about the automaton it reads. */
  ghost predicate AutomatonOk(g: seq<Production>, dfa: seq<State>) {
    TargetsOk(dfa) && forall s :: 0 <= s < |dfa| ==> ItemsOk(g, dfa[s].closure)
  }

  lemma DfaIsAutomaton(g: seq<Production>, terminals: nat, dfa: seq<State>)
    requires DfaOk(g, terminals, dfa)
    ensures AutomatonOk(g, dfa)
  {
    forall s, t | 0 <= s < |dfa| && 0 <= t < |dfa[s].transitions| ensures dfa[s].transitions[t].1 < |dfa| {
      assert StateOk(g, terminals, dfa, s);
      assert TransitionOk(g, terminals, dfa, dfa[s].closure, dfa[s].transitions[t]);
    }
    forall s | 0 <= s < |dfa| ensures ItemsOk(g, dfa[s].closure) {
      assert StateOk(g, terminals, dfa, s);
    }
  }

  /** Every new production renames an original one, relative to `keys`. */
  predicate ProdsOk(g: seq<Production>, dfa: seq<State>, terminals: nat, start: nat, keys: seq<Key>, ps: seq<Prod>)
    requires TargetsOk(dfa)
  {
    forall i :: 0 <= i < |ps| ==> ProdOk(g, dfa, terminals, start, keys, ps[i])
  }

  lemma ProdsOkGrows(g: seq<Production>, dfa: seq<State>, terminals: nat, start: nat, keys: seq<Key>,
                     more: seq<Key>, ps: seq<Prod>)
    requires TargetsOk(dfa) && ProdsOk(g, dfa, terminals, start, keys, ps)
    requires |keys| <= |more| && more[..|keys|] == keys
    ensures ProdsOk(g, dfa, terminals, start, more, ps)
  {
    forall i | 0 <= i < |ps| ensures ProdOk(g, dfa, terminals, start, more, ps[i]) {
      ProdOkGrows(g, dfa, terminals, start, keys, more, ps[i]);
    }
  }

  /** The new start: `Npos`, or the id of the start production's key. */
  predicate StartOk(keys: seq<Key>, start: nat, newStart: nat) {
    newStart == Npos || (newStart < |keys| && keys[newStart] == (start, (0, 0)))
  }

  /** The productions at dot 0 among `c[i..]`, in order. */
  function DotZero(c: seq<Item>, i: nat): (ks: seq<nat>)
    requires i <= |c|
    ensures forall j :: 0 <= j < |ks| ==> exists m :: i <= m < |c| && c[m] == (ks[j], 0)
    decreases |c| - i
  {
    if i == |c| then []
    else if c[i].1 == 0 then [c[i].0] + DotZero(c, i + 1)
    else DotZero(c, i + 1)
  }

  /** The original productions behind new ones. */
  function Productions(ps: seq<Prod>): seq<nat> {
    if |ps| == 0 then [] else [ps[0].production] + Productions(ps[1..])
  }

  lemma {:induction false} ProductionsAppend(ps: seq<Prod>, qs: seq<Prod>)
    ensures Productions(ps + qs) == Productions(ps) + Productions(qs)
  {
    if |ps| > 0 {
      assert (ps + qs)[1..] == ps[1..] + qs;
      ProductionsAppend(ps[1..], qs);
    } else {
      assert ps + qs == qs;
    }
  }

  /** The productions at dot 0 in the closures of states `s..`, state by state. */
  function DotZeros(dfa: seq<State>, s: nat): seq<nat>
    requires s <= |dfa|
    decreases |dfa| - s
  {
    if s == |dfa| then [] else DotZero(dfa[s].closure, 0) + DotZeros(dfa, s + 1)
  }

  /** New productions found in state `s`. */
  predicate FoundIn(ps: seq<Prod>, s: nat) {
    forall j :: 0 <= j < |ps| ==> |ps[j].rhsIndexes| > 0 && ps[j].rhsIndexes[0].0 == s
  }

  /** `rewrite` over the closure items `c[i..]` of state `s`. */
  function RewriteClosure(g: seq<Production>, dfa: seq<State>, terminals: nat, start: nat, s: nat,
                          c: seq<Item>, i: nat, keys: seq<Key>, newStart: nat)
    : (r: (seq<Prod>, seq<Key>, nat))
    requires s < |dfa| && TargetsOk(dfa) && ItemsOk(g, c) && i <= |c| && StartOk(keys, start, newStart)
    ensures ProdsOk(g, dfa, terminals, start, r.1, r.0) && StartOk(r.1, start, r.2)
    ensures Productions(r.0) == DotZero(c, i) && FoundIn(r.0, s)
    ensures |keys| <= |r.1| && r.1[..|keys|] == keys
    decreases |c| - i
  {
    if i == |c| then ([], keys, newStart)
    else if c[i].1 != 0 then RewriteClosure(g, dfa, terminals, start, s, c, i + 1, keys, newStart)
    else
      var (p, keys1) := RewriteItem(g, dfa, terminals, start, s, c[i].0, keys);
      var ns := if g[c[i].0].lhs == start && p.lhs == |keys| then p.lhs else newStart;
      StartStep(g, dfa, terminals, start, s, c[i].0, keys, newStart);
      var rest := RewriteClosure(g, dfa, terminals, start, s, c, i + 1, keys1, ns);
      ClosureJoin(g, dfa, terminals, start, s, keys, p, keys1, rest.0, rest.1);
      FoundInCons(p, rest.0, s);
      ([p] + rest.0, rest.1, rest.2)
  }

  /** A production found in `s` ahead of others found there. */
  lemma FoundInCons(p: Prod, ps: seq<Prod>, s: nat)
    requires |p.rhsIndexes| > 0 && p.rhsIndexes[0].0 == s && FoundIn(ps, s)
    ensures FoundIn([p] + ps, s) && Productions([p] + ps) == [p.production] + Productions(ps)
  {
    assert ([p] + ps)[1..] == ps;
    forall j | 0 <= j < |[p] + ps| ensures |([p] + ps)[j].rhsIndexes| > 0 && ([p] + ps)[j].rhsIndexes[0].0 == s {
      if j > 0 {
        assert ([p] + ps)[j] == ps[j - 1];
      }
    }
  }

  /** The new start stays valid across one item. */
  lemma StartStep(g: seq<Production>, dfa: seq<State>, terminals: nat, start: nat, s: nat, k: nat,
                  keys: seq<Key>, newStart: nat)
    requires k < |g| && s < |dfa| && TargetsOk(dfa) && StartOk(keys, start, newStart)
    ensures var r := RewriteItem(g, dfa, terminals, start, s, k, keys);
      StartOk(r.1, start, if g[k].lhs == start && r.0.lhs == |keys| then r.0.lhs else newStart)
  {
    var r := RewriteItem(g, dfa, terminals, start, s, k, keys);
    if newStart != Npos {
      assert r.1[newStart] == r.1[..|keys|][newStart];
    }
  }

  /** One new production ahead of the rest of the closure's. */
  lemma ClosureJoin(g: seq<Production>, dfa: seq<State>, terminals: nat, start: nat, s: nat,
                    keys: seq<Key>, p: Prod, keys1: seq<Key>, ps: seq<Prod>, keys2: seq<Key>)
    requires TargetsOk(dfa) && ProdOk(g, dfa, terminals, start, keys1, p)
    requires ProdsOk(g, dfa, terminals, start, keys2, ps)
    requires |keys| <= |keys1| && keys1[..|keys|] == keys
    requires |keys1| <= |keys2| && keys2[..|keys1|] == keys1
    ensures ProdsOk(g, dfa, terminals, start, keys2, [p] + ps)
    ensures |keys| <= |keys2| && keys2[..|keys|] == keys
  {
    ProdOkGrows(g, dfa, terminals, start, keys1, keys2, p);
    assert keys2[..|keys|] == keys2[..|keys1|][..|keys|];
    forall j | 0 <= j < |[p] + ps| ensures ProdOk(g, dfa, terminals, start, keys2, ([p] + ps)[j]) {
      if j > 0 {
        assert ([p] + ps)[j] == ps[j - 1];
      }
    }
  }

  /** `rewrite` over states `s..`. */
  function RewriteStates(g: seq<Production>, dfa: seq<State>, terminals: nat, start: nat, s: nat,
                         keys: seq<Key>, newStart: nat)
    : (r: (seq<Prod>, seq<Key>, nat))
    requires AutomatonOk(g, dfa) && s <= |dfa| && StartOk(keys, start, newStart)
    ensures ProdsOk(g, dfa, terminals, start, r.1, r.0) && StartOk(r.1, start, r.2)
    ensures Productions(r.0) == DotZeros(dfa, s)
    ensures |keys| <= |r.1| && r.1[..|keys|] == keys
    decreases |dfa| - s
  {
    if s == |dfa| then ([], keys, newStart)
    else
      var (ps, keys1, ns1) := RewriteClosure(g, dfa, terminals, start, s, dfa[s].closure, 0, keys, newStart);
      var (qs, keys2, ns2) := RewriteStates(g, dfa, terminals, start, s + 1, keys1, ns1);
      ProdsOkGrows(g, dfa, terminals, start, keys1, keys2, ps);
      ProductionsAppend(ps, qs);
      assert keys2[..|keys|] == keys2[..|keys1|][..|keys|];
      (ps + qs, keys2, ns2)
  }

  /** The result of `rewrite`: the new grammar, its non-terminals' keys (their number sizes
      the FIRST and FOLLOW tables), and the new start non-terminal, `Npos` until a start
      production's lhs key is created. */
  datatype Rewritten = Rewritten(grammar: seq<Prod>, keys: seq<Key>, start: nat)

  function Rewrite(g: seq<Production>, dfa: seq<State>, terminals: nat, start: nat): (r: Rewritten)
    requires AutomatonOk(g, dfa)
    ensures ProdsOk(g, dfa, terminals, start, r.keys, r.grammar)
    // one new production for each item at dot 0, state by state
    ensures Productions(r.grammar) == DotZeros(dfa, 0)
    ensures (start, (0, 0)) !in r.keys ==> r.start == Npos
    ensures r.start != Npos ==> r.start < |r.keys| && r.keys[r.start] == (start, (0, 0))
  {
    var (ps, keys, newStart) := RewriteStates(g, dfa, terminals, start, 0, [], Npos);
    Rewritten(ps, keys, newStart)
  }
}

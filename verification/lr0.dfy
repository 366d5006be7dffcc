/** The generator's LR(0) automaton: item closure, the de-duplicating state table, the
    successor item sets of a state, and the construction of the whole automaton. */
module Lr0 {
  import opened Wrappers
  import opened ParserStateMachine
  import opened ProductionChains
  import opened Grammar

  /** An LR(0) item: a production index and the position of the dot in its rhs. */
  type Item = (nat, nat)

  /** `dfa_state`: the kernel items, their closure, and the (column, target) transitions. */
  datatype State = State(basis: seq<Item>, closure: seq<Item>, transitions: seq<(nat, nat)>)

  /** What the generator relies on in a validated grammar: the alternatives of every
      non-terminal are chained exactly, and every non-terminal named on a rhs has a
      location. */
  predicate GrammarOk(g: seq<Production>, locs: seq<Location>) {
    && ChainsOk(Links(g), locs)
    && forall k :: 0 <= k < |g| ==> RhsOk(g[k].rhs, |locs|)
  }

  predicate RhsOk(rhs: seq<Symbol>, nonTerminals: nat) {
    forall j :: 0 <= j < |rhs| ==> rhs[j].kind == NonTerminal ==> rhs[j].id < nonTerminals
  }

  /** Every item names a production, with the dot inside or at the end of its rhs. */
  predicate ItemsOk(g: seq<Production>, items: seq<Item>) {
    forall i :: 0 <= i < |items| ==> items[i].0 < |g| && items[i].1 <= |g[items[i].0].rhs|
  }

  /** The symbol after the dot, if any. */
  function NextSymbol(g: seq<Production>, it: Item): Option<Symbol> {
    if it.0 < |g| && it.1 < |g[it.0].rhs| then Some(g[it.0].rhs[it.1]) else None
  }

  /** The non-terminal after the dot, if the item has one there. */
  function NextNonTerminal(g: seq<Production>, it: Item): Option<nat> {
    match NextSymbol(g, it)
    case Some(s) => if s.kind == NonTerminal then Some(s.id) else None
    case None => None
  }

  /** Every production of `nt` is present at dot 0. */
  predicate HasAlternatives(g: seq<Production>, items: seq<Item>, nt: nat) {
    forall k :: 0 <= k < |g| && g[k].lhs == nt ==> (k, 0) in items
  }

  /** Item `i` has been expanded: when its dot is before a non-terminal, all of that
      non-terminal's productions are present at dot 0. */
  predicate Expanded(g: seq<Production>, items: seq<Item>, i: nat)
    requires i < |items|
  {
    NextNonTerminal(g, items[i]).Some? ==> HasAlternatives(g, items, NextNonTerminal(g, items[i]).value)
  }

  /** A closed item set. */
  predicate Closed(g: seq<Production>, items: seq<Item>) {
    forall i :: 0 <= i < |items| ==> Expanded(g, items, i)
  }

  /** Some item in `items` has its dot before non-terminal `nt`. */
  predicate Called(g: seq<Production>, items: seq<Item>, nt: nat) {
    exists i :: 0 <= i < |items| && NextNonTerminal(g, items[i]) == Some(nt)
  }

  /** The productions of `nt` with index in [0, bound) are all present at dot 0. */
  predicate AlternativesBelow(g: seq<Production>, items: seq<Item>, nt: nat, bound: nat) {
    forall k :: 0 <= k < |g| && k < bound && g[k].lhs == nt ==> (k, 0) in items
  }

  /** Items beyond the basis were added by the closure: each is a production at dot 0, not
      present before it, and asked for by an earlier item. */
  predicate Added(g: seq<Production>, items: seq<Item>, from: nat)
    requires from <= |items|
  {
    forall j :: from <= j < |items| ==>
      items[j].1 == 0 && items[j].0 < |g| && items[j] !in items[..j] && Called(g, items[..j], g[items[j].0].lhs)
  }

  /** The productions that are not yet present at dot 0. */
  function Absent(g: seq<Production>, items: seq<Item>): set<nat> {
    set k | 0 <= k < |g| && (k, 0) !in items
  }

  /** `closure`: expand `basis` until every item whose dot stands before a non-terminal
      has all of that non-terminal's productions at dot 0, walking each non-terminal's
      `_next_lhs` chain and skipping items already present. */
  method Closure(g: seq<Production>, locs: seq<Location>, basis: seq<Item>) returns (c: seq<Item>)
    requires GrammarOk(g, locs) && ItemsOk(g, basis)
    ensures |basis| <= |c| && c[..|basis|] == basis
    ensures ItemsOk(g, c)
    ensures Closed(g, c)
    ensures Added(g, c, |basis|)
  {
    c := basis;
    var i := 0;
    while i < |c|
      invariant i <= |c| && |basis| <= |c| && c[..|basis|] == basis
      invariant ItemsOk(g, c)
      invariant forall j :: 0 <= j < i ==> Expanded(g, c, j)
      invariant Added(g, c, |basis|)
      decreases Absent(g, c), |c| - i
    {
      var nt := NextNonTerminal(g, c[i]);
      if nt.Some? {
        var d := AddAlternatives(g, locs, c, |basis|, i);
        AllExpandedGrow(g, c, d, i);
        PrefixTrans(basis, c, d);
        c := d;
      }
      assert Expanded(g, c, i);
      ExpandedUpTo(g, c, i);
      i := i + 1;
    }
  }

  /** One more item expanded. */
  lemma ExpandedUpTo(g: seq<Production>, c: seq<Item>, i: nat)
    requires i < |c| && Expanded(g, c, i)
    requires forall j :: 0 <= j < i ==> Expanded(g, c, j)
    ensures forall j :: 0 <= j < i + 1 ==> Expanded(g, c, j)
  {
  }

  lemma AllExpandedGrow(g: seq<Production>, c: seq<Item>, d: seq<Item>, n: nat)
    requires n <= |c| <= |d| && d[..|c|] == c
    requires forall j :: 0 <= j < n ==> Expanded(g, c, j)
    ensures forall j :: 0 <= j < n ==> Expanded(g, d, j)
  {
    forall j | 0 <= j < n ensures Expanded(g, d, j) {
      ExpandedGrows(g, c, d, j);
    }
  }

  lemma PrefixTrans<T>(a: seq<T>, b: seq<T>, c: seq<T>)
    requires |a| <= |b| <= |c| && b[..|a|] == a && c[..|b|] == b
    ensures c[..|a|] == a
  {
    assert c[..|a|] == c[..|b|][..|a|];
  }

  /** An expanded item stays expanded as the item list grows. */
  lemma ExpandedGrows(g: seq<Production>, c: seq<Item>, d: seq<Item>, j: nat)
    requires j < |c| <= |d| && d[..|c|] == c && Expanded(g, c, j)
    ensures Expanded(g, d, j)
  {
    assert d[j] == c[j];
    if NextNonTerminal(g, c[j]).Some? {
      forall k | 0 <= k < |g| && g[k].lhs == NextNonTerminal(g, c[j]).value ensures (k, 0) in d {
        assert (k, 0) in c;
        var m :| 0 <= m < |c| && c[m] == (k, 0);
        assert d[m] == c[m];
      }
    }
  }

  /** The inner loop of `closure`: item `i` has its dot before a non-terminal; walk that
      non-terminal's chain and append each of its productions at dot 0 that is missing. */
  method AddAlternatives(g: seq<Production>, locs: seq<Location>, c: seq<Item>, from: nat, i: nat)
    returns (d: seq<Item>)
    requires GrammarOk(g, locs) && ItemsOk(g, c) && from <= |c| && Added(g, c, from)
    requires i < |c| && NextNonTerminal(g, c[i]).Some?
    ensures |c| <= |d| && d[..|c|] == c
    ensures ItemsOk(g, d) && Added(g, d, from)
    ensures Expanded(g, d, i)
    ensures d == c || Absent(g, d) < Absent(g, c)
  {
    var nt := NextNonTerminal(g, c[i]).value;
    assert nt < |locs| by {
      assert RhsOk(g[c[i].0].rhs, |locs|);
    }
    var rule := locs[nt].first;
    ChainStart(g, locs, nt);
    d := c;
    while rule != Npos
      invariant rule == Npos || (rule < |g| && g[rule].lhs == nt)
      invariant AlternativesBelow(g, d, nt, if rule == Npos then |g| else rule)
      invariant |c| <= |d| && d[..|c|] == c
      invariant ItemsOk(g, d) && Added(g, d, from)
      invariant d == c || Absent(g, d) < Absent(g, c)
      decreases if rule == Npos then 0 else |g| - rule
    {
      ChainNext(g, locs, rule);
      Visit(g, c, d, from, i, nt, rule);
      d := With(d, (rule, 0));
      rule := g[rule].nextLhs;
    }
    assert d[i] == c[i];
  }

  /** `d` with `x` appended unless it is already present. */
  function With(d: seq<Item>, x: Item): (r: seq<Item>)
    ensures x in r
  {
    if x in d then d else d + [x]
  }

  /** One turn of the chain walk keeps every invariant of the walk. */
  lemma Visit(g: seq<Production>, c: seq<Item>, d: seq<Item>, from: nat, i: nat, nt: nat, rule: nat)
    requires i < |c| && NextNonTerminal(g, c[i]) == Some(nt) && from <= |c|
    requires rule < |g| && g[rule].lhs == nt
    requires AlternativesBelow(g, d, nt, rule)
    requires |c| <= |d| && d[..|c|] == c
    requires ItemsOk(g, d) && Added(g, d, from)
    requires d == c || Absent(g, d) < Absent(g, c)
    requires g[rule].nextLhs == Npos ==> forall k :: rule < k < |g| ==> g[k].lhs != nt
    requires g[rule].nextLhs != Npos ==>
      rule < g[rule].nextLhs <= |g| && forall k :: rule < k < g[rule].nextLhs ==> g[k].lhs != nt
    ensures var e := With(d, (rule, 0));
      && AlternativesBelow(g, e, nt, if g[rule].nextLhs == Npos then |g| else g[rule].nextLhs)
      && |c| <= |e| && e[..|c|] == c
      && ItemsOk(g, e) && Added(g, e, from)
      && (e == c || Absent(g, e) < Absent(g, c))
  {
    var e := With(d, (rule, 0));
    if (rule, 0) !in d {
      assert e == d + [(rule, 0)];
      VisitNew(g, c, d, from, i, rule);
    }
    AlternativesBelowNext(g, d, e, nt, rule, g[rule].nextLhs);
  }

  /** Appending a missing production at dot 0 keeps the walk's record of what it added. */
  lemma VisitNew(g: seq<Production>, c: seq<Item>, d: seq<Item>, from: nat, i: nat, rule: nat)
    requires rule < |g| && (rule, 0) !in d
    requires i < |c| && NextNonTerminal(g, c[i]) == Some(g[rule].lhs) && from <= |c|
    requires |c| <= |d| && d[..|c|] == c
    requires ItemsOk(g, d) && Added(g, d, from)
    requires d == c || Absent(g, d) < Absent(g, c)
    ensures var e := d + [(rule, 0)];
      && |c| <= |e| && e[..|c|] == c
      && ItemsOk(g, e) && Added(g, e, from)
      && Absent(g, e) < Absent(g, c)
  {
    assert d[i] == c[i];
    AppendAdded(g, d, from, i, (rule, 0));
    AbsentShrinks(g, d, rule);
    PrefixAppend(c, d, (rule, 0));
    if d != c {
      StrictSubsetTrans(Absent(g, d + [(rule, 0)]), Absent(g, d), Absent(g, c));
    }
  }

  lemma StrictSubsetTrans<T>(a: set<T>, b: set<T>, c: set<T>)
    requires a < b && b < c
    ensures a < c
  {
  }

  /** Where a non-terminal's chain starts: at its first production, or nowhere when it
      has none. */
  lemma ChainStart(g: seq<Production>, locs: seq<Location>, nt: nat)
    requires GrammarOk(g, locs) && nt < |locs|
    ensures locs[nt].first == Npos ==> forall k :: 0 <= k < |g| ==> g[k].lhs != nt
    ensures locs[nt].first != Npos ==> locs[nt].first < |g| && g[locs[nt].first].lhs == nt
    ensures forall k :: 0 <= k < |g| && k < locs[nt].first ==> g[k].lhs != nt
  {
    assert LocationOk(Links(g), locs, nt);
  }

  /** One step along a chain: `_next_lhs` is the next production with the same lhs, or
      `Npos` after the last one. */
  lemma ChainNext(g: seq<Production>, locs: seq<Location>, rule: nat)
    requires GrammarOk(g, locs) && rule < |g|
    ensures g[rule].nextLhs == Npos ==> forall k :: rule < k < |g| ==> g[k].lhs != g[rule].lhs
    ensures g[rule].nextLhs != Npos ==>
      rule < g[rule].nextLhs < |g| && g[g[rule].nextLhs].lhs == g[rule].lhs &&
      forall k :: rule < k < g[rule].nextLhs ==> g[k].lhs != g[rule].lhs
  {
    assert NextOk(Links(g), rule);
  }

  lemma AlternativesBelowNext(g: seq<Production>, d0: seq<Item>, d: seq<Item>, nt: nat, rule: nat, next: nat)
    requires rule < |g| && g[rule].lhs == nt && (rule, 0) in d
    requires AlternativesBelow(g, d0, nt, rule) && |d0| <= |d| && d[..|d0|] == d0
    requires next == Npos ==> forall k :: rule < k < |g| ==> g[k].lhs != nt
    requires next != Npos ==> rule < next <= |g| && forall k :: rule < k < next ==> g[k].lhs != nt
    ensures AlternativesBelow(g, d, nt, if next == Npos then |g| else next)
  {
    forall k | 0 <= k < |g| && k < (if next == Npos then |g| else next) && g[k].lhs == nt
      ensures (k, 0) in d
    {
      if k < rule {
        assert (k, 0) in d0;
        var m :| 0 <= m < |d0| && d0[m] == (k, 0);
        assert d[m] == d0[m];
      }
    }
  }

  lemma PrefixAppend<T>(p: seq<T>, d: seq<T>, x: T)
    requires |p| <= |d| && d[..|p|] == p
    ensures (d + [x])[..|p|] == p
  {
    assert (d + [x])[..|p|] == d[..|p|];
  }

  lemma AbsentShrinks(g: seq<Production>, d: seq<Item>, rule: nat)
    requires rule < |g| && (rule, 0) !in d
    ensures Absent(g, d + [(rule, 0)]) < Absent(g, d)
  {
    assert rule in Absent(g, d);
    assert rule !in Absent(g, d + [(rule, 0)]);
  }

  /** Appending an item asked for by item `i` keeps the record of added items, and keeps
      every earlier item expanded. */
  lemma AppendAdded(g: seq<Production>, c: seq<Item>, from: nat, i: nat, it: Item)
    requires from <= |c| && i < |c| && it !in c && it.1 == 0 && it.0 < |g|
    requires NextNonTerminal(g, c[i]) == Some(g[it.0].lhs)
    requires Added(g, c, from) && ItemsOk(g, c)
    ensures Added(g, c + [it], from) && ItemsOk(g, c + [it])
    ensures (c + [it])[..|c|] == c
  {
    var d := c + [it];
    assert d[..|c|] == c;
    forall j | from <= j < |d|
      ensures d[j].1 == 0 && d[j].0 < |g| && d[j] !in d[..j] && Called(g, d[..j], g[d[j].0].lhs)
    {
      if j < |c| {
        assert d[..j] == c[..j];
      } else {
        assert d[..j] == c;
        assert NextNonTerminal(g, d[..j][i]) == Some(g[d[j].0].lhs);
      }
    }
  }

  // ---- the state table ----

  /** No two states share a basis. */
  predicate DistinctBases(dfa: seq<State>) {
    forall i, j :: 0 <= i < j < |dfa| ==> dfa[i].basis != dfa[j].basis
  }

  /** The first state whose basis is `basis`, if any. */
  function FindBasis(dfa: seq<State>, basis: seq<Item>): (r: Option<nat>)
    ensures r.Some? ==> r.value < |dfa| && dfa[r.value].basis == basis
    ensures r.Some? ==> forall i :: 0 <= i < r.value ==> dfa[i].basis != basis
    ensures r.None? <==> forall i :: 0 <= i < |dfa| ==> dfa[i].basis != basis
  {
    if |dfa| == 0 then None
    else if dfa[|dfa| - 1].basis == basis then
      match FindBasis(dfa[..|dfa| - 1], basis)
      case Some(i) => Some(i)
      case None => Some(|dfa| - 1)
    else
      var r := FindBasis(dfa[..|dfa| - 1], basis);
      assert forall i :: 0 <= i < |dfa| - 1 ==> dfa[..|dfa| - 1][i] == dfa[i];
      r
  }

  /** `add_dfa_state`: the index of the state with this basis, appending a new state when
      there is none. The source finds candidates through a hash of the basis and then
      compares bases; equal bases hash alike, so searching by equality finds the same
      state. */
  function AddDfaState(dfa: seq<State>, basis: seq<Item>): (r: (seq<State>, nat))
    ensures r.1 < |r.0| && r.0[r.1].basis == basis
    ensures (exists i :: 0 <= i < |dfa| && dfa[i].basis == basis) ==> r.0 == dfa
    ensures (forall i :: 0 <= i < |dfa| ==> dfa[i].basis != basis) ==>
      r.0 == dfa + [State(basis, [], [])] && r.1 == |dfa|
  {
    match FindBasis(dfa, basis)
    case Some(i) => (dfa, i)
    case None => (dfa + [State(basis, [], [])], |dfa|)
  }

  /** Adding a state keeps the bases distinct, so the index returned is the only state with
      that basis, and the states already present are untouched. */
  lemma AddDfaStateKeepsDistinct(dfa: seq<State>, basis: seq<Item>)
    requires DistinctBases(dfa)
    ensures var r := AddDfaState(dfa, basis);
      && DistinctBases(r.0)
      && (forall i :: 0 <= i < |r.0| && r.0[i].basis == basis ==> i == r.1)
      && |dfa| <= |r.0| && r.0[..|dfa|] == dfa
  {
    var r := AddDfaState(dfa, basis);
    if forall i :: 0 <= i < |dfa| ==> dfa[i].basis != basis {
      assert r.0[..|dfa|] == dfa;
    }
  }

  // ---- kernel item order ----

  /** `std::pair`'s order on items. */
  predicate ItemLe(a: Item, b: Item) {
    a.0 < b.0 || (a.0 == b.0 && a.1 <= b.1)
  }

  predicate SortedItems(s: seq<Item>) {
    forall i, j :: 0 <= i < j < |s| ==> ItemLe(s[i], s[j])
  }

  function InsertItem(x: Item, s: seq<Item>): (r: seq<Item>)
    requires SortedItems(s)
    ensures SortedItems(r) && multiset(r) == multiset(s) + multiset{x}
  {
    if |s| == 0 then [x]
    else if ItemLe(x, s[0]) then [x] + s
    else
      var t := InsertItem(x, s[1..]);
      assert s == [s[0]] + s[1..];
      assert forall k :: 0 <= k < |t| ==> ItemLe(s[0], t[k]) by {
        forall k | 0 <= k < |t| ensures ItemLe(s[0], t[k]) {
          assert t[k] in multiset(t);
          assert t[k] in multiset(s[1..]) + multiset{x};
          if t[k] != x {
            assert t[k] in s[1..];
          }
        }
      }
      [s[0]] + t
  }

  /** `std::sort` of a basis: the same items, in order. */
  function SortItems(s: seq<Item>): (r: seq<Item>)
    ensures SortedItems(r) && multiset(r) == multiset(s)
  {
    if |s| == 0 then []
    else
      assert s == s[..|s| - 1] + [s[|s| - 1]];
      InsertItem(s[|s| - 1], SortItems(s[..|s| - 1]))
  }

  // ---- successors of a state ----

  /** The table column of a symbol: terminals first, then non-terminals. */
  function Column(terminals: nat, s: Symbol): nat {
    if s.kind == Terminal then s.id else terminals + s.id
  }

  /** The item with its dot moved over one symbol. */
  function Advance(it: Item): Item {
    (it.0, it.1 + 1)
  }

  /** Some item of `c` has a symbol for `column` after its dot. */
  predicate Shifts(g: seq<Production>, terminals: nat, c: seq<Item>, column: nat) {
    exists j :: 0 <= j < |c| && ShiftsOn(g, terminals, c[j], column)
  }

  predicate ShiftsOn(g: seq<Production>, terminals: nat, it: Item, column: nat) {
    NextSymbol(g, it).Some? && Column(terminals, NextSymbol(g, it).value) == column
  }

  /** `it` is the kernel item reached from some item of `c` over the symbol for `column`. */
  predicate GotoItem(g: seq<Production>, terminals: nat, c: seq<Item>, column: nat, it: Item) {
    exists j :: 0 <= j < |c| && ShiftsOn(g, terminals, c[j], column) && it == Advance(c[j])
  }

  predicate NoDuplicates<T(==)>(s: seq<T>) {
    forall i, j :: 0 <= i < j < |s| ==> s[i] != s[j]
  }

  /** What the grouping loop of `build_dfa` has built after scanning `c`. */
  ghost predicate Grouped(g: seq<Production>, terminals: nat, c: seq<Item>, symbols: seq<nat>, sets: seq<seq<Item>>) {
    && |symbols| == |sets|
    && NoDuplicates(symbols)
    && (forall col :: col in symbols <==> Shifts(g, terminals, c, col))
    && (forall k, it :: 0 <= k < |sets| ==> (it in sets[k] <==> GotoItem(g, terminals, c, symbols[k], it)))
    && (forall k :: 0 <= k < |sets| ==> NoDuplicates(sets[k]))
  }

  /** The grouping loop of `build_dfa`: for every item of the closure with a symbol after
      its dot, collect the advanced item under that symbol's column, columns in order of
      first appearance and each item once. */
  method Successors(g: seq<Production>, terminals: nat, c: seq<Item>)
    returns (symbols: seq<nat>, sets: seq<seq<Item>>)
    ensures Grouped(g, terminals, c, symbols, sets)
  {
    symbols, sets := [], [];
    var i := 0;
    while i < |c|
      invariant i <= |c|
      invariant Grouped(g, terminals, c[..i], symbols, sets)
    {
      var r := Group(g, terminals, c[..i], c[i], symbols, sets);
      symbols, sets := r.0, r.1;
      assert c[..i] + [c[i]] == c[..i + 1];
      i := i + 1;
    }
    assert c[..i] == c;
  }

  /** One turn of the grouping loop. */
  function Group(g: seq<Production>, terminals: nat, c: seq<Item>, it: Item, symbols: seq<nat>, sets: seq<seq<Item>>)
    : (r: (seq<nat>, seq<seq<Item>>))
    requires Grouped(g, terminals, c, symbols, sets)
    ensures Grouped(g, terminals, c + [it], r.0, r.1)
  {
    GroupStep(g, terminals, c, it);
    match NextSymbol(g, it)
    case None => (symbols, sets)
    case Some(sym) =>
      var col := Column(terminals, sym);
      var next := Advance(it);
      if col !in symbols then
        var r := (symbols + [col], sets + [[next]]);
        assert forall k :: 0 <= k < |sets| ==> r.0[k] == symbols[k] && r.1[k] == sets[k];
        r
      else
        var k :| 0 <= k < |symbols| && symbols[k] == col;
        if next in sets[k] then (symbols, sets)
        else
          var r := (symbols, sets[k := sets[k] + [next]]);
          assert NoDuplicates(r.1[k]);
          r
  }

  /** How the predicates of `Grouped` change when one more item is scanned. */
  lemma GroupStep(g: seq<Production>, terminals: nat, c: seq<Item>, it: Item)
    ensures forall col :: Shifts(g, terminals, c + [it], col) <==>
      Shifts(g, terminals, c, col) || ShiftsOn(g, terminals, it, col)
    ensures forall col, x :: GotoItem(g, terminals, c + [it], col, x) <==>
      GotoItem(g, terminals, c, col, x) || (ShiftsOn(g, terminals, it, col) && x == Advance(it))
  {
    var d := c + [it];
    assert forall j :: 0 <= j < |c| ==> d[j] == c[j];
    assert d[|c|] == it;
  }

  // ---- the automaton ----

  /** The kernel of state 0: the start rule's first production at dot 0, or production 0
      when no start rule is set. Reading a missing production is undefined. */
  function InitialBasis(g: seq<Production>, locs: seq<Location>, start: nat): (b: Behaviour<seq<Item>>)
    requires GrammarOk(g, locs)
    ensures b.Defined? ==> ItemsOk(g, b.value) && SortedItems(b.value) && |b.value| == 1
    ensures start != Npos && b.Defined? ==> start < |locs| && b.value == [(locs[start].first, 0)]
  {
    if start == Npos then
      if |g| > 0 then Defined([(0, 0)]) else Undefined
    else if start < |locs| && locs[start].first != Npos then
      assert LocationOk(Links(g), locs, start);
      Defined([(locs[start].first, 0)])
    else Undefined
  }

  /** A kernel as the automaton stores it. */
  predicate BasisOk(g: seq<Production>, b: seq<Item>) {
    ItemsOk(g, b) && SortedItems(b)
  }

  /** State `s` is finished: its closure is the closure of its basis, and it has one
      transition per column some closure item can shift, to the state whose basis holds
      exactly the advanced items. */
  ghost predicate StateOk(g: seq<Production>, terminals: nat, dfa: seq<State>, s: nat)
    requires s < |dfa|
  {
    var st := dfa[s];
    && |st.basis| <= |st.closure| && st.closure[..|st.basis|] == st.basis
    && ItemsOk(g, st.closure) && Closed(g, st.closure) && Added(g, st.closure, |st.basis|)
    && (forall t :: 0 <= t < |st.transitions| ==> TransitionOk(g, terminals, dfa, st.closure, st.transitions[t]))
    && (forall col :: HasTransition(st.transitions, col) <==> Shifts(g, terminals, st.closure, col))
    && (forall t, u :: 0 <= t < u < |st.transitions| ==> st.transitions[t].0 != st.transitions[u].0)
  }

  predicate HasTransition(ts: seq<(nat, nat)>, col: nat) {
    exists t :: 0 <= t < |ts| && ts[t].0 == col
  }

  /** A transition leads to an existing state whose basis is the goto set of the closure
      on its column. */
  ghost predicate TransitionOk(g: seq<Production>, terminals: nat, dfa: seq<State>, closure: seq<Item>, tr: (nat, nat)) {
    tr.1 < |dfa| && forall it :: it in dfa[tr.1].basis <==> GotoItem(g, terminals, closure, tr.0, it)
  }

  /** The finished automaton. */
  ghost predicate DfaOk(g: seq<Production>, terminals: nat, dfa: seq<State>) {
    && |dfa| > 0 && DistinctBases(dfa)
    && (forall s :: 0 <= s < |dfa| ==> BasisOk(g, dfa[s].basis))
    && (forall s :: 0 <= s < |dfa| ==> StateOk(g, terminals, dfa, s))
  }

  /** `dfa2` grew from `dfa`: states were only appended, and no basis changed. */
  predicate Grew(dfa: seq<State>, dfa2: seq<State>) {
    |dfa| <= |dfa2| && forall k :: 0 <= k < |dfa| ==> dfa2[k].basis == dfa[k].basis
  }

  lemma StateOkGrows(g: seq<Production>, terminals: nat, dfa: seq<State>, dfa2: seq<State>, s: nat)
    requires s < |dfa| && Grew(dfa, dfa2) && dfa2[s] == dfa[s] && StateOk(g, terminals, dfa, s)
    ensures StateOk(g, terminals, dfa2, s)
  {
    var st := dfa[s];
    forall t | 0 <= t < |st.transitions|
      ensures TransitionOk(g, terminals, dfa2, st.closure, st.transitions[t])
    {
      assert TransitionOk(g, terminals, dfa, st.closure, st.transitions[t]);
    }
  }

  /** `build_dfa`: starting from the initial kernel, close each state in turn and add a
      transition, and if need be a state, for each column its closure can shift. The loop
      ends when no new kernels appear; `fuel` bounds the number of states processed. */
  method BuildDfa(g: seq<Production>, locs: seq<Location>, terminals: nat, start: nat, fuel: nat)
    returns (o: Outcome<seq<State>>)
    requires GrammarOk(g, locs)
    ensures InitialBasis(g, locs, start).Undefined? ==> o == Crashed
    ensures o.Returned? ==> DfaOk(g, terminals, o.value) && o.value[0].basis == InitialBasis(g, locs, start).value
  {
    var b0 := InitialBasis(g, locs, start);
    if b0.Undefined? {
      return Crashed;
    }
    var dfa := [State(b0.value, [], [])];
    var s := 0;
    var f := fuel;
    while s < |dfa|
      invariant 0 < |dfa| && s <= |dfa| && DistinctBases(dfa) && dfa[0].basis == b0.value
      invariant forall k :: 0 <= k < |dfa| ==> BasisOk(g, dfa[k].basis)
      invariant forall k :: 0 <= k < s ==> StateOk(g, terminals, dfa, k)
      decreases f
    {
      if f == 0 {
        return OutOfFuel;
      }
      f := f - 1;
      var dfa2 := ProcessState(g, locs, terminals, dfa, s);
      forall k | 0 <= k < s ensures StateOk(g, terminals, dfa2, k) {
        StateOkGrows(g, terminals, dfa, dfa2, k);
      }
      dfa := dfa2;
      s := s + 1;
    }
    return Returned(dfa);
  }

  /** One turn of `build_dfa`'s loop: close state `s` and add its transitions. */
  method ProcessState(g: seq<Production>, locs: seq<Location>, terminals: nat, dfa: seq<State>, s: nat)
    returns (r: seq<State>)
    requires GrammarOk(g, locs) && s < |dfa| && DistinctBases(dfa)
    requires forall k :: 0 <= k < |dfa| ==> BasisOk(g, dfa[k].basis)
    ensures Grew(dfa, r) && DistinctBases(r)
    ensures forall k :: 0 <= k < |r| ==> BasisOk(g, r[k].basis)
    ensures forall k :: 0 <= k < |dfa| && k != s ==> r[k] == dfa[k]
    ensures StateOk(g, terminals, r, s)
  {
    var closure := Closure(g, locs, dfa[s].basis);
    var symbols, sets := Successors(g, terminals, closure);
    r := dfa[s := dfa[s].(closure := closure, transitions := [])];
    var j := 0;
    while j < |symbols|
      invariant j <= |symbols| && Grew(dfa, r) && DistinctBases(r)
      invariant forall k :: 0 <= k < |r| ==> BasisOk(g, r[k].basis)
      invariant forall k :: 0 <= k < |dfa| && k != s ==> r[k] == dfa[k]
      invariant r[s].basis == dfa[s].basis && r[s].closure == closure
      invariant |r[s].transitions| == j
      invariant forall t :: 0 <= t < j ==> TransitionTo(r, r[s].transitions[t], symbols[t], SortItems(sets[t]))
    {
      SuccessorBasisOk(g, terminals, closure, symbols, sets, j);
      TransitionStep(g, dfa, r, s, closure, symbols, sets, j);
      r := AddTransition(r, s, symbols[j], SortItems(sets[j]));
      j := j + 1;
    }
    FinishState(g, terminals, r, s, symbols, sets);
  }

  /** One turn of the transition loop keeps its invariant. */
  lemma TransitionStep(g: seq<Production>, dfa: seq<State>, r: seq<State>, s: nat, closure: seq<Item>,
                       symbols: seq<nat>, sets: seq<seq<Item>>, j: nat)
    requires s < |dfa| && j < |symbols| && j < |sets| && BasisOk(g, SortItems(sets[j]))
    requires Grew(dfa, r) && DistinctBases(r)
    requires forall k :: 0 <= k < |r| ==> BasisOk(g, r[k].basis)
    requires forall k :: 0 <= k < |dfa| && k != s ==> r[k] == dfa[k]
    requires r[s].basis == dfa[s].basis && r[s].closure == closure
    requires |r[s].transitions| == j
    requires forall t :: 0 <= t < j ==> TransitionTo(r, r[s].transitions[t], symbols[t], SortItems(sets[t]))
    ensures var r2 := AddTransition(r, s, symbols[j], SortItems(sets[j]));
      && Grew(dfa, r2) && DistinctBases(r2)
      && (forall k :: 0 <= k < |r2| ==> BasisOk(g, r2[k].basis))
      && (forall k :: 0 <= k < |dfa| && k != s ==> r2[k] == dfa[k])
      && r2[s].basis == dfa[s].basis && r2[s].closure == closure
      && |r2[s].transitions| == j + 1
      && (forall t :: 0 <= t < j + 1 ==> TransitionTo(r2, r2[s].transitions[t], symbols[t], SortItems(sets[t])))
  {
    var basis := SortItems(sets[j]);
    AddTransitionKeeps(g, dfa, r, s, symbols[j], basis);
    var r2 := AddTransition(r, s, symbols[j], basis);
    forall t | 0 <= t < j + 1 ensures TransitionTo(r2, r2[s].transitions[t], symbols[t], SortItems(sets[t])) {
      if t < j {
        assert r2[s].transitions[t] == r2[s].transitions[..j][t] == r[s].transitions[t];
        assert TransitionTo(r, r[s].transitions[t], symbols[t], SortItems(sets[t]));
      }
    }
  }

  /** The body of the transition loop: find or add the state for `basis`, and record the
      transition to it from state `s`. */
  function AddTransition(dfa: seq<State>, s: nat, col: nat, basis: seq<Item>): (r: seq<State>)
    requires s < |dfa|
    ensures s < |r| && |r[s].transitions| == |dfa[s].transitions| + 1
    ensures r[s].transitions[..|dfa[s].transitions|] == dfa[s].transitions
    ensures var tr := r[s].transitions[|dfa[s].transitions|];
      tr.0 == col && tr.1 < |r| && r[tr.1].basis == basis
  {
    var (r2, index) := AddDfaState(dfa, basis);
    assert r2[..|dfa|] == dfa by {
      if r2 != dfa {
        assert r2 == dfa + [State(basis, [], [])];
      }
    }
    assert r2[s] == dfa[s];
    var r := r2[s := r2[s].(transitions := r2[s].transitions + [(col, index)])];
    assert r[s].transitions[..|dfa[s].transitions|] == dfa[s].transitions;
    r
  }

  /** Adding a transition keeps what the transition loop relies on. */
  lemma AddTransitionKeeps(g: seq<Production>, dfa0: seq<State>, dfa: seq<State>, s: nat, col: nat, basis: seq<Item>)
    requires s < |dfa0| && Grew(dfa0, dfa) && DistinctBases(dfa) && BasisOk(g, basis)
    requires forall k :: 0 <= k < |dfa| ==> BasisOk(g, dfa[k].basis)
    ensures var r := AddTransition(dfa, s, col, basis);
      && Grew(dfa0, r) && Grew(dfa, r) && DistinctBases(r)
      && (forall k :: 0 <= k < |r| ==> BasisOk(g, r[k].basis))
      && (forall k :: 0 <= k < |dfa| && k != s ==> r[k] == dfa[k])
      && r[s].basis == dfa[s].basis && r[s].closure == dfa[s].closure
  {
    AddDfaStateKeepsDistinct(dfa, basis);
    var (r2, index) := AddDfaState(dfa, basis);
    var r := AddTransition(dfa, s, col, basis);
    assert r == r2[s := r2[s].(transitions := r2[s].transitions + [(col, index)])];
    assert forall k :: 0 <= k < |r| ==> r[k].basis == r2[k].basis;
  }

  /** The kernel built for column `symbols[j]` is well formed. */
  lemma SuccessorBasisOk(g: seq<Production>, terminals: nat, c: seq<Item>, symbols: seq<nat>, sets: seq<seq<Item>>, j: nat)
    requires ItemsOk(g, c) && Grouped(g, terminals, c, symbols, sets) && j < |sets|
    ensures BasisOk(g, SortItems(sets[j]))
  {
    var b := SortItems(sets[j]);
    forall i | 0 <= i < |b| ensures b[i].0 < |g| && b[i].1 <= |g[b[i].0].rhs| {
      assert b[i] in multiset(b);
      assert b[i] in sets[j];
      assert GotoItem(g, terminals, c, symbols[j], b[i]);
    }
  }

  /** `tr` goes on column `col` to a state with kernel `basis`. */
  predicate TransitionTo(dfa: seq<State>, tr: (nat, nat), col: nat, basis: seq<Item>) {
    tr.0 == col && tr.1 < |dfa| && dfa[tr.1].basis == basis
  }

  /** Once every column has its transition, the state is finished. */
  lemma FinishState(g: seq<Production>, terminals: nat, r: seq<State>, s: nat, symbols: seq<nat>, sets: seq<seq<Item>>)
    requires s < |r| && Grouped(g, terminals, r[s].closure, symbols, sets)
    requires |r[s].basis| <= |r[s].closure| && r[s].closure[..|r[s].basis|] == r[s].basis
    requires ItemsOk(g, r[s].closure) && Closed(g, r[s].closure) && Added(g, r[s].closure, |r[s].basis|)
    requires |r[s].transitions| == |symbols|
    requires forall t :: 0 <= t < |symbols| ==> TransitionTo(r, r[s].transitions[t], symbols[t], SortItems(sets[t]))
    ensures StateOk(g, terminals, r, s)
  {
    var st := r[s];
    forall t | 0 <= t < |st.transitions|
      ensures TransitionOk(g, terminals, r, st.closure, st.transitions[t])
    {
      var b := r[st.transitions[t].1].basis;
      assert multiset(b) == multiset(sets[t]);
      forall it ensures it in b <==> GotoItem(g, terminals, st.closure, symbols[t], it) {
        assert it in b <==> it in multiset(b);
        assert it in sets[t] <==> it in multiset(sets[t]);
      }
    }
    forall col ensures HasTransition(st.transitions, col) <==> Shifts(g, terminals, st.closure, col) {
      if col in symbols {
        var t :| 0 <= t < |symbols| && symbols[t] == col;
        assert st.transitions[t].0 == col;
      }
    }
  }
}

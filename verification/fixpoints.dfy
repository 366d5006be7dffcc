/** `build_first_sets` and `build_follow_sets`: nullability, FIRST and FOLLOW of the
    rewritten grammar, each computed as in lemon by sweeping over the productions until a
    sweep changes nothing. Each result is proved to be the least solution of its equations:
    it satisfies them, and lies below every other set that does. */
module Fixpoints {
  import opened Wrappers
  import opened Grammar
  import opened BitSet
  import opened Rewrite

  /** A symbol of the rewritten grammar within range: `n` non-terminals, `terminals`
      terminals. */
  predicate SymbolIn(sym: Symbol, n: nat, terminals: nat) {
    if sym.kind == NonTerminal then sym.id < n else sym.id < terminals
  }

  predicate ProdIn(p: Prod, n: nat, terminals: nat) {
    p.lhs < n && forall j :: 0 <= j < |p.rhs| ==> SymbolIn(p.rhs[j], n, terminals)
  }

  predicate GrammarIn(ng: seq<Prod>, n: nat, terminals: nat) {
    forall i :: 0 <= i < |ng| ==> ProdIn(ng[i], n, terminals)
  }

  /** Every lhs names one of `n` non-terminals. */
  predicate LhsIn(ng: seq<Prod>, n: nat) {
    forall k :: 0 <= k < |ng| ==> ng[k].lhs < n
  }

  // ---------------------------------------------------------------- nullable

  /** A symbol that can derive the empty string, as far as `nullable` knows. */
  predicate NullableSym(sym: Symbol, nullable: seq<bool>) {
    sym.kind == NonTerminal && sym.id < |nullable| && nullable[sym.id]
  }

  /** Every symbol of `rhs[from..to]` is nullable. */
  predicate NullableBetween(rhs: seq<Symbol>, from: nat, to: nat, nullable: seq<bool>) {
    forall m :: from <= m < to && m < |rhs| ==> NullableSym(rhs[m], nullable)
  }

  /** The nullable equations: a production whose whole rhs is nullable makes its lhs
      nullable. */
  predicate NullableClosed(ng: seq<Prod>, nullable: seq<bool>) {
    forall i :: 0 <= i < |ng| && ng[i].lhs < |nullable| && NullableBetween(ng[i].rhs, 0, |ng[i].rhs|, nullable)
      ==> nullable[ng[i].lhs]
  }

  /** The same equations for the productions from `i` on. */
  predicate NullableClosedFrom(ng: seq<Prod>, i: nat, nullable: seq<bool>) {
    forall k :: i <= k < |ng| && ng[k].lhs < |nullable| && NullableBetween(ng[k].rhs, 0, |ng[k].rhs|, nullable)
      ==> nullable[ng[k].lhs]
  }

  /** Pointwise inclusion of flag vectors of the same length. */
  predicate Le(a: seq<bool>, b: seq<bool>) {
    |a| == |b| && Members(a) <= Members(b)
  }

  /** The flags not (yet) set: what a sweep can still add. */
  function Unset(s: seq<bool>): set<nat> {
    set i: nat | i < |s| && !s[i]
  }

  lemma UnsetShrinks(a: seq<bool>, b: seq<bool>)
    requires Le(a, b)
    ensures Unset(b) <= Unset(a)
    ensures Members(a) != Members(b) ==> Unset(b) < Unset(a)
  {
    forall t | t in Unset(b) ensures t in Unset(a) {
      assert t !in Members(b);
    }
    if Members(a) != Members(b) {
      var t :| t in Members(b) && t !in Members(a);
      assert t in Unset(a) && t !in Unset(b);
    }
  }

  /** One sweep of the nullable loop over `ng[i..]`: a production whose lhs is not yet
      nullable and whose rhs is all nullable non-terminals makes its lhs nullable, visible
      to the productions after it. Answers the new flags and whether any was set. */
  function NullableSweep(ng: seq<Prod>, nullable: seq<bool>, i: nat): (r: (seq<bool>, bool))
    requires LhsIn(ng, |nullable|)
    requires i <= |ng|
    ensures Le(nullable, r.0)
    ensures r.1 ==> Unset(r.0) < Unset(nullable)
    ensures !r.1 ==> r.0 == nullable
    decreases |ng| - i
  {
    if i == |ng| then (nullable, false)
    else
      var p := ng[i];
      if nullable[p.lhs] || !NullableBetween(p.rhs, 0, |p.rhs|, nullable) then NullableSweep(ng, nullable, i + 1)
      else
        var set1 := nullable[p.lhs := true];
        assert Members(set1) == Members(nullable) + {p.lhs};
        UnsetShrinks(nullable, set1);
        var r := NullableSweep(ng, set1, i + 1);
        UnsetShrinks(set1, r.0);
        (r.0, true)
  }

  /** More nullable flags keep a nullable stretch nullable. */
  lemma NullableBetweenGrows(rhs: seq<Symbol>, from: nat, to: nat, nullable: seq<bool>, more: seq<bool>)
    requires Le(nullable, more) && NullableBetween(rhs, from, to, nullable)
    ensures NullableBetween(rhs, from, to, more)
  {
    forall m | from <= m < to && m < |rhs| ensures NullableSym(rhs[m], more) {
      assert rhs[m].id in Members(nullable);
    }
  }

  /** A sweep that sets nothing has found every production from `i` on satisfied. */
  lemma {:induction false} NullableSweepStable(ng: seq<Prod>, nullable: seq<bool>, i: nat)
    requires LhsIn(ng, |nullable|) && i <= |ng|
    requires !NullableSweep(ng, nullable, i).1
    ensures NullableClosedFrom(ng, i, nullable)
    decreases |ng| - i
  {
    if i < |ng| {
      NullableSweepStable(ng, nullable, i + 1);
    }
  }

  /** A sweep never sets a flag outside any solution of the equations above its input. */
  lemma {:induction false} NullableSweepBelow(ng: seq<Prod>, nullable: seq<bool>, i: nat, other: seq<bool>)
    requires LhsIn(ng, |nullable|) && i <= |ng|
    requires Le(nullable, other) && NullableClosed(ng, other)
    ensures Le(NullableSweep(ng, nullable, i).0, other)
    decreases |ng| - i
  {
    if i < |ng| {
      var p := ng[i];
      if nullable[p.lhs] || !NullableBetween(p.rhs, 0, |p.rhs|, nullable) {
        NullableSweepBelow(ng, nullable, i + 1, other);
      } else {
        NullableBetweenGrows(p.rhs, 0, |p.rhs|, nullable, other);
        var set1 := nullable[p.lhs := true];
        assert Members(set1) == Members(nullable) + {p.lhs};
        NullableSweepBelow(ng, set1, i + 1, other);
      }
    }
  }

  /** The least solution of the nullable equations below any solution. */
  ghost predicate LeastNullable(ng: seq<Prod>, nullable: seq<bool>) {
    forall other :: |other| == |nullable| && NullableClosed(ng, other) ==> Le(nullable, other)
  }

  /** The first loop of `build_first_sets`: sweep until a sweep sets nothing. The result
      holds exactly the non-terminals that derive the empty string: it satisfies the
      nullable equations and is below every solution of them. */
  method Nullables(ng: seq<Prod>, n: nat) returns (nullable: seq<bool>)
    requires LhsIn(ng, n)
    ensures |nullable| == n && NullableClosed(ng, nullable) && LeastNullable(ng, nullable)
  {
    nullable := Empty(n);
    var progress := true;
    while progress
      invariant |nullable| == n
      invariant LeastNullable(ng, nullable)
      invariant !progress ==> NullableClosed(ng, nullable)
      decreases Unset(nullable), progress
    {
      var r := NullableSweep(ng, nullable, 0);
      forall other | |other| == n && NullableClosed(ng, other) ensures Le(r.0, other) {
        NullableSweepBelow(ng, nullable, 0, other);
      }
      if !r.1 {
        NullableSweepStable(ng, nullable, 0);
      }
      nullable, progress := r.0, r.1;
    }
  }

  // ---------------------------------------------------------------- per-non-terminal sets

  /** `n` sets over `terminals` terminals, one per non-terminal. */
  predicate Shape(sets: seq<seq<bool>>, n: nat, terminals: nat) {
    |sets| == n && forall a :: 0 <= a < n ==> |sets[a]| == terminals
  }

  /** Every set of `a` is included in the corresponding set of `b`. */
  predicate Le2(a: seq<seq<bool>>, b: seq<seq<bool>>) {
    |a| == |b| && forall k :: 0 <= k < |a| ==> Le(a[k], b[k])
  }

  /** The (non-terminal, terminal) pairs not (yet) set. */
  function Unset2(sets: seq<seq<bool>>): set<(nat, nat)> {
    set k: nat, t: nat | k < |sets| && t < |sets[k]| && !sets[k][t] :: (k, t)
  }

  /** Growing one set keeps the others and shrinks what is unset; strictly when it really
      grew. */
  lemma Unset2Shrinks(sets: seq<seq<bool>>, k: nat, f: seq<bool>)
    requires k < |sets| && Le(sets[k], f)
    ensures Le2(sets, sets[k := f])
    ensures Unset2(sets[k := f]) <= Unset2(sets)
    ensures Members(sets[k]) != Members(f) ==> Unset2(sets[k := f]) < Unset2(sets)
  {
    var after := sets[k := f];
    forall pr | pr in Unset2(after) ensures pr in Unset2(sets) {
      var (a, t) := pr;
      if a == k {
        assert t !in Members(f);
      }
    }
    if Members(sets[k]) != Members(f) {
      var t :| t in Members(f) && t !in Members(sets[k]);
      assert (k, t) in Unset2(sets) && (k, t) !in Unset2(after);
    }
  }

  /** Two flag vectors of one length with the same members are equal. */
  lemma SameMembers(a: seq<bool>, b: seq<bool>)
    requires |a| == |b|
    ensures Members(a) == Members(b) ==> a == b
  {
    if Members(a) == Members(b) {
      forall i | 0 <= i < |a| ensures a[i] == b[i] {
        assert a[i] <==> i in Members(a);
      }
    }
  }

  /** The flags of a vector are all within its size. */
  lemma MembersWithin(s: seq<bool>)
    ensures Members(s) <= Members(Full(|s|))
  {
  }

  /** What a symbol contributes to a set it starts: a terminal itself, a non-terminal its
      FIRST set. */
  predicate Reaches(sym: Symbol, first: seq<seq<bool>>, target: seq<bool>) {
    if sym.kind == Terminal then sym.id in Members(target)
    else sym.id < |first| && Members(first[sym.id]) <= Members(target)
  }

  // ---------------------------------------------------------------- FIRST

  /** The FIRST equations of one production from position `from` on: every symbol after a
      nullable stretch starting at `from` contributes to FIRST of the lhs. */
  predicate ProdFirstClosed(p: Prod, nullable: seq<bool>, first: seq<seq<bool>>, from: nat) {
    p.lhs < |first| &&
    forall k :: from <= k < |p.rhs| && NullableBetween(p.rhs, from, k, nullable) ==>
      Reaches(p.rhs[k], first, first[p.lhs])
  }

  /** The FIRST equations of a grammar. */
  predicate FirstClosed(ng: seq<Prod>, nullable: seq<bool>, first: seq<seq<bool>>) {
    forall i :: 0 <= i < |ng| ==> ProdFirstClosed(ng[i], nullable, first, 0)
  }

  /** The inner loop of the FIRST sweep for production `p`, from `rhs[j]` on: a terminal
      is added and ends the scan; the lhs itself is skipped when nullable; any other
      non-terminal contributes its FIRST set and ends the scan unless nullable. */
  function FirstScan(p: Prod, nullable: seq<bool>, first: seq<seq<bool>>, j: nat, terminals: nat)
    : (r: (seq<seq<bool>>, bool))
    requires ProdIn(p, |first|, terminals) && Shape(first, |first|, terminals) && |nullable| == |first|
    requires j <= |p.rhs|
    ensures Shape(r.0, |first|, terminals) && Le2(first, r.0)
    ensures r.1 ==> Unset2(r.0) < Unset2(first)
    ensures !r.1 ==> r.0 == first
    decreases |p.rhs| - j
  {
    if j == |p.rhs| then (first, false)
    else
      var sym := p.rhs[j];
      if sym.kind == Terminal then
        var (f, grew) := SetAdd(first[p.lhs], sym.id).value;
        Unset2Shrinks(first, p.lhs, f);
        SameMembers(first[p.lhs], f);
        (first[p.lhs := f], grew)
      else if sym.id == p.lhs then
        if !nullable[p.lhs] then (first, false) else FirstScan(p, nullable, first, j + 1, terminals)
      else
        var (f, grew) := SetUnion(first[p.lhs], first[sym.id]).value;
        MembersWithin(first[sym.id]);
        Unset2Shrinks(first, p.lhs, f);
        SameMembers(first[p.lhs], f);
        var first1 := first[p.lhs := f];
        if !nullable[sym.id] then (first1, grew)
        else
          var r := FirstScan(p, nullable, first1, j + 1, terminals);
          Le2Trans(first, first1, r.0);
          (r.0, grew || r.1)
  }

  lemma Le2Trans(a: seq<seq<bool>>, b: seq<seq<bool>>, c: seq<seq<bool>>)
    requires Le2(a, b) && Le2(b, c)
    ensures Le2(a, c)
  {
  }

  /** A scan that adds nothing has found the production's equations from `j` on
      satisfied. */
  lemma {:induction false} FirstScanStable(p: Prod, nullable: seq<bool>, first: seq<seq<bool>>, j: nat, terminals: nat)
    requires ProdIn(p, |first|, terminals) && Shape(first, |first|, terminals) && |nullable| == |first|
    requires j <= |p.rhs| && !FirstScan(p, nullable, first, j, terminals).1
    ensures ProdFirstClosed(p, nullable, first, j)
    decreases |p.rhs| - j
  {
    if j < |p.rhs| {
      var sym := p.rhs[j];
      var next := sym.kind == NonTerminal && nullable[sym.id];
      if next {
        if sym.id != p.lhs {
          var (f, grew) := SetUnion(first[p.lhs], first[sym.id]).value;
          SameMembers(first[p.lhs], f);
          assert first[p.lhs := f] == first;
        }
        FirstScanStable(p, nullable, first, j + 1, terminals);
      } else if sym.kind == NonTerminal && sym.id != p.lhs {
        MembersWithin(first[sym.id]);
      }
      forall k | j <= k < |p.rhs| && NullableBetween(p.rhs, j, k, nullable)
        ensures Reaches(p.rhs[k], first, first[p.lhs])
      {
        if k > j {
          assert NullableSym(p.rhs[j], nullable);
          assert NullableBetween(p.rhs, j + 1, k, nullable);
        } else if sym.kind == NonTerminal && sym.id != p.lhs {
          MembersWithin(first[sym.id]);
        }
      }
    }
  }

  /** A scan reached through a nullable prefix adds nothing outside a solution above its
      input. */
  lemma {:induction false} FirstScanBelow(p: Prod, nullable: seq<bool>, first: seq<seq<bool>>, j: nat, terminals: nat,
                                          other: seq<seq<bool>>)
    requires ProdIn(p, |first|, terminals) && Shape(first, |first|, terminals) && |nullable| == |first|
    requires j <= |p.rhs| && NullableBetween(p.rhs, 0, j, nullable)
    requires Le2(first, other) && ProdFirstClosed(p, nullable, other, 0)
    ensures Le2(FirstScan(p, nullable, first, j, terminals).0, other)
    decreases |p.rhs| - j
  {
    if j < |p.rhs| {
      var sym := p.rhs[j];
      assert Reaches(sym, other, other[p.lhs]);
      if sym.kind == Terminal {
        var (f, grew) := SetAdd(first[p.lhs], sym.id).value;
        assert Le(f, other[p.lhs]);
      } else if sym.id == p.lhs {
        if nullable[p.lhs] {
          FirstScanBelow(p, nullable, first, j + 1, terminals, other);
        }
      } else {
        var (f, grew) := SetUnion(first[p.lhs], first[sym.id]).value;
        MembersWithin(first[sym.id]);
        assert Le(first[sym.id], other[sym.id]);
        assert Le(f, other[p.lhs]);
        var first1 := first[p.lhs := f];
        assert Le2(first1, other);
        if nullable[sym.id] {
          FirstScanBelow(p, nullable, first1, j + 1, terminals, other);
        }
      }
    }
  }

  /** One sweep of the FIRST loop over `ng[i..]`, each scan seeing the sets the previous
      ones left. */
  function FirstSweep(ng: seq<Prod>, nullable: seq<bool>, first: seq<seq<bool>>, i: nat, terminals: nat)
    : (r: (seq<seq<bool>>, bool))
    requires GrammarIn(ng, |first|, terminals) && Shape(first, |first|, terminals) && |nullable| == |first|
    requires i <= |ng|
    ensures Shape(r.0, |first|, terminals) && Le2(first, r.0)
    ensures r.1 ==> Unset2(r.0) < Unset2(first)
    ensures !r.1 ==> r.0 == first
    decreases |ng| - i
  {
    if i == |ng| then (first, false)
    else
      var a := FirstScan(ng[i], nullable, first, 0, terminals);
      var b := FirstSweep(ng, nullable, a.0, i + 1, terminals);
      Le2Trans(first, a.0, b.0);
      (b.0, a.1 || b.1)
  }

  lemma {:induction false} FirstSweepStable(ng: seq<Prod>, nullable: seq<bool>, first: seq<seq<bool>>, i: nat, terminals: nat)
    requires GrammarIn(ng, |first|, terminals) && Shape(first, |first|, terminals) && |nullable| == |first|
    requires i <= |ng| && !FirstSweep(ng, nullable, first, i, terminals).1
    ensures forall k :: i <= k < |ng| ==> ProdFirstClosed(ng[k], nullable, first, 0)
    decreases |ng| - i
  {
    if i < |ng| {
      FirstScanStable(ng[i], nullable, first, 0, terminals);
      FirstSweepStable(ng, nullable, first, i + 1, terminals);
    }
  }

  lemma {:induction false} FirstSweepBelow(ng: seq<Prod>, nullable: seq<bool>, first: seq<seq<bool>>, i: nat, terminals: nat,
                                           other: seq<seq<bool>>)
    requires GrammarIn(ng, |first|, terminals) && Shape(first, |first|, terminals) && |nullable| == |first|
    requires i <= |ng| && Le2(first, other) && FirstClosed(ng, nullable, other)
    ensures Le2(FirstSweep(ng, nullable, first, i, terminals).0, other)
    decreases |ng| - i
  {
    if i < |ng| {
      FirstScanBelow(ng[i], nullable, first, 0, terminals, other);
      var a := FirstScan(ng[i], nullable, first, 0, terminals);
      FirstSweepBelow(ng, nullable, a.0, i + 1, terminals, other);
    }
  }

  /** The least solution of the FIRST equations below any solution. */
  ghost predicate LeastFirst(ng: seq<Prod>, nullable: seq<bool>, first: seq<seq<bool>>, terminals: nat) {
    forall other :: Shape(other, |first|, terminals) && FirstClosed(ng, nullable, other) ==> Le2(first, other)
  }

  /** All-empty sets for `n` non-terminals. */
  function EmptySets(n: nat, terminals: nat): (sets: seq<seq<bool>>)
    ensures Shape(sets, n, terminals) && forall a :: 0 <= a < n ==> Members(sets[a]) == {}
  {
    seq(n, _ => Empty(terminals))
  }

  /** The second loop of `build_first_sets`: sweep until a sweep adds nothing. The result
      satisfies the FIRST equations and is below every solution of them. */
  method Firsts(ng: seq<Prod>, nullable: seq<bool>, terminals: nat) returns (first: seq<seq<bool>>)
    requires GrammarIn(ng, |nullable|, terminals)
    ensures Shape(first, |nullable|, terminals) && FirstClosed(ng, nullable, first) && LeastFirst(ng, nullable, first, terminals)
  {
    first := EmptySets(|nullable|, terminals);
    var progress := true;
    while progress
      invariant Shape(first, |nullable|, terminals)
      invariant LeastFirst(ng, nullable, first, terminals)
      invariant !progress ==> FirstClosed(ng, nullable, first)
      decreases Unset2(first), progress
    {
      var r := FirstSweep(ng, nullable, first, 0, terminals);
      forall other | Shape(other, |first|, terminals) && FirstClosed(ng, nullable, other) ensures Le2(r.0, other) {
        FirstSweepBelow(ng, nullable, first, 0, terminals, other);
      }
      if !r.1 {
        FirstSweepStable(ng, nullable, first, 0, terminals);
      }
      first, progress := r.0, r.1;
    }
  }

  // ---------------------------------------------------------------- FOLLOW

  /** What position `k` of `p`'s rhs contributes to FOLLOW of a non-terminal before it:
      past the end, FOLLOW of the lhs; otherwise the symbol's own contribution. */
  predicate FollowReach(p: Prod, k: nat, first: seq<seq<bool>>, follow: seq<seq<bool>>, target: seq<bool>) {
    if k >= |p.rhs| then p.lhs < |follow| && Members(follow[p.lhs]) <= Members(target)
    else Reaches(p.rhs[k], first, target)
  }

  /** The FOLLOW equations of one production for the non-terminals at positions `from`
      on: each position `k` reached from a non-terminal at `b` through nullable symbols
      contributes to its FOLLOW set. */
  predicate ProdFollowClosed(p: Prod, nullable: seq<bool>, first: seq<seq<bool>>, follow: seq<seq<bool>>, from: nat) {
    forall b, k :: from <= b < k <= |p.rhs| && p.rhs[b].kind == NonTerminal && p.rhs[b].id < |follow| &&
                   NullableBetween(p.rhs, b + 1, k, nullable)
      ==> FollowReach(p, k, first, follow, follow[p.rhs[b].id])
  }

  /** The FOLLOW equations of a grammar. */
  predicate FollowClosed(ng: seq<Prod>, nullable: seq<bool>, first: seq<seq<bool>>, follow: seq<seq<bool>>) {
    forall i :: 0 <= i < |ng| ==> ProdFollowClosed(ng[i], nullable, first, follow, 0)
  }

  /** The scan that feeds FOLLOW of the non-terminal at `rhs[b]`, at position `k`: a
      terminal is added and ends it; a non-terminal's FIRST set is added and ends it unless
      that non-terminal is nullable; running off the end adds FOLLOW of the lhs. */
  function FollowFrom(p: Prod, b: nat, k: nat, nullable: seq<bool>, first: seq<seq<bool>>,
                      follow: seq<seq<bool>>, terminals: nat)
    : (r: (seq<seq<bool>>, bool))
    requires ProdIn(p, |follow|, terminals) && |nullable| == |follow|
    requires Shape(first, |follow|, terminals) && Shape(follow, |follow|, terminals)
    requires b < k <= |p.rhs| && p.rhs[b].kind == NonTerminal
    ensures Shape(r.0, |follow|, terminals) && Le2(follow, r.0)
    ensures r.1 ==> Unset2(r.0) < Unset2(follow)
    ensures !r.1 ==> r.0 == follow
    decreases |p.rhs| - k
  {
    var target := p.rhs[b].id;
    if k == |p.rhs| then
      var (f, grew) := SetUnion(follow[target], follow[p.lhs]).value;
      MembersWithin(follow[p.lhs]);
      Unset2Shrinks(follow, target, f);
      SameMembers(follow[target], f);
      (follow[target := f], grew)
    else
      var sym := p.rhs[k];
      if sym.kind == Terminal then
        var (f, grew) := SetAdd(follow[target], sym.id).value;
        Unset2Shrinks(follow, target, f);
        SameMembers(follow[target], f);
        (follow[target := f], grew)
      else
        var (f, grew) := SetUnion(follow[target], first[sym.id]).value;
        MembersWithin(first[sym.id]);
        Unset2Shrinks(follow, target, f);
        SameMembers(follow[target], f);
        var follow1 := follow[target := f];
        if !nullable[sym.id] then (follow1, grew)
        else
          var r := FollowFrom(p, b, k + 1, nullable, first, follow1, terminals);
          Le2Trans(follow, follow1, r.0);
          (r.0, grew || r.1)
  }

  /** The FOLLOW sweep's walk over `p`'s rhs from position `b` on, scanning after each
      non-terminal. */
  function FollowProd(p: Prod, b: nat, nullable: seq<bool>, first: seq<seq<bool>>,
                      follow: seq<seq<bool>>, terminals: nat)
    : (r: (seq<seq<bool>>, bool))
    requires ProdIn(p, |follow|, terminals) && |nullable| == |follow|
    requires Shape(first, |follow|, terminals) && Shape(follow, |follow|, terminals)
    requires b <= |p.rhs|
    ensures Shape(r.0, |follow|, terminals) && Le2(follow, r.0)
    ensures r.1 ==> Unset2(r.0) < Unset2(follow)
    ensures !r.1 ==> r.0 == follow
    decreases |p.rhs| - b
  {
    if b == |p.rhs| then (follow, false)
    else if p.rhs[b].kind != NonTerminal then FollowProd(p, b + 1, nullable, first, follow, terminals)
    else
      var a := FollowFrom(p, b, b + 1, nullable, first, follow, terminals);
      var c := FollowProd(p, b + 1, nullable, first, a.0, terminals);
      Le2Trans(follow, a.0, c.0);
      (c.0, a.1 || c.1)
  }

  /** One sweep of `build_follow_sets` over `ng[i..]`. */
  function FollowSweep(ng: seq<Prod>, i: nat, nullable: seq<bool>, first: seq<seq<bool>>,
                       follow: seq<seq<bool>>, terminals: nat)
    : (r: (seq<seq<bool>>, bool))
    requires GrammarIn(ng, |follow|, terminals) && |nullable| == |follow|
    requires Shape(first, |follow|, terminals) && Shape(follow, |follow|, terminals)
    requires i <= |ng|
    ensures Shape(r.0, |follow|, terminals) && Le2(follow, r.0)
    ensures r.1 ==> Unset2(r.0) < Unset2(follow)
    ensures !r.1 ==> r.0 == follow
    decreases |ng| - i
  {
    if i == |ng| then (follow, false)
    else
      var a := FollowProd(ng[i], 0, nullable, first, follow, terminals);
      var c := FollowSweep(ng, i + 1, nullable, first, a.0, terminals);
      Le2Trans(follow, a.0, c.0);
      (c.0, a.1 || c.1)
  }

  /** A FOLLOW scan that adds nothing has found every position it can reach satisfied. */
  lemma {:induction false} FollowFromStable(p: Prod, b: nat, k: nat, nullable: seq<bool>, first: seq<seq<bool>>,
                                            follow: seq<seq<bool>>, terminals: nat)
    requires ProdIn(p, |follow|, terminals) && |nullable| == |follow|
    requires Shape(first, |follow|, terminals) && Shape(follow, |follow|, terminals)
    requires b < k <= |p.rhs| && p.rhs[b].kind == NonTerminal
    requires !FollowFrom(p, b, k, nullable, first, follow, terminals).1
    ensures forall m :: k <= m <= |p.rhs| && NullableBetween(p.rhs, k, m, nullable) ==>
      FollowReach(p, m, first, follow, follow[p.rhs[b].id])
    decreases |p.rhs| - k
  {
    var target := p.rhs[b].id;
    if k == |p.rhs| {
      MembersWithin(follow[p.lhs]);
    } else {
      var sym := p.rhs[k];
      if sym.kind == NonTerminal {
        MembersWithin(first[sym.id]);
        if nullable[sym.id] {
          var (f, grew) := SetUnion(follow[target], first[sym.id]).value;
          SameMembers(follow[target], f);
          assert follow[target := f] == follow;
          FollowFromStable(p, b, k + 1, nullable, first, follow, terminals);
        }
      }
      forall m | k <= m <= |p.rhs| && NullableBetween(p.rhs, k, m, nullable)
        ensures FollowReach(p, m, first, follow, follow[target])
      {
        if m > k {
          assert NullableSym(p.rhs[k], nullable);
          assert NullableBetween(p.rhs, k + 1, m, nullable);
        }
      }
    }
  }

  lemma {:induction false} FollowProdStable(p: Prod, b0: nat, nullable: seq<bool>, first: seq<seq<bool>>,
                                            follow: seq<seq<bool>>, terminals: nat)
    requires ProdIn(p, |follow|, terminals) && |nullable| == |follow|
    requires Shape(first, |follow|, terminals) && Shape(follow, |follow|, terminals)
    requires b0 <= |p.rhs| && !FollowProd(p, b0, nullable, first, follow, terminals).1
    ensures ProdFollowClosed(p, nullable, first, follow, b0)
    decreases |p.rhs| - b0
  {
    if b0 < |p.rhs| {
      if p.rhs[b0].kind == NonTerminal {
        FollowFromStable(p, b0, b0 + 1, nullable, first, follow, terminals);
      }
      FollowProdStable(p, b0 + 1, nullable, first, follow, terminals);
    }
  }

  lemma {:induction false} FollowSweepStable(ng: seq<Prod>, i: nat, nullable: seq<bool>, first: seq<seq<bool>>,
                                             follow: seq<seq<bool>>, terminals: nat)
    requires GrammarIn(ng, |follow|, terminals) && |nullable| == |follow|
    requires Shape(first, |follow|, terminals) && Shape(follow, |follow|, terminals)
    requires i <= |ng| && !FollowSweep(ng, i, nullable, first, follow, terminals).1
    ensures forall k :: i <= k < |ng| ==> ProdFollowClosed(ng[k], nullable, first, follow, 0)
    decreases |ng| - i
  {
    if i < |ng| {
      FollowProdStable(ng[i], 0, nullable, first, follow, terminals);
      FollowSweepStable(ng, i + 1, nullable, first, follow, terminals);
    }
  }

  /** A FOLLOW scan reached through nullable symbols adds nothing outside a solution above
      its input. */
  lemma {:induction false} FollowFromBelow(p: Prod, b: nat, k: nat, nullable: seq<bool>, first: seq<seq<bool>>,
                                           follow: seq<seq<bool>>, terminals: nat, other: seq<seq<bool>>)
    requires ProdIn(p, |follow|, terminals) && |nullable| == |follow|
    requires Shape(first, |follow|, terminals) && Shape(follow, |follow|, terminals)
    requires b < k <= |p.rhs| && p.rhs[b].kind == NonTerminal && NullableBetween(p.rhs, b + 1, k, nullable)
    requires Le2(follow, other) && ProdFollowClosed(p, nullable, first, other, 0)
    ensures Le2(FollowFrom(p, b, k, nullable, first, follow, terminals).0, other)
    decreases |p.rhs| - k
  {
    var target := p.rhs[b].id;
    assert FollowReach(p, k, first, other, other[target]);
    if k == |p.rhs| {
      var (f, grew) := SetUnion(follow[target], follow[p.lhs]).value;
      MembersWithin(follow[p.lhs]);
      assert Le(follow[p.lhs], other[p.lhs]);
      assert Le(f, other[target]);
    } else {
      var sym := p.rhs[k];
      if sym.kind == Terminal {
        var (f, grew) := SetAdd(follow[target], sym.id).value;
        assert Le(f, other[target]);
      } else {
        var (f, grew) := SetUnion(follow[target], first[sym.id]).value;
        MembersWithin(first[sym.id]);
        assert Le(f, other[target]);
        var follow1 := follow[target := f];
        assert Le2(follow1, other);
        if nullable[sym.id] {
          FollowFromBelow(p, b, k + 1, nullable, first, follow1, terminals, other);
        }
      }
    }
  }

  lemma {:induction false} FollowProdBelow(p: Prod, b0: nat, nullable: seq<bool>, first: seq<seq<bool>>,
                                           follow: seq<seq<bool>>, terminals: nat, other: seq<seq<bool>>)
    requires ProdIn(p, |follow|, terminals) && |nullable| == |follow|
    requires Shape(first, |follow|, terminals) && Shape(follow, |follow|, terminals)
    requires b0 <= |p.rhs| && Le2(follow, other) && ProdFollowClosed(p, nullable, first, other, 0)
    ensures Le2(FollowProd(p, b0, nullable, first, follow, terminals).0, other)
    decreases |p.rhs| - b0
  {
    if b0 < |p.rhs| {
      if p.rhs[b0].kind == NonTerminal {
        FollowFromBelow(p, b0, b0 + 1, nullable, first, follow, terminals, other);
        var a := FollowFrom(p, b0, b0 + 1, nullable, first, follow, terminals);
        FollowProdBelow(p, b0 + 1, nullable, first, a.0, terminals, other);
      } else {
        FollowProdBelow(p, b0 + 1, nullable, first, follow, terminals, other);
      }
    }
  }

  lemma {:induction false} FollowSweepBelow(ng: seq<Prod>, i: nat, nullable: seq<bool>, first: seq<seq<bool>>,
                                            follow: seq<seq<bool>>, terminals: nat, other: seq<seq<bool>>)
    requires GrammarIn(ng, |follow|, terminals) && |nullable| == |follow|
    requires Shape(first, |follow|, terminals) && Shape(follow, |follow|, terminals)
    requires i <= |ng| && Le2(follow, other) && FollowClosed(ng, nullable, first, other)
    ensures Le2(FollowSweep(ng, i, nullable, first, follow, terminals).0, other)
    decreases |ng| - i
  {
    if i < |ng| {
      FollowProdBelow(ng[i], 0, nullable, first, follow, terminals, other);
      var a := FollowProd(ng[i], 0, nullable, first, follow, terminals);
      FollowSweepBelow(ng, i + 1, nullable, first, a.0, terminals, other);
    }
  }

  /** The least solution of the FOLLOW equations that includes `init`, below any such
      solution. */
  ghost predicate LeastFollow(ng: seq<Prod>, nullable: seq<bool>, first: seq<seq<bool>>, init: seq<seq<bool>>,
                              follow: seq<seq<bool>>, terminals: nat)
  {
    forall other :: Shape(other, |follow|, terminals) && Le2(init, other) && FollowClosed(ng, nullable, first, other)
      ==> Le2(follow, other)
  }

  /** `build_follow_sets`, starting from `init`: sweep until a sweep adds nothing. The
      result includes `init`, satisfies the FOLLOW equations and is below every solution of
      them that includes `init`. */
  method Follows(ng: seq<Prod>, nullable: seq<bool>, first: seq<seq<bool>>, init: seq<seq<bool>>, terminals: nat)
    returns (follow: seq<seq<bool>>)
    requires GrammarIn(ng, |nullable|, terminals)
    requires Shape(first, |nullable|, terminals) && Shape(init, |nullable|, terminals)
    ensures Shape(follow, |nullable|, terminals) && Le2(init, follow)
    ensures FollowClosed(ng, nullable, first, follow) && LeastFollow(ng, nullable, first, init, follow, terminals)
  {
    follow := init;
    var changes := true;
    while changes
      invariant Shape(follow, |nullable|, terminals) && Le2(init, follow)
      invariant LeastFollow(ng, nullable, first, init, follow, terminals)
      invariant !changes ==> FollowClosed(ng, nullable, first, follow)
      decreases Unset2(follow), changes
    {
      var r := FollowSweep(ng, 0, nullable, first, follow, terminals);
      forall other | Shape(other, |follow|, terminals) && Le2(init, other) && FollowClosed(ng, nullable, first, other)
        ensures Le2(r.0, other)
      {
        FollowSweepBelow(ng, 0, nullable, first, follow, terminals, other);
      }
      if !r.1 {
        FollowSweepStable(ng, 0, nullable, first, follow, terminals);
      }
      Le2Trans(init, follow, r.0);
      follow, changes := r.0, r.1;
    }
  }
}

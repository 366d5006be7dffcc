/** lexertl's `basic_equivset` (lib/lexertl14/lexertl/partition/equivset.hpp): a set of
    character-class indexes with the rule id, greediness and followpos nodes of the DFA
    position it came from. Partitioning intersects two of them into an overlap. Nodes are
    modelled by their identities. */
module EquivSet {

  datatype EquivSet = EquivSet(indexes: seq<nat>, id: nat, greedy: bool, followpos: seq<nat>)

  /** The default constructor. */
  const Default: EquivSet := EquivSet([], 0, true, [])

  /** Strictly increasing: sorted without duplicates, as a `std::set` iterates. */
  predicate Increasing(v: seq<nat>) {
    forall i, j :: 0 <= i < j < |v| ==> v[i] < v[j]
  }

  predicate NoDuplicates(v: seq<nat>) {
    forall i, j :: 0 <= i < j < |v| ==> v[i] != v[j]
  }

  /** The least element of a non-empty set. */
  function Least(s: set<nat>): (m: nat)
    requires s != {}
    ensures m in s && forall y :: y in s ==> m <= y
  {
    LeastExists(s);
    var m :| m in s && forall y :: y in s ==> m <= y;
    m
  }

  lemma {:induction false} LeastExists(s: set<nat>)
    requires s != {}
    ensures exists m :: m in s && forall y :: y in s ==> m <= y
    decreases |s|
  {
    var x :| x in s;
    var r := s - {x};
    if r == {} {
      LeastAlone(s, x);
    } else {
      LeastExists(r);
      var y :| y in r && forall z :: z in r ==> y <= z;
      LeastOfBoth(s, x, y);
    }
  }

  lemma LeastAlone(s: set<nat>, x: nat)
    requires x in s && s - {x} == {}
    ensures forall z :: z in s ==> x <= z
  {
    forall z | z in s ensures x <= z {
      assert z !in s - {x};
    }
  }

  lemma LeastOfBoth(s: set<nat>, x: nat, y: nat)
    requires x in s && y in s - {x} && forall z :: z in s - {x} ==> y <= z
    ensures var m := if x <= y then x else y; m in s && forall z :: z in s ==> m <= z
  {
    var m := if x <= y then x else y;
    forall z | z in s ensures m <= z {
      if z != x {
        assert z in s - {x};
      }
    }
  }

  /** The elements of a set in increasing order. */
  function Ordered(s: set<nat>): (v: seq<nat>)
    ensures Increasing(v) && |v| == |s|
    ensures forall x :: x in v <==> x in s
    decreases |s|
  {
    if s == {} then []
    else
      var m := Least(s);
      var t := Ordered(s - {m});
      assert forall i :: 0 <= i < |t| ==> t[i] in s - {m};
      [m] + t
  }

  /** The `(index_set, id, greedy, followpos)` constructor. */
  function Make(s: set<nat>, id: nat, greedy: bool, followpos: seq<nat>): (e: EquivSet)
    ensures Increasing(e.indexes) && (forall x :: x in e.indexes <==> x in s)
    ensures e.id == id && e.greedy == greedy && e.followpos == followpos
  {
    EquivSet(Ordered(s), id, greedy, followpos)
  }

  /** `empty`: no indexes and no followpos. */
  predicate IsEmpty(e: EquivSet) {
    e.indexes == [] && e.followpos == []
  }

  /** What `intersect_indexes` leaves: the indexes only on the left, only on the right,
      and on both sides. */
  datatype Split = Split(left: seq<nat>, right: seq<nat>, both: seq<nat>)

  /** The merge loop of `intersect_indexes`: walk both vectors, skipping the smaller index,
      and move an index found on both sides out of both into the overlap. */
  function SplitIndexes(l: seq<nat>, r: seq<nat>): Split
    decreases |l| + |r|
  {
    if l == [] || r == [] then Split(l, r, [])
    else if l[0] < r[0] then
      var t := SplitIndexes(l[1..], r);
      Split([l[0]] + t.left, t.right, t.both)
    else if l[0] > r[0] then
      var t := SplitIndexes(l, r[1..]);
      Split(t.left, [r[0]] + t.right, t.both)
    else
      var t := SplitIndexes(l[1..], r[1..]);
      Split(t.left, t.right, [l[0]] + t.both)
  }

  /** On sorted inputs the three parts are sorted, and they hold exactly the indexes
      only on the left, only on the right, and on both sides. */
  lemma {:induction false} SplitIndexesContents(l: seq<nat>, r: seq<nat>)
    requires Increasing(l) && Increasing(r)
    ensures var t := SplitIndexes(l, r);
      Increasing(t.left) && Increasing(t.right) && Increasing(t.both) &&
      (forall x :: x in t.both <==> x in l && x in r) &&
      (forall x :: x in t.left <==> x in l && x !in r) &&
      (forall x :: x in t.right <==> x in r && x !in l)
    decreases |l| + |r|
  {
    var t := SplitIndexes(l, r);
    if l == [] || r == [] {
    } else if l[0] < r[0] {
      IncreasingTail(l);
      SplitIndexesContents(l[1..], r);
      var u := SplitIndexes(l[1..], r);
      assert forall x :: x in l <==> x == l[0] || x in l[1..] by {
        HeadTail(l);
      }
      assert l[0] !in r by {
        forall i | 0 <= i < |r| ensures r[i] != l[0] {
          if i > 0 {
            assert r[0] < r[i];
          }
        }
      }
      forall i | 0 <= i < |u.left| ensures l[0] < u.left[i] {
        assert u.left[i] in l[1..];
      }
      IncreasingCons(l[0], u.left);
    } else if l[0] > r[0] {
      IncreasingTail(r);
      SplitIndexesContents(l, r[1..]);
      var u := SplitIndexes(l, r[1..]);
      assert forall x :: x in r <==> x == r[0] || x in r[1..] by {
        HeadTail(r);
      }
      assert r[0] !in l by {
        forall i | 0 <= i < |l| ensures l[i] != r[0] {
          if i > 0 {
            assert l[0] < l[i];
          }
        }
      }
      forall i | 0 <= i < |u.right| ensures r[0] < u.right[i] {
        assert u.right[i] in r[1..];
      }
      IncreasingCons(r[0], u.right);
    } else {
      IncreasingTail(l);
      IncreasingTail(r);
      SplitIndexesContents(l[1..], r[1..]);
      var u := SplitIndexes(l[1..], r[1..]);
      assert forall x :: x in l <==> x == l[0] || x in l[1..] by {
        HeadTail(l);
      }
      assert forall x :: x in r <==> x == r[0] || x in r[1..] by {
        HeadTail(r);
      }
      assert l[0] !in l[1..] && r[0] !in r[1..] by {
        forall i | 0 <= i < |l[1..]| ensures l[1..][i] != l[0] {
          assert l[1..][i] == l[i + 1];
        }
        forall i | 0 <= i < |r[1..]| ensures r[1..][i] != r[0] {
          assert r[1..][i] == r[i + 1];
        }
      }
      forall i | 0 <= i < |u.both| ensures l[0] < u.both[i] {
        assert u.both[i] in l[1..];
      }
      IncreasingCons(l[0], u.both);
    }
  }

  lemma HeadTail(v: seq<nat>)
    requires v != []
    ensures forall x :: x in v <==> x == v[0] || x in v[1..]
  {
    assert v == [v[0]] + v[1..];
  }

  lemma IncreasingTail(v: seq<nat>)
    requires Increasing(v) && v != []
    ensures Increasing(v[1..])
    ensures forall i :: 0 <= i < |v[1..]| ==> v[0] < v[1..][i]
  {
    forall i | 0 <= i < |v[1..]| ensures v[0] < v[1..][i] {
      assert v[1..][i] == v[i + 1];
    }
  }

  lemma IncreasingCons(x: nat, v: seq<nat>)
    requires Increasing(v) && forall i :: 0 <= i < |v| ==> x < v[i]
    ensures Increasing([x] + v)
  {
    forall i, j | 0 <= i < j < |[x] + v| ensures ([x] + v)[i] < ([x] + v)[j] {
      if i > 0 {
        assert ([x] + v)[i] == v[i - 1];
      }
      assert ([x] + v)[j] == v[j - 1];
    }
  }

  /** Nothing is lost or duplicated: each side's survivors and the common part together
      are exactly the original side, counted with multiplicity. */
  lemma {:induction false} SplitIndexesPartitions(l: seq<nat>, r: seq<nat>)
    ensures var t := SplitIndexes(l, r);
      multiset(t.left) + multiset(t.both) == multiset(l) &&
      multiset(t.right) + multiset(t.both) == multiset(r)
    decreases |l| + |r|
  {
    if l == [] || r == [] {
    } else if l[0] < r[0] {
      SplitIndexesPartitions(l[1..], r);
      PartitionStep(l, SplitIndexes(l[1..], r).left, SplitIndexes(l[1..], r).both);
    } else if l[0] > r[0] {
      SplitIndexesPartitions(l, r[1..]);
      PartitionStep(r, SplitIndexes(l, r[1..]).right, SplitIndexes(l, r[1..]).both);
    } else {
      SplitIndexesPartitions(l[1..], r[1..]);
      var u := SplitIndexes(l[1..], r[1..]);
      PartitionStep(l, u.left, u.both);
      PartitionStep(r, u.right, u.both);
    }
  }

  /** The head of `v` moved onto one part: if the parts partition the tail, they partition
      `v` with the head added to either of them. */
  lemma PartitionStep(v: seq<nat>, side: seq<nat>, both: seq<nat>)
    requires v != [] && multiset(side) + multiset(both) == multiset(v[1..])
    ensures multiset([v[0]] + side) + multiset(both) == multiset(v)
    ensures multiset(side) + multiset([v[0]] + both) == multiset(v)
  {
    MultisetCons(v[0], side);
    MultisetCons(v[0], both);
    MultisetCons(v[0], v[1..]);
    HeadTailEq(v);
  }

  lemma MultisetCons(x: nat, v: seq<nat>)
    ensures multiset([x] + v) == multiset{x} + multiset(v)
  {
  }

  lemma HeadTailEq(v: seq<nat>)
    requires v != []
    ensures [v[0]] + v[1..] == v
  {
  }

  /** The followpos of the overlap: `acc`, then each node of `more` not already there. */
  function AddNew(acc: seq<nat>, more: seq<nat>): (v: seq<nat>)
    ensures |v| >= |acc| && v[..|acc|] == acc
    ensures forall x :: x in v <==> x in acc || x in more
    decreases |more|
  {
    if more == [] then acc
    else if more[0] in acc then AddNew(acc, more[1..])
    else
      var v := AddNew(acc + [more[0]], more[1..]);
      assert v[..|acc|] == (v[..|acc| + 1])[..|acc|];
      v
  }

  /** Adding only what is missing keeps a duplicate-free followpos duplicate-free. */
  lemma {:induction false} AddNewNoDuplicates(acc: seq<nat>, more: seq<nat>)
    requires NoDuplicates(acc)
    ensures NoDuplicates(AddNew(acc, more))
    decreases |more|
  {
    if more != [] {
      if more[0] in acc {
        AddNewNoDuplicates(acc, more[1..]);
      } else {
        var a := acc + [more[0]];
        assert NoDuplicates(a) by {
          forall i, j | 0 <= i < j < |a| ensures a[i] != a[j] {
            if j == |acc| {
              assert a[i] == acc[i];
            }
          }
        }
        AddNewNoDuplicates(a, more[1..]);
      }
    }
  }

  /** The result of `intersect`: the two sides after the common indexes left them, and the
      overlap. */
  datatype Intersection = Intersection(lhs: EquivSet, rhs: EquivSet, overlap: EquivSet)

  /** `lhs.intersect(rhs, overlap)`: move the common indexes into the overlap. When the
      overlap then has indexes, it takes the lhs's id and greediness (the rule listed
      first wins), and the lhs followpos followed by the new rhs nodes; a side left without
      indexes loses its followpos. */
  function Intersect(lhs: EquivSet, rhs: EquivSet, overlap: EquivSet): (r: Intersection)
    ensures r.lhs.id == lhs.id && r.lhs.greedy == lhs.greedy
    ensures r.rhs.id == rhs.id && r.rhs.greedy == rhs.greedy
    ensures r.overlap.indexes == [] ==>
      r.overlap == overlap && r.lhs.followpos == lhs.followpos && r.rhs.followpos == rhs.followpos
    ensures r.overlap.indexes != [] ==>
      r.overlap.id == lhs.id && r.overlap.greedy == lhs.greedy &&
      r.overlap.followpos == AddNew(lhs.followpos, rhs.followpos) &&
      r.lhs.followpos == (if r.lhs.indexes == [] then [] else lhs.followpos) &&
      r.rhs.followpos == (if r.rhs.indexes == [] then [] else rhs.followpos)
  {
    var t := SplitIndexes(lhs.indexes, rhs.indexes);
    var indexes := overlap.indexes + t.both;
    if indexes == [] then
      Intersection(lhs.(indexes := t.left), rhs.(indexes := t.right), overlap)
    else
      Intersection(
        lhs.(indexes := t.left, followpos := if t.left == [] then [] else lhs.followpos),
        rhs.(indexes := t.right, followpos := if t.right == [] then [] else rhs.followpos),
        EquivSet(indexes, lhs.id, lhs.greedy, AddNew(lhs.followpos, rhs.followpos)))
  }

  /** From an empty overlap, `intersect` of two sets as constructed leaves in the overlap
      exactly the sorted common indexes, leaves the two sides disjoint, and loses nothing:
      each side's survivors and the overlap together are its original indexes. */
  lemma IntersectSplits(lhs: EquivSet, rhs: EquivSet, overlap: EquivSet)
    requires Increasing(lhs.indexes) && Increasing(rhs.indexes) && overlap.indexes == []
    ensures var r := Intersect(lhs, rhs, overlap);
      Increasing(r.overlap.indexes) && Increasing(r.lhs.indexes) && Increasing(r.rhs.indexes) &&
      (forall x :: x in r.overlap.indexes <==> x in lhs.indexes && x in rhs.indexes) &&
      (forall x :: !(x in r.lhs.indexes && x in r.rhs.indexes)) &&
      multiset(r.lhs.indexes) + multiset(r.overlap.indexes) == multiset(lhs.indexes) &&
      multiset(r.rhs.indexes) + multiset(r.overlap.indexes) == multiset(rhs.indexes)
  {
    SplitIndexesContents(lhs.indexes, rhs.indexes);
    SplitIndexesPartitions(lhs.indexes, rhs.indexes);
    var t := SplitIndexes(lhs.indexes, rhs.indexes);
    assert overlap.indexes + t.both == t.both;
  }

  /** The overlap's followpos never repeats a node when the lhs followpos does not. */
  lemma IntersectFollowposNoDuplicates(lhs: EquivSet, rhs: EquivSet, overlap: EquivSet)
    requires NoDuplicates(lhs.followpos)
    ensures var r := Intersect(lhs, rhs, overlap);
      r.overlap.indexes != [] ==>
        NoDuplicates(r.overlap.followpos) &&
        (forall x :: x in r.overlap.followpos <==> x in lhs.followpos || x in rhs.followpos)
  {
    AddNewNoDuplicates(lhs.followpos, rhs.followpos);
  }
}

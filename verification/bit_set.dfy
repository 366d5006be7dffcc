/** The generator's `char_vector` sets: one flag per terminal, with `set_add` and
    `set_union` reporting whether the target grew. */
module BitSet {
  import opened Wrappers

  /** The members of a flag vector. */
  function Members(s: seq<bool>): set<nat> {
    set i: nat | i < |s| && s[i]
  }

  /** The empty set over `n` terminals: `char_vector(n, 0)`. */
  function Empty(n: nat): (s: seq<bool>)
    ensures |s| == n && Members(s) == {}
  {
    seq(n, _ => false)
  }

  /** `set_add(s, e)`: flag `e`, answering whether it was new. Reading a flag past the end
      is undefined. */
  function SetAdd(s: seq<bool>, e: nat): (r: Behaviour<(seq<bool>, bool)>)
    ensures r.Defined? <==> e < |s|
    ensures r.Defined? ==> |r.value.0| == |s| && Members(r.value.0) == Members(s) + {e}
    ensures r.Defined? ==> (r.value.1 <==> e !in Members(s))
  {
    if e < |s| then
      var t := s[e := true];
      assert Members(t) == Members(s) + {e} by {
        forall i: nat | i in Members(s) + {e} ensures i in Members(t) {
          if i != e {
            assert i in Members(s);
          }
        }
      }
      Defined((t, !s[e]))
    else Undefined
  }

  /** `set_union(lhs, rhs)`: add every flag of `rhs` within `lhs`'s size, answering whether
      `lhs` grew. Reading `rhs` past its end is undefined. */
  function SetUnion(lhs: seq<bool>, rhs: seq<bool>): (r: Behaviour<(seq<bool>, bool)>)
    ensures r.Defined? <==> |rhs| >= |lhs|
    ensures r.Defined? ==> |r.value.0| == |lhs|
    ensures r.Defined? ==> Members(r.value.0) == Members(lhs) + (Members(rhs) * Members(Full(|lhs|)))
    ensures r.Defined? ==> (r.value.1 <==> !(Members(rhs) * Members(Full(|lhs|)) <= Members(lhs)))
  {
    if |rhs| < |lhs| then Undefined
    else
      var out := seq(|lhs|, (k: int) requires 0 <= k < |lhs| => lhs[k] || rhs[k]);
      GrowsAt(lhs, rhs, |lhs|);
      UnionMembers(lhs, rhs, out);
      Defined((out, Grows(lhs, rhs, |lhs|)))
  }

  /** Whether some flag below `n` is in `rhs` but not in `lhs`: the loop's `progress`. */
  function Grows(lhs: seq<bool>, rhs: seq<bool>, n: nat): bool
    requires n <= |lhs| <= |rhs|
  {
    n > 0 && (Grows(lhs, rhs, n - 1) || (rhs[n - 1] && !lhs[n - 1]))
  }

  lemma {:induction false} GrowsAt(lhs: seq<bool>, rhs: seq<bool>, n: nat)
    requires n <= |lhs| <= |rhs|
    ensures Grows(lhs, rhs, n) <==> exists k :: 0 <= k < n && rhs[k] && !lhs[k]
  {
    if n > 0 {
      GrowsAt(lhs, rhs, n - 1);
    }
  }

  /** All `n` flags set. */
  function Full(n: nat): (s: seq<bool>)
    ensures |s| == n && forall i :: 0 <= i < n ==> s[i]
  {
    seq(n, _ => true)
  }

  lemma UnionMembers(lhs: seq<bool>, rhs: seq<bool>, out: seq<bool>)
    requires |rhs| >= |lhs| && |out| == |lhs|
    requires forall k :: 0 <= k < |lhs| ==> out[k] == (lhs[k] || rhs[k])
    ensures Members(out) == Members(lhs) + (Members(rhs) * Members(Full(|lhs|)))
    ensures (exists k :: 0 <= k < |lhs| && rhs[k] && !lhs[k]) <==>
            !(Members(rhs) * Members(Full(|lhs|)) <= Members(lhs))
  {
    var full := Full(|lhs|);
    forall i: nat | i in Members(lhs) + (Members(rhs) * Members(full)) ensures i in Members(out) {
      if i in Members(lhs) {
        assert out[i];
      } else {
        assert i < |lhs| && rhs[i];
      }
    }
    if exists k :: 0 <= k < |lhs| && rhs[k] && !lhs[k] {
      var k :| 0 <= k < |lhs| && rhs[k] && !lhs[k];
      assert full[k];
      assert k in Members(rhs) * Members(full);
    }
  }
}

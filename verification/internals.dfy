/** lexertl's `basic_internals`: the tables of a built lexer state machine. `lookup` has one
    256-entry row per DFA mapping a character to its equivalence class, `alphabet` the size
    of each DFA's alphabet, and `dfa` each DFA's transition table, flattened. */
module Internals {

  /** `state_index::dead_state`: the seventh state index (after end_state, id, user_id,
      push_dfa, next_dfa and eol). */
  const DeadState: nat := 6

  /** The number of entries of a lookup row: one per `char` value. */
  const LookupWidth: nat := 256

  datatype Internals = Internals(eoi: nat, lookup: seq<seq<nat>>, alphabet: seq<nat>, features: nat, dfa: seq<seq<nat>>)

  /** A default-constructed `basic_internals`. */
  const Default: Internals := Internals(0, [], [], 0, [])

  /** `empty`: no DFA. */
  predicate IsEmpty(x: Internals) {
    |x.dfa| == 0
  }

  /** `clear`: zero the two scalars and empty the three vectors. */
  function Clear(x: Internals): (r: Internals)
    ensures IsEmpty(r) && r.eoi == 0 && r.features == 0
    ensures r.lookup == [] && r.alphabet == [] && r.dfa == []
  {
    Default
  }

  /** A fresh lookup row: every character goes to the dead state. */
  const DeadRow: seq<nat> := Repeat(DeadState, LookupWidth)

  /** `n` copies of `v`. */
  function Repeat(v: nat, n: nat): (r: seq<nat>)
    ensures |r| == n && forall i :: 0 <= i < n ==> r[i] == v
  {
    if n == 0 then [] else Repeat(v, n - 1) + [v]
  }

  /** `add_states(n)`: `n` more DFAs, each with a dead lookup row, an empty alphabet and no
      transitions; nothing already there changes. */
  function AddStates(x: Internals, n: nat): (r: Internals)
    ensures r.eoi == x.eoi && r.features == x.features
    ensures |r.lookup| == |x.lookup| + n && r.lookup[..|x.lookup|] == x.lookup
    ensures forall i :: |x.lookup| <= i < |r.lookup| ==>
              |r.lookup[i]| == LookupWidth && (forall c :: 0 <= c < LookupWidth ==> r.lookup[i][c] == DeadState)
    ensures |r.alphabet| == |x.alphabet| + n && r.alphabet[..|x.alphabet|] == x.alphabet
    ensures forall i :: |x.alphabet| <= i < |r.alphabet| ==> r.alphabet[i] == 0
    ensures |r.dfa| == |x.dfa| + n && r.dfa[..|x.dfa|] == x.dfa
    ensures forall i :: |x.dfa| <= i < |r.dfa| ==> r.dfa[i] == []
    decreases n
  {
    if n == 0 then x else AddState(AddStates(x, n - 1))
  }

  /** One more DFA. */
  function AddState(y: Internals): Internals {
    Internals(y.eoi, y.lookup + [DeadRow], y.alphabet + [0], y.features, y.dfa + [[]])
  }

  /** Adding states twice is adding them all at once, and the result is empty only when
      it was empty before and nothing was added. */
  lemma {:induction false} AddStatesCompose(x: Internals, a: nat, b: nat)
    ensures AddStates(AddStates(x, a), b) == AddStates(x, a + b)
    ensures IsEmpty(AddStates(x, a)) <==> IsEmpty(x) && a == 0
    decreases b
  {
    if b > 0 {
      AddStatesCompose(x, a, b - 1);
    }
  }

  /** `swap`: the two sets of tables trade every field. */
  function Swap(a: Internals, b: Internals): (r: (Internals, Internals))
    ensures r.0.eoi == b.eoi && r.0.lookup == b.lookup && r.0.alphabet == b.alphabet &&
            r.0.features == b.features && r.0.dfa == b.dfa
    ensures r.1.eoi == a.eoi && r.1.lookup == a.lookup && r.1.alphabet == a.alphabet &&
            r.1.features == a.features && r.1.dfa == a.dfa
  {
    (Internals(b.eoi, b.lookup, b.alphabet, b.features, b.dfa),
     Internals(a.eoi, a.lookup, a.alphabet, a.features, a.dfa))
  }

  /** Swapping twice restores both. */
  lemma SwapInvolution(a: Internals, b: Internals)
    ensures Swap(Swap(a, b).0, Swap(a, b).1) == (a, b)
  {
  }
}

/** How a grammar threads the alternatives of each non-terminal: every production records
    the index of the next production with the same lhs (`_next_lhs`), and each non-terminal
    records its first and last production (`nt_location`). The generator walks these
    chains to enumerate a non-terminal's productions. */
module ProductionChains {
  import opened Wrappers
  import opened ParserStateMachine

  /** The chain-relevant part of a production: its lhs, its own index and `_next_lhs`. */
  datatype Link = Link(lhs: nat, index: nat, next: nat)

  /** `nt_location`; `Npos` marks "none yet". */
  datatype Location = Location(first: nat, last: nat)

  const NoLocation: Location := Location(Npos, Npos)

  /** `k`'s successor link points to the next production with the same lhs, or is `Npos`
      when there is none. */
  predicate NextOk(links: seq<Link>, k: nat)
    requires k < |links|
  {
    var n := links[k].next;
    if n == Npos then forall j :: k < j < |links| ==> links[j].lhs != links[k].lhs
    else k < n < |links| && links[n].lhs == links[k].lhs &&
         forall j :: k < j < n ==> links[j].lhs != links[k].lhs
  }

  /** Non-terminal `i`'s location names its first and last production, or is empty when it
      has none. */
  predicate LocationOk(links: seq<Link>, locs: seq<Location>, i: nat)
    requires i < |locs|
  {
    var l := locs[i];
    if l.first == Npos then l.last == Npos && forall j :: 0 <= j < |links| ==> links[j].lhs != i
    else
      l.first <= l.last < |links| && links[l.first].lhs == i && links[l.last].lhs == i &&
      (forall j :: 0 <= j < l.first ==> links[j].lhs != i) &&
      (forall j :: l.last < j < |links| ==> links[j].lhs != i)
  }

  /** The chains are exact: following `first` and then the successor links visits precisely
      the productions of each non-terminal, in grammar order. */
  predicate ChainsOk(links: seq<Link>, locs: seq<Location>) {
    (forall k :: 0 <= k < |links| ==> links[k].index == k && links[k].lhs < |locs|) &&
    (forall k :: 0 <= k < |links| ==> NextOk(links, k)) &&
    (forall i :: 0 <= i < |locs| ==> LocationOk(links, locs, i))
  }

  /** `location(id)`: grow the location table with empty entries so that `id` has one. */
  function Grow(locs: seq<Location>, id: nat): (r: seq<Location>)
    ensures |r| == if id < |locs| then |locs| else id + 1
    ensures id < |r| && r[..|locs|] == locs
    ensures forall i :: |locs| <= i < |r| ==> r[i] == NoLocation
  {
    if id < |locs| then locs else locs + seq(id + 1 - |locs|, _ => NoLocation)
  }

  /** Start a new production for `lhs` at index `|links|`: it becomes the lhs's last
      production, its first if it had none, and the previous last one now links to it. */
  function Open(links: seq<Link>, locs: seq<Location>, lhs: nat): (r: (seq<Link>, seq<Location>))
    requires lhs < |locs|
    requires locs[lhs].last == Npos || locs[lhs].last < |links|
  {
    var index := |links|;
    var l := locs[lhs];
    var linked := if l.last != Npos then links[l.last := links[l.last].(next := index)] else links;
    var first := if l.first == Npos then index else l.first;
    (linked + [Link(lhs, index, Npos)], locs[lhs := Location(first, index)])
  }

  lemma GrowKeepsChains(links: seq<Link>, locs: seq<Location>, id: nat)
    requires ChainsOk(links, locs)
    ensures ChainsOk(links, Grow(locs, id))
  {
    var r := Grow(locs, id);
    forall i | 0 <= i < |r| ensures LocationOk(links, r, i) {
      if i < |locs| {
        assert r[i] == locs[i];
        assert LocationOk(links, locs, i);
      } else {
        forall j | 0 <= j < |links| ensures links[j].lhs != i {
          assert links[j].lhs < |locs|;
        }
      }
    }
  }

  /** Opening a production keeps the chains exact, and the new production is the end of its
      lhs's chain. */
  lemma {:induction false} OpenKeepsChains(links: seq<Link>, locs: seq<Location>, lhs: nat)
    requires ChainsOk(links, locs) && lhs < |locs|
    requires |links| < Npos  // a vector cannot hold `npos` elements
    ensures locs[lhs].last == Npos || locs[lhs].last < |links|
    ensures ChainsOk(Open(links, locs, lhs).0, Open(links, locs, lhs).1)
  {
    assert LocationOk(links, locs, lhs);
    var index := |links|;
    var l := locs[lhs];
    var (nl, nlocs) := Open(links, locs, lhs);
    assert |nl| == index + 1 && nl[index] == Link(lhs, index, Npos);
    assert forall k :: 0 <= k < index ==> nl[k].lhs == links[k].lhs && nl[k].index == links[k].index;
    assert forall k :: 0 <= k < index && k != l.last ==> nl[k].next == links[k].next;
    forall k | 0 <= k < |nl| ensures NextOk(nl, k) {
      if k < index {
        assert NextOk(links, k);
        if k == l.last {
          assert nl[k].next == index;
        }
      }
    }
    forall i | 0 <= i < |nlocs| ensures LocationOk(nl, nlocs, i) {
      assert LocationOk(links, locs, i);
      if i != lhs {
        assert nlocs[i] == locs[i];
      }
    }
  }

  /** The first non-terminal, by id, that has no production. */
  function FirstMissing(locs: seq<Location>): (o: Option<nat>)
    ensures o.None? <==> forall i :: 0 <= i < |locs| ==> locs[i].first != Npos
    ensures o.Some? ==> o.value < |locs| && locs[o.value].first == Npos
    ensures o.Some? ==> forall i :: 0 <= i < o.value ==> locs[i].first != Npos
  {
    if |locs| == 0 then None
    else
      match FirstMissing(locs[..|locs| - 1])
      case Some(i) => Some(i)
      case None =>
        if locs[|locs| - 1].first == Npos then Some(|locs| - 1) else None
  }
}

/** replicate and Share: one goroutine per peer, each with a slot of its own, and the account kept of them. */
module FanOut {
  import opened Base

  /** Why one peer did not take a copy. */
  datatype ReplicaFailure<E> = ReplicaFailure(peer: string, error: E)

  datatype WriteResult<E> = WriteResult(peersTried: nat, peersStored: nat, failures: seq<ReplicaFailure<E>>)

  datatype SharePlacement = SharePlacement(peer: string, versionID: string, number: int)

  datatype ShareResult<E> = ShareResult(peersTried: nat, peersStored: nat, placements: seq<SharePlacement>,
                                        failures: seq<ReplicaFailure<E>>)

  /** What became of one peer: the version it reported when it accepted, or the error. */
  datatype Outcome<E> = Accepted(versionID: string, number: int) | Refused(error: E)

  /** A limit of zero means every connected peer. */
  function SelectPeers(connected: seq<string>, factor: nat): (peers: seq<string>)
    ensures peers <= connected && |peers| == if factor == 0 then |connected| else Min(factor, |connected|)
  {
    if factor > 0 && |connected| > factor then connected[..factor] else connected
  }

  /** The order in which the goroutines finish: each of them does, once. */
  ghost predicate Schedule(order: seq<nat>, n: nat) {
    multiset(order) == multiset(seq(n, i => i))
  }

  lemma EveryoneFinishes(order: seq<nat>, n: nat)
    requires Schedule(order, n)
    ensures forall i :: 0 <= i < n ==> i in order
    ensures forall k :: 0 <= k < |order| ==> order[k] < n
  {
    var all := seq(n, i => i);
    forall i | 0 <= i < n ensures i in order {
      assert all[i] == i;
      assert i in multiset(all);
    }
    forall k | 0 <= k < |order| ensures order[k] < n {
      assert order[k] in multiset(order);
      assert order[k] in all;
    }
  }

  function Failures<E>(peers: seq<string>, outcomes: seq<Outcome<E>>): (r: seq<ReplicaFailure<E>>)
    requires |peers| == |outcomes|
    ensures |r| <= |peers|
  {
    if peers == [] then []
    else
      var n := |peers| - 1;
      var rest := Failures(peers[..n], outcomes[..n]);
      if outcomes[n].Refused? then rest + [ReplicaFailure(peers[n], outcomes[n].error)] else rest
  }

  function Placements<E>(peers: seq<string>, outcomes: seq<Outcome<E>>): (r: seq<SharePlacement>)
    requires |peers| == |outcomes|
    ensures |r| <= |peers|
  {
    if peers == [] then []
    else
      var n := |peers| - 1;
      var rest := Placements(peers[..n], outcomes[..n]);
      if outcomes[n].Accepted? then rest + [SharePlacement(peers[n], outcomes[n].versionID, outcomes[n].number)]
          else rest
  }

  /**
   * One goroutine per selected peer writes its own error slot, in whatever order they finish; then the slots
   * are counted.
   */
  method Replicate<E(0)>(connected: seq<string>, factor: nat, outcomes: seq<Outcome<E>>, order: seq<nat>)
    returns (r: WriteResult<E>)
    requires |outcomes| == |SelectPeers(connected, factor)| && Schedule(order, |outcomes|)
    ensures var peers := SelectPeers(connected, factor);
            r == WriteResult(|peers|, |peers| - |Failures(peers, outcomes)|, Failures(peers, outcomes))
  {
    var peers := SelectPeers(connected, factor);
    EveryoneFinishes(order, |peers|);
    var errs := new Option<E>[|peers|](_ => None);
    for k := 0 to |order|
      invariant forall i :: 0 <= i < |peers| && i !in order[..k] ==> errs[i] == None
      invariant forall i :: 0 <= i < |peers| && i in order[..k] ==> errs[i] == ErrorOf(outcomes[i])
    {
      var i := order[k];
      assert order[..k + 1] == order[..k] + [i];
      if outcomes[i].Refused? {
        errs[i] := Some(outcomes[i].error);
      }
    }
    assert order[..|order|] == order;
    var stored, failures := 0, [];
    for i := 0 to |peers|
      invariant failures == Failures(peers[..i], outcomes[..i]) && stored == i - |failures|
    {
      assert peers[..i + 1][..i] == peers[..i] && outcomes[..i + 1][..i] == outcomes[..i];
      if errs[i] == None {
        stored := stored + 1;
      } else {
        failures := failures + [ReplicaFailure(peers[i], errs[i].value)];
      }
    }
    assert peers[..|peers|] == peers && outcomes[..|peers|] == outcomes;
    return WriteResult(|peers|, stored, failures);
  }

  function ErrorOf<E>(o: Outcome<E>): Option<E> {
    if o.Refused? then Some(o.error) else None
  }

  /** What a goroutine of Share leaves in its two slots. */
  ghost predicate SlotsFilled<E>(o: Outcome<E>, peer: string, err: Option<E>, placement: Option<SharePlacement>) {
    && err == ErrorOf(o)
    && placement == if o.Accepted? then Some(SharePlacement(peer, o.versionID, o.number)) else None
  }

  /** The placement slot is set wherever the error slot is not, so it is never read unset. */
  method Share<E(0)>(peers: seq<string>, outcomes: seq<Outcome<E>>, order: seq<nat>) returns (r: ShareResult<E>)
    requires |outcomes| == |peers| && Schedule(order, |peers|)
    ensures r == ShareResult(|peers|, |Placements(peers, outcomes)|, Placements(peers, outcomes),
                             Failures(peers, outcomes))
  {
    EveryoneFinishes(order, |peers|);
    var errs := new Option<E>[|peers|](_ => None);
    var placements := new Option<SharePlacement>[|peers|](_ => None);
    for k := 0 to |order|
      invariant forall i :: 0 <= i < |peers| && i !in order[..k] ==> errs[i] == None && placements[i] == None
      invariant forall i :: 0 <= i < |peers| && i in order[..k] ==>
                  SlotsFilled(outcomes[i], peers[i], errs[i], placements[i])
    {
      var i := order[k];
      assert order[..k + 1] == order[..k] + [i];
      match outcomes[i]
      case Refused(e) => errs[i] := Some(e);
      case Accepted(id, number) => placements[i] := Some(SharePlacement(peers[i], id, number));
    }
    assert order[..|order|] == order;
    var stored, placed, failures := 0, [], [];
    for i := 0 to |peers|
      invariant failures == Failures(peers[..i], outcomes[..i])
      invariant placed == Placements(peers[..i], outcomes[..i]) && stored == |placed|
    {
      assert peers[..i + 1][..i] == peers[..i] && outcomes[..i + 1][..i] == outcomes[..i];
      assert SlotsFilled(outcomes[i], peers[i], errs[i], placements[i]);
      if errs[i] != None {
        failures := failures + [ReplicaFailure(peers[i], errs[i].value)];
        continue;
      }
      stored := stored + 1;
      placed := placed + [placements[i].value];
    }
    assert peers[..|peers|] == peers && outcomes[..|peers|] == outcomes;
    return ShareResult(|peers|, stored, placed, failures);
  }

  ghost predicate Increasing(where: seq<nat>, n: nat) {
    && (forall j, k :: 0 <= j < k < |where| ==> where[j] < where[k])
    && (forall j :: 0 <= j < |where| ==> where[j] < n)
  }

  lemma IncreasingSnoc(where: seq<nat>, n: nat)
    requires Increasing(where, n)
    ensures Increasing(where, n + 1) && Increasing(where + [n], n + 1)
    ensures forall i :: i in where + [n] <==> i in where || i == n
  {
  }

  /** There is one failure for each peer that refused, with that peer's own error, in selection order. */
  lemma {:induction false} FailuresInOrder<E>(peers: seq<string>, outcomes: seq<Outcome<E>>) returns (where: seq<nat>)
    requires |peers| == |outcomes|
    ensures Increasing(where, |peers|) && |where| == |Failures(peers, outcomes)|
    ensures forall i: nat :: i in where <==> i < |outcomes| && outcomes[i].Refused?
    ensures forall j :: 0 <= j < |where| ==>
              outcomes[where[j]].Refused?
                  && Failures(peers, outcomes)[j] == ReplicaFailure(peers[where[j]], outcomes[where[j]].error)
    decreases |peers|
  {
    if peers == [] {
      where := [];
    } else {
      var n := |peers| - 1;
      where := FailuresInOrder(peers[..n], outcomes[..n]);
      IncreasingSnoc(where, n);
      if outcomes[n].Refused? {
        where := where + [n];
      }
    }
  }

  /** There is one placement for each peer that accepted, with the version it reported, in selection order. */
  lemma {:induction false} PlacementsInOrder<E>(peers: seq<string>, outcomes: seq<Outcome<E>>) returns (where: seq<nat>)
    requires |peers| == |outcomes|
    ensures Increasing(where, |peers|) && |where| == |Placements(peers, outcomes)|
    ensures forall i: nat :: i in where <==> i < |outcomes| && outcomes[i].Accepted?
    ensures forall j :: 0 <= j < |where| ==>
              outcomes[where[j]].Accepted?
              && Placements(peers, outcomes)[j] == SharePlacement(peers[where[j]], outcomes[where[j]].versionID,
                                                                  outcomes[where[j]].number)
    decreases |peers|
  {
    if peers == [] {
      where := [];
    } else {
      var n := |peers| - 1;
      where := PlacementsInOrder(peers[..n], outcomes[..n]);
      IncreasingSnoc(where, n);
      if outcomes[n].Accepted? {
        where := where + [n];
      }
    }
  }

  /** Every peer tried is counted once, as stored or as failed. */
  lemma {:induction false} TriedIsStoredPlusFailed<E>(peers: seq<string>, outcomes: seq<Outcome<E>>)
    requires |peers| == |outcomes|
    ensures |Placements(peers, outcomes)| + |Failures(peers, outcomes)| == |peers|
    decreases |peers|
  {
    if peers != [] {
      TriedIsStoredPlusFailed(peers[..|peers| - 1], outcomes[..|peers| - 1]);
    }
  }
}

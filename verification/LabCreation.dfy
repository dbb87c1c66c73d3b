/** Creating a lab: a row is inserted and committed, two networks are created on the host and recorded,
    and a failure on the way is compensated for step by step, as nothing else rolls it back. */
module LabCreation {
  import opened Wrappers

  datatype LabRow = LabRow(id: int, host: int, internal: Option<int>, external: Option<int>)

  datatype NetworkRow = NetworkRow(id: int, networkId: string, lab: int)

  datatype HostNetwork = HostNetwork(host: int, networkId: string)

  /** How the host answers the request for a network. A malformed answer comes from a host that has
      created the network but does not say so in a way from which an id can be read. */
  datatype Answer = Unreachable | Refused | Malformed(networkId: string) | Made(networkId: string)

  datatype Failure = Rejected | LabHostFailed

  function MadeOnHost(host: int, a: Answer): set<HostNetwork>
  {
    match a
    case Unreachable => {}
    case Refused => {}
    case Malformed(id) => {HostNetwork(host, id)}
    case Made(id) => {HostNetwork(host, id)}
  }

  function WithoutLab(labs: seq<LabRow>, id: int): seq<LabRow>
  {
    Keep(labs, (l: LabRow) => l.id != id)
  }

  /** The rows that go with a lab when it is deleted. */
  function WithoutNetworksOf(networks: seq<NetworkRow>, lab: int): seq<NetworkRow>
  {
    Keep(networks, (n: NetworkRow) => n.lab != lab)
  }

  /** Deleting a new lab restores the tables as they were before it. */
  lemma DeletingUndoesCreating(labs: seq<LabRow>, networks: seq<NetworkRow>, l: LabRow, added: seq<NetworkRow>)
    requires (forall k :: k in labs ==> k.id != l.id) && (forall n :: n in networks ==> n.lab != l.id)
    requires forall n :: n in added ==> n.lab == l.id
    ensures WithoutLab(labs + [l], l.id) == labs
    ensures WithoutNetworksOf(networks + added, l.id) == networks
  {
    var p, q := (k: LabRow) => k.id != l.id, (n: NetworkRow) => n.lab != l.id;
    KeepAppend(labs, [l], p);
    KeepAll(labs, p);
    KeepNone([l], p);
    KeepAppend(networks, added, q);
    KeepAll(networks, q);
    KeepNone(added, q);
  }

  // ---------------------------------------------------------------- the tables

  predicate Recorded(networks: seq<NetworkRow>, id: Option<int>, lab: int)
  {
    match id case None => false case Some(i) => exists n :: n in networks && n.id == i && n.lab == lab
  }

  /** A lab's own two networks are recorded as the lab's, and are two. */
  predicate HasBothNetworks(networks: seq<NetworkRow>, l: LabRow)
  {
    Recorded(networks, l.internal, l.id) && Recorded(networks, l.external, l.id) && l.internal != l.external
  }

  predicate Exists(labs: seq<LabRow>, id: int)
  {
    exists l :: l in labs && l.id == id
  }

  /** Every lab has its two networks, and every network row belongs to a lab. */
  predicate Paired(labs: seq<LabRow>, networks: seq<NetworkRow>, next: int)
  {
    && (forall l :: l in labs ==> l.id < next && HasBothNetworks(networks, l))
    && (forall n :: n in networks ==> n.id < next && Exists(labs, n.lab))
  }

  lemma AddedLabIsPaired(labs: seq<LabRow>, networks: seq<NetworkRow>, next: int, l: LabRow, a: NetworkRow,
                         b: NetworkRow)
    requires Paired(labs, networks, next)
    requires l == LabRow(next, l.host, Some(a.id), Some(b.id)) && a.lab == b.lab == next && a.id == next + 1
    requires b.id == next + 2
    ensures Paired(labs + [l], networks + [a, b], next + 3)
  {
    var labs', networks' := labs + [l], networks + [a, b];
    forall k | k in labs' ensures HasBothNetworks(networks', k) {
      if k == l {
        assert a in networks' && b in networks';
      } else {
        assert k in labs && forall n :: n in networks ==> n in networks';
      }
    }
    forall n | n in networks' ensures n.id < next + 3 && Exists(labs', n.lab) {
      if n in networks {
        var k :| k in labs && k.id == n.lab;
        assert k in labs';
      } else {
        assert l in labs';
      }
    }
  }

  lemma DeletedLabLeavesPaired(labs: seq<LabRow>, networks: seq<NetworkRow>, next: int, id: int)
    requires Paired(labs, networks, next)
    ensures Paired(WithoutLab(labs, id), WithoutNetworksOf(networks, id), next)
  {
    var labs', networks' := WithoutLab(labs, id), WithoutNetworksOf(networks, id);
    forall l | l in labs' ensures HasBothNetworks(networks', l) {
      assert l in labs && l.id != id && HasBothNetworks(networks, l);
      assert forall n :: n in networks && n.lab == l.id ==> n in networks';
    }
    forall n | n in networks' ensures Exists(labs', n.lab) {
      var l :| l in labs && l.id == n.lab;
      assert l in labs';
    }
  }

  /** The networks whose ids are known when a creation fails. */
  function Extracted(host: int, internal: Answer): seq<HostNetwork>
  {
    if internal.Made? then [HostNetwork(host, internal.networkId)] else []
  }

  /** What a failed creation adds to the host: networks it was told of but would not remove, and ones
      it never gave the id of. */
  function LeftBehind(host: int, internal: Answer, external: Answer, removable: set<HostNetwork>): set<HostNetwork>
  {
    if internal.Made? then (MadeOnHost(host, internal) - removable) + MadeOnHost(host, external)
    else MadeOnHost(host, internal)
  }

  lemma WhatCompensationLeaves(before: set<HostNetwork>, host: int, internal: Answer, external: Answer,
                               removable: set<HostNetwork>)
    requires MadeOnHost(host, internal) !! MadeOnHost(host, external) !! before
    ensures before + MadeOnHost(host, internal) + (if internal.Made? then MadeOnHost(host, external) else {})
              - (set n | n in Extracted(host, internal) && n in removable)
         == before + LeftBehind(host, internal, external, removable)
  {
  }

  lemma LeftNetwork(before: set<HostNetwork>, host: int, internal: Answer, external: Answer,
                    removable: set<HostNetwork>)
    requires !internal.Made? || !external.Made?
    ensures before + LeftBehind(host, internal, external, removable) ==
            match internal
            case Unreachable => before
            case Refused => before
            case Malformed(n) => before + {HostNetwork(host, n)}
            case Made(n) =>
              var unnamed := if external.Malformed? then {HostNetwork(host, external.networkId)} else {};
              before + ({HostNetwork(host, n)} - removable) + unnamed
  {
  }

  class Registry {
    var labs: seq<LabRow>
    var networks: seq<NetworkRow>
    var onHosts: set<HostNetwork>
    var deletions: seq<HostNetwork>  // the DELETE requests sent so far
    var next: int

    predicate Valid()
      reads this
    {
      Paired(labs, networks, next)
    }

    constructor ()
      ensures Valid() && labs == [] && networks == [] && onHosts == {} && deletions == []
    {
      labs, networks, onHosts, deletions, next := [], [], {}, [], 0;
    }

    /** All or nothing. `ready` is the outcome of the checks before the insert, `removable` are the
        networks whose removal the host carries out when it is asked to. */
    method CreateLabOnHost(host: int, ready: bool, internal: Answer, external: Answer, removable: set<HostNetwork>)
        returns (result: Result<int, Failure>)
      requires Valid()
      requires MadeOnHost(host, internal) !! MadeOnHost(host, external) !! onHosts
      modifies this
      ensures Valid() && next >= old(next)
      ensures result.Ok? <==> ready && internal.Made? && external.Made?
      ensures result.Ok? ==>
        && result.value >= old(next)
        && (exists a, b ::
             && labs == old(labs) + [LabRow(result.value, host, Some(a), Some(b))]
             && networks == old(networks) +
               [NetworkRow(a, internal.networkId, result.value), NetworkRow(b, external.networkId, result.value)])
        && onHosts == old(onHosts) + {HostNetwork(host, internal.networkId), HostNetwork(host, external.networkId)}
        && deletions == old(deletions)
      ensures result.Err? ==> labs == old(labs) && networks == old(networks)
      ensures result == Err(Rejected) <==> !ready
      ensures result == Err(Rejected) ==> onHosts == old(onHosts) && deletions == old(deletions)
      ensures result == Err(LabHostFailed) ==>
        deletions == old(deletions) + (if internal.Made? then [HostNetwork(host, internal.networkId)] else [])
      ensures result == Err(LabHostFailed) ==>
        match internal
        case Unreachable => onHosts == old(onHosts)
        case Refused => onHosts == old(onHosts)
        case Malformed(n) => onHosts == old(onHosts) + {HostNetwork(host, n)}
        case Made(n) =>
          var unnamed := if external.Malformed? then {HostNetwork(host, external.networkId)} else {};
          onHosts == old(onHosts) + ({HostNetwork(host, n)} - removable) + unnamed
    {
      if !ready {
        return Err(Rejected);
      }
      var id := next;
      var lab := LabRow(id, host, None, None);
      labs, next := labs + [lab], next + 1;
      var created, ok := MakeNetworks(lab, internal, external);
      if ok {
        ghost var a, b := networks[|networks| - 2], networks[|networks| - 1];
        AddedLabIsPaired(old(labs), old(networks), id, lab.(internal := Some(a.id), external := Some(b.id)), a, b);
        return Ok(id);
      }
      DeletingUndoesCreating(old(labs), old(networks), lab, networks[|old(networks)|..]);
      Compensate(id, created, removable);
      WhatCompensationLeaves(old(onHosts), host, internal, external, removable);
      LeftNetwork(old(onHosts), host, internal, external, removable);
      return Err(LabHostFailed);
    }

    /** The part that may fail: both networks are created and recorded, and the lab, the last of the
        table, is pointed to them. */
    method MakeNetworks(lab: LabRow, internal: Answer, external: Answer) returns (created: seq<HostNetwork>, ok: bool)
      requires |labs| > 0 && labs[|labs| - 1] == lab
      modifies this`networks, this`labs, this`onHosts, this`next
      ensures ok <==> internal.Made? && external.Made?
      ensures onHosts == old(onHosts) + MadeOnHost(lab.host, internal) +
        if internal.Made? then MadeOnHost(lab.host, external) else {}
      ensures ok ==>
        && networks == old(networks) +
          [NetworkRow(old(next), internal.networkId, lab.id), NetworkRow(old(next) + 1, external.networkId, lab.id)]
        && labs == old(labs[..|labs| - 1]) + [lab.(internal := Some(old(next)), external := Some(old(next) + 1))]
        && next == old(next) + 2
      ensures !ok ==>
        && created == Extracted(lab.host, internal) && labs == old(labs) && next >= old(next)
        && |networks| >= |old(networks)| && networks == old(networks) + networks[|old(networks)|..]
        && forall n :: n in networks[|old(networks)|..] ==> n.lab == lab.id
    {
      created, ok := [], false;
      onHosts := onHosts + MadeOnHost(lab.host, internal);
      if !internal.Made? {
        return;
      }
      created := created + [HostNetwork(lab.host, internal.networkId)];
      var internalRow := NetworkRow(next, internal.networkId, lab.id);
      networks, next := networks + [internalRow], next + 1;

      onHosts := onHosts + MadeOnHost(lab.host, external);
      if !external.Made? {
        return;
      }
      created := created + [HostNetwork(lab.host, external.networkId)];
      var externalRow := NetworkRow(next, external.networkId, lab.id);
      networks, next := networks + [externalRow], next + 1;
      labs := labs[|labs| - 1 := lab.(internal := Some(internalRow.id), external := Some(externalRow.id))];
      ok := true;
    }

    /** The way back after a failure: every network that an id is known of is deleted on the host, and
        the lab with all its rows from the tables. */
    method Compensate(id: int, created: seq<HostNetwork>, removable: set<HostNetwork>)
      modifies this`deletions, this`onHosts, this`labs, this`networks
      ensures deletions == old(deletions) + created
      ensures onHosts == old(onHosts) - (set n | n in created && n in removable)
      ensures labs == WithoutLab(old(labs), id) && networks == WithoutNetworksOf(old(networks), id)
    {
      var k := 0;
      while k < |created|
        invariant 0 <= k <= |created|
        invariant deletions == old(deletions) + created[..k]
        invariant onHosts == old(onHosts) - (set n | n in created[..k] && n in removable)
        invariant labs == old(labs) && networks == old(networks)
      {
        assert created[..k + 1] == created[..k] + [created[k]];
        deletions := deletions + [created[k]];
        if created[k] in removable {
          onHosts := onHosts - {created[k]};
        }
        k := k + 1;
      }
      assert created[..k] == created;
      labs, networks := WithoutLab(labs, id), WithoutNetworksOf(networks, id);
    }

    /** Deleting a lab asks the host for the removal of all its networks, and then deletes its rows
        whatever the host has answered. */
    method DeleteLab(id: int, host: int, removable: set<HostNetwork>) returns (sent: seq<HostNetwork>)
      requires Valid()
      modifies this
      ensures Valid()
      ensures labs == WithoutLab(old(labs), id) && networks == WithoutNetworksOf(old(networks), id)
      ensures forall l :: l in labs <==> l in old(labs) && l.id != id
      ensures forall n :: n in networks <==> n in old(networks) && n.lab != id
      ensures deletions == old(deletions) + sent
      ensures forall d :: d in sent <==>
        exists n :: n in old(networks) && n.lab == id && d == HostNetwork(host, n.networkId)
      ensures onHosts == old(onHosts) - (set d | d in sent && d in removable)
    {
      sent := [];
      var k := 0;
      while k < |networks|
        invariant 0 <= k <= |networks|
        invariant deletions == old(deletions) + sent
        invariant forall d :: d in sent <==>
                    exists i :: 0 <= i < k && networks[i].lab == id && d == HostNetwork(host, networks[i].networkId)
        invariant onHosts == old(onHosts) - (set d | d in sent && d in removable)
        invariant labs == old(labs) && networks == old(networks) && next == old(next)
      {
        if networks[k].lab == id {
          var d := HostNetwork(host, networks[k].networkId);
          sent := sent + [d];
          deletions := deletions + [d];
          if d in removable {
            onHosts := onHosts - {d};
          }
        }
        k := k + 1;
      }
      DeletedLabLeavesPaired(labs, networks, next, id);
      labs, networks := WithoutLab(labs, id), WithoutNetworksOf(networks, id);
    }
  }
}

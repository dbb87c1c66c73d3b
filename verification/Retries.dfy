/** What the retries of a container creation achieve when the daemon refuses its ports. */
module Retries {
  import opened Wrappers
  import opened Text
  import opened PortAllocator
  import opened DockerHost

  // ---------------------------------------------------------------- a refusal that leaves nothing behind

  lemma {:induction false} FreePortsStay(used: set<int>, requests: seq<int>)
    requires Distinct(requests) && Elements(requests) !! used
    ensures Park(used, requests) == Some(requests)
    decreases requests
  {
    if requests != [] {
      assert requests[0] in Elements(requests);
      forall x | x in Elements(requests[1..]) ensures x !in used + {requests[0]} { assert x in Elements(requests); }
      FreePortsStay(used + {requests[0]}, requests[1..]);
      assert requests == [requests[0]] + requests[1..];
    }
  }

  /** Ports that are fit to be bound are chosen again. */
  lemma ReadyPortsStay(d: Daemon, ports: seq<PortMapping>)
    requires ReadyToBind(d, ports)
    ensures Remapped(d, ports) == Some(ports)
  {
    FreePortsStay(UsedPorts(d.containers), Hosts(ports));
    assert WithHosts(ports, Hosts(ports)) == ports;
  }

  /** Attempts that leave nothing behind all ask for the same ports, so a port that something else than
      a container holds is never got past, and the daemon is as it was. */
  lemma {:induction false} RefusalsRepeat(d: Daemon, ports: seq<PortMapping>, outcomes: seq<RunOutcome>, n: nat)
    requires ReadyToBind(d, ports) && n <= |outcomes| && forall i :: 0 <= i < n ==> outcomes[i] == PortTaken(false)
    ensures Attempts(d, ports, outcomes) == Attempts(d, ports, outcomes[n..])
    decreases n
  {
    if n == 0 {
      assert outcomes[0..] == outcomes;
    } else {
      ReadyPortsStay(d, ports);
      RefusalsRepeat(d, ports, outcomes[1..], n - 1);
      assert outcomes[1..][n - 1..] == outcomes[n..];
    }
  }

  /** Every attempt is refused for its ports, with or without a container that stays. */
  predicate AllRefused(outcomes: seq<RunOutcome>, leftover: bool)
  {
    forall i :: 0 <= i < |outcomes| ==> outcomes[i] == PortTaken(leftover)
  }

  lemma CleanRefusalsChangeNothing(d: Daemon, ports: seq<PortMapping>, outcomes: seq<RunOutcome>)
    requires InRange(Hosts(ports)) && Remapped(d, ports).Some? && AllRefused(outcomes, false)
    ensures Create(d, ports, outcomes) == (d, Err(PortsStayedTaken))
  {
    var first := Remapped(d, ports).value;
    RemapMakesReady(d, ports);
    RefusalsRepeat(d, first, outcomes, |outcomes|);
    assert outcomes[|outcomes|..] == [];
  }

  // ---------------------------------------------------------------- the answer that counts

  /** The first answer that is not about a taken port. */
  predicate IsFirstOther(outcomes: seq<RunOutcome>, k: int)
  {
    0 <= k < |outcomes| && !outcomes[k].PortTaken? && forall j :: 0 <= j < k ==> outcomes[j].PortTaken?
  }

  /** Only taken ports are tried again. Unless the ports run out, the creation succeeds if and only if
      the first other answer is that the container has started, fails at once on any other failure, and
      is given up if and only if all answers are about taken ports. */
  lemma {:induction false} FirstOtherAnswerDecides(d: Daemon, ports: seq<PortMapping>, outcomes: seq<RunOutcome>)
    ensures var r := Attempts(d, ports, outcomes).1; r != Err(NoFreePort) ==>
      && (r.Ok? <==> exists k :: IsFirstOther(outcomes, k) && outcomes[k] == Started)
      && (r == Err(DaemonError) <==> exists k :: IsFirstOther(outcomes, k) && outcomes[k].OtherFailure?)
      && (r == Err(PortsStayedTaken) <==> forall j :: 0 <= j < |outcomes| ==> outcomes[j].PortTaken?)
    decreases outcomes
  {
    if outcomes != [] {
      if outcomes[0].PortTaken? {
        var d' := if outcomes[0].leftover then AddContainer(d, ports) else d;
        if Remapped(d', ports).Some? {
          FirstOtherAnswerDecides(d', Remapped(d', ports).value, outcomes[1..]);
          forall k | IsFirstOther(outcomes[1..], k) ensures IsFirstOther(outcomes, k + 1) { }
          forall k | IsFirstOther(outcomes, k) ensures k > 0 && IsFirstOther(outcomes[1..], k - 1) { }
        }
      } else {
        assert IsFirstOther(outcomes, 0);
        forall k | IsFirstOther(outcomes, k) ensures k == 0 { }
      }
    }
  }

  /** The ports run out at the first remap or at a later one, and only then. */
  lemma FirstRemapDecides(d: Daemon, ports: seq<PortMapping>, outcomes: seq<RunOutcome>)
    ensures Park(UsedPorts(d.containers), Hosts(ports)).None? ==> Create(d, ports, outcomes) == (d, Err(NoFreePort))
    ensures Park(UsedPorts(d.containers), Hosts(ports)).Some? ==>
      Create(d, ports, outcomes) ==
      Attempts(d, WithHosts(ports, Park(UsedPorts(d.containers), Hosts(ports)).value), outcomes)
  {
  }

  /** While the refusals before it leave nothing behind, the answer that counts decides alone what stays:
      a started container, or one that the failure has left, with the ports of the first remap, and
      otherwise nothing. */
  lemma AnswerAfterCleanRefusals(d: Daemon, ports: seq<PortMapping>, outcomes: seq<RunOutcome>, k: nat)
    requires InRange(Hosts(ports)) && Park(UsedPorts(d.containers), Hosts(ports)).Some?
    requires k < |outcomes| && !outcomes[k].PortTaken? && forall j :: 0 <= j < k ==> outcomes[j] == PortTaken(false)
    ensures var first := WithHosts(ports, Park(UsedPorts(d.containers), Hosts(ports)).value);
      var one := Daemon(d.containers[d.next := BindingsOf(first)], d.next + 1);
      Create(d, ports, outcomes) ==
      if outcomes[k].Started? then (one, Ok(d.next))
      else (if outcomes[k].leftover then one else d, Err(DaemonError))
  {
    var first := Remapped(d, ports).value;
    RemapMakesReady(d, ports);
    RefusalsRepeat(d, first, outcomes, k);
    LastAttempt(d, first, outcomes[k..]);
  }

  lemma LastAttempt(d: Daemon, ports: seq<PortMapping>, outcomes: seq<RunOutcome>)
    requires outcomes != [] && !outcomes[0].PortTaken?
    ensures var one := Daemon(d.containers[d.next := BindingsOf(ports)], d.next + 1);
      Attempts(d, ports, outcomes) ==
      if outcomes[0].Started? then (one, Ok(d.next))
      else (if outcomes[0].leftover then one else d, Err(DaemonError))
  {
  }

  // ---------------------------------------------------------------- a refusal that leaves a container behind

  /** The request that decides the binding of its key. */
  predicate IsLastOfKey(ports: seq<PortMapping>, i: nat)
  {
    i < |ports| && forall j :: i < j < |ports| ==> PortKey(ports[j]) != PortKey(ports[i])
  }

  /** A container binds the host ports of the last requests for its keys. */
  lemma BoundPorts(ports: seq<PortMapping>, i: nat)
    requires i < |ports| && InRange(Hosts(ports)) && Distinct(Hosts(ports))
    ensures ports[i].host in PortsOf(BindingsOf(ports)) <==> IsLastOfKey(ports, i)
  {
    var b := BindingsOf(ports);
    if IsLastOfKey(ports, i) {
      LastRequestIsBound(ports, i);
      var j := BindingOfKey(ports, PortKey(ports[i]));
      LastItemStays(ports, PortKey, i);
      DecimalRoundTrip(ports[i].host);
      assert b[PortKey(ports[i])][0] == Decimal(ports[i].host);
      assert ports[i].host in PortsOfList(b[PortKey(ports[i])]);
    }
    if ports[i].host in PortsOf(b) {
      var key :| key in b && ports[i].host in PortsOfList(b[key]);
      var k := LastOfKey(ports, key);
      LastRequestIsBound(ports, k);
      var j := BindingOfKey(ports, key);
      DecimalRoundTrip(ports[k].host);
      assert b[key] == [Decimal(ports[k].host)];
      assert PortsOfList(b[key]) == {Hosts(ports)[j]};
      assert PortOf(b[key][0]) == Some(ports[k].host);
      assert Hosts(ports)[k] == Hosts(ports)[i] == Hosts(ports)[j];
      assert k == i;
    }
  }

  lemma LastAt(keys: seq<string>, key: string, some: nat) returns (i: nat)
    requires some < |keys| && keys[some] == key
    ensures i < |keys| && keys[i] == key && forall j :: i < j < |keys| ==> keys[j] != key
  {
    i := |keys| - 1;
    while keys[i] != key
      invariant some <= i < |keys|
      invariant forall j :: i < j < |keys| ==> keys[j] != key
      decreases i
    {
      i := i - 1;
    }
  }

  lemma LastOfKey(ports: seq<PortMapping>, key: string) returns (i: nat)
    requires key in PortMap(ports)
    ensures IsLastOfKey(ports, i) && PortKey(ports[i]) == key
  {
    var some := BoundToSomeRequest(ports, key);
    var keys := seq(|ports|, j requires 0 <= j < |ports| => PortKey(ports[j]));
    i := LastAt(keys, key, some);
    assert forall j :: i < j < |ports| ==> keys[j] == PortKey(ports[j]);
  }

  lemma UsedWithLeftover(d: Daemon, ports: seq<PortMapping>)
    requires Fresh(d)
    ensures UsedPorts(AddContainer(d, ports).containers) == UsedPorts(d.containers) + PortsOf(BindingsOf(ports))
  {
    var cs, cs' := d.containers, AddContainer(d, ports).containers;
    forall p | p in UsedPorts(cs) ensures p in UsedPorts(cs') {
      var id :| id in cs && p in PortsOf(cs[id]);
      assert id in cs' && cs'[id] == cs[id];
    }
    forall p | p in PortsOf(BindingsOf(ports)) ensures p in UsedPorts(cs') {
      assert d.next in cs' && cs'[d.next] == BindingsOf(ports);
    }
  }

  /** After a refusal that leaves a container behind, exactly those requests keep their port that this
      container has not bound and that no earlier request has moved onto; the others move up. */
  lemma LeftoverMovesItsPorts(d: Daemon, ports: seq<PortMapping>, i: nat)
    requires Fresh(d) && ReadyToBind(d, ports) && i < |ports| && Remapped(AddContainer(d, ports), ports).Some?
    ensures var again := Remapped(AddContainer(d, ports), ports).value;
      && again[i].host >= ports[i].host
      && (again[i].host == ports[i].host <==>
            !IsLastOfKey(ports, i) && forall j :: 0 <= j < i ==> again[j].host != ports[i].host)
  {
    var d', hosts := AddContainer(d, ports), Hosts(ports);
    var placed := Park(UsedPorts(d'.containers), hosts).value;
    var again := Remapped(d', ports).value;
    ParkIsGreedy(UsedPorts(d'.containers), hosts);
    assert GreedyAt(UsedPorts(d'.containers), hosts, placed, i);
    UsedWithLeftover(d, ports);
    BoundPorts(ports, i);
    assert hosts[i] in Elements(hosts) && forall j :: 0 <= j < |ports| ==> again[j].host == placed[j];
    assert hosts[i] in Elements(placed[..i]) <==> exists j :: 0 <= j < i && placed[j] == hosts[i] by {
      forall j | 0 <= j < i ensures placed[..i][j] in Elements(placed[..i]) { }
    }
  }

  // ---------------------------------------------------------------- what failed attempts leave

  /** If every attempt is refused and leaves a container behind, each of these containers stays. */
  lemma {:induction false} LeftoversPileUp(d: Daemon, ports: seq<PortMapping>, outcomes: seq<RunOutcome>)
    requires Fresh(d) && AllRefused(outcomes, true)
    requires Attempts(d, ports, outcomes).1 == Err(PortsStayedTaken)
    ensures var d' := Attempts(d, ports, outcomes).0;
      && (forall id :: id in d'.containers <==> id in d.containers || d.next <= id < d.next + |outcomes|)
      && (forall id :: id in d.containers ==> d'.containers[id] == d.containers[id])
    decreases outcomes
  {
    if outcomes != [] {
      var d' := AddContainer(d, ports);
      assert outcomes[0] == PortTaken(true);
      assert AllRefused(outcomes[1..], true);
      LeftoversPileUp(d', Remapped(d', ports).value, outcomes[1..]);
    }
  }

  /** The ports from `low` up to but not including `high`. */
  ghost predicate AreUsed(d: Daemon, low: int, high: int)
  {
    forall p :: p in UsedPorts(d.containers) <==> low <= p < high
  }

  lemma OnePort(m: PortMapping)
    requires 1 <= m.host <= MAX_PORT
    ensures PortsOf(BindingsOf([m])) == {m.host}
  {
    assert Hosts([m]) == [m.host];
    BoundPorts([m], 0);
    forall p | p in PortsOf(BindingsOf([m])) ensures p == m.host {
      var key :| key in BindingsOf([m]) && p in PortsOfList(BindingsOf([m])[key]);
      var j := BindingOfKey([m], key);
    }
  }

  lemma OnePark(used: set<int>, port: int)
    requires 1 <= port < MAX_PORT && port in used && port + 1 !in used
    ensures Park(used, [port]) == Some([port + 1])
  {
    assert NextFree(port, used) == NextFree(port + 1, used) == Some(port + 1);
    assert Assign(port, used) == Some(port + 1) && [port][1..] == [];
    assert Park(used + {port + 1}, []) == Some([]);
    assert [port + 1] + [] == [port + 1];
  }

  lemma NextPort(d: Daemon, m: PortMapping, low: int)
    requires Fresh(d) && 1 <= low <= m.host < MAX_PORT && AreUsed(d, low, m.host)
    ensures var d' := AddContainer(d, [m]);
      Fresh(d') && AreUsed(d', low, m.host + 1) && Remapped(d', [m]) == Some([m.(host := m.host + 1)])
  {
    var d' := AddContainer(d, [m]);
    OnePort(m);
    UsedWithLeftover(d, [m]);
    assert Hosts([m]) == [m.host];
    OnePark(UsedPorts(d'.containers), m.host);
    assert WithHosts([m], [m.host + 1]) == [m.(host := m.host + 1)];
  }

  /** A single port climbs by one with every leftover. */
  lemma {:induction false} PortClimbs(d: Daemon, m: PortMapping, outcomes: seq<RunOutcome>, low: int)
    requires Fresh(d) && 1 <= low <= m.host && m.host + |outcomes| <= MAX_PORT && AreUsed(d, low, m.host)
    requires AllRefused(outcomes, true)
    ensures var (d', r) := Attempts(d, [m], outcomes);
      r == Err(PortsStayedTaken) && AreUsed(d', low, m.host + |outcomes|)
    decreases outcomes
  {
    if outcomes != [] {
      assert outcomes[0] == PortTaken(true);
      assert AllRefused(outcomes[1..], true);
      NextPort(d, m, low);
      PortClimbs(AddContainer(d, [m]), m.(host := m.host + 1), outcomes[1..], low);
    }
  }

  /** On an empty host a creation that fails can leave a container behind for every attempt, and each of
      them holds a port. */
  lemma FailedCreationHoldsPorts(m: PortMapping, outcomes: seq<RunOutcome>)
    requires 1 <= m.host && m.host + |outcomes| <= MAX_PORT && AllRefused(outcomes, true)
    ensures var (d, r) := Create(Daemon(map[], 0), [m], outcomes);
      && r == Err(PortsStayedTaken) && AreUsed(d, m.host, m.host + |outcomes|)
      && forall id :: id in d.containers <==> 0 <= id < |outcomes|
  {
    var empty := Daemon(map[], 0);
    assert Hosts([m]) == [m.host];
    ReadyPortsStay(empty, [m]);
    PortClimbs(empty, m, outcomes, m.host);
    LeftoversPileUp(empty, [m], outcomes);
  }

  /** For instance five of them, from port 8080 up. */
  lemma FailedCreationHoldsFivePorts()
    ensures exists outcomes ::
      && |outcomes| == ATTEMPTS && AllRefused(outcomes, true)
      && var (d, r) := Create(Daemon(map[], 0), [PortMapping(8080, 80, "tcp")], outcomes);
      r == Err(PortsStayedTaken) && AreUsed(d, 8080, 8085)
  {
    var outcomes := [PortTaken(true), PortTaken(true), PortTaken(true), PortTaken(true), PortTaken(true)];
    assert AllRefused(outcomes, true);
    FailedCreationHoldsPorts(PortMapping(8080, 80, "tcp"), outcomes);
  }
}

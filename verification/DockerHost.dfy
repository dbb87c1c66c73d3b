/** The Docker daemon of one lab host, as far as published ports are concerned: which containers
    exist and which host ports each of them binds. */
module DockerHost {
  import opened Wrappers
  import opened Text
  import opened PortAllocator

  /** HostConfig.PortBindings: host-port texts by "container-port/protocol" key. */
  type Bindings = map<string, seq<string>>

  /** The daemon hands out container ids in sequence and never again. */
  datatype Daemon = Daemon(containers: map<nat, Bindings>, next: nat)

  predicate Fresh(d: Daemon)
  {
    forall id :: id in d.containers ==> id < d.next
  }

  // ---------------------------------------------------------------- which ports are in use

  function PortOf(text: string): Option<int>
  {
    if IsDigits(text) then Some(ParseNat(text)) else None
  }

  function PortsOfList(texts: seq<string>): set<int>
  {
    set i | 0 <= i < |texts| && PortOf(texts[i]).Some? :: PortOf(texts[i]).value
  }

  function PortsOf(b: Bindings): set<int>
  {
    set key, p | key in b && p in PortsOfList(b[key]) :: p
  }

  function UsedPorts(cs: map<nat, Bindings>): set<int>
  {
    set id, p | id in cs && p in PortsOf(cs[id]) :: p
  }

  /** A host port is in use when some binding of some container has it for a numeral, leading zeros
      or not. */
  lemma UsedPortsAreTheBoundOnes(cs: map<nat, Bindings>, port: int)
    ensures port in UsedPorts(cs) <==>
      exists id, key, i :: id in cs && key in cs[id] && 0 <= i < |cs[id][key]|
                           && IsDigits(cs[id][key][i]) && ParseNat(cs[id][key][i]) == port
  {
    if id, key, i :| id in cs && key in cs[id] && 0 <= i < |cs[id][key]|
                     && IsDigits(cs[id][key][i]) && ParseNat(cs[id][key][i]) == port
    {
      assert PortOf(cs[id][key][i]) == Some(port);
      assert port in PortsOfList(cs[id][key]) && port in PortsOf(cs[id]);
    }
    if port in UsedPorts(cs) {
      var id :| id in cs && port in PortsOf(cs[id]);
      var key :| key in cs[id] && port in PortsOfList(cs[id][key]);
      var i :| 0 <= i < |cs[id][key]| && PortOf(cs[id][key][i]) == Some(port);
    }
  }

  // ---------------------------------------------------------------- a container's bindings

  function PortKey(p: PortMapping): string { Numeral(p.container) + "/" + p.protocol }

  /** A dictionary filled from a list: one entry per key, the last item for a key wins. */
  function Dict(ports: seq<PortMapping>, key: PortMapping -> string): map<string, int>
  {
    if ports == [] then map[] else
    var last := ports[|ports| - 1];
    Dict(ports[..|ports| - 1], key)[key(last) := last.host]
  }

  function PortMap(ports: seq<PortMapping>): map<string, int> { Dict(ports, PortKey) }

  method BuildPorts(ports: seq<PortMapping>) returns (r: Option<map<string, int>>)
    ensures r == if ports == [] then None else Some(PortMap(ports))
  {
    if ports == [] {
      return None;
    }
    var dict: map<string, int> := map[];
    var k := 0;
    while k < |ports|
      invariant 0 <= k <= |ports|
      invariant dict == PortMap(ports[..k])
    {
      assert ports[..k + 1][..k] == ports[..k];
      dict := dict[PortKey(ports[k]) := ports[k].host];
      k := k + 1;
    }
    assert ports[..k] == ports;
    return Some(dict);
  }

  lemma {:induction false} NumeralIsUnique(a: int, b: int)
    ensures Numeral(a) == Numeral(b) <==> a == b
    ensures '/' !in Numeral(a)
  {
    var m, n := if a < 0 then -a else a, if b < 0 then -b else b;
    DecimalRoundTrip(m);
    DecimalRoundTrip(n);
    DigitsContainNo(Decimal(m), '/');
    DigitsContainNo(Decimal(m), '-');
    DigitsContainNo(Decimal(n), '-');
    assert a < 0 ==> Numeral(a)[0] == '-' && Numeral(a)[1..] == Decimal(m);
    assert b < 0 ==> Numeral(b)[0] == '-' && Numeral(b)[1..] == Decimal(n);
    assert a >= 0 ==> Numeral(a)[0] in Decimal(m);
    assert b >= 0 ==> Numeral(b)[0] in Decimal(n);
  }

  /** A port is published under its number and its protocol, and two requests share a key exactly when
      both of these are equal. */
  lemma KeyIsPortAndProtocol(p: PortMapping, q: PortMapping)
    ensures PortKey(p) == PortKey(q) <==> p.container == q.container && p.protocol == q.protocol
    ensures p.container >= 0 ==> PortKey(p) == Decimal(p.container) + "/" + p.protocol
  {
    NumeralIsUnique(p.container, q.container);
    NumeralIsUnique(q.container, p.container);
    var a, b := Numeral(p.container), Numeral(q.container);
    if PortKey(p) == PortKey(q) {
      SlashIsTheFirst(a, p.protocol);
      SlashIsTheFirst(b, q.protocol);
    }
  }

  lemma SlashIsTheFirst(a: string, b: string)
    requires '/' !in a
    ensures var s := a + "/" + b; IndexOf(s, '/') == |a| && s[..|a|] == a && s[|a| + 1..] == b
  {
    var s := a + "/" + b;
    assert s[|a|] == '/';
    assert forall k :: 0 <= k < |a| ==> s[k] == a[k];
  }

  /** No later request is for the same container port and protocol. */
  predicate IsLastRequest(ports: seq<PortMapping>, i: nat)
  {
    && i < |ports|
    && forall j :: i < j < |ports| ==>
      ports[j].container != ports[i].container || ports[j].protocol != ports[i].protocol
  }

  lemma LastRequestHasItsKey(ports: seq<PortMapping>, i: nat)
    requires i < |ports|
    ensures IsLastRequest(ports, i) <==> forall j :: i < j < |ports| ==> PortKey(ports[j]) != PortKey(ports[i])
  {
    forall j | i < j < |ports|
      ensures PortKey(ports[j]) != PortKey(ports[i]) <==>
        ports[j].container != ports[i].container || ports[j].protocol != ports[i].protocol
    {
      KeyIsPortAndProtocol(ports[j], ports[i]);
    }
  }

  /** Every key is bound to the host port of the last request that names it, and only such keys
      are bound: requests for the same container port and protocol collapse, and no others. */
  lemma LastRequestWins(ports: seq<PortMapping>)
    ensures forall key :: key in PortMap(ports) <==> exists i :: 0 <= i < |ports| && PortKey(ports[i]) == key
    ensures forall i: nat :: IsLastRequest(ports, i) ==>
      PortKey(ports[i]) in PortMap(ports) && PortMap(ports)[PortKey(ports[i])] == ports[i].host
  {
    KeysAreListed(ports, PortKey);
    forall i: nat | IsLastRequest(ports, i)
      ensures PortKey(ports[i]) in PortMap(ports) && PortMap(ports)[PortKey(ports[i])] == ports[i].host
    {
      LastRequestHasItsKey(ports, i);
      LastItemStays(ports, PortKey, i);
    }
  }

  lemma {:induction false} LastItemStays(ports: seq<PortMapping>, key: PortMapping -> string, i: nat)
    requires i < |ports| && forall j :: i < j < |ports| ==> key(ports[j]) != key(ports[i])
    ensures key(ports[i]) in Dict(ports, key) && Dict(ports, key)[key(ports[i])] == ports[i].host
    decreases ports
  {
    var n := |ports| - 1;
    if i < n {
      assert key(ports[n]) != key(ports[i]);
      LastItemStays(ports[..n], key, i);
    }
  }

  lemma {:induction false} KeysAreListed(ports: seq<PortMapping>, key: PortMapping -> string)
    ensures forall k :: k in Dict(ports, key) <==> exists i :: 0 <= i < |ports| && key(ports[i]) == k
    decreases ports
  {
    if ports != [] {
      var n := |ports| - 1;
      var front := ports[..n];
      KeysAreListed(front, key);
      assert forall i :: 0 <= i < n ==> front[i] == ports[i];
    }
  }

  lemma {:induction false} BoundToSomeRequest(ports: seq<PortMapping>, key: string) returns (i: nat)
    requires key in PortMap(ports)
    ensures i < |ports| && PortKey(ports[i]) == key && ports[i].host == PortMap(ports)[key]
    decreases ports
  {
    var n := |ports| - 1;
    if key == PortKey(ports[n]) {
      i := n;
    } else {
      i := BoundToSomeRequest(ports[..n], key);
    }
  }

  /** What the daemon records for a container started with the given ports. */
  function BindingsOf(ports: seq<PortMapping>): Bindings
  {
    var dict := PortMap(ports);
    map key | key in dict :: [Numeral(dict[key])]
  }

  // ---------------------------------------------------------------- conflict freedom

  /** Within one container no port is bound by two keys, nor twice by one key. */
  predicate BoundOnce(b: Bindings)
  {
    && (forall k, l :: k in b && l in b && k != l ==> PortsOfList(b[k]) !! PortsOfList(b[l]))
    && (forall k, i, j :: k in b && 0 <= i < j < |b[k]| && PortOf(b[k][i]).Some? ==> PortOf(b[k][i]) != PortOf(b[k][j]))
  }

  /** No host port is bound twice on the whole host, whatever the protocol. */
  predicate ConflictFree(cs: map<nat, Bindings>)
  {
    && (forall id :: id in cs ==> BoundOnce(cs[id]))
    && (forall a, b :: a in cs && b in cs && a != b ==> PortsOf(cs[a]) !! PortsOf(cs[b]))
  }

  /** Each key of a new container is bound to one port, the host port of some request. */
  lemma BindingOfKey(ports: seq<PortMapping>, key: string) returns (i: nat)
    requires InRange(Hosts(ports)) && key in BindingsOf(ports)
    ensures i < |ports| && PortKey(ports[i]) == key
    ensures PortsOfList(BindingsOf(ports)[key]) == {Hosts(ports)[i]}
  {
    i := BoundToSomeRequest(ports, key);
    var host := Hosts(ports)[i];
    var texts := BindingsOf(ports)[key];
    DecimalRoundTrip(host);
    assert texts == [Decimal(host)] && PortOf(texts[0]) == Some(host);
  }

  lemma NewBindings(used: set<int>, ports: seq<PortMapping>)
    requires Distinct(Hosts(ports)) && InRange(Hosts(ports)) && Elements(Hosts(ports)) !! used
    ensures BoundOnce(BindingsOf(ports))
    ensures PortsOf(BindingsOf(ports)) !! used
  {
    var b := BindingsOf(ports);
    forall k, l | k in b && l in b && k != l
      ensures PortsOfList(b[k]) !! PortsOfList(b[l])
    {
      var i := BindingOfKey(ports, k);
      var j := BindingOfKey(ports, l);
      assert i != j;
    }
    forall p | p in PortsOf(b) ensures p !in used {
      var k :| k in b && p in PortsOfList(b[k]);
      var i := BindingOfKey(ports, k);
      assert Hosts(ports)[i] in Elements(Hosts(ports));
    }
  }

  lemma AddingKeepsConflictFree(cs: map<nat, Bindings>, id: nat, b: Bindings)
    requires ConflictFree(cs) && id !in cs
    requires BoundOnce(b) && PortsOf(b) !! UsedPorts(cs)
    ensures ConflictFree(cs[id := b])
  {
    forall other | other in cs
      ensures PortsOf(cs[other]) !! PortsOf(b)
    {
      assert PortsOf(cs[other]) <= UsedPorts(cs);
    }
  }

  // ---------------------------------------------------------------- create and destroy

  /** How the daemon answers one `run` call. A call that fails after the container was created leaves
      that container behind, with its bindings. */
  datatype RunOutcome = Started | PortTaken(leftover: bool) | OtherFailure(leftover: bool)

  datatype CreateError = NoFreePort | PortsStayedTaken | DaemonError

  const ATTEMPTS: nat := 5

  function AddContainer(d: Daemon, ports: seq<PortMapping>): Daemon
  {
    Daemon(d.containers[d.next := BindingsOf(ports)], d.next + 1)
  }

  function Remapped(d: Daemon, ports: seq<PortMapping>): Option<seq<PortMapping>>
  {
    match Park(UsedPorts(d.containers), Hosts(ports))
    case None => None
    case Some(hosts) => Some(WithHosts(ports, hosts))
  }

  /** The attempts that remain, with the ports of the next one already chosen. */
  function Attempts(d: Daemon, ports: seq<PortMapping>, outcomes: seq<RunOutcome>): (Daemon, Result<nat, CreateError>)
    decreases outcomes
  {
    if outcomes == [] then (d, Err(PortsStayedTaken)) else
    match outcomes[0]
    case Started => (AddContainer(d, ports), Ok(d.next))
    case OtherFailure(leftover) => (if leftover then AddContainer(d, ports) else d, Err(DaemonError))
    case PortTaken(leftover) =>
      var d' := if leftover then AddContainer(d, ports) else d;
      match Remapped(d', ports)
      case None => (d', Err(NoFreePort))
      case Some(again) => Attempts(d', again, outcomes[1..])
  }

  function Create(d: Daemon, ports: seq<PortMapping>, outcomes: seq<RunOutcome>): (Daemon, Result<nat, CreateError>)
  {
    match Remapped(d, ports)
    case None => (d, Err(NoFreePort))
    case Some(first) => Attempts(d, first, outcomes)
  }

  /** Removing a container either works or is refused by the daemon. */
  function Destroy(d: Daemon, id: nat, works: bool): Daemon
  {
    if works then d.(containers := d.containers - {id}) else d
  }

  class LabHost {
    var daemon: Daemon

    constructor ()
      ensures daemon == Daemon(map[], 0)
    {
      daemon := Daemon(map[], 0);
    }

    /** The scan over all containers, running or not. */
    method UsedHostPorts() returns (used: set<int>)
      ensures used == UsedPorts(daemon.containers)
    {
      used := {};
      var cs := daemon.containers;
      var todo := cs.Keys;
      while todo != {}
        invariant todo <= cs.Keys
        invariant used == UsedPorts(cs - todo)
        decreases todo
      {
        var id :| id in todo;
        var here := PortsOfContainer(cs[id]);
        UsedPortsStep(cs, todo, id);
        used := used + here;
        todo := todo - {id};
      }
      assert cs - {} == cs;
    }

    static method PortsOfContainer(b: Bindings) returns (used: set<int>)
      ensures used == PortsOf(b)
    {
      used := {};
      var todo := b.Keys;
      while todo != {}
        invariant todo <= b.Keys
        invariant used == set key, p | key in b && key !in todo && p in PortsOfList(b[key]) :: p
        decreases todo
      {
        var key :| key in todo;
        var i := 0;
        ghost var before := used;
        while i < |b[key]|
          invariant 0 <= i <= |b[key]|
          invariant used == before + PortsOfList(b[key][..i])
        {
          assert b[key][..i + 1] == b[key][..i] + [b[key][i]];
          PortsOfListStep(b[key][..i], b[key][i]);
          if IsDigits(b[key][i]) {
            used := used + {ParseNat(b[key][i])};
          }
          i := i + 1;
        }
        assert b[key][..i] == b[key];
        todo := todo - {key};
      }
    }

    /** The first remap, then at most five attempts, each failed one followed by another remap of the
        ports it used. `outcomes` are the daemon's answers, one for every attempt that may happen. */
    method CreateContainer(ports: seq<PortMapping>, outcomes: seq<RunOutcome>) returns (r: Result<nat, CreateError>)
      requires |outcomes| == ATTEMPTS
      modifies this
      ensures (daemon, r) == Create(old(daemon), ports, outcomes)
    {
      var used := UsedHostPorts();
      var effective, table := RemapRequestedPorts(ports, used);
      if effective.None? {
        return Err(NoFreePort);
      }
      var attempt := 0;
      while attempt < ATTEMPTS
        invariant 0 <= attempt <= ATTEMPTS
        invariant effective.Some?
        invariant Create(old(daemon), ports, outcomes) == Attempts(daemon, effective.value, outcomes[attempt..])
      {
        var outcome := outcomes[attempt];
        assert outcomes[attempt..][0] == outcome && outcomes[attempt..][1..] == outcomes[attempt + 1..];
        match outcome
        case Started =>
          r := Ok(daemon.next);
          daemon := AddContainer(daemon, effective.value);
          return;
        case OtherFailure(leftover) =>
          if leftover { daemon := AddContainer(daemon, effective.value); }
          return Err(DaemonError);
        case PortTaken(leftover) =>
          if leftover { daemon := AddContainer(daemon, effective.value); }
          used := UsedHostPorts();
          effective, table := RemapRequestedPorts(effective.value, used);
          if effective.None? {
            return Err(NoFreePort);
          }
          attempt := attempt + 1;
      }
      return Err(PortsStayedTaken);
    }

    /** Removing a container gives back its host ports and no others. */
    method DestroyContainer(id: nat, works: bool)
      modifies this
      ensures daemon == Destroy(old(daemon), id, works)
      ensures daemon == if works then Daemon(old(daemon).containers - {id}, old(daemon).next) else old(daemon)
      ensures !works || id !in old(daemon).containers ==>
        UsedPorts(daemon.containers) == UsedPorts(old(daemon).containers)
      ensures works && id in old(daemon).containers && ConflictFree(old(daemon).containers) ==>
        UsedPorts(daemon.containers) == UsedPorts(old(daemon).containers) - PortsOf(old(daemon).containers[id])
    {
      if works {
        if id in daemon.containers && ConflictFree(daemon.containers) { DestroyFreesItsPorts(daemon.containers, id); }
        if id !in daemon.containers { assert daemon.containers - {id} == daemon.containers; }
        daemon := daemon.(containers := daemon.containers - {id});
      }
    }
  }

  lemma DestroyFreesItsPorts(cs: map<nat, Bindings>, id: nat)
    requires ConflictFree(cs) && id in cs
    ensures UsedPorts(cs - {id}) == UsedPorts(cs) - PortsOf(cs[id])
  {
    var rest := cs - {id};
    forall p ensures p in UsedPorts(rest) <==> p in UsedPorts(cs) && p !in PortsOf(cs[id]) {
      if p in UsedPorts(cs) && p !in PortsOf(cs[id]) {
        var k :| k in cs && p in PortsOf(cs[k]);
        assert k in rest;
      }
      if p in UsedPorts(rest) {
        var k :| k in rest && p in PortsOf(rest[k]);
        assert k != id && PortsOf(cs[k]) !! PortsOf(cs[id]);
      }
    }
  }

  /** Creating and then destroying a container leaves the used ports as they were. */
  lemma DestroyUndoesCreate(d: Daemon, ports: seq<PortMapping>)
    requires Healthy(d) && ReadyToBind(d, ports)
    ensures UsedPorts(Destroy(AddContainer(d, ports), d.next, true).containers) == UsedPorts(d.containers)
  {
    AddKeepsHealthy(d, ports);
    assert AddContainer(d, ports).containers - {d.next} == d.containers;
  }

  lemma UsedPortsStep(cs: map<nat, Bindings>, todo: set<nat>, id: nat)
    requires id in todo && todo <= cs.Keys
    ensures UsedPorts(cs - (todo - {id})) == UsedPorts(cs - todo) + PortsOf(cs[id])
  {
    var before, after := cs - todo, cs - (todo - {id});
    assert after.Keys == before.Keys + {id};
    assert forall k :: k in before ==> after[k] == before[k];
    forall p ensures p in UsedPorts(after) <==> p in UsedPorts(before) || p in PortsOf(cs[id]) {
      if p in UsedPorts(before) {
        var k :| k in before && p in PortsOf(before[k]);
        assert k in after && p in PortsOf(after[k]);
      }
      if p in PortsOf(cs[id]) {
        assert id in after && p in PortsOf(after[id]);
      }
    }
  }

  lemma PortsOfListStep(texts: seq<string>, text: string)
    ensures PortsOfList(texts + [text]) == PortsOfList(texts) + (if IsDigits(text) then {ParseNat(text)} else {})
  {
    var all := texts + [text];
    assert all[|texts|] == text;
    assert forall i :: 0 <= i < |texts| ==> all[i] == texts[i];
    forall p | p in PortsOfList(texts) ensures p in PortsOfList(all) {
      var i :| 0 <= i < |texts| && PortOf(texts[i]) == Some(p);
      assert PortOf(all[i]) == Some(p);
    }
  }

  // ---------------------------------------------------------------- every run

  datatype Op =
    | CreateOp(ports: seq<PortMapping>, outcomes: seq<RunOutcome>)
    | DestroyOp(id: nat, works: bool)

  /** Host ports of requests are legal, as the request validator ensures. */
  predicate Legal(op: Op)
  {
    op.CreateOp? ==> InRange(Hosts(op.ports))
  }

  function Step(d: Daemon, op: Op): Daemon
  {
    match op
    case CreateOp(ports, outcomes) => Create(d, ports, outcomes).0
    case DestroyOp(id, works) => Destroy(d, id, works)
  }

  function Run(d: Daemon, ops: seq<Op>): Daemon
    decreases ops
  {
    if ops == [] then d else Run(Step(d, ops[0]), ops[1..])
  }

  predicate Healthy(d: Daemon)
  {
    Fresh(d) && ConflictFree(d.containers)
  }

  /** The ports a remap chooses are fit to be bound. */
  predicate ReadyToBind(d: Daemon, ports: seq<PortMapping>)
  {
    Distinct(Hosts(ports)) && InRange(Hosts(ports)) && Elements(Hosts(ports)) !! UsedPorts(d.containers)
  }

  lemma RemapMakesReady(d: Daemon, ports: seq<PortMapping>)
    requires InRange(Hosts(ports)) && Remapped(d, ports).Some?
    ensures ReadyToBind(d, Remapped(d, ports).value)
  {
    var used := UsedPorts(d.containers);
    ParkIsInjective(used, Hosts(ports));
    ParkStaysInRange(used, Hosts(ports));
  }

  lemma AddKeepsHealthy(d: Daemon, ports: seq<PortMapping>)
    requires Healthy(d) && ReadyToBind(d, ports)
    ensures Healthy(AddContainer(d, ports))
  {
    NewBindings(UsedPorts(d.containers), ports);
    AddingKeepsConflictFree(d.containers, d.next, BindingsOf(ports));
  }

  lemma {:induction false} AttemptsKeepHealthy(d: Daemon, ports: seq<PortMapping>, outcomes: seq<RunOutcome>)
    requires Healthy(d) && ReadyToBind(d, ports)
    ensures Healthy(Attempts(d, ports, outcomes).0)
    decreases outcomes
  {
    if outcomes != [] {
      AddKeepsHealthy(d, ports);
      if outcomes[0].PortTaken? {
        var d' := if outcomes[0].leftover then AddContainer(d, ports) else d;
        if Remapped(d', ports).Some? {
          RemapMakesReady(d', ports);
          AttemptsKeepHealthy(d', Remapped(d', ports).value, outcomes[1..]);
        }
      }
    }
  }

  lemma StepKeepsHealthy(d: Daemon, op: Op)
    requires Healthy(d) && Legal(op)
    ensures Healthy(Step(d, op))
  {
    if op.CreateOp? && Remapped(d, op.ports).Some? {
      RemapMakesReady(d, op.ports);
      AttemptsKeepHealthy(d, Remapped(d, op.ports).value, op.outcomes);
    }
  }

  /** Safety: over every run of creations, with any daemon answers and retries, and removals, no host
      port is bound twice, within a container or across containers. */
  lemma {:induction false} RunsKeepPortsExclusive(d: Daemon, ops: seq<Op>)
    requires Healthy(d) && forall i :: 0 <= i < |ops| ==> Legal(ops[i])
    ensures Healthy(Run(d, ops))
    decreases ops
  {
    if ops != [] {
      StepKeepsHealthy(d, ops[0]);
      RunsKeepPortsExclusive(Step(d, ops[0]), ops[1..]);
    }
  }

  /** A container that was started publishes, for every container port and protocol requested, a host
      port at or above the one of the last request for it, under its number and protocol. */
  lemma {:induction false} StartedContainerIsPublished(d: Daemon, ports: seq<PortMapping>, outcomes: seq<RunOutcome>,
                                                       i: nat)
    requires Fresh(d) && InRange(Hosts(ports))
    requires Create(d, ports, outcomes).1.Ok?
    requires IsLastRequest(ports, i) && ports[i].container >= 0
    ensures var (d', r) := Create(d, ports, outcomes);
      var key := Decimal(ports[i].container) + "/" + ports[i].protocol;
      && r.value in d'.containers && r.value !in d.containers && key in d'.containers[r.value]
      && exists p: nat :: ports[i].host <= p <= 65535 && d'.containers[r.value][key] == [Decimal(p)]
  {
    ParkStaysInRange(UsedPorts(d.containers), Hosts(ports));
    var first := Remapped(d, ports).value;
    assert Hosts(first)[i] >= Hosts(ports)[i];
    KeyIsPortAndProtocol(ports[i], ports[i]);
    LastRequestHasItsKey(ports, i);
    RemappedKeepsKeys(d, ports);
    AttemptsPublish(d, first, outcomes, i);
  }

  lemma LastRequestIsBound(ports: seq<PortMapping>, i: nat)
    requires i < |ports| && forall j :: i < j < |ports| ==> PortKey(ports[j]) != PortKey(ports[i])
    requires InRange(Hosts(ports))
    ensures 1 <= ports[i].host <= MAX_PORT
    ensures PortKey(ports[i]) in BindingsOf(ports) && BindingsOf(ports)[PortKey(ports[i])] == [Decimal(ports[i].host)]
  {
    LastItemStays(ports, PortKey, i);
    assert Hosts(ports)[i] == ports[i].host;
  }

  lemma RemappedKeepsKeys(d: Daemon, ports: seq<PortMapping>)
    requires Remapped(d, ports).Some? && InRange(Hosts(ports))
    ensures var again := Remapped(d, ports).value;
      && |again| == |ports| && InRange(Hosts(again))
      && forall i :: 0 <= i < |ports| ==> PortKey(again[i]) == PortKey(ports[i]) && again[i].host >= ports[i].host
  {
    ParkStaysInRange(UsedPorts(d.containers), Hosts(ports));
    var again := Remapped(d, ports).value;
    forall i | 0 <= i < |ports| ensures PortKey(again[i]) == PortKey(ports[i]) && again[i].host >= ports[i].host {
      assert Hosts(again)[i] >= Hosts(ports)[i];
    }
  }

  lemma {:induction false} AttemptsPublish(d: Daemon, ports: seq<PortMapping>, outcomes: seq<RunOutcome>, i: nat)
    requires Fresh(d) && InRange(Hosts(ports))
    requires Attempts(d, ports, outcomes).1.Ok?
    requires i < |ports| && forall j :: i < j < |ports| ==> PortKey(ports[j]) != PortKey(ports[i])
    ensures var (d', r) := Attempts(d, ports, outcomes);
      && r.value in d'.containers && r.value !in d.containers
      && PortKey(ports[i]) in d'.containers[r.value]
      && exists p: nat :: ports[i].host <= p <= MAX_PORT && d'.containers[r.value][PortKey(ports[i])] == [Decimal(p)]
    decreases outcomes
  {
    match outcomes[0]
    case Started =>
      LastRequestIsBound(ports, i);
    case PortTaken(leftover) =>
      var d' := if leftover then AddContainer(d, ports) else d;
      RemappedKeepsKeys(d', ports);
      AttemptsPublish(d', Remapped(d', ports).value, outcomes[1..], i);
    case OtherFailure(_) =>
  }
}

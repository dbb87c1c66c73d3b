/** What a run does to the use of a host, exactly, and when it stays within the host's totals. */
module HostTotals {
  import opened Wrappers
  import opened Tables
  import opened DeployRuns

  // ---------------------------------------------------------------- exact use after a step

  lemma {:induction false} HeldOnHostAfterDelete(labs: seq<Lab>, rows: seq<Row>, id: RowId, other: RowId, r: Resource,
                                                 host: int)
    ensures HeldOnHost(labs, Without(rows, id), other, r, host) ==
            if other == id then 0.0 else HeldOnHost(labs, rows, other, r, host)
    decreases labs
  {
    if labs != [] {
      HeldAfterDelete(rows, id, other, r, labs[0].id);
      HeldOnHostAfterDelete(labs[1..], rows, id, other, r, host);
    }
  }

  /** What the rows that a commit takes over or replaces take from a host. */
  function Freed(labs: seq<Lab>, rows: seq<Row>, d: Deploy, runtimeId: string, r: Resource, host: int): real
  {
    var replaced := match d.replaced case None => 0.0 case Some(id) => HeldOnHost(labs, rows, id, r, host);
    match Taken(rows, d, runtimeId)
    case None => replaced
    case Some(id) => HeldOnHost(labs, rows, id, r, host) + if d.replaced == Some(id) then 0.0 else replaced
  }

  lemma DropTwo(labs: seq<Lab>, rows: seq<Row>, a: RowId, b: RowId, r: Resource, host: int)
    ensures HostUse(labs, Without(Without(rows, a), b), r, host) ==
            HostUse(labs, rows, r, host) - HeldOnHost(labs, rows, a, r, host) -
            (if a == b then 0.0 else HeldOnHost(labs, rows, b, r, host))
  {
    HostUseWithoutRow(labs, rows, a, r, host);
    HostUseWithoutRow(labs, Without(rows, a), b, r, host);
    HeldOnHostAfterDelete(labs, rows, a, b, r, host);
  }

  lemma KeptUse(labs: seq<Lab>, rows: seq<Row>, d: Deploy, runtimeId: string, r: Resource, host: int)
    ensures HostUse(labs, Kept(rows, d, runtimeId), r, host) ==
            HostUse(labs, rows, r, host) - Freed(labs, rows, d, runtimeId, r, host)
  {
    match (Taken(rows, d, runtimeId), d.replaced)
    case (None, None) =>
    case (None, Some(id)) => DropTwo(labs, rows, id, id, r, host);
    case (Some(id), None) => HostUseWithoutRow(labs, rows, id, r, host);
    case (Some(a), Some(b)) => DropTwo(labs, rows, a, b, r, host);
  }

  /** The use of the deployment's host after its commit. */
  function UseAfterCommit(s: State, host: int, runtimeId: string, r: Resource): real
    requires host in s.inFlight
  {
    var d := s.inFlight[host];
    HostUse(s.db.labs, s.db.rows, r, host) - Freed(s.db.labs, s.db.rows, d, runtimeId, r, host) +
      Charge(d.cpu, d.mem, r)
  }

  /** A commit that writes changes the use of its host to exactly this, whatever has been deleted since
      the check, and raises the use of no other host. */
  lemma CommitHostUseIsExact(s: State, host: int, name: string, runtimeId: string, r: Resource, other: int)
    requires IdsInSequence(s) && host in s.inFlight && Writes(s.db.labs, s.db.rows, s.inFlight[host], runtimeId)
    ensures var s' := Commit(s, host, name, runtimeId);
      && HostUse(s'.db.labs, s'.db.rows, r, host) == UseAfterCommit(s, host, runtimeId, r)
      && (other != host ==> HostUse(s'.db.labs, s'.db.rows, r, other) <= HostUse(s.db.labs, s.db.rows, r, other))
  {
    var d := s.inFlight[host];
    var row := CommitAddsOneRow(s.db.labs, s.db.rows, d, s.next, name, runtimeId);
    var kept := Kept(s.db.rows, d, runtimeId);
    LabsAndHosts(s, host);
    KeptUse(s.db.labs, s.db.rows, d, runtimeId, r, host);
    HostUseWithRow(s.db.labs, kept, row, r, host);
    HostUseWithRow(s.db.labs, kept, row, r, other);
    KeptIsDeletionsOnHost(s.db.labs, s.db.rows, d, runtimeId, d, r, other);
  }

  /** Deleting a lab frees exactly what it used, on its own host. */
  lemma {:induction false} DeletedLabFreesItsUse(labs: seq<Lab>, rows: seq<Row>, l: Lab, r: Resource, host: int)
    requires UniqueLabIds(labs) && l in labs
    ensures HostUse(WithoutLab(labs, l.id), WithoutLabRows(rows, l.id), r, host) ==
            HostUse(labs, rows, r, host) - (if l.host == host then LabUse(rows, r, l.id) else 0.0)
    ensures LabUse(WithoutLabRows(rows, l.id), r, l.id) == 0.0
    decreases labs
  {
    NoRowsNoUse(WithoutLabRows(rows, l.id), r, Environment, l.id);
    NoRowsNoUse(WithoutLabRows(rows, l.id), r, Project, l.id);
    var rest := WithoutLab(labs[1..], l.id);
    if labs[0].id == l.id {
      assert l == labs[0] && WithoutLab(labs, l.id) == rest;
      OtherLabsKeepTheirUse(labs[1..], rows, l.id, r, host);
    } else {
      assert WithoutLab(labs, l.id) == [labs[0]] + rest && ([labs[0]] + rest)[1..] == rest;
      DeletedLabFreesItsUse(labs[1..], rows, l, r, host);
      LabUseWithoutOtherLab(rows, l.id, r, labs[0].id);
    }
  }

  lemma {:induction false} OtherLabsKeepTheirUse(labs: seq<Lab>, rows: seq<Row>, gone: int, r: Resource, host: int)
    requires forall k :: k in labs ==> k.id != gone
    ensures HostUse(WithoutLab(labs, gone), WithoutLabRows(rows, gone), r, host) == HostUse(labs, rows, r, host)
    decreases labs
  {
    if labs != [] {
      var rest := WithoutLab(labs[1..], gone);
      assert WithoutLab(labs, gone) == [labs[0]] + rest && ([labs[0]] + rest)[1..] == rest;
      OtherLabsKeepTheirUse(labs[1..], rows, gone, r, host);
      LabUseWithoutOtherLab(rows, gone, r, labs[0].id);
    }
  }

  // ---------------------------------------------------------------- within the totals

  /** What is allocated on a bounded host is within its totals. */
  predicate Within(s: State, id: int, h: Host, r: Resource)
  {
    Unbounded(h) || WithinHost(h, r, HostUse(s.db.labs, s.db.rows, r, id))
  }

  predicate AllWithin(s: State)
  {
    forall id, r :: id in s.db.hosts ==> Within(s, id, s.db.hosts[id], r)
  }

  /** What must be so before a step for the totals to be kept: a registration leaves room for what is
      allocated, and a commit that writes still has the room that its check has seen. */
  predicate HasRoom(s: State, e: Event)
  {
    match e
    case RegisterEvent(host, row) => Within(s, host, row, Cpu) && Within(s, host, row, Memory)
    case CommitEvent(host, _, runtimeId) =>
      host in s.inFlight && host in s.db.hosts && !Unbounded(s.db.hosts[host]) &&
      Writes(s.db.labs, s.db.rows, s.inFlight[host], runtimeId) ==>
        && WithinHost(s.db.hosts[host], Cpu, UseAfterCommit(s, host, runtimeId, Cpu))
        && WithinHost(s.db.hosts[host], Memory, UseAfterCommit(s, host, runtimeId, Memory))
    case _ => true
  }

  lemma RegisterWithin(s: State, id: int, h: Host)
    requires AllWithin(s)
    ensures AllWithin(Register(s, id, h)) <==> HasRoom(s, RegisterEvent(id, h))
  {
    var s' := Register(s, id, h);
    if AllWithin(s') {
      assert id in s'.db.hosts && s'.db.hosts[id] == h;
      assert Within(s', id, h, Cpu) && Within(s', id, h, Memory);
    }
    if HasRoom(s, RegisterEvent(id, h)) {
      forall k, r | k in s'.db.hosts ensures Within(s', k, s'.db.hosts[k], r) {
        if k != id { assert Within(s, k, s.db.hosts[k], r); }
      }
    }
  }

  lemma CommitWithin(s: State, host: int, name: string, runtimeId: string)
    requires IdsInSequence(s) && AllWithin(s)
    ensures AllWithin(Commit(s, host, name, runtimeId)) <==> HasRoom(s, CommitEvent(host, name, runtimeId))
  {
    var s' := Commit(s, host, name, runtimeId);
    if host in s.inFlight && Writes(s.db.labs, s.db.rows, s.inFlight[host], runtimeId) {
      forall k, r | k in s.db.hosts && k != host ensures Within(s', k, s.db.hosts[k], r) {
        assert Within(s, k, s.db.hosts[k], r);
        CommitHostUseIsExact(s, host, name, runtimeId, r, k);
      }
      forall r ensures HostUse(s'.db.labs, s'.db.rows, r, host) == UseAfterCommit(s, host, runtimeId, r) {
        CommitHostUseIsExact(s, host, name, runtimeId, r, host);
      }
      if AllWithin(s') && host in s.db.hosts {
        assert Within(s', host, s'.db.hosts[host], Cpu) && Within(s', host, s'.db.hosts[host], Memory);
      }
    } else {
      forall k, r | k in s.db.hosts ensures Within(s', k, s.db.hosts[k], r) {
        assert Within(s, k, s.db.hosts[k], r);
        assert s'.db.rows == s.db.rows;
      }
    }
  }

  lemma DeleteRowWithin(s: State, id: RowId)
    requires AllWithin(s)
    ensures AllWithin(DeleteRow(s, id))
  {
    var s' := DeleteRow(s, id);
    forall k, r | k in s'.db.hosts ensures Within(s', k, s'.db.hosts[k], r) {
      assert Within(s, k, s.db.hosts[k], r);
      HostUseWithoutRow(s.db.labs, s.db.rows, id, r, k);
      HeldOnHostIsNonNegative(s.db.labs, s.db.rows, id, r, k);
    }
  }

  lemma DeleteLabWithin(s: State, lab: int)
    requires AllWithin(s)
    ensures AllWithin(DeleteLab(s, lab)) && DeleteLab(s, lab).db.hosts == s.db.hosts
  {
    var s' := DeleteLab(s, lab);
    forall k, r | k in s'.db.hosts ensures Within(s', k, s'.db.hosts[k], r) {
      assert Within(s, k, s.db.hosts[k], r);
      HostUseWithoutLab(s.db.labs, s.db.rows, lab, r, k);
    }
  }

  lemma {:induction false} DeleteLabsWithin(s: State, labs: seq<Lab>)
    requires AllWithin(s)
    ensures AllWithin(DeleteLabs(s, labs)) && DeleteLabs(s, labs).db.hosts == s.db.hosts
    decreases labs
  {
    if labs != [] {
      DeleteLabWithin(s, labs[0].id);
      DeleteLabsWithin(DeleteLab(s, labs[0].id), labs[1..]);
    }
  }

  lemma DeleteHostWithin(s: State, host: int)
    requires AllWithin(s)
    ensures AllWithin(DeleteHost(s, host))
  {
    var gone := Keep(s.db.labs, (l: Lab) => l.host == host);
    var mid, s' := DeleteLabs(s, gone), DeleteHost(s, host);
    DeleteLabsWithin(s, gone);
    forall k, r | k in s'.db.hosts ensures Within(s', k, s'.db.hosts[k], r) {
      assert Within(mid, k, mid.db.hosts[k], r);
    }
  }

  lemma CreateLabWithin(s: State, host: int, cpu: Option<nat>, mem: Option<nat>, status: LabStatus)
    requires IdsInSequence(s) && AllWithin(s)
    ensures AllWithin(CreateLab(s, host, cpu, mem, status))
  {
    var s' := CreateLab(s, host, cpu, mem, status);
    if s' != s {
      var l := s'.db.labs[|s.db.labs|];
      assert s'.db.labs == s.db.labs + [l];
      forall k, r | k in s'.db.hosts ensures Within(s', k, s'.db.hosts[k], r) {
        assert Within(s, k, s.db.hosts[k], r);
        NoRowsNoUse(s.db.rows, r, Environment, l.id);
        NoRowsNoUse(s.db.rows, r, Project, l.id);
        HostUseWithLab(s.db.labs, s.db.rows, l, r, k);
      }
    }
  }

  /** One step keeps what is allocated within all totals exactly when it has room. */
  lemma StepWithin(s: State, e: Event)
    requires IdsInSequence(s) && AllWithin(s)
    ensures AllWithin(Step(s, e)) <==> HasRoom(s, e)
  {
    match e
    case RegisterEvent(host, row) => RegisterWithin(s, host, row);
    case CreateLabEvent(host, cpu, mem, status) => CreateLabWithin(s, host, cpu, mem, status);
    case BeginEvent(lab, kind, name, cpu, mem) => SameUseWithin(s, Begin(s, lab, kind, name, cpu, mem));
    case CommitEvent(host, name, runtimeId) => CommitWithin(s, host, name, runtimeId);
    case AbandonEvent(host) => SameUseWithin(s, Abandon(s, host));
    case DeleteRowEvent(id) => DeleteRowWithin(s, id);
    case DeleteLabEvent(lab) => DeleteLabWithin(s, lab);
    case DeleteHostEvent(host) => DeleteHostWithin(s, host);
  }

  lemma SameUseWithin(s: State, s': State)
    requires AllWithin(s) && s'.db == s.db
    ensures AllWithin(s')
  {
    forall k, r | k in s'.db.hosts ensures Within(s', k, s'.db.hosts[k], r) {
      assert Within(s, k, s.db.hosts[k], r);
    }
  }

  predicate WithinThroughout(s: State, events: seq<Event>)
    decreases events
  {
    AllWithin(s) && (events == [] || WithinThroughout(Step(s, events[0]), events[1..]))
  }

  predicate HasRoomThroughout(s: State, events: seq<Event>)
    decreases events
  {
    events == [] || (HasRoom(s, events[0]) && HasRoomThroughout(Step(s, events[0]), events[1..]))
  }

  /** The totals of bounded hosts are kept throughout a run if and only if each registration in it
      leaves room for what is allocated, and each commit that writes still finds room. */
  lemma {:induction false} TotalsAreKeptExactlyWhenThereIsRoom(s: State, events: seq<Event>)
    requires IdsInSequence(s) && LabCaps(s) && AllWithin(s)
    ensures WithinThroughout(s, events) <==> HasRoomThroughout(s, events)
    decreases events
  {
    if events != [] {
      StepWithin(s, events[0]);
      StepKeepsCaps(s, events[0]);
      if AllWithin(Step(s, events[0])) {
        TotalsAreKeptExactlyWhenThereIsRoom(Step(s, events[0]), events[1..]);
      }
    }
  }

  // ---------------------------------------------------------------- what a shrinking registration does

  /** One lab on host 7, with the given rows, and a deployment of 60 MiB in flight. */
  function SmallState(rows: seq<Row>): State
  {
    State(Database(map[7 := Host(Online, true, 4, 100)], [Lab(0, 7, Running, None, None)], rows),
          map[7 := Deploy(0, Project, "a", None, None, Some(60))], 1)
  }

  const SHRUNK := Host(Online, true, 4, 50)

  lemma SmallUse(rows: seq<Row>, r: Resource)
    requires rows == [] || rows == [Row(RowId(Project, 1), 0, "a", "", None, Some(60))]
    ensures HostUse(SmallState(rows).db.labs, rows, r, 7) == if rows != [] && r == Memory then 60.0 else 0.0
    ensures forall id :: Held(rows, id, r, 0) >= 0.0
  {
    OnlyLab(Lab(0, 7, Running, None, None), rows, r);
    assert rows != [] ==> rows[1..] == [];
    assert SumOf(rows, r, Environment, 0) == 0.0;
    assert SumOf(rows, r, Project, 0) == if rows != [] && r == Memory then 60.0 else 0.0;
    forall id ensures Held(rows, id, r, 0) >= 0.0 { HeldIsNonNegative(rows, id, r, 0); }
  }

  /** A registration below what is allocated exceeds a total at once. */
  lemma ShrinkingBelowUseExceeds()
    ensures exists s, e :: IdsInSequence(s) && AllWithin(s) && !HasRoom(s, e) && !AllWithin(Step(s, e))
  {
    var rows := [Row(RowId(Project, 1), 0, "a", "", None, Some(60))];
    var s := State(SmallState(rows).db, map[], 2);
    forall k, r | k in s.db.hosts ensures Within(s, k, s.db.hosts[k], r) { SmallUse(rows, r); }
    SmallUse(rows, Memory);
    assert !Within(s, 7, SHRUNK, Memory);
    StepWithin(s, RegisterEvent(7, SHRUNK));
  }

  /** One below what is in flight does so only if the deployment commits: abandoned, it never does,
      although the registration has left no room for it. */
  lemma ShrinkingBelowAFlight()
    ensures var s, register := SmallState([]), RegisterEvent(7, SHRUNK);
      && IdsInSequence(s) && LabCaps(s) && HostCaps(s)
      && !LeavesRoom(s, register)
      && WithinThroughout(s, [register, AbandonEvent(7)])
      && !WithinThroughout(s, [register, CommitEvent(7, "", "")])
  {
    var s, register := SmallState([]), RegisterEvent(7, SHRUNK);
    var mid := Step(s, register);
    forall r ensures Within(s, 7, s.db.hosts[7], r) && Within(s, 7, SHRUNK, r) && HostCap(s, 7, s.db.hosts[7], r) {
      SmallUse([], r);
    }
    SmallUse([], Memory);
    forall l, r | l in s.db.labs ensures LabCap(s, l, r) { SmallUse([], r); }
    assert Projected(0.0, [], s.inFlight[7], Memory) == 60.0;
    assert !HostCap(s, 7, SHRUNK, Memory);
    var abandon, commit := [register, AbandonEvent(7)], [register, CommitEvent(7, "", "")];
    assert abandon[1..] == [AbandonEvent(7)] && [AbandonEvent(7)][1..] == [];
    assert commit[1..] == [CommitEvent(7, "", "")];
    assert mid.db.labs == s.db.labs && mid.db.rows == [] && mid.inFlight == s.inFlight && mid.db.hosts[7] == SHRUNK;
    assert UseAfterCommit(mid, 7, "", Memory) == 60.0;
    assert HasRoom(s, register) && HasRoomThroughout(mid, [AbandonEvent(7)]);
    assert Writes(mid.db.labs, [], mid.inFlight[7], "");
    assert !HasRoom(mid, CommitEvent(7, "", ""));
    TotalsAreKeptExactlyWhenThereIsRoom(s, abandon);
    TotalsAreKeptExactlyWhenThereIsRoom(s, commit);
  }
}

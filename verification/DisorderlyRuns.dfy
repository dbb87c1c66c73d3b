/** Runs in which a lab host ends up with more than its total, because a step is not orderly: a
    deployment given up after it was taken in, one taken in after it was given up, and one between the
    removal of a project and the deletion of its row. Every registration leaves room in each of them. */
module DisorderlyRuns {
  import opened Wrappers
  import opened Tables
  import opened DeployRuns
  import opened LabHostLimits
  import opened Coverage
  import M = MemoryLimits
  import P = ProjectLimits
  import X = LimitExamples

  // ---------------------------------------------------------------- a small site

  const LAB := Lab(0, 7, Running, None, None)

  function Machine(mb: nat): Host { Host(Online, true, 1, mb) }

  /** Host 7 with mb MiB and one lab, and the same limits written down and enforced. */
  predicate Small(site: Site, mb: nat, rows: seq<Row>, limits: seq<Limit>)
  {
    && site.s.db == Database(map[7 := Machine(mb)], [LAB], rows)
    && site.recorded == limits && site.enforced == limits
  }

  predicate Quiet(site: Site, mb: nat, rows: seq<Row>, limits: seq<Limit>)
  {
    Small(site, mb, rows, limits) && site.s.inFlight == map[]
  }

  predicate IsRowOf(row: Row, name: string, mb: nat)
  {
    row.id.kind == Project && row.lab == 0 && row.name == name && row.cpu.None? && row.mem == Some(mb)
  }

  function Flight(name: string, replaced: Option<RowId>, mb: nat): Deploy
  {
    Deploy(0, Project, name, replaced, None, Some(mb))
  }

  function CallOf(name: string, text: string): Call { Call(7, name, None, Some(text), Waiting, false) }

  function ReplacedBy(rows: seq<Row>): Option<RowId> { if rows == [] then None else Some(rows[0].id) }

  lemma SmallUse(rows: seq<Row>, name: string, mb: nat, r: Resource)
    requires rows == [] || (|rows| == 1 && IsRowOf(rows[0], name, mb))
    ensures HostUse([LAB], rows, r, 7) == LabUse(rows, r, 0) == if rows != [] && r == Memory then mb as real else 0.0
  {
    OnlyLab(LAB, rows, r);
    assert rows != [] ==> rows[1..] == [];
    assert SumOf(rows, r, Environment, 0) == 0.0;
    assert SumOf(rows, r, Project, 0) == if rows != [] && r == Memory then mb as real else 0.0;
  }

  lemma SmallAdmits(db: Database, mb: nat, rows: seq<Row>, name: string)
    requires db == Database(map[7 := Machine(mb)], [LAB], rows)
    requires (rows == [] || (|rows| == 1 && IsRowOf(rows[0], name, mb)))
    ensures Named(rows, Project, 0, name) == rows
    ensures Admitted(db, LAB, Machine(mb), RequestFor(Machine(mb), rows, None, Some(mb)))
  {
    KeepAll(rows, (row: Row) => row.id.kind == Project && row.lab == 0 && row.name == name);
    forall r ensures Fits(db, LAB, Machine(mb), RequestFor(Machine(mb), rows, None, Some(mb)), r) {
      SmallUse(rows, name, mb, r);
    }
    assert Fits(db, LAB, Machine(mb), RequestFor(Machine(mb), rows, None, Some(mb)), Cpu);
  }

  lemma SmallCheck(s: State, mb: nat, rows: seq<Row>, name: string)
    requires s.db == Database(map[7 := Machine(mb)], [LAB], rows) && s.inFlight == map[]
    requires rows == [] || (|rows| == 1 && IsRowOf(rows[0], name, mb))
    ensures Begin(s, 0, Project, name, None, Some(mb)) == s.(inFlight := map[7 := Flight(name, ReplacedBy(rows), mb)])
  {
    SmallAdmits(s.db, mb, rows, name);
    assert FindLab(s.db.labs, 0) == Some(LAB);
    assert s.inFlight[7 := Flight(name, ReplacedBy(rows), mb)] == map[7 := Flight(name, ReplacedBy(rows), mb)];
  }

  /** A deployment of the host's whole size is admitted while no other project takes anything. */
  lemma SmallBegin(site: Site, mb: nat, rows: seq<Row>, limits: seq<Limit>, name: string, text: string)
    returns (site': Site)
    requires Quiet(site, mb, rows, limits) && M.ToMiB(text) == Ok(mb)
    requires rows == [] || (|rows| == 1 && IsRowOf(rows[0], name, mb))
    ensures site' == SiteStep(site, BeginDeploy(0, Project, name, None, Some(text)))
    ensures site' == site.(s := site.s.(inFlight := map[7 := Flight(name, ReplacedBy(rows), mb)]),
                           calls := site.calls + [CallOf(name, text)], current := site.current[7 := |site.calls|])
  {
    SmallCheck(site.s, mb, rows, name);
    assert FindLab(site.s.db.labs, 0) == Some(LAB);
    assert M.ToOptionalMiB(Some(text)) == Ok(Some(mb));
    site' := BeginText(site, 0, Project, name, None, Some(text));
  }

  // ---------------------------------------------------------------- runs in parts

  /** The states that a run goes through. */
  predicate IsTrace(states: seq<Site>, events: seq<SiteEvent>)
  {
    |states| == |events| + 1 && forall i :: 0 <= i < |events| ==> states[i + 1] == SiteStep(states[i], events[i])
  }

  ghost predicate Leads(site: Site, events: seq<SiteEvent>, last: Site)
  {
    exists states :: IsTrace(states, events) && states[0] == site && states[|events|] == last
  }

  lemma LeadsInOne(site: Site, e: SiteEvent)
    ensures Leads(site, [e], SiteStep(site, e))
  {
    assert IsTrace([site, SiteStep(site, e)], [e]);
  }

  lemma LeadsOn(site: Site, mid: Site, last: Site, a: seq<SiteEvent>, b: seq<SiteEvent>)
    requires Leads(site, a, mid) && Leads(mid, b, last)
    ensures Leads(site, a + b, last)
  {
    var first :| IsTrace(first, a) && first[0] == site && first[|a|] == mid;
    var second :| IsTrace(second, b) && second[0] == mid && second[|b|] == last;
    var states := first + second[1..];
    forall i | 0 <= i < |a + b| ensures states[i + 1] == SiteStep(states[i], (a + b)[i]) {
      if i >= |a| {
        assert states[i] == second[i - |a|] && states[i + 1] == second[i - |a| + 1] && (a + b)[i] == b[i - |a|];
      }
    }
    assert IsTrace(states, a + b);
  }

  lemma {:induction false} LeadsIsRun(site: Site, events: seq<SiteEvent>, last: Site)
    requires Leads(site, events, last)
    ensures SiteRun(site, events) == last
    decreases events
  {
    var states :| IsTrace(states, events) && states[0] == site && states[|events|] == last;
    if events != [] {
      assert IsTrace(states[1..], events[1..]);
      LeadsIsRun(SiteStep(site, events[0]), events[1..], last);
    }
  }

  lemma StepAndRun(site: Site, mid: Site, last: Site, e: SiteEvent, b: seq<SiteEvent>)
    requires SiteStep(site, e) == mid && Leads(mid, b, last)
    ensures Leads(site, [e] + b, last)
  {
    LeadsInOne(site, e);
    LeadsOn(site, mid, last, [e], b);
  }

  lemma RunAndStep(site: Site, mid: Site, last: Site, a: seq<SiteEvent>, e: SiteEvent)
    requires Leads(site, a, mid) && SiteStep(mid, e) == last
    ensures Leads(site, a + [e], last)
  {
    LeadsInOne(mid, e);
    LeadsOn(site, mid, last, a, [e]);
  }

  // ---------------------------------------------------------------- work on a call

  function TakeIn(k: nat): seq<SiteEvent> { [LabHost(k, WriteDown)] + ([LabHost(k, Raise(1))] + [LabHost(k, Finish)]) }

  lemma PutNew(limits: seq<Limit>, r: Resource, host: int, project: string, amount: nat)
    requires forall l :: l in limits ==> l.project != project
    ensures Put(limits, r, host, project, Some(amount)) == limits + [Limit(r, host, project, amount)]
    ensures Put(limits, r, host, project, None) == limits
  {
    KeepAll(limits, (l: Limit) => !IsAt(l, r, host, project));
  }

  predicate AsksFor(c: Call, name: string, bytes: nat)
  {
    c.host == 7 && c.project == name && Asked(c, Cpu) == None && Asked(c, Memory) == Some(bytes)
  }

  lemma WritesDown(site: Site, k: nat, limits: seq<Limit>, name: string, bytes: nat) returns (site': Site)
    requires k < |site.calls| && !site.calls[k].done && site.calls[k].stage == Waiting
    requires AsksFor(site.calls[k], name, bytes)
    requires site.recorded == limits && forall l :: l in limits ==> l.project != name
    ensures site' == AfterWork(site, k, WriteDown)
    ensures site'.calls == site.calls[k := site.calls[k].(stage := Written)]
    ensures site'.recorded == limits + [Limit(Memory, 7, name, bytes)] && site'.enforced == site.enforced
    ensures site'.s == site.s && site'.current == site.current
  {
    site' := AfterWork(site, k, WriteDown);
    PutNew(limits, Cpu, 7, name, bytes);
    PutNew(limits, Memory, 7, name, bytes);
  }

  lemma RaisesOne(site: Site, k: nat, limits: seq<Limit>, name: string, bytes: nat) returns (site': Site)
    requires k < |site.calls| && !site.calls[k].done && site.calls[k].stage == Written
    requires AsksFor(site.calls[k], name, bytes)
    requires bytes > 0 && site.enforced == limits && forall l :: l in limits ==> l.project != name
    ensures site' == AfterWork(site, k, Raise(1))
    ensures site'.calls == site.calls[k := site.calls[k].(stage := Raised)]
    ensures site'.enforced == limits + [Limit(Memory, 7, name, bytes)] && site'.recorded == site.recorded
    ensures site'.s == site.s && site'.current == site.current
  {
    site' := AfterWork(site, k, Raise(1));
    PutNew(limits, Memory, 7, name, bytes);
    P.SharesConserve(bytes, 1);
  }

  /** The lab host takes a call in, whatever the control plane does meanwhile. */
  lemma TakesIn(site: Site, k: nat, limits: seq<Limit>, name: string, bytes: nat) returns (site': Site)
    requires k < |site.calls| && !site.calls[k].done && site.calls[k].stage == Waiting
    requires AsksFor(site.calls[k], name, bytes)
    requires bytes > 0 && site.recorded == site.enforced == limits && forall l :: l in limits ==> l.project != name
    ensures Leads(site, TakeIn(k), site')
    ensures site'.s == site.s && site'.current == site.current && |site'.calls| == |site.calls|
    ensures site'.recorded == site'.enforced == limits + [Limit(Memory, 7, name, bytes)]
  {
    var written := WritesDown(site, k, limits, name, bytes);
    var raised := RaisesOne(written, k, limits, name, bytes);
    site' := AfterWork(raised, k, Finish);
    LeadsInOne(raised, LabHost(k, Finish));
    StepAndRun(written, raised, site', LabHost(k, Raise(1)), [LabHost(k, Finish)]);
    StepAndRun(site, written, site', LabHost(k, WriteDown), [LabHost(k, Raise(1))] + [LabHost(k, Finish)]);
  }

  // ---------------------------------------------------------------- whole deployments

  function Check(name: string, text: string): SiteEvent { BeginDeploy(0, Project, name, None, Some(text)) }

  const COMMIT := Plain(CommitEvent(7, "", ""))

  const ABANDON := Plain(AbandonEvent(7))

  /** A deployment that is ended after the lab host has taken it in. */
  function Deployment(k: nat, name: string, text: string, end: SiteEvent): seq<SiteEvent>
  {
    [Check(name, text)] + (TakeIn(k) + [end])
  }

  /** A text that is charged as mb MiB. */
  predicate Means(text: string, mb: nat, bytes: nat)
  {
    M.ToMiB(text) == Ok(mb) && mb > 0 && M.ToBytes(text) == Ok(bytes)
  }

  lemma MeansBytes(text: string, name: string, mb: nat, bytes: nat)
    requires Means(text, mb, bytes)
    ensures AsksFor(CallOf(name, text), name, bytes) && bytes >= mb * M.MIB && bytes > 0
  {
    M.ChargedIsEnforceable(text);
    assert mb * M.MIB >= M.MIB;
  }

  lemma UntilTheEnd(site: Site, mb: nat, rows: seq<Row>, limits: seq<Limit>, name: string, text: string, bytes: nat,
                    end: SiteEvent)
    returns (before: Site)
    requires Quiet(site, mb, rows, limits) && Means(text, mb, bytes)
    requires rows == [] || (|rows| == 1 && IsRowOf(rows[0], name, mb))
    requires forall l :: l in limits ==> l.project != name
    ensures Leads(site, Deployment(|site.calls|, name, text, end), SiteStep(before, end))
    ensures Small(before, mb, rows, limits + [Limit(Memory, 7, name, bytes)])
    ensures before.s == site.s.(inFlight := map[7 := Flight(name, ReplacedBy(rows), mb)])
    ensures |before.calls| == |site.calls| + 1
  {
    var k := |site.calls|;
    var begun := SmallBegin(site, mb, rows, limits, name, text);
    MeansBytes(text, name, mb, bytes);
    before := TakesIn(begun, k, limits, name, bytes);
    var last := SiteStep(before, end);
    RunAndStep(begun, before, last, TakeIn(k), end);
    StepAndRun(site, begun, last, Check(name, text), TakeIn(k) + [end]);
  }

  lemma AbandonedDeployment(site: Site, mb: nat, limits: seq<Limit>, name: string, text: string, bytes: nat)
    returns (site': Site)
    requires Quiet(site, mb, [], limits) && Means(text, mb, bytes) && forall l :: l in limits ==> l.project != name
    ensures Leads(site, Deployment(|site.calls|, name, text, ABANDON), site')
    ensures Quiet(site', mb, [], limits + [Limit(Memory, 7, name, bytes)]) && |site'.calls| == |site.calls| + 1
  {
    var before := UntilTheEnd(site, mb, [], limits, name, text, bytes, ABANDON);
    site' := SiteStep(before, ABANDON);
    assert map[7 := Flight(name, None, mb)] - {7} == map[];
  }

  lemma CommittedDeployment(site: Site, mb: nat, rows: seq<Row>, limits: seq<Limit>, name: string, text: string,
                            bytes: nat)
    returns (site': Site, row: Row)
    requires Quiet(site, mb, rows, limits) && Means(text, mb, bytes)
    requires rows == [] || (|rows| == 1 && IsRowOf(rows[0], name, mb))
    requires forall l :: l in limits ==> l.project != name
    ensures Leads(site, Deployment(|site.calls|, name, text, COMMIT), site')
    ensures IsRowOf(row, name, mb) && (rows != [] ==> row.id == rows[0].id)
    ensures Quiet(site', mb, [row], limits + [Limit(Memory, 7, name, bytes)]) && |site'.calls| == |site.calls| + 1
  {
    var before := UntilTheEnd(site, mb, rows, limits, name, text, bytes, COMMIT);
    site' := SiteStep(before, COMMIT);
    row := SmallCommit(before.s, rows, name, mb);
  }

  lemma SmallCommit(s: State, rows: seq<Row>, name: string, mb: nat) returns (row: Row)
    requires s.db.labs == [LAB] && s.db.rows == rows && s.inFlight == map[7 := Flight(name, ReplacedBy(rows), mb)]
    requires rows == [] || (|rows| == 1 && IsRowOf(rows[0], name, mb))
    ensures IsRowOf(row, name, mb) && (rows != [] ==> row.id == rows[0].id)
    ensures var s' := Commit(s, 7, "", ""); s'.db == s.db.(rows := [row]) && s'.inFlight == map[]
  {
    var d := s.inFlight[7];
    assert s.inFlight - {7} == map[];
    if rows == [] {
      row := NewRow(d, RowId(Project, s.next), "", "");
      assert CommitRows(s.db.labs, rows, d, s.next, "", "") == [] + [row];
    } else {
      var id := rows[0].id;
      row := NewRow(d, id, "", "");
      KeepNone(rows, (q: Row) => q.id != id);
      assert HasRow(rows, id) && Without(rows, id) == [] && Without([], id) == [];
      assert CommitRows(s.db.labs, rows, d, s.next, "", "") == [] + [row];
    }
  }

  // ---------------------------------------------------------------- the runs

  function Start(mb: nat): seq<SiteEvent>
  {
    [Plain(RegisterEvent(7, Machine(mb)))] + [Plain(CreateLabEvent(7, None, None, Running))]
  }

  lemma SmallStart(mb: nat) returns (site: Site)
    ensures Leads(EMPTY_SITE, Start(mb), site) && Quiet(site, mb, [], []) && site.calls == []
  {
    var register, create := Plain(RegisterEvent(7, Machine(mb))), Plain(CreateLabEvent(7, None, None, Running));
    var mid := SiteStep(EMPTY_SITE, register);
    assert mid.s == State(Database(map[7 := Machine(mb)], [], []), map[], 0);
    assert CanHostLab(mid.s.db, 7, Machine(mb), None, None);
    site := SiteStep(mid, create);
    assert [] + [LAB] == [LAB];
    LeadsInOne(mid, create);
    StepAndRun(EMPTY_SITE, mid, site, register, [create]);
  }

  predicate RegistersNothing(events: seq<SiteEvent>)
  {
    forall e :: e in events && e.Plain? ==> !e.e.RegisterEvent?
  }

  lemma {:induction false} NoRegistrationLeavesRoom(site: Site, events: seq<SiteEvent>)
    requires RegistersNothing(events)
    ensures LeavesRoomThroughout(site, events)
    decreases events
  {
    if events != [] { NoRegistrationLeavesRoom(SiteStep(site, events[0]), events[1..]); }
  }

  lemma StartLeavesRoom(mb: nat, rest: seq<SiteEvent>)
    requires RegistersNothing(rest)
    ensures LeavesRoomThroughout(EMPTY_SITE, Start(mb) + rest)
  {
    var register, create := Start(mb)[0], Start(mb)[1];
    var events := Start(mb) + rest;
    assert events[0] == register && events[1..] == [create] + rest;
    NoRegistrationLeavesRoom(SiteStep(EMPTY_SITE, register), [create] + rest);
    assert LeavesRoom(EMPTY, register.e);
  }

  /** Registrations leave room, and yet host 7 ends up enforcing so many bytes on a total of mb MiB. */
  ghost predicate EndsUpWith(events: seq<SiteEvent>, mb: nat, bytes: nat)
  {
    && LeavesRoomThroughout(EMPTY_SITE, events)
    && var site := SiteRun(EMPTY_SITE, events);
    && site.s.db.hosts == map[7 := Machine(mb)]
    && SumOn(site.enforced, Memory, 7) == bytes
    && (mb > 2 ==> !StaysWithin(site.enforced, 7, Machine(mb)))
  }

  /** Such a run has a step that is not orderly. */
  lemma ExceedingIsDisorderly(events: seq<SiteEvent>, mb: nat, bytes: nat)
    requires EndsUpWith(events, mb, bytes) && mb > 2
    ensures !OrderlyThroughout(EMPTY_SITE, events) && !CoveredThroughout(EMPTY_SITE, events)
  {
    if OrderlyThroughout(EMPTY_SITE, events) { LimitsStayWithinHosts(events, 7); }
    CoveredExactlyWhenOrderly(EMPTY_SITE, events);
  }

  lemma TwoLimits(a: nat, b: nat)
    ensures var limits := [Limit(Memory, 7, "a", a), Limit(Memory, 7, "b", b)];
      SumOn(limits, Memory, 7) == a + b && CountOn(limits, Memory, 7) == 2
  {
    var first, second := Limit(Memory, 7, "a", a), Limit(Memory, 7, "b", b);
    assert [first, second][1..] == [second] && [second][1..] == [];
    assert SumOn([second], Memory, 7) == b && CountOn([second], Memory, 7) == 1;
  }

  lemma TwiceTheTotal(limits: seq<Limit>, mb: nat, bytes: nat)
    requires bytes >= mb * M.MIB && limits == [Limit(Memory, 7, "a", bytes), Limit(Memory, 7, "b", bytes)]
    ensures SumOn(limits, Memory, 7) == bytes + bytes && (mb > 2 ==> !StaysWithin(limits, 7, Machine(mb)))
  {
    TwoLimits(bytes, bytes);
    assert mb > 2 ==> (mb + 2) * M.MIB < (mb + mb) * M.MIB == mb * M.MIB + mb * M.MIB;
  }

  function Second(k: nat, text: string): seq<SiteEvent> { Deployment(k, "b", text, COMMIT) }

  /** Once host 7 holds a limit of its whole size that no row carries, a second one is admitted. */
  lemma SecondIsAdmitted(start: Site, site: Site, events: seq<SiteEvent>, mb: nat, text: string, bytes: nat)
    requires Leads(EMPTY_SITE, Start(mb), start) && Leads(start, events, site)
    requires RegistersNothing(events) && Means(text, mb, bytes) && Quiet(site, mb, [], [Limit(Memory, 7, "a", bytes)])
    ensures EndsUpWith(Start(mb) + (events + Second(|site.calls|, text)), mb, bytes + bytes)
  {
    var second, limits := Second(|site.calls|, text), [Limit(Memory, 7, "a", bytes)];
    var last, row := CommittedDeployment(site, mb, [], limits, "b", text, bytes);
    assert limits + [Limit(Memory, 7, "b", bytes)] == [Limit(Memory, 7, "a", bytes), Limit(Memory, 7, "b", bytes)];
    MeansBytes(text, "b", mb, bytes);
    LeadsOn(start, site, last, events, second);
    LeadsOn(EMPTY_SITE, start, last, Start(mb), events + second);
    SecondRegistersNothing(events, |site.calls|, text);
    StartLeavesRoom(mb, events + second);
    LastState(Start(mb) + (events + second), last, mb, bytes);
  }

  lemma SecondRegistersNothing(events: seq<SiteEvent>, k: nat, text: string)
    requires RegistersNothing(events)
    ensures RegistersNothing(events + Second(k, text))
  {
    DeploymentRegistersNothing(k, "b", text, COMMIT);
    NeitherRegisters(events, Second(k, text));
  }

  lemma LastState(events: seq<SiteEvent>, last: Site, mb: nat, bytes: nat)
    requires Leads(EMPTY_SITE, events, last) && LeavesRoomThroughout(EMPTY_SITE, events)
    requires bytes >= mb * M.MIB && last.s.db.hosts == map[7 := Machine(mb)]
    requires last.enforced == [Limit(Memory, 7, "a", bytes), Limit(Memory, 7, "b", bytes)]
    ensures EndsUpWith(events, mb, bytes + bytes)
  {
    LeadsIsRun(EMPTY_SITE, events, last);
    TwiceTheTotal(last.enforced, mb, bytes);
  }

  lemma NeitherRegisters(a: seq<SiteEvent>, b: seq<SiteEvent>)
    requires RegistersNothing(a) && RegistersNothing(b)
    ensures RegistersNothing(a + b)
  {
  }

  lemma DeploymentRegistersNothing(k: nat, name: string, text: string, end: SiteEvent)
    requires end.Plain? && !end.e.RegisterEvent?
    ensures RegistersNothing(Deployment(k, name, text, end))
  {
    NeitherRegisters(TakeIn(k), [end]);
    NeitherRegisters([Check(name, text)], TakeIn(k) + [end]);
  }

  /** A deployment that is given up after the lab host has taken it in. */
  function Abandoned(text: string): seq<SiteEvent> { Deployment(0, "a", text, ABANDON) }

  lemma AbandonedLimitsExceedTheHost(text: string, mb: nat, bytes: nat)
    requires Means(text, mb, bytes)
    ensures EndsUpWith(Start(mb) + (Abandoned(text) + Second(1, text)), mb, bytes + bytes)
  {
    var start := SmallStart(mb);
    var site := FirstIsAbandoned(start, mb, text, bytes);
    DeploymentRegistersNothing(0, "a", text, ABANDON);
    SecondIsAdmitted(start, site, Abandoned(text), mb, text, bytes);
  }

  lemma FirstIsAbandoned(site: Site, mb: nat, text: string, bytes: nat) returns (last: Site)
    requires Quiet(site, mb, [], []) && site.calls == [] && Means(text, mb, bytes)
    ensures Leads(site, Abandoned(text), last) && Quiet(last, mb, [], [Limit(Memory, 7, "a", bytes)])
    ensures |last.calls| == 1
  {
    last := AbandonedDeployment(site, mb, [], "a", text, bytes);
    assert [] + [Limit(Memory, 7, "a", bytes)] == [Limit(Memory, 7, "a", bytes)];
  }

  /** A deployment whose call times out, and that the lab host takes in afterwards. */
  function TimedOut(text: string): seq<SiteEvent> { [Check("a", text)] + ([ABANDON] + TakeIn(0)) }

  lemma TimedOutLimitsExceedTheHost(text: string, mb: nat, bytes: nat)
    requires Means(text, mb, bytes)
    ensures EndsUpWith(Start(mb) + (TimedOut(text) + Second(1, text)), mb, bytes + bytes)
  {
    var start := SmallStart(mb);
    var site := LateDeployment(start, mb, text, bytes);
    TimedOutRegistersNothing(text);
    SecondIsAdmitted(start, site, TimedOut(text), mb, text, bytes);
  }

  lemma TimedOutRegistersNothing(text: string)
    ensures RegistersNothing(TimedOut(text))
  {
    NeitherRegisters([ABANDON], TakeIn(0));
    NeitherRegisters([Check("a", text)], [ABANDON] + TakeIn(0));
  }

  lemma LateDeployment(site: Site, mb: nat, text: string, bytes: nat) returns (last: Site)
    requires Quiet(site, mb, [], []) && site.calls == [] && Means(text, mb, bytes)
    ensures Leads(site, TimedOut(text), last) && Quiet(last, mb, [], [Limit(Memory, 7, "a", bytes)])
    ensures |last.calls| == 1
  {
    MeansBytes(text, "a", mb, bytes);
    var begun := SmallBegin(site, mb, [], [], "a", text);
    var given := SiteStep(begun, ABANDON);
    assert map[7 := Flight("a", None, mb)] - {7} == map[];
    last := TakesIn(given, 0, [], "a", bytes);
    assert [] + [Limit(Memory, 7, "a", bytes)] == [Limit(Memory, 7, "a", bytes)];
    StepAndRun(begun, given, last, ABANDON, TakeIn(0));
    StepAndRun(site, begun, last, Check("a", text), [ABANDON] + TakeIn(0));
  }

  /** A project that is deployed again between its removal and the deletion of its row, which the new
      deployment has reused. */
  function Redeployed(text: string, id: RowId): seq<SiteEvent>
  {
    Deployment(0, "a", text, COMMIT) +
      ([Remove(7, "a")] + (Deployment(1, "a", text, COMMIT) + [Plain(DeleteRowEvent(id))]))
  }

  lemma RedeployedLimitsExceedTheHost(text: string, mb: nat, bytes: nat) returns (id: RowId)
    requires Means(text, mb, bytes)
    ensures EndsUpWith(Start(mb) + (Redeployed(text, id) + Second(2, text)), mb, bytes + bytes)
  {
    var start := SmallStart(mb);
    var site;
    site, id := RemovalOvertaken(start, mb, text, bytes);
    RedeployedRegistersNothing(text, id);
    SecondIsAdmitted(start, site, Redeployed(text, id), mb, text, bytes);
  }

  lemma SmallRemoval(site: Site, mb: nat, row: Row, bytes: nat) returns (site': Site)
    requires Quiet(site, mb, [row], [Limit(Memory, 7, "a", bytes)])
    ensures site' == SiteStep(site, Remove(7, "a")) && Quiet(site', mb, [row], []) && site'.calls == site.calls
  {
    KeepNone([Limit(Memory, 7, "a", bytes)], (q: Limit) => !(q.host == 7 && q.project == "a"));
    site' := SiteStep(site, Remove(7, "a"));
  }

  lemma SmallDeletion(site: Site, mb: nat, row: Row, limits: seq<Limit>) returns (site': Site)
    requires Quiet(site, mb, [row], limits)
    ensures site' == SiteStep(site, Plain(DeleteRowEvent(row.id))) && Quiet(site', mb, [], limits)
    ensures site'.calls == site.calls
  {
    KeepNone([row], (q: Row) => q.id != row.id);
    site' := SiteStep(site, Plain(DeleteRowEvent(row.id)));
  }

  lemma RedeployedRegistersNothing(text: string, id: RowId)
    ensures RegistersNothing(Redeployed(text, id))
  {
    var first, again, delete :=
      Deployment(0, "a", text, COMMIT), Deployment(1, "a", text, COMMIT), Plain(DeleteRowEvent(id));
    DeploymentRegistersNothing(0, "a", text, COMMIT);
    DeploymentRegistersNothing(1, "a", text, COMMIT);
    NeitherRegisters(again, [delete]);
    NeitherRegisters([Remove(7, "a")], again + [delete]);
    NeitherRegisters(first, [Remove(7, "a")] + (again + [delete]));
  }

  lemma DeployedAndRemoved(site: Site, mb: nat, text: string, bytes: nat)
    returns (deployed: Site, removed: Site, row: Row)
    requires Quiet(site, mb, [], []) && site.calls == [] && Means(text, mb, bytes)
    ensures Leads(site, Deployment(0, "a", text, COMMIT), deployed) && SiteStep(deployed, Remove(7, "a")) == removed
    ensures Quiet(removed, mb, [row], []) && IsRowOf(row, "a", mb) && |removed.calls| == 1
  {
    assert [] + [Limit(Memory, 7, "a", bytes)] == [Limit(Memory, 7, "a", bytes)];
    deployed, row := CommittedDeployment(site, mb, [], [], "a", text, bytes);
    removed := SmallRemoval(deployed, mb, row, bytes);
  }

  lemma RedeployedAndDeleted(site: Site, mb: nat, row: Row, text: string, bytes: nat)
    returns (redeployed: Site, last: Site)
    requires Quiet(site, mb, [row], []) && IsRowOf(row, "a", mb) && |site.calls| == 1 && Means(text, mb, bytes)
    ensures Leads(site, Deployment(1, "a", text, COMMIT), redeployed)
    ensures SiteStep(redeployed, Plain(DeleteRowEvent(row.id))) == last
    ensures Quiet(last, mb, [], [Limit(Memory, 7, "a", bytes)]) && |last.calls| == 2
  {
    assert [] + [Limit(Memory, 7, "a", bytes)] == [Limit(Memory, 7, "a", bytes)];
    var row';
    redeployed, row' := CommittedDeployment(site, mb, [row], [], "a", text, bytes);
    last := SmallDeletion(redeployed, mb, row', [Limit(Memory, 7, "a", bytes)]);
  }

  lemma RemovalOvertaken(site: Site, mb: nat, text: string, bytes: nat) returns (last: Site, id: RowId)
    requires Quiet(site, mb, [], []) && site.calls == [] && Means(text, mb, bytes)
    ensures Leads(site, Redeployed(text, id), last) && Quiet(last, mb, [], [Limit(Memory, 7, "a", bytes)])
    ensures |last.calls| == 2
  {
    var deployed, removed, row := DeployedAndRemoved(site, mb, text, bytes);
    var redeployed;
    redeployed, last := RedeployedAndDeleted(removed, mb, row, text, bytes);
    id := row.id;
    RunOfFour(site, deployed, removed, redeployed, last, Deployment(0, "a", text, COMMIT), Remove(7, "a"),
              Deployment(1, "a", text, COMMIT), Plain(DeleteRowEvent(id)));
  }

  lemma RunOfFour(site: Site, first: Site, second: Site, third: Site, last: Site,
                  a: seq<SiteEvent>, b: SiteEvent, c: seq<SiteEvent>, d: SiteEvent)
    requires Leads(site, a, first) && SiteStep(first, b) == second && Leads(second, c, third)
    requires SiteStep(third, d) == last
    ensures Leads(site, a + ([b] + (c + [d])), last)
  {
    RunAndStep(second, third, last, c, d);
    StepAndRun(first, second, last, b, c + [d]);
    LeadsOn(site, first, last, a, [b] + (c + [d]));
  }

  /** For instance with "100m" on a host of 100 MiB. */
  lemma TwoHundredOnAHundred() returns (id: RowId)
    ensures EndsUpWith(Start(100) + (Abandoned("100m") + Second(1, "100m")), 100, 200 * M.MIB)
    ensures EndsUpWith(Start(100) + (TimedOut("100m") + Second(1, "100m")), 100, 200 * M.MIB)
    ensures EndsUpWith(Start(100) + (Redeployed("100m", id) + Second(2, "100m")), 100, 200 * M.MIB)
  {
    X.HundredBytes();
    X.HundredMiB();
    AbandonedLimitsExceedTheHost("100m", 100, 100 * M.MIB);
    TimedOutLimitsExceedTheHost("100m", 100, 100 * M.MIB);
    id := RedeployedLimitsExceedTheHost("100m", 100, 100 * M.MIB);
  }
}

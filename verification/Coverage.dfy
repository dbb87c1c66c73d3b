/** When every limit that a lab host holds is accounted for by a row that carries its charge, what keeps
    that so, and what the limits then add up to. */
module Coverage {
  import opened Wrappers
  import opened Tables
  import opened DeployRuns
  import opened LabHostLimits
  import M = MemoryLimits
  import P = ProjectLimits

  // ---------------------------------------------------------------- covered limits

  /** Whether a charge accounts for a limit: memory is charged in whole MiB, rounded down. */
  predicate Pays(cpu: Option<Amount>, mem: Option<nat>, l: Limit)
  {
    match l.r
    case Cpu => cpu.Some? && l.amount as real <= cpu.value * P.CPU_PERIOD as real
    case Memory => mem.Some? && l.amount < (mem.value + 1) * M.MIB
  }

  predicate Carries(labs: seq<Lab>, row: Row, l: Limit)
  {
    row.id.kind == Project && row.name == l.project && IsOnHost(labs, row.lab, l.host) && Pays(row.cpu, row.mem, l)
  }

  predicate RowCarries(labs: seq<Lab>, rows: seq<Row>, l: Limit)
  {
    exists row :: row in rows && Carries(labs, row, l)
  }

  predicate OtherRowCarries(labs: seq<Lab>, rows: seq<Row>, l: Limit, id: Option<RowId>)
  {
    exists row :: row in rows && Some(row.id) != id && Carries(labs, row, l)
  }

  /** The deployment on a host is for the project of a limit and charged for it. */
  predicate IsFor(d: Deploy, host: int, l: Limit)
  {
    d.kind == Project && l.host == host && l.project == d.name && Pays(d.cpu, d.mem, l)
  }

  /** The lab host has at least written down what the deployment in flight there asks for. */
  predicate TakenIn(site: Site, host: int)
  {
    && host in site.current && site.current[host] < |site.calls|
    && site.calls[site.current[host]].stage != Waiting
  }

  /** A deployment that the lab host has taken in carries its limits until it ends. */
  predicate FlightCarries(site: Site, l: Limit)
  {
    && l.host in site.s.inFlight && TakenIn(site, l.host)
    && IsFor(site.s.inFlight[l.host], l.host, l) && FindLab(site.s.db.labs, site.s.inFlight[l.host].lab).Some?
  }

  predicate Carried(site: Site, l: Limit)
  {
    RowCarries(site.s.db.labs, site.s.db.rows, l) || FlightCarries(site, l)
  }

  predicate IsHeld(site: Site, l: Limit)
  {
    l in site.recorded || l in site.enforced
  }

  ghost predicate Covered(site: Site)
  {
    forall l :: IsHeld(site, l) ==> Carried(site, l)
  }

  // ---------------------------------------------------------------- orderly steps

  /** A deployment waits for this call, and its lab is there. */
  predicate IsOpen(site: Site, k: nat)
  {
    k < |site.calls| &&
    var host := site.calls[k].host;
    && host in site.current && site.current[host] == k && host in site.s.inFlight
    && FindLab(site.s.db.labs, site.s.inFlight[host].lab).Some?
  }

  predicate HeldForFlight(site: Site, host: int, l: Limit)
  {
    && IsHeld(site, l) && host in site.s.inFlight && site.s.inFlight[host].kind == Project
    && l.host == host && l.project == site.s.inFlight[host].name
  }

  /** What must be so before a step for the limits to stay covered.
      - A commit either writes its row, and then this row pays for what the lab host holds for the
        project or one does that is not replaced, or it writes nothing and rows carry it already.
      - A deployment that is given up leaves what is held for its project to rows.
      - A row is deleted only if another one, or a deployment taken in, carries the limits that it does.
      - A lab is deleted only if rows or deployments of other labs carry what its host holds.
      - A host is deleted only if it holds no limit.
      - A lab host takes in what a deployment waits for, or else what rows carry already. */
  ghost predicate Orderly(site: Site, e: SiteEvent)
  {
    var labs, rows, inFlight := site.s.db.labs, site.s.db.rows, site.s.inFlight;
    match e
    case Plain(CommitEvent(host, _, runtimeId)) =>
      forall l :: HeldForFlight(site, host, l) ==>
        if Writes(labs, rows, inFlight[host], runtimeId)
        then IsFor(inFlight[host], host, l) || OtherRowCarries(labs, rows, l, inFlight[host].replaced)
        else RowCarries(labs, rows, l)
    case Plain(AbandonEvent(host)) => forall l :: HeldForFlight(site, host, l) ==> RowCarries(labs, rows, l)
    case Plain(DeleteRowEvent(id)) =>
      forall l, row :: IsHeld(site, l) && row in rows && row.id == id && Carries(labs, row, l) ==>
        OtherRowCarries(labs, rows, l, Some(id)) || FlightCarries(site, l)
    case Plain(DeleteLabEvent(lab)) =>
      forall l :: IsHeld(site, l) && IsOnHost(labs, lab, l.host) ==>
        || (exists row :: row in rows && row.lab != lab && Carries(labs, row, l))
        || (FlightCarries(site, l) && inFlight[l.host].lab != lab)
    case Plain(DeleteHostEvent(host)) => forall l :: IsHeld(site, l) ==> l.host != host
    case LabHost(k, w) => forall l :: Adds(site, k, w, l) ==> IsOpen(site, k) || Carried(site, l)
    case _ => true
  }

  // ---------------------------------------------------------------- steps that take nothing away

  /** Where rows, labs and deployments stay, so do carriers. */
  lemma CarriersStay(site: Site, site': Site, l: Limit)
    requires Carried(site, l)
    requires site'.s.inFlight == site.s.inFlight && site'.current == site.current && site'.calls == site.calls
    requires forall row :: row in site.s.db.rows ==> row in site'.s.db.rows
    requires forall k :: k in site.s.db.labs ==> k in site'.s.db.labs
    ensures Carried(site', l)
  {
    if RowCarries(site.s.db.labs, site.s.db.rows, l) {
      var row :| row in site.s.db.rows && Carries(site.s.db.labs, row, l);
      var k :| k in site.s.db.labs && k.id == row.lab && k.host == l.host;
      assert k in site'.s.db.labs;
      assert Carries(site'.s.db.labs, row, l);
    } else {
      var k := FindLab(site.s.db.labs, site.s.inFlight[l.host].lab).value;
      assert k in site'.s.db.labs;
    }
  }

  lemma CreationKeepsCover(site: Site, e: Event)
    requires Sound(site) && Covered(site) && (e.RegisterEvent? || e.CreateLabEvent?)
    ensures Covered(SiteStep(site, Plain(e)))
  {
    var site' := SiteStep(site, Plain(e));
    forall l | IsHeld(site', l) ensures Carried(site', l) {
      assert Carried(site, l);
      CarriersStay(site, site', l);
    }
  }

  lemma StartKeepsCover(site: Site, s': State, host: int, text: Option<string>)
    requires Sound(site) && Covered(site) && host !in site.s.inFlight && host in s'.inFlight
    requires s' == site.s.(inFlight := site.s.inFlight[host := s'.inFlight[host]])
    ensures Covered(Started(site, s', host, text))
  {
    var site' := Started(site, s', host, text);
    forall l | IsHeld(site', l) ensures Carried(site', l) {
      assert IsHeld(site, l) && Carried(site, l);
      if FlightCarries(site, l) { assert site'.current[l.host] == site.current[l.host]; }
    }
  }

  lemma BeginKeepsCover(site: Site, lab: int, kind: Kind, name: string, cpu: Option<Amount>, text: Option<string>)
    requires Sound(site) && Covered(site)
    ensures Covered(BeginText(site, lab, kind, name, cpu, text))
  {
    BeginEffect(site, lab, kind, name, cpu, text);
    if BeginText(site, lab, kind, name, cpu, text) != site {
      var host := FindLab(site.s.db.labs, lab).value.host;
      StartKeepsCover(site, Begin(site.s, lab, kind, name, cpu, M.ToOptionalMiB(text).value), host, text);
    }
  }

  lemma BringUpKeepsCover(site: Site, host: int, project: string, n: nat)
    requires Sound(site) && Covered(site)
    ensures Covered(SiteStep(site, BringUp(host, project, n)))
  {
    var site' := SiteStep(site, BringUp(host, project, n));
    BringUpHolds(site, host, project, n);
    forall l | IsHeld(site', l) ensures Carried(site', l) {
      assert IsHeld(site, l) && Carried(site, l);
      CarriersStay(site, site', l);
    }
  }

  lemma LessIsCarried(site: Site, l: Limit, a: nat)
    requires a >= l.amount && Carried(site, l.(amount := a))
    ensures Carried(site, l)
  {
    var more := l.(amount := a);
    if RowCarries(site.s.db.labs, site.s.db.rows, more) {
      var row :| row in site.s.db.rows && Carries(site.s.db.labs, row, more);
      assert Carries(site.s.db.labs, row, l);
    }
  }

  lemma LoseKeepsCover(site: Site, r: Resource, host: int, project: string, left: Option<nat>)
    requires Sound(site) && Covered(site)
    ensures Covered(SiteStep(site, Lose(r, host, project, left)))
  {
    var site' := SiteStep(site, Lose(r, host, project, left));
    LessenedHolds(site.enforced, r, host, project, left);
    forall l | IsHeld(site', l) ensures Carried(site', l) {
      if !IsHeld(site, l) {
        var a :| a >= l.amount && Limit(l.r, l.host, l.project, a) in site.enforced;
        assert IsHeld(site, l.(amount := a));
        LessIsCarried(site, l, a);
      }
      CarriersStay(site, site', l);
    }
  }

  lemma RemoveKeepsCover(site: Site, host: int, project: string)
    requires Sound(site) && Covered(site)
    ensures Covered(SiteStep(site, Remove(host, project)))
  {
    var site' := SiteStep(site, Remove(host, project));
    WithoutProjectHolds(site.recorded, host, project);
    WithoutProjectHolds(site.enforced, host, project);
    forall l | IsHeld(site', l) ensures Carried(site', l) {
      assert IsHeld(site, l) && Carried(site, l);
      CarriersStay(site, site', l);
    }
  }

  // ---------------------------------------------------------------- what a lab host takes in

  lemma AskedIsPaid(calls: seq<Call>, current: map<int, nat>, host: int, d: Deploy, l: Limit)
    requires HasCall(calls, current, host, d) && d.kind == Project && l.host == host && l.project == d.name
    requires Asked(calls[current[host]], l.r) == Some(l.amount)
    ensures IsFor(d, host, l)
  {
    var c := calls[current[host]];
    match l.r
    case Cpu =>
    case Memory => if c.text.Some? { M.ChargedIsEnforceable(c.text.value); }
  }

  /** Working on a call never makes a carrier go, and makes one of the deployment that waits for it. */
  lemma CarriedAfterWork(site: Site, k: nat, w: Work, l: Limit)
    requires Sound(site)
    ensures Carried(site, l) ==> Carried(AfterWork(site, k, w), l)
    ensures Adds(site, k, w, l) && IsOpen(site, k) ==> Carried(AfterWork(site, k, w), l)
    ensures Adds(site, k, w, l) && !IsOpen(site, k) && Carried(AfterWork(site, k, w), l) ==> Carried(site, l)
  {
    var site' := AfterWork(site, k, w);
    if Adds(site, k, w, l) && IsOpen(site, k) {
      assert TakenIn(site', l.host);
      AskedIsPaid(site.calls, site.current, l.host, site.s.inFlight[l.host], l);
    }
  }

  /** What a lab host takes in is carried by the deployment that waits for it, if one still does and its
      lab is there. Taken in late, it must be carried by others already. */
  lemma WorkKeepsCover(site: Site, k: nat, w: Work)
    requires Sound(site) && Covered(site)
    ensures Covered(AfterWork(site, k, w)) <==> Orderly(site, LabHost(k, w))
  {
    var site' := AfterWork(site, k, w);
    AfterWorkHolds(site, k, w);
    if Orderly(site, LabHost(k, w)) {
      forall l | IsHeld(site', l) ensures Carried(site', l) {
        CarriedAfterWork(site, k, w, l);
        if !Adds(site, k, w, l) { assert IsHeld(site, l); }
      }
    }
    if Covered(site') {
      forall l | Adds(site, k, w, l) && !IsOpen(site, k) ensures Carried(site, l) {
        assert IsHeld(site', l);
        CarriedAfterWork(site, k, w, l);
      }
    }
  }

  // ---------------------------------------------------------------- ends of deployments

  lemma CarrierIsNotReplaced(site: Site, host: int, carrier: Row, l: Limit)
    requires Sound(site) && host in site.s.inFlight && carrier in site.s.db.rows && Carries(site.s.db.labs, carrier, l)
    requires var d := site.s.inFlight[host]; !(d.kind == Project && l.host == host && l.project == d.name)
    ensures site.s.inFlight[host].replaced != Some(carrier.id)
  {
    var k :| k in site.s.db.labs && k.id == carrier.lab && k.host == l.host;
    assert KnowsReplaced(site.s.db.rows, site.s.next, site.s.inFlight[host]);
  }

  /** Which limits rows carry after a commit that writes: those that its own row pays for, and those that
      rows carry which it does not replace. */
  lemma RowsAfterCommit(site: Site, host: int, name: string, runtimeId: string, l: Limit)
    requires Sound(site) && host in site.s.inFlight
    requires Writes(site.s.db.labs, site.s.db.rows, site.s.inFlight[host], runtimeId)
    ensures RowCarries(site.s.db.labs, Commit(site.s, host, name, runtimeId).db.rows, l) <==>
      || IsFor(site.s.inFlight[host], host, l)
      || OtherRowCarries(site.s.db.labs, site.s.db.rows, l, site.s.inFlight[host].replaced)
  {
    var s, d := site.s, site.s.inFlight[host];
    var rows' := Commit(s, host, name, runtimeId).db.rows;
    var row := CommitIsRecorded(s, host, name, runtimeId);
    TakenIsEnvironment(s.db.rows, d, runtimeId);
    LabsAndHosts(s, host);
    KindOfNewRow(s, host, row, runtimeId);
    assert row in rows' && (Carries(s.db.labs, row, l) <==> IsFor(d, host, l)) by {
      LabIsOnOneHost(s.db.labs, d.lab, host, l.host);
    }
    if OtherRowCarries(s.db.labs, s.db.rows, l, d.replaced) {
      var carrier :| carrier in s.db.rows && Some(carrier.id) != d.replaced && Carries(s.db.labs, carrier, l);
      assert carrier in rows';
    }
    if RowCarries(s.db.labs, rows', l) && !IsFor(d, host, l) {
      var carrier :| carrier in rows' && Carries(s.db.labs, carrier, l);
      assert carrier != row && carrier in s.db.rows && Some(carrier.id) != d.replaced;
    }
  }

  lemma KindOfNewRow(s: State, host: int, row: Row, runtimeId: string)
    requires host in s.inFlight && KnowsReplaced(s.db.rows, s.next, s.inFlight[host])
    requires row.id == (match Taken(s.db.rows, s.inFlight[host], runtimeId) case Some(id) => id case None =>
                        match s.inFlight[host].replaced case Some(id) => id case None =>
                        RowId(s.inFlight[host].kind, s.next))
    ensures row.id.kind == s.inFlight[host].kind
  {
    TakenIsEnvironment(s.db.rows, s.inFlight[host], runtimeId);
  }

  lemma LabIsOnOneHost(labs: seq<Lab>, lab: int, host: int, other: int)
    requires UniqueLabIds(labs) && IsOnHost(labs, lab, host)
    ensures IsOnHost(labs, lab, other) <==> other == host
  {
    var k :| k in labs && k.id == lab && k.host == host;
    UniqueMeansSame(labs, k);
  }

  /** What only rows can carry once a deployment has ended. */
  lemma AfterTheEnd(site: Site, s': State, host: int, l: Limit)
    requires Sound(site) && s'.inFlight == site.s.inFlight - {host} && s'.db.labs == site.s.db.labs
    ensures IsHeld(Ended(site, s', host), l) <==> IsHeld(site, l)
    ensures FlightCarries(Ended(site, s', host), l) <==> l.host != host && FlightCarries(site, l)
  {
  }

  lemma CommitKeepsCover(site: Site, host: int, name: string, runtimeId: string)
    requires Sound(site) && Covered(site)
    ensures var e := Plain(CommitEvent(host, name, runtimeId)); Covered(SiteStep(site, e)) <==> Orderly(site, e)
  {
    var e := Plain(CommitEvent(host, name, runtimeId));
    var site', labs, rows := SiteStep(site, e), site.s.db.labs, site.s.db.rows;
    forall l ensures IsHeld(site', l) <==> IsHeld(site, l) { }
    if host in site.s.inFlight {
      var d := site.s.inFlight[host];
      forall l | IsHeld(site, l) ensures Carried(site', l) <==>
        (HeldForFlight(site, host, l) ==>
          if Writes(labs, rows, d, runtimeId) then IsFor(d, host, l) || OtherRowCarries(labs, rows, l, d.replaced)
          else RowCarries(labs, rows, l))
      {
        assert Carried(site, l);
        AfterTheEnd(site, site'.s, host, l);
        OneCommit(site, host, name, runtimeId, l);
      }
    } else {
      forall l | IsHeld(site, l) ensures Carried(site', l) {
        assert Carried(site, l) && host !in site.current;
      }
    }
  }

  /** One limit over one commit. */
  lemma OneCommit(site: Site, host: int, name: string, runtimeId: string, l: Limit)
    requires Sound(site) && host in site.s.inFlight && Carried(site, l)
    ensures var labs, rows, rows' := site.s.db.labs, site.s.db.rows, Commit(site.s, host, name, runtimeId).db.rows;
      var d := site.s.inFlight[host];
      if d.kind == Project && l.host == host && l.project == d.name
      then RowCarries(labs, rows', l) <==>
             if Writes(labs, rows, d, runtimeId) then IsFor(d, host, l) || OtherRowCarries(labs, rows, l, d.replaced)
             else RowCarries(labs, rows, l)
      else RowCarries(labs, rows', l) || (l.host != host && FlightCarries(site, l))
  {
    var s, d := site.s, site.s.inFlight[host];
    var rows' := Commit(s, host, name, runtimeId).db.rows;
    if Writes(s.db.labs, s.db.rows, d, runtimeId) {
      RowsAfterCommit(site, host, name, runtimeId, l);
    } else {
      NothingWritten(s, host, name, runtimeId);
    }
    if !(d.kind == Project && l.host == host && l.project == d.name) && RowCarries(s.db.labs, s.db.rows, l) {
      var carrier :| carrier in s.db.rows && Carries(s.db.labs, carrier, l);
      CarrierIsNotReplaced(site, host, carrier, l);
      assert OtherRowCarries(s.db.labs, s.db.rows, l, d.replaced);
    }
  }

  lemma NothingWritten(s: State, host: int, name: string, runtimeId: string)
    requires host in s.inFlight && !Writes(s.db.labs, s.db.rows, s.inFlight[host], runtimeId)
    ensures Commit(s, host, name, runtimeId).db.rows == s.db.rows
  {
  }

  lemma AbandonKeepsCover(site: Site, host: int)
    requires Sound(site) && Covered(site)
    ensures Covered(SiteStep(site, Plain(AbandonEvent(host)))) <==> Orderly(site, Plain(AbandonEvent(host)))
  {
    var site' := SiteStep(site, Plain(AbandonEvent(host)));
    forall l ensures IsHeld(site', l) <==> IsHeld(site, l) { }
    forall l | IsHeld(site, l)
      ensures Carried(site', l) <==> (HeldForFlight(site, host, l) ==> RowCarries(site.s.db.labs, site.s.db.rows, l))
    {
      assert Carried(site, l);
      AfterTheEnd(site, site'.s, host, l);
    }
  }

  // ---------------------------------------------------------------- deletions

  lemma DeleteRowKeepsCover(site: Site, id: RowId)
    requires Sound(site) && Covered(site)
    ensures Covered(SiteStep(site, Plain(DeleteRowEvent(id)))) <==> Orderly(site, Plain(DeleteRowEvent(id)))
  {
    var site' := SiteStep(site, Plain(DeleteRowEvent(id)));
    var labs, rows := site.s.db.labs, site.s.db.rows;
    forall l ensures IsHeld(site', l) <==> IsHeld(site, l) { }
    forall l ensures Carried(site', l) <==> OtherRowCarries(labs, rows, l, Some(id)) || FlightCarries(site, l) {
      assert forall row :: row in site'.s.db.rows <==> row in rows && Some(row.id) != Some(id);
    }
    forall l | IsHeld(site, l) && !OtherRowCarries(labs, rows, l, Some(id)) && !FlightCarries(site, l)
      ensures exists row :: row in rows && row.id == id && Carries(labs, row, l)
    {
      assert Carried(site, l);
    }
  }

  /** Deleting a lab takes its rows along, and its deployment if there is one. */
  lemma CarriedWithoutLab(site: Site, lab: int, l: Limit)
    requires Sound(site)
    ensures Carried(site.(s := DeleteLab(site.s, lab)), l) <==>
      || (exists row :: row in site.s.db.rows && row.lab != lab && Carries(site.s.db.labs, row, l))
      || (FlightCarries(site, l) && site.s.inFlight[l.host].lab != lab)
  {
    var labs, rows, s' := site.s.db.labs, site.s.db.rows, DeleteLab(site.s, lab);
    var site' := site.(s := s');
    forall row | row in rows && row.lab != lab ensures Carries(s'.db.labs, row, l) <==> Carries(labs, row, l) {
      assert forall k: Lab :: k.id == row.lab ==> (k in s'.db.labs <==> k in labs);
    }
    if l.host in site.s.inFlight {
      var found := FindLab(labs, site.s.inFlight[l.host].lab);
      if found.Some? && site.s.inFlight[l.host].lab != lab { assert found.value in s'.db.labs; }
    }
  }

  lemma DeleteLabKeepsCover(site: Site, lab: int)
    requires Sound(site) && Covered(site)
    ensures Covered(SiteStep(site, Plain(DeleteLabEvent(lab)))) <==> Orderly(site, Plain(DeleteLabEvent(lab)))
  {
    var site' := SiteStep(site, Plain(DeleteLabEvent(lab)));
    var labs := site.s.db.labs;
    forall l ensures IsHeld(site', l) <==> IsHeld(site, l) { }
    forall l { CarriedWithoutLab(site, lab, l); }
    forall l | IsHeld(site, l) && !IsOnHost(labs, lab, l.host) ensures Carried(site', l) {
      assert Carried(site, l);
      OtherHostsKeepCarriers(site, lab, l);
    }
  }

  lemma OtherHostsKeepCarriers(site: Site, lab: int, l: Limit)
    requires Sound(site) && Carried(site, l) && !IsOnHost(site.s.db.labs, lab, l.host)
    ensures Carried(site.(s := DeleteLab(site.s, lab)), l)
  {
    CarriedWithoutLab(site, lab, l);
    if RowCarries(site.s.db.labs, site.s.db.rows, l) {
      var row :| row in site.s.db.rows && Carries(site.s.db.labs, row, l);
      assert row.lab != lab;
    } else {
      LabsAndHosts(site.s, l.host);
    }
  }

  lemma DeleteHostKeepsCover(site: Site, host: int)
    requires Sound(site) && Covered(site)
    ensures Covered(SiteStep(site, Plain(DeleteHostEvent(host)))) <==> Orderly(site, Plain(DeleteHostEvent(host)))
  {
    var site' := SiteStep(site, Plain(DeleteHostEvent(host)));
    DeleteLabsOnlyRemove(site.s, Keep(site.s.db.labs, (l: Lab) => l.host == host));
    DeletedHostHasNoLabs(site.s, host);
    forall l | IsHeld(site', l) && l.host == host ensures !Carried(site', l) {
      FlightNeedsItsLab(site, site'.s, l);
    }
    forall l | IsHeld(site', l) && l.host != host ensures Carried(site', l) {
      assert IsHeld(site, l) && Carried(site, l);
      DeletedHostKeepsCarriers(site, host, l);
    }
  }

  lemma DeletedHostHasNoLabs(s: State, host: int)
    requires UniqueRowIds(s.db.rows) && UniqueLabIds(s.db.labs)
    ensures forall l :: l in DeleteHost(s, host).db.labs <==> l in s.db.labs && l.host != host
    ensures forall row :: row in DeleteHost(s, host).db.rows <==>
      row in s.db.rows && !IsOnHost(s.db.labs, row.lab, host)
  {
    var gone := Keep(s.db.labs, (l: Lab) => l.host == host);
    DeleteLabsOnlyRemove(s, gone);
    forall l | l in s.db.labs ensures (forall k :: k in gone ==> l.id != k.id) <==> l.host != host {
      UniqueMeansSame(s.db.labs, l);
      if l.host == host { assert l in gone; }
    }
  }

  lemma FlightNeedsItsLab(site: Site, s': State, l: Limit)
    requires Sound(site) && s'.inFlight == site.s.inFlight
    requires forall k :: k in s'.db.labs ==> k in site.s.db.labs && k.host != l.host
    ensures !Carried(site.(s := s'), l)
  {
    if l.host in s'.inFlight {
      var found := FindLab(s'.db.labs, s'.inFlight[l.host].lab);
      assert found.None?;
    }
  }

  lemma DeletedHostKeepsCarriers(site: Site, host: int, l: Limit)
    requires Sound(site) && Carried(site, l) && l.host != host
    ensures Carried(site.(s := DeleteHost(site.s, host)), l)
  {
    var labs, rows, s' := site.s.db.labs, site.s.db.rows, DeleteHost(site.s, host);
    DeletedHostHasNoLabs(site.s, host);
    DeleteLabsOnlyRemove(site.s, Keep(labs, (k: Lab) => k.host == host));
    if RowCarries(labs, rows, l) {
      var row :| row in rows && Carries(labs, row, l);
      var k :| k in labs && k.id == row.lab && k.host == l.host;
      UniqueMeansSame(labs, k);
      assert k in s'.db.labs && row in s'.db.rows;
      assert Carries(s'.db.labs, row, l);
    } else {
      var k := FindLab(labs, site.s.inFlight[l.host].lab).value;
      assert k in labs && k.host == l.host;
      assert k in s'.db.labs;
    }
  }

  // ---------------------------------------------------------------- every run

  lemma PlainKeepsCover(site: Site, e: Event)
    requires Sound(site) && Covered(site)
    ensures Covered(SiteStep(site, Plain(e))) <==> Orderly(site, Plain(e))
  {
    match e
    case RegisterEvent(_, _) => CreationKeepsCover(site, e);
    case CreateLabEvent(_, _, _, _) => CreationKeepsCover(site, e);
    case BeginEvent(_, _, _, _, _) =>
    case CommitEvent(host, name, runtimeId) => CommitKeepsCover(site, host, name, runtimeId);
    case AbandonEvent(host) => AbandonKeepsCover(site, host);
    case DeleteRowEvent(id) => DeleteRowKeepsCover(site, id);
    case DeleteLabEvent(lab) => DeleteLabKeepsCover(site, lab);
    case DeleteHostEvent(host) => DeleteHostKeepsCover(site, host);
  }

  /** A step keeps the limits covered exactly when it is orderly. */
  lemma StepKeepsCoverExactlyWhenOrderly(site: Site, e: SiteEvent)
    requires Sound(site) && Covered(site)
    ensures Covered(SiteStep(site, e)) <==> Orderly(site, e)
  {
    match e
    case Plain(plain) => PlainKeepsCover(site, plain);
    case BeginDeploy(lab, kind, name, cpu, text) => BeginKeepsCover(site, lab, kind, name, cpu, text);
    case LabHost(k, w) => WorkKeepsCover(site, k, w);
    case BringUp(host, project, n) => BringUpKeepsCover(site, host, project, n);
    case Lose(r, host, project, left) => LoseKeepsCover(site, r, host, project, left);
    case Remove(host, project) => RemoveKeepsCover(site, host, project);
  }

  ghost predicate CoveredThroughout(site: Site, events: seq<SiteEvent>)
    decreases events
  {
    Covered(site) && (events == [] || CoveredThroughout(SiteStep(site, events[0]), events[1..]))
  }

  ghost predicate OrderlyThroughout(site: Site, events: seq<SiteEvent>)
    decreases events
  {
    events == [] || (Orderly(site, events[0]) && OrderlyThroughout(SiteStep(site, events[0]), events[1..]))
  }

  /** The tables account for every limit on every lab host throughout a run if and only if each of its
      steps is orderly. */
  lemma {:induction false} CoveredExactlyWhenOrderly(site: Site, events: seq<SiteEvent>)
    requires Sound(site) && Covered(site)
    ensures CoveredThroughout(site, events) <==> OrderlyThroughout(site, events)
    decreases events
  {
    if events != [] {
      StepKeepsCoverExactlyWhenOrderly(site, events[0]);
      SiteStepIsSound(site, events[0]);
      if Orderly(site, events[0]) { CoveredExactlyWhenOrderly(SiteStep(site, events[0]), events[1..]); }
    }
  }

  // ---------------------------------------------------------------- what covered limits add up to

  function SumOn(limits: seq<Limit>, r: Resource, host: int): nat
  {
    if limits == [] then 0 else
    (if limits[0].r == r && limits[0].host == host then limits[0].amount else 0) + SumOn(limits[1..], r, host)
  }

  function CountOn(limits: seq<Limit>, r: Resource, host: int): nat
  {
    if limits == [] then 0 else
    (if limits[0].r == r && limits[0].host == host then 1 else 0) + CountOn(limits[1..], r, host)
  }

  /** A limit adds its amount to the sum of its own kind and host, and one to their number. */
  lemma {:induction false} OneLimitMore(limits: seq<Limit>, l: Limit, r: Resource, host: int)
    ensures SumOn([], r, host) == 0 && CountOn([], r, host) == 0
    ensures var counts := l.r == r && l.host == host;
      && SumOn(limits + [l], r, host) == SumOn(limits, r, host) + (if counts then l.amount else 0)
      && CountOn(limits + [l], r, host) == CountOn(limits, r, host) + (if counts then 1 else 0)
    decreases limits
  {
    if limits == [] {
      assert limits + [l] == [l];
    } else {
      assert (limits + [l])[1..] == limits[1..] + [l];
      OneLimitMore(limits[1..], l, r, host);
    }
  }

  /** The most that limits can amount to which are charged with some use: a number of memory limits can
      each hide less than one MiB. */
  function Worth(r: Resource, use: real, limits: nat): real
  {
    match r
    case Cpu => use * P.CPU_PERIOD as real
    case Memory => (use + limits as real) * M.MIB as real
  }

  lemma PaidIsWorth(row: Row, l: Limit)
    requires Pays(row.cpu, row.mem, l)
    ensures l.amount as real <= Worth(l.r, ChargeOf(row, l.r), 1)
  {
    match l.r
    case Cpu =>
    case Memory => assert ((row.mem.value + 1) * M.MIB) as real == (row.mem.value as real + 1.0) * M.MIB as real;
  }

  lemma WorthAdds(r: Resource, use: real, more: real, limits: nat)
    ensures Worth(r, use + more, limits + 1) == Worth(r, use, limits) + Worth(r, more, 1)
  {
  }

  lemma {:induction false} SumOfConcat(a: seq<Row>, b: seq<Row>, r: Resource, kind: Kind, lab: int)
    ensures SumOf(a + b, r, kind, lab) == SumOf(a, r, kind, lab) + SumOf(b, r, kind, lab)
    decreases a
  {
    if a == [] {
      assert a + b == b;
    } else {
      assert (a + b)[1..] == a[1..] + b;
      SumOfConcat(a[1..], b, r, kind, lab);
    }
  }

  lemma LabUseOfSplit(a: seq<Row>, w: Row, b: seq<Row>, r: Resource, lab: int)
    ensures LabUse(a + [w] + b, r, lab) == LabUse(a + b + [w], r, lab)
  {
    forall kind ensures SumOf(a + [w] + b, r, kind, lab) == SumOf(a + b + [w], r, kind, lab) {
      SumOfConcat(a + [w], b, r, kind, lab);
      SumOfConcat(a, [w], r, kind, lab);
      SumOfConcat(a + b, [w], r, kind, lab);
      SumOfConcat(a, b, r, kind, lab);
    }
  }

  lemma {:induction false} HostUseOfSplit(labs: seq<Lab>, a: seq<Row>, w: Row, b: seq<Row>, r: Resource, host: int)
    ensures HostUse(labs, a + [w] + b, r, host) == HostUse(labs, a + b + [w], r, host)
    decreases labs
  {
    if labs != [] {
      LabUseOfSplit(a, w, b, r, labs[0].id);
      HostUseOfSplit(labs[1..], a, w, b, r, host);
    }
  }

  /** The row that carries a limit, and the rows around it. */
  lemma CarrierAt(labs: seq<Lab>, rows: seq<Row>, l: Limit) returns (a: seq<Row>, w: Row, b: seq<Row>)
    requires RowCarries(labs, rows, l)
    ensures rows == a + [w] + b && Carries(labs, w, l)
  {
    w :| w in rows && Carries(labs, w, l);
    var i :| 0 <= i < |rows| && rows[i] == w;
    a, b := rows[..i], rows[i + 1..];
  }

  lemma OtherCarriersStay(labs: seq<Lab>, a: seq<Row>, w: Row, b: seq<Row>, l: Limit, other: Limit)
    requires Carries(labs, w, l) && RowCarries(labs, a + [w] + b, other) && other.project != l.project
    ensures RowCarries(labs, a + b, other)
  {
    var row :| row in a + [w] + b && Carries(labs, row, other);
    assert row != w && row in a + b;
  }

  /** Limits that rows carry, each by a row of its own as they have different names, are worth no more
      than the charge of these rows. */
  lemma {:induction false} CarriedSum(limits: seq<Limit>, labs: seq<Lab>, rows: seq<Row>, r: Resource, host: int)
    requires UniqueLimits(limits) && UniqueLabIds(labs)
    requires forall l :: l in limits && l.r == r && l.host == host ==> RowCarries(labs, rows, l)
    ensures SumOn(limits, r, host) as real <= Worth(r, HostUse(labs, rows, r, host), CountOn(limits, r, host))
    decreases limits
  {
    if limits == [] {
      HostUseIsNonNegative(labs, rows, r, host);
    } else {
      var l, rest := limits[0], limits[1..];
      assert forall q :: q in rest ==> q in limits;
      if !(l.r == r && l.host == host) {
        CarriedSum(rest, labs, rows, r, host);
      } else {
        var a, w, b := CarrierAt(labs, rows, l);
        forall q | q in rest && q.r == r && q.host == host ensures RowCarries(labs, a + b, q) {
          OtherCarriersStay(labs, a, w, b, l, q);
        }
        CarriedSum(rest, labs, a + b, r, host);
        HostUseOfSplit(labs, a, w, b, r, host);
        HostUseWithRow(labs, a + b, w, r, host);
        PaidIsWorth(w, l);
        WorthAdds(r, HostUse(labs, a + b, r, host), ChargeOf(w, r), CountOn(rest, r, host));
      }
    }
  }

  /** The rows as they will be when the project deployment in flight on a host commits. */
  function RowsToBe(s: State, host: int): seq<Row>
    requires host in s.inFlight
  {
    var d := s.inFlight[host];
    WithoutOptional(s.db.rows, d.replaced) + [NewRow(d, RowId(Project, s.next), "", "")]
  }

  lemma RowsToBeFit(s: State, host: int, r: Resource)
    requires IdsInSequence(s) && HostCaps(s) && host in s.inFlight && host in s.db.hosts && !Unbounded(s.db.hosts[host])
    requires FindLab(s.db.labs, s.inFlight[host].lab).Some?
    ensures HostUse(s.db.labs, RowsToBe(s, host), r, host) <= HostTotal(s.db.hosts[host], r) as real
  {
    var d := s.inFlight[host];
    var l := FindLab(s.db.labs, d.lab).value;
    assert HostCap(s, host, s.db.hosts[host], r);
    HostUseWithRow(s.db.labs, WithoutOptional(s.db.rows, d.replaced), NewRow(d, RowId(Project, s.next), "", ""), r,
                   host);
    if d.replaced.Some? {
      HostUseWithoutRow(s.db.labs, s.db.rows, d.replaced.value, r, host);
      HeldInLabOfHost(s.db.labs, s.db.rows, d.replaced.value, r, l);
    }
  }

  /** A limit that only the deployment in flight carries is carried by its row to be, and so are all
      others on that host by the rows to be. */
  lemma RowsToBeCarry(site: Site, limits: seq<Limit>, mine: Limit, l: Limit)
    requires Sound(site) && UniqueLimits(limits) && mine in limits && l in limits && l.host == mine.host
    requires l.r == mine.r
    requires FlightCarries(site, mine) && Carried(site, l)
    ensures RowCarries(site.s.db.labs, RowsToBe(site.s, l.host), l)
  {
    var s, host := site.s, mine.host;
    var d := s.inFlight[host];
    var mineRow := NewRow(d, RowId(Project, s.next), "", "");
    LabsAndHosts(s, host);
    if l.project == d.name {
      assert l == mine;
      assert mineRow in RowsToBe(s, host) && Carries(s.db.labs, mineRow, l);
    } else {
      var carrier :| carrier in s.db.rows && Carries(s.db.labs, carrier, l);
      CarrierIsNotReplaced(site, host, carrier, l);
      assert carrier in RowsToBe(s, host);
    }
  }

  lemma WorthGrows(r: Resource, use: real, total: nat, limits: nat)
    requires use <= total as real
    ensures Worth(r, use, limits) <= Worth(r, total as real, limits)
  {
    match r
    case Cpu => assert use * P.CPU_PERIOD as real <= total as real * P.CPU_PERIOD as real;
    case Memory => assert (use + limits as real) * M.MIB as real <= (total as real + limits as real) * M.MIB as real;
  }

  /** What a lab host holds is worth no more than the total of a bounded host, as long as the limits are
      covered and the host caps hold, also while a deployment is in flight. */
  lemma CoveredLimitsFitTheHost(site: Site, limits: seq<Limit>, r: Resource, host: int)
    requires Sound(site) && HostCaps(site.s) && Covered(site)
    requires limits == site.enforced || limits == site.recorded
    requires host in site.s.db.hosts && !Unbounded(site.s.db.hosts[host])
    ensures SumOn(limits, r, host) as real <=
            Worth(r, HostTotal(site.s.db.hosts[host], r) as real, CountOn(limits, r, host))
  {
    var s := site.s;
    var total := HostTotal(s.db.hosts[host], r);
    assert forall l :: l in limits ==> IsHeld(site, l);
    if mine :| mine in limits && mine.r == r && mine.host == host && FlightCarries(site, mine) {
      forall l | l in limits && l.r == r && l.host == host ensures RowCarries(s.db.labs, RowsToBe(s, host), l) {
        RowsToBeCarry(site, limits, mine, l);
      }
      RowsToBeFit(s, host, r);
      CarriedSum(limits, s.db.labs, RowsToBe(s, host), r, host);
      WorthGrows(r, HostUse(s.db.labs, RowsToBe(s, host), r, host), total, CountOn(limits, r, host));
    } else {
      forall l | l in limits && l.r == r && l.host == host ensures RowCarries(s.db.labs, s.db.rows, l) {
        assert Carried(site, l);
      }
      assert HostCap(s, host, s.db.hosts[host], r);
      CarriedSum(limits, s.db.labs, s.db.rows, r, host);
      WorthGrows(r, HostUse(s.db.labs, s.db.rows, r, host), total, CountOn(limits, r, host));
    }
  }

  /** Registrations leave room for what is allocated and in flight. */
  predicate LeavesRoomThroughout(site: Site, events: seq<SiteEvent>)
    decreases events
  {
    events == [] ||
    ((events[0].Plain? ==> LeavesRoom(site.s, events[0].e)) &&
     LeavesRoomThroughout(SiteStep(site, events[0]), events[1..]))
  }

  lemma BeginKeepsHostCaps(site: Site, lab: int, kind: Kind, name: string, cpu: Option<Amount>, text: Option<string>)
    requires Sound(site) && HostCaps(site.s)
    ensures HostCaps(BeginText(site, lab, kind, name, cpu, text).s)
  {
    BeginEffect(site, lab, kind, name, cpu, text);
    if M.ToOptionalMiB(text).Ok? { BeginKeepsCaps(site.s, lab, kind, name, cpu, M.ToOptionalMiB(text).value); }
  }

  lemma SiteStepKeepsHostCaps(site: Site, e: SiteEvent)
    requires Sound(site) && HostCaps(site.s) && (e.Plain? ==> LeavesRoom(site.s, e.e))
    ensures HostCaps(SiteStep(site, e).s)
  {
    match e
    case Plain(plain) => StepKeepsCaps(site.s, plain);
    case BeginDeploy(lab, kind, name, cpu, text) => BeginKeepsHostCaps(site, lab, kind, name, cpu, text);
    case _ =>
  }

  lemma {:induction false} RunKeepsCoverAndCaps(site: Site, events: seq<SiteEvent>)
    requires Sound(site) && HostCaps(site.s) && Covered(site)
    requires LeavesRoomThroughout(site, events) && OrderlyThroughout(site, events)
    ensures Sound(SiteRun(site, events)) && HostCaps(SiteRun(site, events).s) && Covered(SiteRun(site, events))
    decreases events
  {
    if events != [] {
      SiteStepIsSound(site, events[0]);
      SiteStepKeepsHostCaps(site, events[0]);
      StepKeepsCoverExactlyWhenOrderly(site, events[0]);
      RunKeepsCoverAndCaps(SiteStep(site, events[0]), events[1..]);
    }
  }

  /** The limits on a bounded host are within its totals: CPU quotas exactly, memory but for one MiB for
      each project. */
  predicate StaysWithin(limits: seq<Limit>, host: int, h: Host)
  {
    && SumOn(limits, Cpu, host) <= h.cpuTotal * 100000
    && SumOn(limits, Memory, host) <= (h.memTotal + CountOn(limits, Memory, host)) * 1048576
  }

  lemma WorthOfTotals(limits: seq<Limit>, host: int, h: Host)
    requires forall r :: SumOn(limits, r, host) as real <= Worth(r, HostTotal(h, r) as real, CountOn(limits, r, host))
    ensures StaysWithin(limits, host, h)
  {
    assert SumOn(limits, Cpu, host) as real <= Worth(Cpu, HostTotal(h, Cpu) as real, CountOn(limits, Cpu, host));
    assert (h.cpuTotal * P.CPU_PERIOD) as real == h.cpuTotal as real * P.CPU_PERIOD as real;
    var count := CountOn(limits, Memory, host);
    assert SumOn(limits, Memory, host) as real <= Worth(Memory, HostTotal(h, Memory) as real, count);
    assert ((h.memTotal + count) * M.MIB) as real == (h.memTotal as real + count as real) * M.MIB as real;
  }

  /** Over every orderly run from nothing in which registrations leave room, the project limits that are
      enforced on a bounded host, or written down there, stay within its totals. */
  lemma LimitsStayWithinHosts(events: seq<SiteEvent>, host: int)
    requires LeavesRoomThroughout(EMPTY_SITE, events) && OrderlyThroughout(EMPTY_SITE, events)
    requires var hosts := SiteRun(EMPTY_SITE, events).s.db.hosts; host in hosts && !Unbounded(hosts[host])
    ensures var site := SiteRun(EMPTY_SITE, events);
      StaysWithin(site.enforced, host, site.s.db.hosts[host]) && StaysWithin(site.recorded, host, site.s.db.hosts[host])
  {
    RunKeepsCoverAndCaps(EMPTY_SITE, events);
    var site := SiteRun(EMPTY_SITE, events);
    forall limits, r | limits == site.enforced || limits == site.recorded
      ensures SumOn(limits, r, host) as real <=
              Worth(r, HostTotal(site.s.db.hosts[host], r) as real, CountOn(limits, r, host))
    {
      CoveredLimitsFitTheHost(site, limits, r, host);
    }
    WorthOfTotals(site.enforced, host, site.s.db.hosts[host]);
    WorthOfTotals(site.recorded, host, site.s.db.hosts[host]);
  }
}

/** Runs in which both services see each other's work through, by conditions that a caller can check
    before each step. Their limits stay covered and within the totals of the hosts. */
module CleanRuns {
  import opened Wrappers
  import opened Tables
  import opened DeployRuns
  import opened LabHostLimits
  import opened Coverage
  import M = MemoryLimits

  predicate WithinAsked(c: Call, l: Limit)
  {
    match Asked(c, l.r) case None => false case Some(amount) => l.amount <= amount
  }

  /** Once the project is raised, containers of it run under no other limits than the call asks for. */
  predicate LeavesNoOther(enforced: seq<Limit>, c: Call, n: nat)
  {
    forall l :: l in enforced && l.host == c.host && l.project == c.project ==>
      WithinAsked(c, l) || (Applies(Asked(c, Cpu), Asked(c, Memory), n) && Asked(c, l.r).Some?)
  }

  /** The lab host has removed the project of a row, and nothing of that name was taken in since. */
  predicate IsGone(site: Site, row: Row)
  {
    forall k :: k in site.s.db.labs && k.id == row.lab ==> (k.host, row.name) in site.gone
  }

  predicate Answered(site: Site, host: int, stage: Stage)
  {
    && host in site.current && site.current[host] < |site.calls|
    && site.calls[site.current[host]].done && site.calls[site.current[host]].stage == stage
  }

  /** A deployment of a project ends only when the lab host is through with it: with its row if the lab
      host has raised the project, and without if it has done nothing. A lab host that raises a project
      leaves no containers under older limits. A project row, its lab or its host is deleted only when
      the project is gone, and a lab or a host only when no deployment of a project is in flight there. */
  predicate Clean(site: Site, e: SiteEvent)
  {
    var labs, rows, inFlight := site.s.db.labs, site.s.db.rows, site.s.inFlight;
    match e
    case Plain(CommitEvent(host, _, runtimeId)) =>
      host in inFlight && inFlight[host].kind == Project ==>
        Answered(site, host, Raised) && Writes(labs, rows, inFlight[host], runtimeId)
    case Plain(AbandonEvent(host)) =>
      host in inFlight && inFlight[host].kind == Project ==> Answered(site, host, Waiting)
    case Plain(DeleteRowEvent(id)) =>
      forall row :: row in rows && row.id == id && id.kind == Project ==> IsGone(site, row)
    case Plain(DeleteLabEvent(lab)) =>
      && (forall row :: row in rows && row.lab == lab && row.id.kind == Project ==> IsGone(site, row))
      && (forall h :: h in inFlight && inFlight[h].kind == Project ==> inFlight[h].lab != lab)
    case Plain(DeleteHostEvent(host)) =>
      && (forall row :: row in rows && row.id.kind == Project && IsOnHost(labs, row.lab, host) ==> IsGone(site, row))
      && (host in inFlight ==> inFlight[host].kind != Project)
    case LabHost(k, Raise(n)) => CanWork(site, k, Raise(n)) ==> LeavesNoOther(site.enforced, site.calls[k], n)
    case _ => true
  }

  // ---------------------------------------------------------------- what clean steps keep

  /** A lab host works on no call but the one that a deployment waits for. */
  predicate WorkIsAwaited(site: Site)
  {
    forall k: nat :: k < |site.calls| && !site.calls[k].done ==>
      site.calls[k].host in site.current && site.current[site.calls[k].host] == k
  }

  ghost predicate GoneIsGone(site: Site)
  {
    forall l :: IsHeld(site, l) ==> (l.host, l.project) !in site.gone
  }

  predicate FlightsHaveLabs(s: State)
  {
    forall h :: h in s.inFlight && s.inFlight[h].kind == Project ==> FindLab(s.db.labs, s.inFlight[h].lab).Some?
  }

  /** What a lab host holds for the project it is deploying is no more than it was asked for. */
  predicate IsCurrent(site: Site, l: Limit)
  {
    l.host in site.current && site.current[l.host] < |site.calls| ==>
      var c := site.calls[site.current[l.host]];
      l.project == c.project ==>
        && (l in site.recorded && c.stage != Waiting ==> WithinAsked(c, l))
        && (l in site.enforced && c.stage == Raised ==> WithinAsked(c, l))
  }

  ghost predicate LimitsAreCurrent(site: Site) { forall l :: IsCurrent(site, l) }

  ghost predicate Tidy(site: Site)
  {
    WorkIsAwaited(site) && GoneIsGone(site) && FlightsHaveLabs(site.s) && LimitsAreCurrent(site)
  }

  lemma FewerLimitsAreTidy(site: Site, site': Site)
    requires Tidy(site) && site'.s == site.s && site'.calls == site.calls && site'.current == site.current
    requires site'.gone == site.gone
    requires forall l :: l in site'.recorded ==> l in site.recorded
    requires forall l :: l in site'.enforced ==>
      || (exists a :: a >= l.amount && l.(amount := a) in site.enforced)
      || (exists a :: a >= l.amount && l.(amount := a) in site.recorded)
    ensures Tidy(site')
  {
    forall l | IsHeld(site', l) ensures (l.host, l.project) !in site'.gone {
      if !IsHeld(site, l) {
        var a :| a >= l.amount && IsHeld(site, l.(amount := a));
      }
    }
    forall l ensures IsCurrent(site', l) {
      assert IsCurrent(site, l);
      if l in site'.enforced {
        var a :| a >= l.amount && IsHeld(site, l.(amount := a)) &&
          (l.(amount := a) in site.recorded || l.(amount := a) in site.enforced);
        assert IsCurrent(site, l.(amount := a));
      }
    }
  }

  lemma StartIsTidy(site: Site, s': State, host: int, text: Option<string>)
    requires Sound(site) && Tidy(site) && host !in site.s.inFlight && host in s'.inFlight
    requires s' == site.s.(inFlight := site.s.inFlight[host := s'.inFlight[host]])
    requires FindLab(s'.db.labs, s'.inFlight[host].lab).Some?
    ensures Tidy(Started(site, s', host, text))
  {
    var site' := Started(site, s', host, text);
    assert host !in site.current;
    forall l ensures IsCurrent(site', l) { assert IsCurrent(site, l); }
  }

  lemma BeginIsTidy(site: Site, lab: int, kind: Kind, name: string, cpu: Option<Amount>, text: Option<string>)
    requires Sound(site) && Tidy(site)
    ensures Tidy(BeginText(site, lab, kind, name, cpu, text))
  {
    BeginEffect(site, lab, kind, name, cpu, text);
    if BeginText(site, lab, kind, name, cpu, text) != site {
      var host := FindLab(site.s.db.labs, lab).value.host;
      StartIsTidy(site, Begin(site.s, lab, kind, name, cpu, M.ToOptionalMiB(text).value), host, text);
    }
  }

  lemma EndIsTidy(site: Site, s': State, host: int)
    requires Sound(site) && Tidy(site) && s'.inFlight == site.s.inFlight - {host} && s'.db.labs == site.s.db.labs
    requires host in site.s.inFlight && site.s.inFlight[host].kind == Project ==>
      site.calls[site.current[host]].done
    ensures Tidy(Ended(site, s', host))
  {
    var site' := Ended(site, s', host);
    forall l ensures IsCurrent(site', l) { assert IsCurrent(site, l); }
  }

  lemma WorkIsTidy(site: Site, k: nat, w: Work)
    requires Sound(site) && Tidy(site) && Clean(site, LabHost(k, w))
    ensures Tidy(AfterWork(site, k, w))
  {
    var site' := AfterWork(site, k, w);
    AfterWorkHolds(site, k, w);
    if CanWork(site, k, w) {
      forall l ensures IsCurrent(site', l) { WorkIsCurrent(site, k, w, l); }
    }
  }

  lemma WorkIsCurrent(site: Site, k: nat, w: Work, l: Limit)
    requires Sound(site) && Tidy(site) && Clean(site, LabHost(k, w)) && CanWork(site, k, w)
    ensures IsCurrent(AfterWork(site, k, w), l)
  {
    var c := site.calls[k];
    assert IsCurrent(site, l);
    AfterWorkHolds(site, k, w);
    if l.host == c.host && l.project == c.project {
      match w
      case LoseSource =>
      case WriteDown =>
        PutHolds(site.recorded, Cpu, c.host, c.project, Asked(c, Cpu));
        PutHolds(Put(site.recorded, Cpu, c.host, c.project, Asked(c, Cpu)), Memory, c.host, c.project,
                 Asked(c, Memory));
      case Raise(n) => AppliedHolds(site.enforced, c.host, c.project, Asked(c, Cpu), Asked(c, Memory), n);
      case Finish =>
    }
  }

  lemma TablesAreTidy(site: Site, s': State)
    requires Tidy(site) && s'.inFlight == site.s.inFlight && FlightsHaveLabs(s')
    ensures Tidy(site.(s := s'))
  {
    forall l ensures IsCurrent(site.(s := s'), l) { assert IsCurrent(site, l); }
  }

  lemma DeletionIsTidy(site: Site, e: Event)
    requires Sound(site) && Tidy(site) && Clean(site, Plain(e)) && (e.DeleteLabEvent? || e.DeleteHostEvent?)
    ensures Tidy(SiteStep(site, Plain(e)))
  {
    var s, s' := site.s, Step(site.s, e);
    if e.DeleteHostEvent? {
      DeleteLabsOnlyRemove(s, Keep(s.db.labs, (l: Lab) => l.host == e.host));
      DeletedHostHasNoLabs(s, e.host);
    }
    forall h | h in s'.inFlight && s'.inFlight[h].kind == Project
      ensures FindLab(s'.db.labs, s'.inFlight[h].lab).Some?
    {
      var k := FindLab(s.db.labs, s.inFlight[h].lab).value;
      assert k in s.db.labs && k.host == h;
      assert k in s'.db.labs;
    }
    TablesAreTidy(site, s');
  }

  lemma CreationIsTidy(site: Site, e: Event)
    requires Sound(site) && Tidy(site) && (e.RegisterEvent? || e.CreateLabEvent? || e.DeleteRowEvent?)
    ensures Tidy(SiteStep(site, Plain(e)))
  {
    var s, s' := site.s, Step(site.s, e);
    forall h | h in s'.inFlight && s'.inFlight[h].kind == Project
      ensures FindLab(s'.db.labs, s'.inFlight[h].lab).Some?
    {
      var k := FindLab(s.db.labs, s.inFlight[h].lab).value;
      assert k in s'.db.labs;
    }
    TablesAreTidy(site, s');
  }

  lemma RemovalIsTidy(site: Site, host: int, project: string)
    requires Sound(site) && Tidy(site)
    ensures Tidy(SiteStep(site, Remove(host, project)))
  {
    var site' := SiteStep(site, Remove(host, project));
    WithoutProjectHolds(site.recorded, host, project);
    WithoutProjectHolds(site.enforced, host, project);
    forall l | IsHeld(site', l) ensures (l.host, l.project) !in site'.gone { assert IsHeld(site, l); }
    forall l ensures IsCurrent(site', l) { assert IsCurrent(site, l); }
  }

  lemma BringUpIsTidy(site: Site, host: int, project: string, n: nat)
    requires Sound(site) && Tidy(site)
    ensures Tidy(SiteStep(site, BringUp(host, project, n)))
  {
    var site' := SiteStep(site, BringUp(host, project, n));
    BringUpHolds(site, host, project, n);
    forall l | l in site'.enforced
      ensures (exists a :: a >= l.amount && l.(amount := a) in site.enforced) ||
              (exists a :: a >= l.amount && l.(amount := a) in site.recorded)
    {
      assert l.(amount := l.amount) == l;
    }
    FewerLimitsAreTidy(site, site');
  }

  lemma LossIsTidy(site: Site, r: Resource, host: int, project: string, left: Option<nat>)
    requires Sound(site) && Tidy(site)
    ensures Tidy(SiteStep(site, Lose(r, host, project, left)))
  {
    var site' := SiteStep(site, Lose(r, host, project, left));
    LessenedHolds(site.enforced, r, host, project, left);
    forall l | l in site'.enforced ensures exists a :: a >= l.amount && l.(amount := a) in site.enforced {
      if l in site.enforced {
        assert l.(amount := l.amount) == l;
      } else {
        var a :| a >= l.amount && Limit(l.r, l.host, l.project, a) in site.enforced;
        assert l.(amount := a) == Limit(l.r, l.host, l.project, a);
      }
    }
    FewerLimitsAreTidy(site, site');
  }

  lemma CleanStepIsTidy(site: Site, e: SiteEvent)
    requires Sound(site) && Tidy(site) && Clean(site, e)
    ensures Tidy(SiteStep(site, e))
  {
    match e
    case Plain(BeginEvent(_, _, _, _, _)) =>
    case Plain(CommitEvent(host, _, _)) => CommitIsTidy(site, e.e);
    case Plain(AbandonEvent(host)) => EndIsTidy(site, Step(site.s, e.e), host);
    case Plain(DeleteLabEvent(_)) => DeletionIsTidy(site, e.e);
    case Plain(DeleteHostEvent(_)) => DeletionIsTidy(site, e.e);
    case Plain(_) => CreationIsTidy(site, e.e);
    case BeginDeploy(lab, kind, name, cpu, text) => BeginIsTidy(site, lab, kind, name, cpu, text);
    case LabHost(k, w) => WorkIsTidy(site, k, w);
    case BringUp(host, project, n) => BringUpIsTidy(site, host, project, n);
    case Lose(r, host, project, left) => LossIsTidy(site, r, host, project, left);
    case Remove(host, project) => RemovalIsTidy(site, host, project);
  }

  lemma CommitIsTidy(site: Site, e: Event)
    requires Sound(site) && Tidy(site) && e.CommitEvent? && Clean(site, Plain(e))
    ensures Tidy(SiteStep(site, Plain(e)))
  {
    assert Commit(site.s, e.host, e.runtimeName, e.runtimeId).inFlight == site.s.inFlight - {e.host};
    EndIsTidy(site, Commit(site.s, e.host, e.runtimeName, e.runtimeId), e.host);
  }

  // ---------------------------------------------------------------- clean steps are orderly

  lemma CleanCommitIsOrderly(site: Site, host: int, name: string, runtimeId: string)
    requires Sound(site) && Tidy(site) && Clean(site, Plain(CommitEvent(host, name, runtimeId)))
    ensures Orderly(site, Plain(CommitEvent(host, name, runtimeId)))
  {
    forall l | HeldForFlight(site, host, l) ensures IsFor(site.s.inFlight[host], host, l) {
      var c := site.calls[site.current[host]];
      assert IsCurrent(site, l);
      var amount := Asked(c, l.r).value;
      AskedIsPaid(site.calls, site.current, host, site.s.inFlight[host], l.(amount := amount));
    }
  }

  /** A gone project has no limits that its row could carry. */
  lemma GoneCarriesNothing(site: Site, row: Row, l: Limit)
    requires Tidy(site) && row in site.s.db.rows && IsGone(site, row) && IsHeld(site, l)
    ensures !Carries(site.s.db.labs, row, l)
  {
  }

  lemma CleanDeletionIsOrderly(site: Site, e: Event)
    requires Sound(site) && Covered(site) && Tidy(site) && Clean(site, Plain(e))
    requires e.DeleteRowEvent? || e.DeleteLabEvent? || e.DeleteHostEvent?
    ensures Orderly(site, Plain(e))
  {
    forall row, l | row in site.s.db.rows && IsGone(site, row) && IsHeld(site, l)
      ensures !Carries(site.s.db.labs, row, l)
    {
      GoneCarriesNothing(site, row, l);
    }
    if !e.DeleteRowEvent? {
      forall l | IsHeld(site, l) ensures Carried(site, l) { }
    }
  }

  lemma CleanStepIsOrderly(site: Site, e: SiteEvent)
    requires Sound(site) && Covered(site) && Tidy(site) && Clean(site, e)
    ensures Orderly(site, e)
  {
    match e
    case Plain(CommitEvent(host, name, runtimeId)) => CleanCommitIsOrderly(site, host, name, runtimeId);
    case Plain(AbandonEvent(host)) =>
      forall l | HeldForFlight(site, host, l) ensures RowCarries(site.s.db.labs, site.s.db.rows, l) {
        assert Carried(site, l);
      }
    case Plain(DeleteRowEvent(_)) => CleanDeletionIsOrderly(site, e.e);
    case Plain(DeleteLabEvent(_)) => CleanDeletionIsOrderly(site, e.e);
    case Plain(DeleteHostEvent(_)) => CleanDeletionIsOrderly(site, e.e);
    case LabHost(k, w) =>
      if CanWork(site, k, w) { assert IsOpen(site, k); }
    case _ =>
  }

  // ---------------------------------------------------------------- every clean run

  predicate CleanThroughout(site: Site, events: seq<SiteEvent>)
    decreases events
  {
    events == [] || (Clean(site, events[0]) && CleanThroughout(SiteStep(site, events[0]), events[1..]))
  }

  lemma {:induction false} CleanRunsAreOrderly(site: Site, events: seq<SiteEvent>)
    requires Sound(site) && Covered(site) && Tidy(site) && CleanThroughout(site, events)
    ensures OrderlyThroughout(site, events) && CoveredThroughout(site, events)
    decreases events
  {
    if events != [] {
      var site' := SiteStep(site, events[0]);
      CleanStepIsOrderly(site, events[0]);
      CleanStepIsTidy(site, events[0]);
      SiteStepIsSound(site, events[0]);
      StepKeepsCoverExactlyWhenOrderly(site, events[0]);
      CleanRunsAreOrderly(site', events[1..]);
    }
  }

  /** Over every clean run from nothing in which registrations leave room, the tables account for every
      limit on every lab host, and the limits on a bounded host stay within its totals. */
  lemma CleanRunsStayWithinHosts(events: seq<SiteEvent>, host: int)
    requires LeavesRoomThroughout(EMPTY_SITE, events) && CleanThroughout(EMPTY_SITE, events)
    ensures CoveredThroughout(EMPTY_SITE, events)
    ensures var site := SiteRun(EMPTY_SITE, events);
      host in site.s.db.hosts && !Unbounded(site.s.db.hosts[host]) ==>
        StaysWithin(site.enforced, host, site.s.db.hosts[host]) &&
          StaysWithin(site.recorded, host, site.s.db.hosts[host])
  {
    CleanRunsAreOrderly(EMPTY_SITE, events);
    var hosts := SiteRun(EMPTY_SITE, events).s.db.hosts;
    if host in hosts && !Unbounded(hosts[host]) { LimitsStayWithinHosts(events, host); }
  }
}

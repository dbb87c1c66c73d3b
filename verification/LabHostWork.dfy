/** What each step of a lab host does to the limits that it has written down and enforces, in bytes and in
    units of CPU quota. */
module LabHostWork {
  import opened Wrappers
  import opened Tables
  import opened DeployRuns
  import opened LabHostLimits
  import M = MemoryLimits

  /** A call asks for a limit: 100000 units of quota for each core, rounded down, and the bytes that its
      text is read as. */
  predicate AsksFor(c: Call, l: Limit)
  {
    && l.host == c.host && l.project == c.project
    && match l.r
       case Cpu => c.cpu.Some? && l.amount == (c.cpu.value * 100000.0).Floor
       case Memory => c.text.Some? && M.ToBytes(c.text.value) == Ok(l.amount)
  }

  lemma AskedIs(c: Call, l: Limit)
    requires l.host == c.host && l.project == c.project
    ensures AsksFor(c, l) <==> Asked(c, l.r) == Some(l.amount)
  {
  }

  /** A call that has not ended and has reached a stage. */
  predicate IsAtStage(site: Site, k: nat, stage: Stage)
  {
    k < |site.calls| && !site.calls[k].done && site.calls[k].stage == stage
  }

  /** Losing the old source drops what was written down for the project, as long as the call waits. */
  lemma LosingSource(site: Site, k: nat)
    requires UniqueLimits(site.recorded)
    ensures var site' := AfterWork(site, k, LoseSource);
      && site' == site.(recorded := site'.recorded)
      && forall l :: l in site'.recorded <==>
           l in site.recorded &&
           !(IsAtStage(site, k, Waiting) && l.host == site.calls[k].host && l.project == site.calls[k].project)
  {
    if k < |site.calls| { WithoutProjectHolds(site.recorded, site.calls[k].host, site.calls[k].project); }
  }

  /** Writing down puts exactly the limits that the call asks for in place of the project's. */
  lemma WritingDown(site: Site, k: nat)
    requires UniqueLimits(site.recorded) && IsAtStage(site, k, Waiting)
    ensures var site', c := AfterWork(site, k, WriteDown), site.calls[k];
      && site' == site.(recorded := site'.recorded, calls := site.calls[k := c.(stage := Written)],
                        gone := site.gone - {(c.host, c.project)})
      && forall l :: l in site'.recorded <==>
           if l.host == c.host && l.project == c.project then AsksFor(c, l) else l in site.recorded
  {
    var c := site.calls[k];
    var first := Put(site.recorded, Cpu, c.host, c.project, Asked(c, Cpu));
    PutHolds(site.recorded, Cpu, c.host, c.project, Asked(c, Cpu));
    PutHolds(first, Memory, c.host, c.project, Asked(c, Memory));
    forall l: Limit | l.host == c.host && l.project == c.project
      ensures AsksFor(c, l) <==> Asked(c, l.r) == Some(l.amount)
    {
      AskedIs(c, l);
    }
  }

  /** Each limit that is asked for leaves at least one unit to each of the containers, and there are some. */
  ghost predicate GoesRound(c: Call, n: nat)
  {
    n > 0 && forall l :: AsksFor(c, l) ==> n <= l.amount
  }

  lemma GoesRoundIs(c: Call, n: nat)
    ensures GoesRound(c, n) <==> Applies(Asked(c, Cpu), Asked(c, Memory), n)
  {
    var cpu, mem := Asked(c, Cpu), Asked(c, Memory);
    forall l | AsksFor(c, l) ensures Asked(c, l.r) == Some(l.amount) { AskedIs(c, l); }
    if GoesRound(c, n) {
      if cpu.Some? {
        AskedIs(c, Limit(Cpu, c.host, c.project, cpu.value));
        assert AsksFor(c, Limit(Cpu, c.host, c.project, cpu.value));
      }
      if mem.Some? {
        AskedIs(c, Limit(Memory, c.host, c.project, mem.value));
        assert AsksFor(c, Limit(Memory, c.host, c.project, mem.value));
      }
    }
  }

  /** A limit of that kind is asked for at all. */
  ghost predicate AsksOfKind(c: Call, l: Limit)
  {
    exists amount :: AsksFor(c, l.(amount := amount))
  }

  lemma AsksOfKindIs(c: Call, l: Limit)
    requires l.host == c.host && l.project == c.project
    ensures AsksOfKind(c, l) <==> Asked(c, l.r).Some?
  {
    forall amount: nat ensures AsksFor(c, l.(amount := amount)) <==> Asked(c, l.r) == Some(amount) {
      AskedIs(c, l.(amount := amount));
    }
    if Asked(c, l.r).Some? { assert AsksFor(c, l.(amount := Asked(c, l.r).value)); }
  }

  /** Raising the project enforces exactly the limits that the call asks for, if they go round, and leaves
      every limit that it does not ask for as it was. */
  lemma Raising(site: Site, k: nat, n: nat)
    requires UniqueLimits(site.enforced) && IsAtStage(site, k, Written)
    ensures var site', c := AfterWork(site, k, Raise(n)), site.calls[k];
      && site' == site.(enforced := site'.enforced, calls := site.calls[k := c.(stage := Raised)],
                        gone := site.gone - {(c.host, c.project)})
      && forall l :: l in site'.enforced <==>
           if GoesRound(c, n) && AsksOfKind(c, l) then AsksFor(c, l) else l in site.enforced
  {
    var c := site.calls[k];
    AppliedHolds(site.enforced, c.host, c.project, Asked(c, Cpu), Asked(c, Memory), n);
    GoesRoundIs(c, n);
    forall l: Limit ensures AsksOfKind(c, l) ==> l.host == c.host && l.project == c.project {
    }
    forall l: Limit | l.host == c.host && l.project == c.project
      ensures AsksFor(c, l) <==> Asked(c, l.r) == Some(l.amount)
      ensures AsksOfKind(c, l) <==> Asked(c, l.r).Some?
    {
      AskedIs(c, l);
      AsksOfKindIs(c, l);
    }
  }

  /** A call can end at any time, and nothing is done for one that has ended, or out of turn. */
  lemma EndingAndOutOfTurn(site: Site, k: nat, n: nat)
    ensures k < |site.calls| ==>
      AfterWork(site, k, Finish) == site.(calls := site.calls[k := site.calls[k].(done := true)])
    ensures !IsAtStage(site, k, Waiting) ==> AfterWork(site, k, WriteDown) == site
    ensures !IsAtStage(site, k, Written) ==> AfterWork(site, k, Raise(n)) == site
    ensures k >= |site.calls| ==> AfterWork(site, k, Finish) == site
  {
    if k < |site.calls| && site.calls[k].done {
      assert site.calls[k].(done := true) == site.calls[k];
      assert site.calls[k := site.calls[k]] == site.calls;
    }
  }

  /** A project that is brought up enforces what is written down for it, if that goes round. */
  lemma BringingUp(site: Site, host: int, project: string, n: nat)
    requires UniqueLimits(site.recorded) && UniqueLimits(site.enforced)
    ensures var site' := SiteStep(site, BringUp(host, project, n));
      var goesRound := n > 0 && forall q :: q in site.recorded && q.host == host && q.project == project ==>
        n <= q.amount;
      && site' == site.(enforced := site'.enforced)
      && forall l :: l in site'.enforced <==>
           if goesRound && l.host == host && l.project == project &&
              exists amount :: l.(amount := amount) in site.recorded
           then l in site.recorded else l in site.enforced
  {
    var cpu, mem := HeldFor(site.recorded, Cpu, host, project), HeldFor(site.recorded, Memory, host, project);
    AppliedHolds(site.enforced, host, project, cpu, mem, n);
    WrittenDownGoesRound(site.recorded, host, project, n);
    forall l: Limit | l.host == host && l.project == project
      ensures l in site.recorded <==> OfResource(l.r, cpu, mem) == Some(l.amount)
      ensures (exists amount :: l.(amount := amount) in site.recorded) <==> OfResource(l.r, cpu, mem).Some?
    {
      WrittenDownIs(site.recorded, l);
    }
  }

  lemma WrittenDownIs(recorded: seq<Limit>, l: Limit)
    requires UniqueLimits(recorded)
    ensures var held := HeldFor(recorded, l.r, l.host, l.project);
      && (l in recorded <==> held == Some(l.amount))
      && ((exists amount :: l.(amount := amount) in recorded) <==> held.Some?)
  {
    var held := HeldFor(recorded, l.r, l.host, l.project);
    HeldForHolds(recorded, l.r, l.host, l.project);
    if l in recorded { HeldIsTheOnlyOne(recorded, l); }
    if held.Some? { assert l.(amount := held.value) in recorded; }
  }

  lemma WrittenDownGoesRound(recorded: seq<Limit>, host: int, project: string, n: nat)
    requires UniqueLimits(recorded)
    ensures var cpu, mem := HeldFor(recorded, Cpu, host, project), HeldFor(recorded, Memory, host, project);
      Applies(cpu, mem, n) <==>
      n > 0 && forall q :: q in recorded && q.host == host && q.project == project ==> n <= q.amount
  {
    HeldForHolds(recorded, Cpu, host, project);
    HeldForHolds(recorded, Memory, host, project);
    forall q | q in recorded && q.host == host && q.project == project
      ensures HeldFor(recorded, q.r, host, project) == Some(q.amount)
    {
      HeldIsTheOnlyOne(recorded, q);
    }
  }

  lemma {:induction false} HeldIsTheOnlyOne(limits: seq<Limit>, q: Limit)
    requires UniqueLimits(limits) && q in limits
    ensures HeldFor(limits, q.r, q.host, q.project) == Some(q.amount)
    decreases limits
  {
    if q != limits[0] { HeldIsTheOnlyOne(limits[1..], q); }
  }

  /** A limit that is lost in part is at most what is left of it, and no other changes. */
  lemma Losing(site: Site, r: Resource, host: int, project: string, left: Option<nat>)
    requires UniqueLimits(site.enforced)
    ensures var site' := SiteStep(site, Lose(r, host, project, left));
      && site' == site.(enforced := site'.enforced)
      && forall l :: l in site'.enforced <==>
           if l.r == r && l.host == host && l.project == project then
             left.Some? && exists a :: l.(amount := a) in site.enforced && l.amount == if left.value < a then left.value
               else a
           else l in site.enforced
  {
    var held := HeldFor(site.enforced, r, host, project);
    HeldForHolds(site.enforced, r, host, project);
    forall q | q in site.enforced && IsAt(q, r, host, project) ensures held == Some(q.amount) {
      HeldIsTheOnlyOne(site.enforced, q);
    }
    if held.Some? {
      var amount := match left case None => None case Some(b) => Some(if b < held.value then b else held.value);
      PutHolds(site.enforced, r, host, project, amount);
    }
  }

  /** A removal that works takes all limits of the project and no other. */
  lemma Removing(site: Site, host: int, project: string)
    requires UniqueLimits(site.recorded) && UniqueLimits(site.enforced)
    ensures var site' := SiteStep(site, Remove(host, project));
      && site' == site.(recorded := site'.recorded, enforced := site'.enforced, gone := site.gone + {(host, project)})
      && (forall l :: l in site'.recorded <==> l in site.recorded && !(l.host == host && l.project == project))
      && (forall l :: l in site'.enforced <==> l in site.enforced && !(l.host == host && l.project == project))
  {
    WithoutProjectHolds(site.recorded, host, project);
    WithoutProjectHolds(site.enforced, host, project);
  }

  /** A check that lets a deployment into flight sends its lab host a call for a project, with the limits
      asked for, or with none where the deployment is charged for none; any other check changes nothing. */
  lemma Calling(site: Site, lab: Lab, kind: Kind, name: string, cpu: Option<Amount>, text: Option<string>)
    requires UniqueLabIds(site.s.db.labs) && lab in site.s.db.labs
    ensures var site' := SiteStep(site, BeginDeploy(lab.id, kind, name, cpu, text));
      var read := text.None? || M.ToMiB(text.value).Ok?;
      var mem := if text.Some? && read then Some(M.ToMiB(text.value).value) else None;
      var s' := Begin(site.s, lab.id, kind, name, cpu, mem);
      if !read || s' == site.s then site' == site else
      && lab.host in s'.inFlight
      && var d := s'.inFlight[lab.host];
         var call := Call(lab.host, name, d.cpu, if d.mem.Some? then text else None, Waiting, false);
         site' == if kind == Project
                  then site.(s := s', calls := site.calls + [call], current := site.current[lab.host := |site.calls|])
                  else site.(s := s')
  {
    UniqueMeansSame(site.s.db.labs, lab);
    BeginEffect(site, lab.id, kind, name, cpu, text);
  }

  /** Every other step of the control plane changes its tables alone, and a deployment that ends is waited
      for no longer. */
  lemma TableSteps(site: Site, e: Event)
    ensures SiteStep(site, Plain(e)) ==
      if e.BeginEvent? then site else
      site.(s := Step(site.s, e),
            current := if e.CommitEvent? || e.AbandonEvent? then site.current - {e.host} else site.current)
  {
    if e.DeleteHostEvent? { assert SiteStep(site, Plain(e)) == site.(s := Step(site.s, e)); }
  }
}

/** The limits that lab hosts hold for compose projects, over runs of both services. A lab host works on
    the requests it was sent at its own pace, whether the control plane still waits for it or not. */
module LabHostLimits {
  import opened Wrappers
  import opened Tables
  import opened DeployRuns
  import M = MemoryLimits
  import P = ProjectLimits

  /** A limit that a lab host holds for a project, all its containers together: bytes of memory, or
      units of CPU quota. */
  datatype Limit = Limit(r: Resource, host: int, project: string, amount: nat)

  /** How far a lab host has got with a deployment: it has written the limits down, and has raised the
      project and applied them. */
  datatype Stage = Waiting | Written | Raised

  /** A deployment as it was sent to a lab host. */
  datatype Call = Call(host: int, project: string, cpu: Option<Amount>, text: Option<string>, stage: Stage, done: bool)

  /** The tables with the deployments in flight; all calls made so far, and which of them a deployment in
      flight waits for, by host; the projects that a lab host has removed and not touched since; and the
      limits that lab hosts have written down and those that containers run under. */
  datatype Site = Site(s: State, calls: seq<Call>, current: map<int, nat>, gone: set<(int, string)>,
                       recorded: seq<Limit>, enforced: seq<Limit>)

  // ---------------------------------------------------------------- the lab host's part

  predicate IsAt(l: Limit, r: Resource, host: int, project: string)
  {
    l.r == r && l.host == host && l.project == project
  }

  function Put(limits: seq<Limit>, r: Resource, host: int, project: string, amount: Option<nat>): seq<Limit>
  {
    Keep(limits, (l: Limit) => !IsAt(l, r, host, project)) +
    match amount case None => [] case Some(a) => [Limit(r, host, project, a)]
  }

  function WithoutProject(limits: seq<Limit>, host: int, project: string): seq<Limit>
  {
    Keep(limits, (l: Limit) => !(l.host == host && l.project == project))
  }

  function HeldFor(limits: seq<Limit>, r: Resource, host: int, project: string): Option<nat>
  {
    if limits == [] then None
    else if IsAt(limits[0], r, host, project) then Some(limits[0].amount)
    else HeldFor(limits[1..], r, host, project)
  }

  /** What a call asks a lab host to enforce. */
  function Asked(c: Call, r: Resource): Option<nat>
  {
    match r
    case Cpu => (match c.cpu case None => None case Some(cpu) => Some(P.CpuQuota(cpu)))
    case Memory => (match c.text case None => None case Some(text) => BytesOf(text))
  }

  function BytesOf(text: string): Option<nat>
  {
    match M.ToBytes(text) case Ok(bytes) => Some(bytes) case Err(_) => None
  }

  function OfResource(r: Resource, cpu: Option<nat>, mem: Option<nat>): Option<nat>
  {
    match r case Cpu => cpu case Memory => mem
  }

  /** Limits are applied to n containers if there are any and each limit has a unit for each of them. */
  predicate Applies(cpu: Option<nat>, mem: Option<nat>, n: nat)
  {
    n > 0 && (cpu.Some? ==> n <= cpu.value) && (mem.Some? ==> n <= mem.value)
  }

  function Divided(limits: seq<Limit>, r: Resource, host: int, project: string, amount: Option<nat>, n: nat): seq<Limit>
    requires n > 0
  {
    match amount case None => limits case Some(a) => Put(limits, r, host, project, Some(P.SumNat(P.Shares(a, n))))
  }

  function Applied(limits: seq<Limit>, host: int, project: string, cpu: Option<nat>, mem: Option<nat>,
                   n: nat): seq<Limit>
  {
    if !Applies(cpu, mem, n) then limits else
    Divided(Divided(limits, Cpu, host, project, cpu, n), Memory, host, project, mem, n)
  }

  /** What is left of a limit when containers go, or are made anew without one. */
  function Lessened(limits: seq<Limit>, r: Resource, host: int, project: string, left: Option<nat>): seq<Limit>
  {
    match (HeldFor(limits, r, host, project), left)
    case (None, _) => limits
    case (Some(_), None) => Put(limits, r, host, project, None)
    case (Some(a), Some(b)) => Put(limits, r, host, project, Some(if b < a then b else a))
  }

  /** The old directory of the project is thrown away; the limits are written down; the project is raised
      with some number of containers; the call ends, in whatever way. */
  datatype Work = LoseSource | WriteDown | Raise(containers: nat) | Finish

  predicate CanWork(site: Site, k: nat, w: Work)
  {
    && k < |site.calls| && !site.calls[k].done
    && match w
       case LoseSource => site.calls[k].stage == Waiting
       case WriteDown => site.calls[k].stage == Waiting
       case Raise(_) => site.calls[k].stage == Written
       case Finish => true
  }

  function AfterWork(site: Site, k: nat, w: Work): Site
  {
    if !CanWork(site, k, w) then site else
    var c := site.calls[k];
    match w
    case LoseSource => site.(recorded := WithoutProject(site.recorded, c.host, c.project))
    case WriteDown =>
      site.(recorded := Put(Put(site.recorded, Cpu, c.host, c.project, Asked(c, Cpu)), Memory, c.host, c.project,
                            Asked(c, Memory)),
            calls := site.calls[k := c.(stage := Written)], gone := site.gone - {(c.host, c.project)})
    case Raise(n) =>
      site.(enforced := Applied(site.enforced, c.host, c.project, Asked(c, Cpu), Asked(c, Memory), n),
            calls := site.calls[k := c.(stage := Raised)], gone := site.gone - {(c.host, c.project)})
    case Finish => site.(calls := site.calls[k := c.(done := true)])
  }

  // ---------------------------------------------------------------- steps

  /** A deployment that has passed its check; for a project the lab host is called. */
  function Started(site: Site, s': State, host: int, text: Option<string>): Site
    requires host in s'.inFlight
  {
    var d := s'.inFlight[host];
    if d.kind != Project then site.(s := s') else
    var call := Call(host, d.name, d.cpu, if d.mem.None? then None else text, Waiting, false);
    site.(s := s', calls := site.calls + [call], current := site.current[host := |site.calls|])
  }

  /** The check, on the text of the request, and the call that follows it. On an unbounded host neither
      limit is passed on. */
  function BeginText(site: Site, lab: int, kind: Kind, name: string, cpu: Option<Amount>, text: Option<string>): Site
  {
    match (M.ToOptionalMiB(text), FindLab(site.s.db.labs, lab))
    case (Ok(mem), Some(l)) =>
      var s' := Begin(site.s, lab, kind, name, cpu, mem);
      if l.host in site.s.inFlight || l.host !in s'.inFlight then site else Started(site, s', l.host, text)
    case _ => site
  }

  /** A check changes nothing, or puts one deployment in flight on the host of its lab. */
  lemma BeginEffect(site: Site, lab: int, kind: Kind, name: string, cpu: Option<Amount>, text: Option<string>)
    ensures var site' := BeginText(site, lab, kind, name, cpu, text);
      site' == site ||
      (&& FindLab(site.s.db.labs, lab).Some? && M.ToOptionalMiB(text).Ok?
       && var host := FindLab(site.s.db.labs, lab).value.host;
       && var s' := Begin(site.s, lab, kind, name, cpu, M.ToOptionalMiB(text).value);
       && host !in site.s.inFlight && host in s'.inFlight && s'.inFlight[host].lab == lab
       && s' == site.s.(inFlight := site.s.inFlight[host := s'.inFlight[host]])
       && site' == Started(site, s', host, text))
  {
  }

  /** The control plane waits no longer; the lab host does not notice. */
  function Ended(site: Site, s': State, host: int): Site
  {
    site.(s := s', current := site.current - {host})
  }

  datatype SiteEvent =
    | Plain(e: Event)  // what the control plane does to its tables, but for checks
    | BeginDeploy(lab: int, kind: Kind, name: string, cpu: Option<Amount>, text: Option<string>)
    | LabHost(k: nat, w: Work)  // work on a call, however old
    | BringUp(host: int, project: string, containers: nat)
    | Lose(r: Resource, host: int, project: string, left: Option<nat>)
    | Remove(host: int, project: string)  // a removal that works; the row is deleted later, or not

  function SiteStep(site: Site, e: SiteEvent): Site
  {
    match e
    case Plain(e) => (
      match e
      case BeginEvent(_, _, _, _, _) => site
      case CommitEvent(host, _, _) => Ended(site, Step(site.s, e), host)
      case AbandonEvent(host) => Ended(site, Step(site.s, e), host)
      case _ => site.(s := Step(site.s, e))
    )
    case BeginDeploy(lab, kind, name, cpu, text) => BeginText(site, lab, kind, name, cpu, text)
    case LabHost(k, w) => AfterWork(site, k, w)
    case BringUp(host, project, n) =>
      site.(enforced := Applied(site.enforced, host, project, HeldFor(site.recorded, Cpu, host, project),
                                HeldFor(site.recorded, Memory, host, project), n))
    case Lose(r, host, project, left) => site.(enforced := Lessened(site.enforced, r, host, project, left))
    case Remove(host, project) =>
      site.(recorded := WithoutProject(site.recorded, host, project),
            enforced := WithoutProject(site.enforced, host, project),
            gone := site.gone + {(host, project)})
  }

  function SiteRun(site: Site, events: seq<SiteEvent>): Site
    decreases events
  {
    if events == [] then site else SiteRun(SiteStep(site, events[0]), events[1..])
  }

  const EMPTY_SITE := Site(EMPTY, [], map[], {}, [], [])

  // ---------------------------------------------------------------- what the tables know

  predicate UniqueRowIds(rows: seq<Row>)
  {
    forall i, j :: 0 <= i < j < |rows| ==> rows[i].id != rows[j].id
  }

  predicate RowIdsInUse(rows: seq<Row>, next: int)
  {
    UniqueRowIds(rows) && forall row :: row in rows ==> row.id.n < next
  }

  /** A project deployment knows the row that it replaces by its lab and name. */
  predicate KnowsReplaced(rows: seq<Row>, next: int, d: Deploy)
  {
    match d.replaced
    case None => true
    case Some(id) =>
      && id.kind == d.kind && id.n < next
      && (d.kind == Project ==> forall row :: row in rows && row.id == id ==> row.lab == d.lab && row.name == d.name)
  }

  /** The text that a deployment is sent with is the one it is charged for. */
  predicate TextIsCharged(mem: Option<nat>, text: Option<string>)
  {
    match mem case None => text.None? case Some(mb) => text.Some? && M.ToMiB(text.value) == Ok(mb)
  }

  /** The call that a deployment waits for asks for what the deployment is charged. */
  predicate HasCall(calls: seq<Call>, current: map<int, nat>, host: int, d: Deploy)
  {
    && host in current && current[host] < |calls|
    && var c := calls[current[host]];
    && c.host == host && c.project == d.name && c.cpu == d.cpu && TextIsCharged(d.mem, c.text)
  }

  predicate Flights(site: Site)
  {
    && (forall h :: h in site.current ==> h in site.s.inFlight && site.s.inFlight[h].kind == Project)
    && (forall h :: h in site.s.inFlight ==>
          && KnowsReplaced(site.s.db.rows, site.s.next, site.s.inFlight[h])
          && (site.s.inFlight[h].kind == Project ==> HasCall(site.calls, site.current, h, site.s.inFlight[h])))
  }

  predicate UniqueLimits(limits: seq<Limit>)
  {
    forall i, j :: 0 <= i < j < |limits| ==> !IsAt(limits[i], limits[j].r, limits[j].host, limits[j].project)
  }

  predicate Sound(site: Site)
  {
    && IdsInSequence(site.s) && LabCaps(site.s)
    && RowIdsInUse(site.s.db.rows, site.s.next)
    && Flights(site)
    && UniqueLimits(site.recorded) && UniqueLimits(site.enforced)
  }

  // ---------------------------------------------------------------- what becomes of limits

  lemma {:induction false} KeptLimits(limits: seq<Limit>, p: Limit -> bool)
    requires UniqueLimits(limits)
    ensures UniqueLimits(Keep(limits, p))
    decreases limits
  {
    if limits != [] {
      var rest := Keep(limits[1..], p);
      KeptLimits(limits[1..], p);
      forall j | 0 <= j < |rest| ensures rest[j] in limits[1..] { assert rest[j] in rest; }
      assert Keep(limits, p) == (if p(limits[0]) then [limits[0]] else []) + rest;
    }
  }

  lemma PutHolds(limits: seq<Limit>, r: Resource, host: int, project: string, amount: Option<nat>)
    requires UniqueLimits(limits)
    ensures UniqueLimits(Put(limits, r, host, project, amount))
    ensures forall l :: l in Put(limits, r, host, project, amount) <==>
      if IsAt(l, r, host, project) then amount == Some(l.amount) else l in limits
  {
    var p := (l: Limit) => !IsAt(l, r, host, project);
    var kept := Keep(limits, p);
    KeptLimits(limits, p);
    forall j | 0 <= j < |kept| ensures p(kept[j]) { assert kept[j] in kept; }
  }

  lemma WithoutProjectHolds(limits: seq<Limit>, host: int, project: string)
    requires UniqueLimits(limits)
    ensures UniqueLimits(WithoutProject(limits, host, project))
    ensures forall l :: l in WithoutProject(limits, host, project) <==>
      l in limits && !(l.host == host && l.project == project)
  {
    KeptLimits(limits, (l: Limit) => !(l.host == host && l.project == project));
  }

  lemma DividedHolds(limits: seq<Limit>, r: Resource, host: int, project: string, amount: Option<nat>, n: nat)
    requires UniqueLimits(limits) && n > 0
    ensures UniqueLimits(Divided(limits, r, host, project, amount, n))
    ensures forall l :: l in Divided(limits, r, host, project, amount, n) <==>
      if IsAt(l, r, host, project) && amount.Some? then amount == Some(l.amount) else l in limits
  {
    if amount.Some? {
      P.SharesConserve(amount.value, n);
      PutHolds(limits, r, host, project, amount);
    }
  }

  /** Whatever the number of containers, limits that are applied add up to what was asked. */
  lemma AppliedHolds(limits: seq<Limit>, host: int, project: string, cpu: Option<nat>, mem: Option<nat>, n: nat)
    requires UniqueLimits(limits)
    ensures UniqueLimits(Applied(limits, host, project, cpu, mem, n))
    ensures forall l :: l in Applied(limits, host, project, cpu, mem, n) <==>
      if Applies(cpu, mem, n) && l.host == host && l.project == project && OfResource(l.r, cpu, mem).Some?
      then OfResource(l.r, cpu, mem) == Some(l.amount) else l in limits
  {
    if Applies(cpu, mem, n) {
      DividedHolds(limits, Cpu, host, project, cpu, n);
      DividedHolds(Divided(limits, Cpu, host, project, cpu, n), Memory, host, project, mem, n);
    }
  }

  lemma {:induction false} HeldForHolds(limits: seq<Limit>, r: Resource, host: int, project: string)
    ensures var held := HeldFor(limits, r, host, project);
      if held.Some? then Limit(r, host, project, held.value) in limits
      else forall l :: l in limits ==> !IsAt(l, r, host, project)
    decreases limits
  {
    if limits != [] && !IsAt(limits[0], r, host, project) { HeldForHolds(limits[1..], r, host, project); }
  }

  lemma LessenedHolds(limits: seq<Limit>, r: Resource, host: int, project: string, left: Option<nat>)
    requires UniqueLimits(limits)
    ensures UniqueLimits(Lessened(limits, r, host, project, left))
    ensures forall l :: l in Lessened(limits, r, host, project, left) ==>
      l in limits || exists a :: a >= l.amount && Limit(l.r, l.host, l.project, a) in limits
  {
    var held := HeldFor(limits, r, host, project);
    HeldForHolds(limits, r, host, project);
    if held.Some? {
      var amount := match left case None => None case Some(b) => Some(if b < held.value then b else held.value);
      PutHolds(limits, r, host, project, amount);
      forall l | l in Lessened(limits, r, host, project, left) && l !in limits
        ensures exists a :: a >= l.amount && Limit(l.r, l.host, l.project, a) in limits
      {
        assert Limit(l.r, l.host, l.project, held.value) in limits;
      }
    }
  }

  /** What a piece of work adds: the limits of its call that are written down or applied. */
  predicate Adds(site: Site, k: nat, w: Work, l: Limit)
  {
    && CanWork(site, k, w)
    && (w.WriteDown? || (w.Raise? && Applies(Asked(site.calls[k], Cpu), Asked(site.calls[k], Memory), w.containers)))
    && l.host == site.calls[k].host && l.project == site.calls[k].project && Asked(site.calls[k], l.r) == Some(l.amount)
  }

  lemma AfterWorkHolds(site: Site, k: nat, w: Work)
    requires UniqueLimits(site.recorded) && UniqueLimits(site.enforced)
    ensures var site' := AfterWork(site, k, w);
      && UniqueLimits(site'.recorded) && UniqueLimits(site'.enforced)
      && (forall l :: l in site'.recorded ==> l in site.recorded || Adds(site, k, w, l))
      && (forall l :: l in site'.enforced ==> l in site.enforced || Adds(site, k, w, l))
      && (forall l :: Adds(site, k, w, l) ==> l in site'.recorded || l in site'.enforced)
  {
    if CanWork(site, k, w) {
      var c := site.calls[k];
      match w
      case LoseSource => WithoutProjectHolds(site.recorded, c.host, c.project);
      case WriteDown =>
        PutHolds(site.recorded, Cpu, c.host, c.project, Asked(c, Cpu));
        PutHolds(Put(site.recorded, Cpu, c.host, c.project, Asked(c, Cpu)), Memory, c.host, c.project,
                 Asked(c, Memory));
      case Raise(n) => AppliedHolds(site.enforced, c.host, c.project, Asked(c, Cpu), Asked(c, Memory), n);
      case Finish =>
    }
  }

  /** Bringing a project up applies what was written down for it and nothing else. */
  lemma BringUpHolds(site: Site, host: int, project: string, n: nat)
    requires UniqueLimits(site.recorded) && UniqueLimits(site.enforced)
    ensures var site' := SiteStep(site, BringUp(host, project, n));
      && UniqueLimits(site'.enforced)
      && (forall l :: l in site'.enforced ==>
          l in site.enforced || (l in site.recorded && l.host == host && l.project == project))
  {
    HeldForHolds(site.recorded, Cpu, host, project);
    HeldForHolds(site.recorded, Memory, host, project);
    AppliedHolds(site.enforced, host, project, HeldFor(site.recorded, Cpu, host, project),
                 HeldFor(site.recorded, Memory, host, project), n);
  }

  // ---------------------------------------------------------------- soundness is kept

  lemma {:induction false} KeptRowIds(rows: seq<Row>, p: Row -> bool)
    requires UniqueRowIds(rows)
    ensures UniqueRowIds(Keep(rows, p))
    decreases rows
  {
    if rows != [] {
      var rest := Keep(rows[1..], p);
      KeptRowIds(rows[1..], p);
      forall j | 0 <= j < |rest| ensures rest[j] in rows[1..] { assert rest[j] in rest; }
      assert Keep(rows, p) == (if p(rows[0]) then [rows[0]] else []) + rest;
    }
  }

  lemma CommitKeepsRowIds(s: State, host: int, name: string, runtimeId: string)
    requires host in s.inFlight && RowIdsInUse(s.db.rows, s.next) && KnowsReplaced(s.db.rows, s.next, s.inFlight[host])
    ensures RowIdsInUse(Commit(s, host, name, runtimeId).db.rows, s.next + 1)
  {
    var d, rows := s.inFlight[host], s.db.rows;
    if Writes(s.db.labs, rows, d, runtimeId) {
      var row := CommitAddsOneRow(s.db.labs, rows, d, s.next, name, runtimeId);
      var kept := Kept(rows, d, runtimeId);
      KeptKeepsIds(rows, d, runtimeId);
      forall q | q in kept ensures q.id != row.id && q.id.n < s.next {
        assert q in rows;
      }
      forall j | 0 <= j < |kept| ensures kept[j].id != row.id { assert kept[j] in kept; }
    }
  }

  lemma KeptKeepsIds(rows: seq<Row>, d: Deploy, runtimeId: string)
    requires UniqueRowIds(rows)
    ensures UniqueRowIds(Kept(rows, d, runtimeId))
    ensures forall q :: q in Kept(rows, d, runtimeId) <==>
      q in rows && Some(q.id) != d.replaced && Some(q.id) != Taken(rows, d, runtimeId)
  {
    match Taken(rows, d, runtimeId)
    case Some(id) => DropOptional(rows, id, d.replaced);
    case None =>
      match d.replaced
      case Some(id) => DropOptional(rows, id, Some(id));
      case None =>
  }

  lemma DropOptional(rows: seq<Row>, id: RowId, other: Option<RowId>)
    requires UniqueRowIds(rows)
    ensures UniqueRowIds(WithoutOptional(Without(rows, id), other))
    ensures forall q :: q in WithoutOptional(Without(rows, id), other) <==>
      q in rows && q.id != id && Some(q.id) != other
  {
    KeptRowIds(rows, (row: Row) => row.id != id);
    if other.Some? { KeptRowIds(Without(rows, id), (row: Row) => row.id != other.value); }
  }

  /** The row of one commit is never the row that a deployment on another host replaces. */
  lemma CommitKeepsOtherFlights(s: State, host: int, name: string, runtimeId: string, other: int)
    requires IdsInSequence(s) && RowIdsInUse(s.db.rows, s.next) && host in s.inFlight && other in s.inFlight
    requires other != host
    requires KnowsReplaced(s.db.rows, s.next, s.inFlight[host]) && KnowsReplaced(s.db.rows, s.next, s.inFlight[other])
    ensures KnowsReplaced(Commit(s, host, name, runtimeId).db.rows, s.next + 1, s.inFlight[other])
  {
    var d, rows := s.inFlight[host], s.db.rows;
    if Writes(s.db.labs, rows, d, runtimeId) {
      var row := CommitIsRecorded(s, host, name, runtimeId);
      TakenIsEnvironment(rows, d, runtimeId);
      if d.replaced.Some? && HasRow(rows, d.replaced.value) { FlightsReplaceDifferentRows(s, host, other); }
    }
  }

  lemma TakenIsEnvironment(rows: seq<Row>, d: Deploy, runtimeId: string)
    ensures Taken(rows, d, runtimeId).Some? ==>
      d.kind == Environment && Taken(rows, d, runtimeId).value.kind == Environment
  {
    var taken := ByRuntimeId(rows, runtimeId);
    if taken != [] { assert taken[0] in taken; }
  }

  lemma FlightsReplaceDifferentRows(s: State, host: int, other: int)
    requires IdsInSequence(s) && host in s.inFlight && other in s.inFlight && other != host
    requires KnowsReplaced(s.db.rows, s.next, s.inFlight[host]) && KnowsReplaced(s.db.rows, s.next, s.inFlight[other])
    requires s.inFlight[host].replaced.Some? && HasRow(s.db.rows, s.inFlight[host].replaced.value)
    requires FindLab(s.db.labs, s.inFlight[host].lab).Some?
    ensures s.inFlight[other].kind == Project ==> s.inFlight[host].replaced != s.inFlight[other].replaced
  {
    var d, e := s.inFlight[host], s.inFlight[other];
    var before := RowById(s.db.rows, d.replaced.value);
    var l := FindLab(s.db.labs, d.lab).value;
    assert l in s.db.labs && l.host == host;
    assert d.lab != e.lab;
  }

  lemma {:induction false} RowById(rows: seq<Row>, id: RowId) returns (row: Row)
    requires HasRow(rows, id)
    ensures row in rows && row.id == id
    decreases rows
  {
    if rows[0].id == id { row := rows[0]; } else { row := RowById(rows[1..], id); }
  }

  lemma {:induction false} DeleteLabsOnlyRemove(s: State, labs: seq<Lab>)
    requires UniqueRowIds(s.db.rows)
    ensures var s' := DeleteLabs(s, labs);
      && s'.inFlight == s.inFlight && s'.next == s.next && UniqueRowIds(s'.db.rows)
      && (forall row :: row in s'.db.rows <==> row in s.db.rows && forall k :: k in labs ==> row.lab != k.id)
      && (forall l :: l in s'.db.labs <==> l in s.db.labs && forall k :: k in labs ==> l.id != k.id)
    decreases labs
  {
    if labs != [] {
      KeptRowIds(s.db.rows, (row: Row) => row.lab != labs[0].id);
      DeleteLabsOnlyRemove(DeleteLab(s, labs[0].id), labs[1..]);
      assert forall k :: k in labs <==> k == labs[0] || k in labs[1..];
    }
  }

  lemma FewerRowsKeepFlights(site: Site, s': State)
    requires Flights(site) && s'.inFlight == site.s.inFlight && s'.next >= site.s.next
    requires forall row :: row in s'.db.rows ==> row in site.s.db.rows
    ensures Flights(site.(s := s'))
  {
    forall h | h in s'.inFlight ensures KnowsReplaced(s'.db.rows, s'.next, s'.inFlight[h]) {
      assert KnowsReplaced(site.s.db.rows, site.s.next, site.s.inFlight[h]);
    }
  }

  lemma MoreCallsKeepFlights(site: Site, calls: seq<Call>)
    requires Flights(site) && |site.calls| <= |calls|
    requires forall k :: 0 <= k < |site.calls| ==>
      calls[k] == site.calls[k].(stage := calls[k].stage, done := calls[k].done)
    ensures Flights(site.(calls := calls))
  {
  }

  lemma BeginIsSound(site: Site, lab: int, kind: Kind, name: string, cpu: Option<Amount>, text: Option<string>)
    requires Sound(site)
    ensures Sound(BeginText(site, lab, kind, name, cpu, text))
  {
    var site' := BeginText(site, lab, kind, name, cpu, text);
    if site' != site {
      var mem := M.ToOptionalMiB(text).value;
      BeginKeepsCaps(site.s, lab, kind, name, cpu, mem);
      var host := FindLab(site.s.db.labs, lab).value.host;
      BeginKnowsReplaced(site.s, lab, kind, name, cpu, mem);
      forall h | h in site'.s.inFlight
        ensures KnowsReplaced(site'.s.db.rows, site'.s.next, site'.s.inFlight[h])
        ensures site'.s.inFlight[h].kind == Project ==> HasCall(site'.calls, site'.current, h, site'.s.inFlight[h])
      {
        if h != host { assert site'.s.inFlight[h] == site.s.inFlight[h]; }
      }
    }
  }

  lemma BeginKnowsReplaced(s: State, lab: int, kind: Kind, name: string, cpu: Option<Amount>, mem: Option<nat>)
    requires RowIdsInUse(s.db.rows, s.next) && FindLab(s.db.labs, lab).Some?
    requires var host := FindLab(s.db.labs, lab).value.host;
      host !in s.inFlight && host in Begin(s, lab, kind, name, cpu, mem).inFlight
    ensures var host := FindLab(s.db.labs, lab).value.host;
      var d := Begin(s, lab, kind, name, cpu, mem).inFlight[host];
      && KnowsReplaced(s.db.rows, s.next, d) && (d.mem == mem || d.mem.None?)
  {
    var named := Named(s.db.rows, kind, lab, name);
    if named != [] {
      assert named[0] in named;
      SameIdSameRow(s.db.rows, named[0]);
    }
  }

  lemma SameIdSameRow(rows: seq<Row>, row: Row)
    requires UniqueRowIds(rows) && row in rows
    ensures forall q :: q in rows && q.id == row.id ==> q == row
  {
  }

  lemma CommitIsSound(site: Site, host: int, name: string, runtimeId: string)
    requires Sound(site)
    ensures Sound(SiteStep(site, Plain(CommitEvent(host, name, runtimeId))))
  {
    var s, s' := site.s, Commit(site.s, host, name, runtimeId);
    StepKeepsCaps(s, CommitEvent(host, name, runtimeId));
    if host in s.inFlight {
      CommitKeepsRowIds(s, host, name, runtimeId);
      forall h | h in s'.inFlight ensures KnowsReplaced(s'.db.rows, s'.next, s'.inFlight[h]) {
        CommitKeepsOtherFlights(s, host, name, runtimeId, h);
      }
    }
  }

  lemma DeleteRowIsSound(site: Site, id: RowId)
    requires Sound(site)
    ensures Sound(site.(s := DeleteRow(site.s, id)))
  {
    KeptRowIds(site.s.db.rows, (row: Row) => row.id != id);
    DeleteRowKeepsCaps(site.s, id);
    FewerRowsKeepFlights(site, DeleteRow(site.s, id));
  }

  lemma DeleteLabIsSound(site: Site, lab: int)
    requires Sound(site)
    ensures Sound(site.(s := DeleteLab(site.s, lab)))
  {
    KeptRowIds(site.s.db.rows, (row: Row) => row.lab != lab);
    DeleteLabKeepsCaps(site.s, lab);
    FewerRowsKeepFlights(site, DeleteLab(site.s, lab));
  }

  lemma DeleteHostIsSound(site: Site, host: int)
    requires Sound(site)
    ensures Sound(site.(s := DeleteHost(site.s, host)))
  {
    DeleteLabsOnlyRemove(site.s, Keep(site.s.db.labs, (l: Lab) => l.host == host));
    DeleteHostKeepsCaps(site.s, host);
    FewerRowsKeepFlights(site, DeleteHost(site.s, host));
  }

  lemma PlainIsSound(site: Site, e: Event)
    requires Sound(site)
    ensures Sound(SiteStep(site, Plain(e)))
  {
    match e
    case RegisterEvent(_, _) => StepKeepsCaps(site.s, e); FewerRowsKeepFlights(site, Step(site.s, e));
    case CreateLabEvent(_, _, _, _) => StepKeepsCaps(site.s, e); FewerRowsKeepFlights(site, Step(site.s, e));
    case BeginEvent(_, _, _, _, _) =>
    case CommitEvent(host, name, runtimeId) => CommitIsSound(site, host, name, runtimeId);
    case AbandonEvent(_) => StepKeepsCaps(site.s, e);
    case DeleteRowEvent(id) => DeleteRowIsSound(site, id);
    case DeleteLabEvent(lab) => DeleteLabIsSound(site, lab);
    case DeleteHostEvent(host) => DeleteHostIsSound(site, host);
  }

  lemma WorkIsSound(site: Site, k: nat, w: Work)
    requires Sound(site)
    ensures Sound(AfterWork(site, k, w))
  {
    AfterWorkHolds(site, k, w);
    MoreCallsKeepFlights(site, AfterWork(site, k, w).calls);
  }

  lemma OtherLimitsAreSound(site: Site, gone: set<(int, string)>, recorded: seq<Limit>, enforced: seq<Limit>)
    requires Sound(site) && UniqueLimits(recorded) && UniqueLimits(enforced)
    ensures Sound(site.(gone := gone, recorded := recorded, enforced := enforced))
  {
  }

  /** Every step of either service keeps the site sound, at whatever pace lab hosts work. */
  lemma SiteStepIsSound(site: Site, e: SiteEvent)
    requires Sound(site)
    ensures Sound(SiteStep(site, e))
  {
    match e
    case Plain(plain) => PlainIsSound(site, plain);
    case BeginDeploy(lab, kind, name, cpu, text) => BeginIsSound(site, lab, kind, name, cpu, text);
    case LabHost(k, w) => WorkIsSound(site, k, w);
    case BringUp(host, project, n) =>
      BringUpHolds(site, host, project, n);
      OtherLimitsAreSound(site, site.gone, site.recorded, SiteStep(site, e).enforced);
    case Lose(r, host, project, left) =>
      LessenedHolds(site.enforced, r, host, project, left);
      OtherLimitsAreSound(site, site.gone, site.recorded, SiteStep(site, e).enforced);
    case Remove(host, project) =>
      WithoutProjectHolds(site.recorded, host, project);
      WithoutProjectHolds(site.enforced, host, project);
      OtherLimitsAreSound(site, SiteStep(site, e).gone, SiteStep(site, e).recorded, SiteStep(site, e).enforced);
  }
}

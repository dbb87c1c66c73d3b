/** The commands that the reconciler sends: what each of them does to the lab host, which ones a row's
    visit sends, and that nothing else happens to the lab host. */
module Commands {
  import opened Wrappers
  import opened Reconciler
  import opened Settling

  // ---------------------------------------------------------------- what a command does

  const FRESH := Runtime(Running, Some(0))

  /** A container's runtime replaced, if the lab host knows the container. */
  function With(w: World, id: string, runtime: Runtime): World
  {
    if id in w.containers then w.(containers := w.containers[id := runtime]) else w
  }

  /** What one command does to the lab host. A command that is refused does nothing. Starting wakes
      neither a paused container nor a dead one, and only a running one can be paused. A project that is
      brought up runs all its containers, at least one, and one that is brought down has none. */
  function Effect(w: World, sent: Sent, stopCode: int): World
  {
    if !sent.done then w else
    match sent.command
    case StartContainer(id) =>
      if id in w.containers && w.containers[id].status in [PausedNow, Dead] then w else With(w, id, FRESH)
    case StopContainer(id) => With(w, id, Runtime(Exited, Some(stopCode)))
    case PauseContainer(id) =>
      if id in w.containers && w.containers[id].status != Running then w else With(w, id, Runtime(PausedNow, Some(0)))
    case RemoveContainer(id, _) => w.(containers := w.containers - {id})
    case UpProject(name) =>
      if name !in w.projects then w else
      var n := |w.projects[name]|;
      w.(projects := w.projects[name := seq(if n == 0 then 1 else n, i => FRESH)])
    case DownProject(name) => if name !in w.projects then w else w.(projects := w.projects[name := []])
    case RemoveProject(name) => w.(projects := w.projects - {name})
    case DropRoute(_, _) => w
  }

  /** The effects of a list of commands, one after the other. */
  function AfterAll(w: World, sent: seq<Sent>, stopCode: int): World
    decreases sent
  {
    if sent == [] then w else AfterAll(Effect(w, sent[0], stopCode), sent[1..], stopCode)
  }

  lemma {:induction false} AfterMore(w: World, a: seq<Sent>, b: seq<Sent>, stopCode: int)
    ensures AfterAll(w, a + b, stopCode) == AfterAll(AfterAll(w, a, stopCode), b, stopCode)
    decreases a
  {
    if a == [] {
      assert a + b == b;
    } else {
      assert (a + b)[1..] == a[1..] + b;
      AfterMore(Effect(w, a[0], stopCode), a[1..], b, stopCode);
    }
  }

  // ---------------------------------------------------------------- the lab host changes by commands alone

  /** From one state of a pass to another the log has grown, and the lab host is as the commands that were
      added leave it. */
  predicate Follows(st: PassState, st': PassState, stopCode: int)
  {
    st.log <= st'.log && st'.world == AfterAll(st.world, st'.log[|st.log|..], stopCode)
  }

  lemma FollowsWith(st: PassState, st': PassState, sent: seq<Sent>, stopCode: int)
    requires st'.log == st.log + sent && st'.world == AfterAll(st.world, sent, stopCode)
    ensures Follows(st, st', stopCode) && st'.log[|st.log|..] == sent
  {
  }

  lemma FollowsOn(a: PassState, b: PassState, c: PassState, stopCode: int)
    requires Follows(a, b, stopCode) && Follows(b, c, stopCode)
    ensures Follows(a, c, stopCode)
    ensures c.log[|a.log|..] == b.log[|a.log|..] + c.log[|b.log|..]
  {
    var ab, bc := b.log[|a.log|..], c.log[|b.log|..];
    assert c.log[|a.log|..] == ab + bc;
    AfterMore(a.world, ab, bc, stopCode);
  }

  lemma OneCommand(w: World, s: Sent, stopCode: int)
    ensures AfterAll(w, [s], stopCode) == Effect(w, s, stopCode)
  {
    assert AfterAll(Effect(w, s, stopCode), [s][1..], stopCode) == Effect(w, s, stopCode);
  }

  lemma RouteDropsDoNothing(w: World, row: ContainerRow, p: Pass)
    ensures AfterAll(w, RouteDrop(row, p), p.stopCode) == w
  {
    if p.hasDomain { OneCommand(w, Sent(DropRoute(row.lab, row.name), true), p.stopCode); }
  }

  lemma {:induction false} AllRouteDropsDoNothing(w: World, lab: int, services: seq<string>, stopCode: int)
    ensures AfterAll(w, RouteDrops(lab, services), stopCode) == w
    decreases services
  {
    if services != [] {
      var n := |services| - 1;
      var last := Sent(DropRoute(lab, services[n]), true);
      AllRouteDropsDoNothing(w, lab, services[..n], stopCode);
      AfterMore(w, RouteDrops(lab, services[..n]), [last], stopCode);
      OneCommand(w, last, stopCode);
    }
  }

  lemma RemovalFollows(w: World, id: string, p: Pass)
    ensures AfterAll(w, RemovalCommands(id, p), p.stopCode) == OnContainer(w, id, RemoveAll, p)
  {
    var stop, plain := ToContainer(StopContainer(id), id, p), Sent(RemoveContainer(id, false), !NeedsForce(p, id));
    OneCommand(w, stop, p.stopCode);
    OneCommand(Effect(w, stop, p.stopCode), plain, p.stopCode);
    AfterMore(w, [stop], [plain], p.stopCode);
    assert [stop] + [plain] == [stop, plain];
    if NeedsForce(p, id) {
      var forced := Sent(RemoveContainer(id, true), p.answers[id].forced < 400);
      AfterMore(w, [stop, plain], [forced], p.stopCode);
      OneCommand(AfterAll(w, [stop, plain], p.stopCode), forced, p.stopCode);
    } else {
      assert RemovalCommands(id, p) == [stop, plain];
    }
  }

  lemma ContainerVisitFollows(st: PassState, row: ContainerRow, p: Pass)
    ensures Follows(st, VisitContainer(st, row, p), p.stopCode)
  {
    var w, id := st.world, row.containerId;
    var action := DecideContainer(row, InfoOf(w, p, id), p.now);
    match action {
      case Start => OneCommand(w, ToContainer(StartContainer(id), id, p), p.stopCode);
      case Stop => OneCommand(w, ToContainer(StopContainer(id), id, p), p.stopCode);
      case Pause => OneCommand(w, ToContainer(PauseContainer(id), id, p), p.stopCode);
      case RemoveAll =>
        AfterMore(w, RemovalCommands(id, p), RouteDrop(row, p), p.stopCode);
        RemovalFollows(w, id, p);
        RouteDropsDoNothing(OnContainer(w, id, action, p), row, p);
      case DropRow => RouteDropsDoNothing(w, row, p);
      case LeaveContainer =>
    }
    FollowsWith(st, VisitContainer(st, row, p), ContainerCommands(row, action, p), p.stopCode);
  }

  lemma ActionOnProject(w: World, row: ProjectRow, p: Pass, action: ProjectAction)
    ensures OnProject(w, row, action, p) ==
      match action
      case Up => Effect(w, ToProject(UpProject(row.name), row, p), p.stopCode)
      case Down => Effect(w, ToProject(DownProject(row.name), row, p), p.stopCode)
      case RemoveWhole => Effect(w, ToProject(RemoveProject(row.name), row, p), p.stopCode)
      case LeaveProject => w
  {
    if row.name in w.projects {
      var n := |w.projects[row.name]|;
      assert AfterUp(w.projects[row.name]) == seq(if n == 0 then 1 else n, i => FRESH);
    } else {
      assert w.projects - {row.name} == w.projects;
    }
  }

  lemma ProjectVisitFollows(st: PassState, row: ProjectRow, p: Pass)
    ensures Follows(st, VisitProject(st, row, p), p.stopCode)
  {
    var w := st.world;
    var action := DecideProject(row, ListingOf(w, p, row), p.now);
    match action {
      case Up => OneCommand(w, ToProject(UpProject(row.name), row, p), p.stopCode);
      case Down => OneCommand(w, ToProject(DownProject(row.name), row, p), p.stopCode);
      case RemoveWhole =>
        var removal := ToProject(RemoveProject(row.name), row, p);
        var drops := if p.hasDomain then RouteDrops(row.lab, row.services) else [];
        OneCommand(w, removal, p.stopCode);
        AfterMore(w, [removal], drops, p.stopCode);
        AllRouteDropsDoNothing(Effect(w, removal, p.stopCode), row.lab, row.services, p.stopCode);
      case LeaveProject =>
    }
    ActionOnProject(w, row, p, action);
    FollowsWith(st, VisitProject(st, row, p), ProjectCommands(row, action, p), p.stopCode);
  }

  lemma {:induction false} ContainerVisitsFollow(st: PassState, rows: seq<ContainerRow>, p: Pass)
    ensures Follows(st, VisitContainers(st, rows, p), p.stopCode)
    decreases rows
  {
    if rows != [] {
      var mid := VisitContainer(st, rows[0], p);
      ContainerVisitFollows(st, rows[0], p);
      ContainerVisitsFollow(mid, rows[1..], p);
      FollowsOn(st, mid, VisitContainers(st, rows, p), p.stopCode);
    }
  }

  lemma {:induction false} ProjectVisitsFollow(st: PassState, rows: seq<ProjectRow>, p: Pass)
    ensures Follows(st, VisitProjects(st, rows, p), p.stopCode)
    decreases rows
  {
    if rows != [] {
      var mid := VisitProject(st, rows[0], p);
      ProjectVisitFollows(st, rows[0], p);
      ProjectVisitsFollow(mid, rows[1..], p);
      FollowsOn(st, mid, VisitProjects(st, rows, p), p.stopCode);
    }
  }

  lemma LabVisitFollows(st: PassState, lab: int, p: Pass)
    ensures Follows(st, VisitLab(st, lab, p), p.stopCode)
  {
    var rows := ContainersOf(st.containers, lab);
    var mid := VisitContainers(st, rows, p);
    ContainerVisitsFollow(st, rows, p);
    ProjectVisitsFollow(mid, ProjectsOf(mid.projects, lab), p);
    FollowsOn(st, mid, VisitLab(st, lab, p), p.stopCode);
  }

  /** After a pass the lab host is as the commands that the pass has sent leave it, and no command sent
      earlier is lost from the log. */
  lemma {:induction false} PassFollowsItsCommands(st: PassState, labs: seq<int>, p: Pass)
    ensures var st' := VisitLabs(st, labs, p);
      st.log <= st'.log && st'.world == AfterAll(st.world, st'.log[|st.log|..], p.stopCode)
    decreases labs
  {
    if labs != [] {
      var mid := VisitLab(st, labs[0], p);
      LabVisitFollows(st, labs[0], p);
      PassFollowsItsCommands(mid, labs[1..], p);
      FollowsOn(st, mid, VisitLabs(st, labs, p), p.stopCode);
    }
  }

  // ---------------------------------------------------------------- what is known of a container

  /** What a heartbeat reports: of the items with an id that is not empty, the last for each id. */
  lemma {:induction false} ReportedIsTheLast(items: seq<ReportItem>, id: string, k: int)
    requires -1 <= k < |items| && (k >= 0 ==> items[k].id == id)
    requires forall j :: k < j < |items| ==> items[j].id != id
    ensures if k < 0 || id == "" then id !in Reported(items)
            else id in Reported(items) && Reported(items)[id] == items[k].runtime
    decreases items
  {
    if items != [] {
      var n := |items| - 1;
      if k < n { ReportedIsTheLast(items[..n], id, k); }
      if k == n && id == "" { EmptyIsNotReported(items[..n]); }
    }
  }

  lemma {:induction false} EmptyIsNotReported(items: seq<ReportItem>)
    ensures "" !in Reported(items)
    decreases items
  {
    if items != [] { EmptyIsNotReported(items[..|items| - 1]); }
  }

  /** The report is believed if it mentions the container. Otherwise the lab host is asked, and a status
      code of 400 or more, or no such container, is no information. */
  lemma InformationIs(w: World, p: Pass, id: string)
    ensures id in p.reported ==> InfoOf(w, p, id) == Some(p.reported[id])
    ensures id !in p.reported && id in w.containers && !(id in p.readCodes && p.readCodes[id] >= 400) ==>
      InfoOf(w, p, id) == Some(w.containers[id])
    ensures id !in p.reported && (id !in w.containers || (id in p.readCodes && p.readCodes[id] >= 400)) ==>
      InfoOf(w, p, id) == None
  {
  }

  // ---------------------------------------------------------------- what a container's visit sends

  /** Whether a time to live that is more than zero has run out. */
  predicate Expired(createdAt: int, ttl: Option<int>, now: int)
  {
    ttl.Some? && ttl.value > 0 && now - createdAt >= ttl.value
  }

  /** What one visit sends for a container row, in this order: nothing for a session row. For an expired
      ephemeral row and a single-use row that has exited with zero, a stop, a plain removal, a forced one
      if the plain one failed for another reason than that there is no such container, and the removal of
      its route if the host has a domain. For a single-use row without a container, the removal of its
      route. For any other row a start if it is to be started and is neither running nor restarting, a
      stop if it is to be stopped and is running, restarting or paused, and a pause if it is to be paused
      and is running; otherwise nothing. */
  lemma ContainerVisitSends(st: PassState, row: ContainerRow, p: Pass)
    ensures var st', id, info := VisitContainer(st, row, p), row.containerId, InfoOf(st.world, p, row.containerId);
      var finished := info.Some? && info.value.status in [Exited, Dead, StoppedNow] && info.value.exitCode == Some(0);
      var obeys := id !in p.refusedContainers;
      var plain := id !in p.answers || p.answers[id].plain < 400 || p.answers[id].plain == 404;
      var route := if p.hasDomain then [Sent(DropRoute(row.lab, row.name), true)] else [];
      st'.log == st.log +
        if row.lifetime == Session then []
        else if (row.lifetime == Ephemeral && Expired(row.createdAt, row.ttl, p.now)) ||
                (row.lifetime == SingleUse && finished) then
          [Sent(StopContainer(id), obeys), Sent(RemoveContainer(id, false), plain)] +
          (if plain then [] else [Sent(RemoveContainer(id, true), p.answers[id].forced < 400)]) + route
        else if row.lifetime == SingleUse && info.None? then route
        else if row.desired == Started && !(info.Some? && info.value.status in [Running, Restarting]) then
          [Sent(StartContainer(id), obeys)]
        else if row.desired == Stopped && info.Some? && info.value.status in [Running, Restarting, PausedNow] then
          [Sent(StopContainer(id), obeys)]
        else if row.desired == Paused && info.Some? && info.value.status == Running then
          [Sent(PauseContainer(id), obeys)]
        else []
  {
    assert st.log + [] == st.log;
  }

  // ---------------------------------------------------------------- what a project's visit sends

  /** What a listing for a row answers: an error of its own, 404 if the lab host does not know the project,
      and otherwise the project's containers. */
  lemma ListingIs(w: World, p: Pass, row: ProjectRow)
    ensures row.id in p.listCodes && p.listCodes[row.id] >= 400 ==>
      ListingOf(w, p, row) == Listing(p.listCodes[row.id], [])
    ensures !(row.id in p.listCodes && p.listCodes[row.id] >= 400) ==>
      ListingOf(w, p, row) == if row.name in w.projects then Listing(200, w.projects[row.name]) else Listing(404, [])
  {
  }

  lemma {:induction false} OneDropForEachService(lab: int, services: seq<string>)
    ensures |RouteDrops(lab, services)| == |services|
    ensures forall k :: 0 <= k < |services| ==> RouteDrops(lab, services)[k] == Sent(DropRoute(lab, services[k]), true)
    decreases services
  {
    if services != [] { OneDropForEachService(lab, services[..|services| - 1]); }
  }

  /** What one visit sends for a project row: nothing for a session row. For an expired ephemeral row, and
      a single-use row with containers of which all have exited with zero, a removal and, if the host has
      a domain, one route deletion for each exposed service, in order. For any other row an up if it is to
      run and is not found or has no container that is running or restarting, and a down if it is to stop
      and is listed with containers; otherwise nothing. */
  lemma ProjectVisitSends(st: PassState, row: ProjectRow, p: Pass)
    ensures var st', listing := VisitProject(st, row, p), ListingOf(st.world, p, row);
      var rs := listing.runtimes;
      var finished := rs != [] && forall k :: 0 <= k < |rs| ==>
        rs[k].status in [Exited, Dead, StoppedNow] && rs[k].exitCode == Some(0);
      var alive := exists k :: 0 <= k < |rs| && rs[k].status in [Running, Restarting];
      var obeys := row.id !in p.refusedProjects;
      var drops := seq(|row.services|, k requires 0 <= k < |row.services| =>
                       Sent(DropRoute(row.lab, row.services[k]), true));
      st'.log == st.log +
        if row.lifetime == Session then []
        else if (row.lifetime == Ephemeral && Expired(row.createdAt, row.ttl, p.now)) ||
                (row.lifetime == SingleUse && finished) then
          [Sent(RemoveProject(row.name), obeys)] + (if p.hasDomain then drops else [])
        else if row.desired == ToRun && (listing.code == 404 || !alive) then [Sent(UpProject(row.name), obeys)]
        else if row.desired == ToStop && listing.code < 400 && rs != [] then [Sent(DownProject(row.name), obeys)]
        else []
  {
    assert st.log + [] == st.log;
    OneDropForEachService(row.lab, row.services);
    var drops := seq(|row.services|, k requires 0 <= k < |row.services| =>
                     Sent(DropRoute(row.lab, row.services[k]), true));
    assert RouteDrops(row.lab, row.services) == drops;
    var rs := ListingOf(st.world, p, row).runtimes;
    SucceededAndAlive(rs);
  }

  lemma SucceededAndAlive(rs: seq<Runtime>)
    ensures AllSucceeded(rs) <==> rs != [] && forall k :: 0 <= k < |rs| ==>
      rs[k].status in [Exited, Dead, StoppedNow] && rs[k].exitCode == Some(0)
    ensures SomeAlive(rs) <==> exists k :: 0 <= k < |rs| && rs[k].status in [Running, Restarting]
  {
    forall k | 0 <= k < |rs| ensures Alive(rs[k]) <==> rs[k].status in [Running, Restarting] { }
  }

  // ---------------------------------------------------------------- what a whole pass sends

  function ContainerOf(c: Command): Option<string>
  {
    match c
    case StartContainer(id) => Some(id)
    case StopContainer(id) => Some(id)
    case PauseContainer(id) => Some(id)
    case RemoveContainer(id, _) => Some(id)
    case _ => None
  }

  /** The commands to one container, in order. */
  function To(sent: seq<Sent>, id: string): (r: seq<Sent>)
    ensures forall s :: s in r <==>
      && s in sent
      && s.command in [StartContainer(id), StopContainer(id), PauseContainer(id), RemoveContainer(id, false),
                       RemoveContainer(id, true)]
  {
    Keep(sent, (s: Sent) => ContainerOf(s.command) == Some(id))
  }

  /** What has been sent since a state of the pass. */
  function Since(st: PassState, st': PassState): seq<Sent>
    requires st.log <= st'.log
  {
    st'.log[|st.log|..]
  }

  /** What the visit to a row alone sends to the row's container. */
  function OwnCommands(w: World, r: ContainerRow, p: Pass): seq<Sent>
  {
    To(ContainerCommands(r, DecideContainer(r, InfoOf(w, p, r.containerId), p.now), p), r.containerId)
  }

  lemma ToMore(a: seq<Sent>, b: seq<Sent>, id: string)
    ensures To(a + b, id) == To(a, id) + To(b, id)
  {
    KeepAppend(a, b, (s: Sent) => ContainerOf(s.command) == Some(id));
  }

  lemma ToNone(sent: seq<Sent>, id: string)
    requires forall s :: s in sent ==> ContainerOf(s.command) != Some(id)
    ensures To(sent, id) == []
  {
    KeepNone(sent, (s: Sent) => ContainerOf(s.command) == Some(id));
  }

  lemma ContainerCommandsAreOwn(row: ContainerRow, action: ContainerAction, p: Pass)
    ensures forall s :: s in ContainerCommands(row, action, p) ==>
      ContainerOf(s.command) == Some(row.containerId) || ContainerOf(s.command) == None
  {
  }

  lemma ContainerVisitSince(st: PassState, row: ContainerRow, p: Pass, id: string)
    ensures st.log <= VisitContainer(st, row, p).log
    ensures To(Since(st, VisitContainer(st, row, p)), id) ==
            if id == row.containerId then OwnCommands(st.world, row, p) else []
  {
    var action := DecideContainer(row, InfoOf(st.world, p, row.containerId), p.now);
    assert Since(st, VisitContainer(st, row, p)) == ContainerCommands(row, action, p);
    ContainerCommandsAreOwn(row, action, p);
    if id != row.containerId { ToNone(ContainerCommands(row, action, p), id); }
  }

  lemma ProjectVisitSince(st: PassState, row: ProjectRow, p: Pass, id: string)
    ensures st.log <= VisitProject(st, row, p).log
    ensures To(Since(st, VisitProject(st, row, p)), id) == []
  {
    var sent := ProjectCommands(row, DecideProject(row, ListingOf(st.world, p, row), p.now), p);
    assert Since(st, VisitProject(st, row, p)) == sent;
    OneDropForEachService(row.lab, row.services);
    ToNone(sent, id);
  }

  lemma SinceOn(a: PassState, b: PassState, c: PassState, id: string)
    requires a.log <= b.log <= c.log
    ensures To(Since(a, c), id) == To(Since(a, b), id) + To(Since(b, c), id)
  {
    assert Since(a, c) == Since(a, b) + Since(b, c);
    ToMore(Since(a, b), Since(b, c), id);
  }

  lemma {:induction false} OthersAreSentNothing(st: PassState, rows: seq<ContainerRow>, p: Pass, id: string)
    requires forall r :: r in rows ==> r.containerId != id
    ensures st.log <= VisitContainers(st, rows, p).log
    ensures To(Since(st, VisitContainers(st, rows, p)), id) == []
    decreases rows
  {
    if rows == [] {
      assert Since(st, st) == [];
    } else {
      var mid := VisitContainer(st, rows[0], p);
      ContainerVisitSince(st, rows[0], p, id);
      OthersAreSentNothing(mid, rows[1..], p, id);
      SinceOn(st, mid, VisitContainers(st, rows, p), id);
    }
  }

  lemma OthersDiffer(rows: seq<ContainerRow>, r: ContainerRow)
    requires UniqueContainers(rows) && r in rows
    ensures r != rows[0] ==> r in rows[1..] && r.containerId != rows[0].containerId
    ensures r == rows[0] ==> forall q :: q in rows[1..] ==> q.containerId != r.containerId
  {
  }

  lemma {:induction false} EachIsSentItsOwn(st: PassState, rows: seq<ContainerRow>, p: Pass, r: ContainerRow)
    requires UniqueContainers(rows) && r in rows
    ensures st.log <= VisitContainers(st, rows, p).log
    ensures To(Since(st, VisitContainers(st, rows, p)), r.containerId) == OwnCommands(st.world, r, p)
    decreases rows
  {
    var id, rest, mid := r.containerId, rows[1..], VisitContainer(st, rows[0], p);
    ContainerVisitSince(st, rows[0], p, id);
    OthersDiffer(rows, r);
    if r == rows[0] {
      OthersAreSentNothing(mid, rest, p, id);
    } else {
      EachIsSentItsOwn(mid, rest, p, r);
      VisitContainerIsLocal(st, rows[0], p);
      assert SameContainer(st.world, mid.world, id);
    }
    SinceOn(st, mid, VisitContainers(st, rows, p), id);
  }

  lemma {:induction false} ProjectVisitsSince(st: PassState, rows: seq<ProjectRow>, p: Pass, id: string)
    ensures st.log <= VisitProjects(st, rows, p).log
    ensures To(Since(st, VisitProjects(st, rows, p)), id) == []
    decreases rows
  {
    if rows == [] {
      assert Since(st, st) == [];
    } else {
      var mid := VisitProject(st, rows[0], p);
      ProjectVisitSince(st, rows[0], p, id);
      ProjectVisitsSince(mid, rows[1..], p, id);
      SinceOn(st, mid, VisitProjects(st, rows, p), id);
    }
  }

  lemma LabVisitSince(st: PassState, lab: int, p: Pass, id: string)
    requires Distinguishable(st)
    ensures st.log <= VisitLab(st, lab, p).log
    ensures forall r :: r in st.containers && r.lab == lab && r.containerId == id ==>
      To(Since(st, VisitLab(st, lab, p)), id) == OwnCommands(st.world, r, p)
    ensures (forall r :: r in st.containers && r.lab == lab ==> r.containerId != id) ==>
      To(Since(st, VisitLab(st, lab, p)), id) == []
  {
    var rows := ContainersOf(st.containers, lab);
    var mid := VisitContainers(st, rows, p);
    KeptContainersAreUnique(st.containers, (row: ContainerRow) => row.lab == lab);
    if r :| r in rows && r.containerId == id {
      EachIsSentItsOwn(st, rows, p, r);
      forall q | q in rows && q.containerId == id ensures q == r { SameIdSameContainer(rows, q, r); }
    } else {
      OthersAreSentNothing(st, rows, p, id);
    }
    ProjectVisitsSince(mid, ProjectsOf(mid.projects, lab), p, id);
    SinceOn(st, mid, VisitLab(st, lab, p), id);
  }

  /** A container that no row of the host names is sent nothing. */
  lemma {:induction false} PassSendsNothingToOthers(st: PassState, labs: seq<int>, p: Pass, id: string)
    requires Distinguishable(st) && forall q :: q in st.containers && q.lab in labs ==> q.containerId != id
    ensures st.log <= VisitLabs(st, labs, p).log
    ensures To(Since(st, VisitLabs(st, labs, p)), id) == []
    decreases labs
  {
    if labs == [] {
      assert Since(st, st) == [];
    } else {
      var mid := VisitLab(st, labs[0], p);
      VisitLabEffect(st, labs[0], p);
      VisitLabKeepsDistinguishable(st, labs[0], p);
      LabVisitSince(st, labs[0], p, id);
      forall q | q in mid.containers && q.lab in labs[1..] ensures q.containerId != id {
        assert ContainerStays(st, [labs[0]], p, q);
      }
      PassSendsNothingToOthers(mid, labs[1..], p, id);
      SinceOn(st, mid, VisitLabs(st, labs, p), id);
    }
  }

  /** Over a whole pass a row's container is sent exactly what the visit to that row alone would send it,
      judged by what was known before the pass. */
  lemma {:induction false} PassSendsEachRowItsOwn(st: PassState, labs: seq<int>, p: Pass, r: ContainerRow)
    requires Distinguishable(st) && UniqueLabs(labs) && r in st.containers && r.lab in labs
    ensures st.log <= VisitLabs(st, labs, p).log
    ensures To(Since(st, VisitLabs(st, labs, p)), r.containerId) ==
            To(Since(st, VisitContainer(st, r, p)), r.containerId)
    decreases labs
  {
    var lab, rest, id := labs[0], labs[1..], r.containerId;
    var mid, last := VisitLab(st, lab, p), VisitLabs(st, labs, p);
    VisitLabEffect(st, lab, p);
    VisitLabKeepsDistinguishable(st, lab, p);
    LabVisitSince(st, lab, p, id);
    ContainerVisitSince(st, r, p, id);
    if r.lab == lab {
      forall q | q in mid.containers && q.lab in rest ensures q.containerId != id {
        assert ContainerStays(st, [lab], p, q);
        SameIdSameContainer(st.containers, q, r);
      }
      PassSendsNothingToOthers(mid, rest, p, id);
    } else {
      OtherLabsIds(st.containers, lab, r);
      assert ContainerStays(st, [lab], p, r);
      PassSendsEachRowItsOwn(mid, rest, p, r);
      ContainerVisitSince(mid, r, p, id);
      assert SameContainer(st.world, mid.world, id);
    }
    SinceOn(st, mid, last, id);
  }

  // ---------------------------------------------------------------- what a whole pass sends to a project

  function ProjectOf(c: Command): Option<string>
  {
    match c
    case UpProject(name) => Some(name)
    case DownProject(name) => Some(name)
    case RemoveProject(name) => Some(name)
    case _ => None
  }

  /** The commands to one project, in order. */
  function ToName(sent: seq<Sent>, name: string): (r: seq<Sent>)
    ensures forall s :: s in r <==> s in sent && s.command in [UpProject(name), DownProject(name), RemoveProject(name)]
  {
    Keep(sent, (s: Sent) => ProjectOf(s.command) == Some(name))
  }

  /** What the visit to a row sends to the row's project, given what is known of the project. */
  function RowSends(known: Option<seq<Runtime>>, row: ProjectRow, p: Pass): seq<Sent>
  {
    ToName(ProjectCommands(row, DecideProject(row, Listed(known, row, p), p.now), p), row.name)
  }

  /** What the visits to some rows of one name send to it, each judged by what those before it have left. */
  function RowsSend(known: Option<seq<Runtime>>, rows: seq<ProjectRow>, p: Pass): seq<Sent>
    decreases rows
  {
    if rows == [] then [] else RowSends(known, rows[0], p) + RowsSend(Visited(known, rows[0], p), rows[1..], p)
  }

  lemma ToNameMore(a: seq<Sent>, b: seq<Sent>, name: string)
    ensures ToName(a + b, name) == ToName(a, name) + ToName(b, name)
  {
    KeepAppend(a, b, (s: Sent) => ProjectOf(s.command) == Some(name));
  }

  lemma ToNameNone(sent: seq<Sent>, name: string)
    requires forall s :: s in sent ==> ProjectOf(s.command) != Some(name)
    ensures ToName(sent, name) == []
  {
    KeepNone(sent, (s: Sent) => ProjectOf(s.command) == Some(name));
  }

  lemma NameSinceOn(a: PassState, b: PassState, c: PassState, name: string)
    requires a.log <= b.log <= c.log
    ensures ToName(Since(a, c), name) == ToName(Since(a, b), name) + ToName(Since(b, c), name)
  {
    assert Since(a, c) == Since(a, b) + Since(b, c);
    ToNameMore(Since(a, b), Since(b, c), name);
  }

  lemma {:induction false} NameAfterContainers(st: PassState, rows: seq<ContainerRow>, p: Pass, name: string)
    ensures st.log <= VisitContainers(st, rows, p).log
    ensures ToName(Since(st, VisitContainers(st, rows, p)), name) == []
    decreases rows
  {
    if rows == [] {
      assert Since(st, st) == [];
    } else {
      var mid := VisitContainer(st, rows[0], p);
      var action := DecideContainer(rows[0], InfoOf(st.world, p, rows[0].containerId), p.now);
      assert Since(st, mid) == ContainerCommands(rows[0], action, p);
      ToNameNone(ContainerCommands(rows[0], action, p), name);
      NameAfterContainers(mid, rows[1..], p, name);
      NameSinceOn(st, mid, VisitContainers(st, rows, p), name);
    }
  }

  lemma NameAfterVisit(st: PassState, row: ProjectRow, p: Pass, name: string)
    ensures st.log <= VisitProject(st, row, p).log
    ensures ToName(Since(st, VisitProject(st, row, p)), name) ==
            if name == row.name then RowSends(RuntimesOf(st.world, name), row, p) else []
  {
    var sent := ProjectCommands(row, DecideProject(row, ListingOf(st.world, p, row), p.now), p);
    assert Since(st, VisitProject(st, row, p)) == sent;
    OneDropForEachService(row.lab, row.services);
    if name != row.name { ToNameNone(sent, name); }
  }

  lemma {:induction false} NameAfterProjects(st: PassState, rows: seq<ProjectRow>, lab: int, p: Pass, name: string)
    requires UniqueProjects(rows) && forall row :: row in rows ==> row.lab == lab
    ensures st.log <= VisitProjects(st, rows, p).log
    ensures forall r :: r in rows && r.name == name ==>
      ToName(Since(st, VisitProjects(st, rows, p)), name) == RowSends(RuntimesOf(st.world, name), r, p)
    ensures (forall r :: r in rows ==> r.name != name) ==> ToName(Since(st, VisitProjects(st, rows, p)), name) == []
    decreases rows
  {
    if rows == [] {
      assert Since(st, st) == [];
    } else {
      var row, rest := rows[0], rows[1..];
      var mid := VisitProject(st, row, p);
      NameAfterVisit(st, row, p, name);
      NameAfterProjects(mid, rest, lab, p, name);
      NameSinceOn(st, mid, VisitProjects(st, rows, p), name);
      VisitProjectIsLocal(st, row, p);
      forall r | r in rest && r.name == name ensures RuntimesOf(mid.world, name) == RuntimesOf(st.world, name) {
        assert r.name != row.name;
        assert SameProject(st.world, mid.world, name);
      }
      assert forall r :: r in rows <==> r == row || r in rest;
    }
  }

  lemma NameAfterLab(st: PassState, lab: int, p: Pass, name: string)
    requires Distinguishable(st)
    ensures st.log <= VisitLab(st, lab, p).log
    ensures forall r :: r in st.projects && r.lab == lab && r.name == name ==>
      ToName(Since(st, VisitLab(st, lab, p)), name) == RowSends(RuntimesOf(st.world, name), r, p)
    ensures (forall r :: r in st.projects && r.lab == lab ==> r.name != name) ==>
      ToName(Since(st, VisitLab(st, lab, p)), name) == []
  {
    var rows := ContainersOf(st.containers, lab);
    var mid := VisitContainers(st, rows, p);
    KeptContainersAreUnique(st.containers, (row: ContainerRow) => row.lab == lab);
    ContainersLeft(st, rows, p);
    NameAfterContainers(st, rows, p, name);
    KeptProjectsAreUnique(st.projects, (row: ProjectRow) => row.lab == lab);
    NameAfterProjects(mid, ProjectsOf(mid.projects, lab), lab, p, name);
    NameSinceOn(st, mid, VisitLab(st, lab, p), name);
  }

  lemma SameRows(st: PassState, mid: PassState, labs: seq<int>, name: string, later: seq<ProjectRow>)
    requires UniqueLabs(labs) && labs != [] && RowsOfName(mid, labs[1..], name, later)
    requires forall r :: r in st.projects && r.lab == labs[0] ==> r.name != name
    requires forall r :: r in mid.projects ==> r in st.projects
    requires forall r :: r in st.projects && r.lab != labs[0] ==> r in mid.projects
    ensures RowsOfName(st, labs, name, later)
  {
  }

  /** Over a whole pass a project is sent exactly what its rows' visits send, lab by lab, each judged by
      what those before it have left. */
  lemma {:induction false} PassSendsEachNameItsRows(st: PassState, labs: seq<int>, p: Pass, name: string)
    returns (rows: seq<ProjectRow>)
    requires Distinguishable(st) && UniqueLabs(labs)
    ensures RowsOfName(st, labs, name, rows)
    ensures st.log <= VisitLabs(st, labs, p).log
    ensures ToName(Since(st, VisitLabs(st, labs, p)), name) == RowsSend(RuntimesOf(st.world, name), rows, p)
    decreases labs
  {
    if labs == [] {
      rows := [];
      assert Since(st, st) == [];
    } else {
      var mid, last := VisitLab(st, labs[0], p), VisitLabs(st, labs, p);
      var q := LabOfName(st, labs[0], p, name);
      NameAfterLab(st, labs[0], p, name);
      var later := PassSendsEachNameItsRows(mid, labs[1..], p, name);
      NameSinceOn(st, mid, last, name);
      match q
      case None =>
        rows := later;
        assert SameProject(st.world, mid.world, name);
        SameRows(st, mid, labs, name, later);
      case Some(r) =>
        rows := [r] + later;
        assert rows[1..] == later;
        RowsWithOneMore(st, mid, labs, name, r, later);
    }
  }
}

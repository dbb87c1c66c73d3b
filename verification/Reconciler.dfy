/** The reconciler: one pass over the container and project rows of a host, which issues commands to
    the lab host and deletes rows from the very tables it walks over. */
module Reconciler {
  import opened Wrappers

  datatype Lifetime = Persistent | Ephemeral | SingleUse | Session

  datatype ContainerState = Created | Started | Stopped | Paused

  datatype ProjectState = ToRun | ToStop

  /** Runtime status words, lower-cased; `OtherStatus` stands for any other word and for none. */
  datatype Status = Running | Restarting | PausedNow | Exited | Dead | StoppedNow | OtherStatus

  datatype Runtime = Runtime(status: Status, exitCode: Option<int>)

  datatype ContainerRow = ContainerRow(id: int, lab: int, name: string, containerId: string,
                                       lifetime: Lifetime, ttl: Option<int>, createdAt: int, desired: ContainerState)

  datatype ProjectRow = ProjectRow(id: int, lab: int, name: string, services: seq<string>,
                                   lifetime: Lifetime, ttl: Option<int>, createdAt: int, desired: ProjectState)

  /** What runs on the lab host. A project that is not in the map is answered with 404. */
  datatype World = World(containers: map<string, Runtime>, projects: map<string, seq<Runtime>>)

  datatype Command =
    | StartContainer(containerId: string)
    | StopContainer(containerId: string)
    | PauseContainer(containerId: string)
    | RemoveContainer(containerId: string, force: bool)
    | UpProject(project: string)
    | DownProject(project: string)
    | RemoveProject(project: string)
    | DropRoute(lab: int, resource: string)

  /** The status codes with which the lab host answers a plain and a forced removal of a container. */
  datatype Answers = Answers(plain: int, forced: int)

  /** One pass: the time it runs at, what the heartbeat reported, the lab host's answers, the exit code
      of a stopped process, and whether the host has a domain. Of the answers only those that differ from
      plain success are given: the status codes of reads of containers, by id, and of project listings,
      by row, the answers to removals of containers, and the containers and project rows whose other
      commands are refused. */
  datatype Pass = Pass(now: int, reported: map<string, Runtime>, readCodes: map<string, int>, listCodes: map<int, int>,
                       answers: map<string, Answers>, refusedContainers: set<string>, refusedProjects: set<int>,
                       stopCode: int, hasDomain: bool)

  /** A command that was sent, and whether the lab host carried it out. */
  datatype Sent = Sent(command: Command, done: bool)

  datatype PassState = PassState(containers: seq<ContainerRow>, projects: seq<ProjectRow>, world: World,
                                 log: seq<Sent>)

  // ---------------------------------------------------------------- decisions

  predicate TtlExpired(createdAt: int, ttl: Option<int>, now: int)
  {
    match ttl case None => false case Some(seconds) => seconds > 0 && now - createdAt >= seconds
  }

  predicate Finished(r: Runtime) { r.status == Exited || r.status == Dead || r.status == StoppedNow }

  predicate Succeeded(r: Runtime) { Finished(r) && r.exitCode == Some(0) }

  predicate Alive(r: Runtime) { r.status == Running || r.status == Restarting }

  datatype ContainerAction = LeaveContainer | RemoveAll | DropRow | Start | Stop | Pause

  function DecideContainer(row: ContainerRow, info: Option<Runtime>, now: int): ContainerAction
  {
    if row.lifetime == Session then LeaveContainer
    else if row.lifetime == Ephemeral && TtlExpired(row.createdAt, row.ttl, now) then RemoveAll
    else if row.lifetime == SingleUse && info.None? then DropRow
    else if row.lifetime == SingleUse && Succeeded(info.value) then RemoveAll
    else match row.desired
      case Started => if info.Some? && Alive(info.value) then LeaveContainer else Start
      case Stopped =>
        if info.Some? && (Alive(info.value) || info.value.status == PausedNow) then Stop else LeaveContainer
      case Paused => if info.Some? && info.value.status == Running then Pause else LeaveContainer
      case Created => LeaveContainer
  }

  predicate AllSucceeded(runtimes: seq<Runtime>)
  {
    runtimes != [] && forall i :: 0 <= i < |runtimes| ==> Succeeded(runtimes[i])
  }

  /** The scan with its early returns. */
  method AllSingleUseSuccess(runtimes: seq<Runtime>) returns (all: bool)
    ensures all == AllSucceeded(runtimes)
  {
    if runtimes == [] {
      return false;
    }
    var i := 0;
    while i < |runtimes|
      invariant 0 <= i <= |runtimes|
      invariant forall j :: 0 <= j < i ==> Succeeded(runtimes[j])
    {
      if !Finished(runtimes[i]) {
        return false;
      }
      if runtimes[i].exitCode != Some(0) {
        return false;
      }
      i := i + 1;
    }
    return true;
  }

  predicate SomeAlive(runtimes: seq<Runtime>)
  {
    exists i :: 0 <= i < |runtimes| && Alive(runtimes[i])
  }

  datatype ProjectAction = LeaveProject | RemoveWhole | Up | Down

  /** The answer to a project listing. An answer that is an error lists nothing. */
  datatype Listing = Listing(code: int, runtimes: seq<Runtime>)

  function DecideProject(row: ProjectRow, listing: Listing, now: int): ProjectAction
  {
    if row.lifetime == Session then LeaveProject
    else if row.lifetime == Ephemeral && TtlExpired(row.createdAt, row.ttl, now) then RemoveWhole
    else if row.lifetime == SingleUse && AllSucceeded(listing.runtimes) then RemoveWhole
    else match row.desired
      case ToRun => if listing.code == 404 || !SomeAlive(listing.runtimes) then Up else LeaveProject
      case ToStop => if listing.code < 400 && listing.runtimes != [] then Down else LeaveProject
  }

  // ---------------------------------------------------------------- what commands do

  /** The daemon starts anything but a paused or dead container. */
  function AfterStart(r: Runtime): Runtime
  {
    if r.status == PausedNow || r.status == Dead then r else Runtime(Running, Some(0))
  }

  function AfterPause(r: Runtime): Runtime
  {
    if r.status == Running then Runtime(PausedNow, Some(0)) else r
  }

  /** A plain removal that fails for another reason than that the container is gone is forced. */
  predicate NeedsForce(p: Pass, id: string)
  {
    id in p.answers && p.answers[id].plain >= 400 && p.answers[id].plain != 404
  }

  predicate Stuck(p: Pass, id: string)
  {
    NeedsForce(p, id) && p.answers[id].forced >= 400
  }

  predicate Obeys(w: World, p: Pass, id: string) { id in w.containers && id !in p.refusedContainers }

  function Halted(w: World, id: string, p: Pass): World
  {
    if Obeys(w, p, id) then w.(containers := w.containers[id := Runtime(Exited, Some(p.stopCode))]) else w
  }

  function Removed(w: World, id: string): World
  {
    w.(containers := w.containers - {id})
  }

  function OnContainer(w: World, id: string, action: ContainerAction, p: Pass): World
  {
    match action
    case Start => if Obeys(w, p, id) then w.(containers := w.containers[id := AfterStart(w.containers[id])]) else w
    case Stop => Halted(w, id, p)
    case Pause => if Obeys(w, p, id) then w.(containers := w.containers[id := AfterPause(w.containers[id])]) else w
    case RemoveAll => if Stuck(p, id) then Halted(w, id, p) else Removed(Halted(w, id, p), id)
    case DropRow => w
    case LeaveContainer => w
  }

  /** Bringing a project up starts all its containers, at least one. */
  function AfterUp(rs: seq<Runtime>): seq<Runtime>
  {
    if rs == [] then [Runtime(Running, Some(0))] else seq(|rs|, i => Runtime(Running, Some(0)))
  }

  /** Bringing down removes the containers and keeps the project; removing forgets the project too. A
      project that the lab host does not know cannot be brought up. */
  function AfterAction(known: Option<seq<Runtime>>, action: ProjectAction): Option<seq<Runtime>>
  {
    match (action, known)
    case (LeaveProject, _) => known
    case (RemoveWhole, _) => None
    case (_, None) => None
    case (Up, Some(rs)) => Some(AfterUp(rs))
    case (Down, Some(_)) => Some([])
  }

  function OnProject(w: World, row: ProjectRow, action: ProjectAction, p: Pass): World
  {
    if row.id in p.refusedProjects || action == LeaveProject then w else
    match AfterAction(RuntimesOf(w, row.name), action)
    case None => w.(projects := w.projects - {row.name})
    case Some(rs) => w.(projects := w.projects[row.name := rs])
  }

  /** A command on a container's state, and on a project. */
  function ToContainer(command: Command, id: string, p: Pass): Sent { Sent(command, id !in p.refusedContainers) }

  function ToProject(command: Command, row: ProjectRow, p: Pass): Sent { Sent(command, row.id !in p.refusedProjects) }

  function RemovalCommands(id: string, p: Pass): seq<Sent>
  {
    [ToContainer(StopContainer(id), id, p), Sent(RemoveContainer(id, false), !NeedsForce(p, id))] +
    if NeedsForce(p, id) then [Sent(RemoveContainer(id, true), p.answers[id].forced < 400)] else []
  }

  function RouteDrop(row: ContainerRow, p: Pass): seq<Sent>
  {
    if p.hasDomain then [Sent(DropRoute(row.lab, row.name), true)] else []
  }

  function ContainerCommands(row: ContainerRow, action: ContainerAction, p: Pass): seq<Sent>
  {
    var id := row.containerId;
    match action
    case Start => [ToContainer(StartContainer(id), id, p)]
    case Stop => [ToContainer(StopContainer(id), id, p)]
    case Pause => [ToContainer(PauseContainer(id), id, p)]
    case RemoveAll => RemovalCommands(id, p) + RouteDrop(row, p)
    case DropRow => RouteDrop(row, p)
    case LeaveContainer => []
  }

  function RouteDrops(lab: int, services: seq<string>): seq<Sent>
  {
    if services == [] then []
    else RouteDrops(lab, services[..|services| - 1]) + [Sent(DropRoute(lab, services[|services| - 1]), true)]
  }

  function ProjectCommands(row: ProjectRow, action: ProjectAction, p: Pass): seq<Sent>
  {
    match action
    case Up => [ToProject(UpProject(row.name), row, p)]
    case Down => [ToProject(DownProject(row.name), row, p)]
    case RemoveWhole =>
      [ToProject(RemoveProject(row.name), row, p)] + (if p.hasDomain then RouteDrops(row.lab, row.services) else [])
    case LeaveProject => []
  }

  // ---------------------------------------------------------------- the pass

  function RuntimeIn(w: World, id: string): Option<Runtime>
  {
    if id in w.containers then Some(w.containers[id]) else None
  }

  function RuntimesOf(w: World, name: string): Option<seq<Runtime>>
  {
    if name in w.projects then Some(w.projects[name]) else None
  }

  predicate ReadFails(p: Pass, id: string) { id in p.readCodes && p.readCodes[id] >= 400 }

  /** The heartbeat's report is believed when it mentions the container; otherwise the container is
      read, and any error counts as no container. */
  function InfoOf(w: World, p: Pass, id: string): Option<Runtime>
  {
    if id in p.reported then Some(p.reported[id])
    else if ReadFails(p, id) then None
    else RuntimeIn(w, id)
  }

  predicate ListingFails(p: Pass, id: int) { id in p.listCodes && p.listCodes[id] >= 400 }

  /** What the listing for a row answers, given what is known of its project; 404 for no project. */
  function Listed(known: Option<seq<Runtime>>, row: ProjectRow, p: Pass): Listing
  {
    if ListingFails(p, row.id) then Listing(p.listCodes[row.id], [])
    else match known case None => Listing(404, []) case Some(rs) => Listing(200, rs)
  }

  function ListingOf(w: World, p: Pass, row: ProjectRow): Listing { Listed(RuntimesOf(w, row.name), row, p) }

  /** What a visit to a row makes of what is known of its project. */
  function Visited(known: Option<seq<Runtime>>, row: ProjectRow, p: Pass): Option<seq<Runtime>>
  {
    if row.id in p.refusedProjects then known else AfterAction(known, DecideProject(row, Listed(known, row, p), p.now))
  }

  function WithoutContainerRow(rows: seq<ContainerRow>, id: int): seq<ContainerRow>
  {
    Keep(rows, (row: ContainerRow) => row.id != id)
  }

  function WithoutProjectRow(rows: seq<ProjectRow>, id: int): seq<ProjectRow>
  {
    Keep(rows, (row: ProjectRow) => row.id != id)
  }

  function VisitContainer(st: PassState, row: ContainerRow, p: Pass): PassState
  {
    var action := DecideContainer(row, InfoOf(st.world, p, row.containerId), p.now);
    var deleted := action == RemoveAll || action == DropRow;
    PassState(if deleted then WithoutContainerRow(st.containers, row.id) else st.containers,
              st.projects,
              OnContainer(st.world, row.containerId, action, p),
              st.log + ContainerCommands(row, action, p))
  }

  function VisitProject(st: PassState, row: ProjectRow, p: Pass): PassState
  {
    var action := DecideProject(row, ListingOf(st.world, p, row), p.now);
    PassState(st.containers,
              if action == RemoveWhole then WithoutProjectRow(st.projects, row.id) else st.projects,
              OnProject(st.world, row, action, p),
              st.log + ProjectCommands(row, action, p))
  }

  function VisitContainers(st: PassState, rows: seq<ContainerRow>, p: Pass): PassState
    decreases rows
  {
    if rows == [] then st else VisitContainers(VisitContainer(st, rows[0], p), rows[1..], p)
  }

  function VisitProjects(st: PassState, rows: seq<ProjectRow>, p: Pass): PassState
    decreases rows
  {
    if rows == [] then st else VisitProjects(VisitProject(st, rows[0], p), rows[1..], p)
  }

  function ContainersOf(rows: seq<ContainerRow>, lab: int): seq<ContainerRow>
  {
    Keep(rows, (row: ContainerRow) => row.lab == lab)
  }

  function ProjectsOf(rows: seq<ProjectRow>, lab: int): seq<ProjectRow>
  {
    Keep(rows, (row: ProjectRow) => row.lab == lab)
  }

  function VisitLab(st: PassState, lab: int, p: Pass): PassState
  {
    var st' := VisitContainers(st, ContainersOf(st.containers, lab), p);
    VisitProjects(st', ProjectsOf(st'.projects, lab), p)
  }

  function VisitLabs(st: PassState, labs: seq<int>, p: Pass): PassState
    decreases labs
  {
    if labs == [] then st else VisitLabs(VisitLab(st, labs[0], p), labs[1..], p)
  }

  // ---------------------------------------------------------------- the loops

  /** A heartbeat item: the container's id, if it has a usable one, and its runtime. */
  datatype ReportItem = ReportItem(id: string, runtime: Runtime)

  function Reported(items: seq<ReportItem>): map<string, Runtime>
  {
    if items == [] then map[] else
    var front, last := Reported(items[..|items| - 1]), items[|items| - 1];
    if last.id == "" then front else front[last.id := last.runtime]
  }

  /** A host's turn: its labs, whether its key can be used, what runs on it and how it answers. */
  datatype Turn = Turn(labs: seq<int>, keyUsable: bool, world: World, pass: Pass)

  function AfterTurn(st: PassState, turn: Turn, reported: map<string, Runtime>): PassState
  {
    var begun := st.(world := turn.world);
    if turn.keyUsable then VisitLabs(begun, turn.labs, turn.pass.(reported := reported)) else begun
  }

  function AfterTurns(st: PassState, turns: seq<Turn>): PassState
    decreases turns
  {
    if turns == [] then st else AfterTurn(AfterTurns(st, turns[..|turns| - 1]), turns[|turns| - 1], map[])
  }

  class Loop {
    var locked: bool
    var st: PassState

    constructor (st: PassState)
      ensures !locked && this.st == st
    {
      locked := false;
      this.st := st;
    }

    /** Stops and removes a container, by force where the plain removal is refused. */
    method RemoveRuntimeContainer(id: string, p: Pass)
      modifies this`st
      ensures st == old(st).(world := OnContainer(old(st).world, id, RemoveAll, p),
                             log := old(st).log + RemovalCommands(id, p))
    {
      st := st.(world := Halted(st.world, id, p),
                log := st.log + [Sent(StopContainer(id), id !in p.refusedContainers)]);
      var answers := if id in p.answers then p.answers[id] else Answers(204, 204);
      var gone := answers.plain < 400 || answers.plain == 404;
      st := st.(log := st.log + [Sent(RemoveContainer(id, false), gone)]);
      if answers.plain >= 400 && answers.plain != 404 {
        gone := answers.forced < 400;
        st := st.(log := st.log + [Sent(RemoveContainer(id, true), gone)]);
      }
      if gone {
        st := st.(world := Removed(st.world, id));
      }
    }

    /** A row is deleted exactly when its container is done, whatever the lab host answers. */
    method ReconcileContainer(row: ContainerRow, p: Pass)
      modifies this`st
      ensures st == VisitContainer(old(st), row, p)
      ensures forall q :: q in st.containers <==>
        q in old(st).containers &&
        !(q.id == row.id && ContainerIsDone(row, InfoOf(old(st).world, p, row.containerId), p.now))
    {
      var id := row.containerId;
      var runtime := None;
      if id in p.reported {
        runtime := Some(p.reported[id]);
      } else if !ReadFails(p, id) {
        runtime := RuntimeIn(st.world, id);
      }
      assert st.log + [] == st.log;
      if row.lifetime == Session {
        return;
      }
      if row.lifetime == Ephemeral && TtlExpired(row.createdAt, row.ttl, p.now) {
        RemoveRowAndRuntime(row, p);
        return;
      }
      if row.lifetime == SingleUse {
        if runtime.None? {
          st := st.(containers := WithoutContainerRow(st.containers, row.id), log := st.log + RouteDrop(row, p));
          return;
        }
        if Finished(runtime.value) && runtime.value.exitCode == Some(0) {
          RemoveRowAndRuntime(row, p);
          return;
        }
      }
      if row.desired == Started {
        if runtime.None? || !(runtime.value.status == Running || runtime.value.status == Restarting) {
          st := st.(world := OnContainer(st.world, id, Start, p),
                    log := st.log + [Sent(StartContainer(id), id !in p.refusedContainers)]);
        }
      } else if row.desired == Stopped {
        if runtime.Some? && runtime.value.status in {Running, Restarting, PausedNow} {
          st := st.(world := OnContainer(st.world, id, Stop, p),
                    log := st.log + [Sent(StopContainer(id), id !in p.refusedContainers)]);
        }
      } else if row.desired == Paused {
        if runtime.Some? && runtime.value.status == Running {
          st := st.(world := OnContainer(st.world, id, Pause, p),
                    log := st.log + [Sent(PauseContainer(id), id !in p.refusedContainers)]);
        }
      }
    }

    method RemoveRowAndRuntime(row: ContainerRow, p: Pass)
      modifies this`st
      ensures st == PassState(WithoutContainerRow(old(st).containers, row.id), old(st).projects,
                              OnContainer(old(st).world, row.containerId, RemoveAll, p),
                              old(st).log + ContainerCommands(row, RemoveAll, p))
    {
      RemoveRuntimeContainer(row.containerId, p);
      st := st.(log := st.log + RouteDrop(row, p), containers := WithoutContainerRow(st.containers, row.id));
    }

    /** A row is deleted exactly when its project is done, whatever the lab host answers to the removal,
        and the project ends up as the row's visit makes it. */
    method ReconcileProject(row: ProjectRow, p: Pass)
      modifies this`st
      ensures st == VisitProject(old(st), row, p)
      ensures RuntimesOf(st.world, row.name) == Visited(RuntimesOf(old(st).world, row.name), row, p)
      ensures forall q :: q in st.projects <==>
        q in old(st).projects && !(q.id == row.id && ProjectIsDone(row, ListingOf(old(st).world, p, row), p.now))
    {
      var listing := ListingOf(st.world, p, row);
      var containers := listing.runtimes;
      if row.lifetime == Session {
        assert st.log + [] == st.log;
        return;
      }
      var finished := AllSingleUseSuccess(containers);
      var expired := TtlExpired(row.createdAt, row.ttl, p.now);
      if (row.lifetime == Ephemeral && expired) || (row.lifetime == SingleUse && finished) {
        RemoveProjectRowAndRuntime(row, p);
        return;
      }
      if row.desired == ToRun {
        var shouldUp := listing.code == 404;
        if !shouldUp {
          var running := AnyRunning(containers);
          shouldUp := !running;
        }
        if shouldUp {
          st := st.(world := OnProject(st.world, row, Up, p),
                    log := st.log + [Sent(UpProject(row.name), row.id !in p.refusedProjects)]);
        } else {
          assert st.log + [] == st.log;
        }
      } else {
        if listing.code < 400 && containers != [] {
          st := st.(world := OnProject(st.world, row, Down, p),
                    log := st.log + [Sent(DownProject(row.name), row.id !in p.refusedProjects)]);
        } else {
          assert st.log + [] == st.log;
        }
      }
    }

    /** The routes of the exposed services are dropped one by one. */
    method RemoveProjectRowAndRuntime(row: ProjectRow, p: Pass)
      modifies this`st
      ensures st == PassState(old(st).containers, WithoutProjectRow(old(st).projects, row.id),
                              OnProject(old(st).world, row, RemoveWhole, p),
                              old(st).log + ProjectCommands(row, RemoveWhole, p))
    {
      st := st.(world := OnProject(st.world, row, RemoveWhole, p),
                log := st.log + [Sent(RemoveProject(row.name), row.id !in p.refusedProjects)]);
      ghost var removed := st;
      var k := 0;
      while k < |row.services|
        invariant 0 <= k <= |row.services|
        invariant st == removed.(log := removed.log + if p.hasDomain then RouteDrops(row.lab, row.services[..k])
                                 else [])
      {
        assert row.services[..k + 1][..k] == row.services[..k];
        if p.hasDomain {
          st := st.(log := st.log + [Sent(DropRoute(row.lab, row.services[k]), true)]);
        }
        k := k + 1;
      }
      assert row.services[..k] == row.services;
      st := st.(projects := WithoutProjectRow(st.projects, row.id));
    }

    static method AnyRunning(containers: seq<Runtime>) returns (running: bool)
      ensures running == SomeAlive(containers)
    {
      var i := 0;
      while i < |containers|
        invariant 0 <= i <= |containers|
        invariant forall j :: 0 <= j < i ==> !Alive(containers[j])
      {
        if Alive(containers[i]) {
          return true;
        }
        i := i + 1;
      }
      return false;
    }

    /** The nested loops. The row lists are read once per lab, before the rows are visited. */
    method ReconcileForHost(labs: seq<int>, keyUsable: bool, p: Pass)
      modifies this`st
      ensures st == if keyUsable then VisitLabs(old(st), labs, p) else old(st)
    {
      if !keyUsable {
        return;
      }
      var i := 0;
      while i < |labs|
        invariant 0 <= i <= |labs|
        invariant VisitLabs(st, labs[i..], p) == VisitLabs(old(st), labs, p)
      {
        ghost var before := st;
        var containerRows := ContainersOf(st.containers, labs[i]);
        var j := 0;
        while j < |containerRows|
          invariant 0 <= j <= |containerRows|
          invariant VisitContainers(st, containerRows[j..], p) == VisitContainers(before, containerRows, p)
        {
          ReconcileContainer(containerRows[j], p);
          assert containerRows[j..][1..] == containerRows[j + 1..];
          j := j + 1;
        }
        ghost var middle := st;
        var projectRows := ProjectsOf(st.projects, labs[i]);
        j := 0;
        while j < |projectRows|
          invariant 0 <= j <= |projectRows|
          invariant VisitProjects(st, projectRows[j..], p) == VisitProjects(middle, projectRows, p)
        {
          ReconcileProject(projectRows[j], p);
          assert projectRows[j..][1..] == projectRows[j + 1..];
          j := j + 1;
        }
        assert labs[i..][1..] == labs[i + 1..];
        i := i + 1;
      }
    }

    /** One host after the other, each with its own lab host and with nothing reported. */
    method ReconcilePeriodically(turns: seq<Turn>) returns (worlds: seq<World>)
      modifies this`st
      ensures st == AfterTurns(old(st), turns)
      ensures |worlds| == |turns| && forall k :: 0 <= k < |turns| ==>
        worlds[k] == AfterTurns(old(st), turns[..k + 1]).world
    {
      worlds := [];
      var k := 0;
      while k < |turns|
        invariant 0 <= k <= |turns| && |worlds| == k
        invariant st == AfterTurns(old(st), turns[..k])
        invariant forall i :: 0 <= i < k ==> worlds[i] == AfterTurns(old(st), turns[..i + 1]).world
      {
        assert turns[..k + 1][..k] == turns[..k];
        st := st.(world := turns[k].world);
        ReconcileForHost(turns[k].labs, turns[k].keyUsable, turns[k].pass.(reported := map[]));
        worlds := worlds + [st.world];
        k := k + 1;
      }
      assert turns[..k] == turns;
    }

    /** A heartbeat while a pass is running is skipped. Otherwise the host that it comes from is
        reconciled with the reported runtimes, or every host if it comes from none that is known, and
        the lock is free again afterwards. */
    method ReconcileHeartbeat(items: seq<ReportItem>, sender: Option<Turn>, all: seq<Turn>)
      modifies this
      ensures locked == old(locked)
      ensures old(locked) ==> st == old(st)
      ensures !old(locked) ==>
        st == match sender
          case Some(turn) => AfterTurn(old(st), turn, Reported(items))
          case None => AfterTurns(old(st), all)
    {
      if locked {
        return;
      }
      locked := true;
      var runtimeById: map<string, Runtime> := map[];
      var k := 0;
      while k < |items|
        invariant 0 <= k <= |items|
        invariant runtimeById == Reported(items[..k])
        invariant st == old(st)
      {
        assert items[..k + 1][..k] == items[..k];
        if items[k].id != "" {
          runtimeById := runtimeById[items[k].id := items[k].runtime];
        }
        k := k + 1;
      }
      assert items[..k] == items;
      match sender {
        case Some(turn) =>
          st := st.(world := turn.world);
          ReconcileForHost(turn.labs, turn.keyUsable, turn.pass.(reported := runtimeById));
        case None =>
          var _ := ReconcilePeriodically(all);
      }
      locked := false;
    }
  }

  // ---------------------------------------------------------------- what one pass deletes

  /** A positive lifetime that has run out by a moment, to the second. */
  predicate LifetimeOver(createdAt: int, ttl: Option<int>, now: int)
  {
    ttl.Some? && ttl.value > 0 && createdAt + ttl.value <= now
  }

  /** The rows a pass is to delete, in terms of the information it has about them. */
  predicate ContainerIsDone(row: ContainerRow, info: Option<Runtime>, now: int)
  {
    || (row.lifetime == Ephemeral && LifetimeOver(row.createdAt, row.ttl, now))
    || (row.lifetime == SingleUse && (info.None? || Succeeded(info.value)))
  }

  predicate ProjectIsDone(row: ProjectRow, listing: Listing, now: int)
  {
    || (row.lifetime == Ephemeral && LifetimeOver(row.createdAt, row.ttl, now))
    || (row.lifetime == SingleUse && AllSucceeded(listing.runtimes))
  }

  /** Container ids are unique, as the schema demands. */
  predicate UniqueContainers(rows: seq<ContainerRow>)
  {
    forall i, j :: 0 <= i < j < |rows| ==> rows[i].id != rows[j].id && rows[i].containerId != rows[j].containerId
  }

  /** The schema makes project names unique within a lab only, although the lab host knows projects
      by name alone. */
  predicate UniqueProjects(rows: seq<ProjectRow>)
  {
    forall i, j :: 0 <= i < j < |rows| ==>
      rows[i].id != rows[j].id && (rows[i].lab == rows[j].lab ==> rows[i].name != rows[j].name)
  }

  predicate UniqueLabs(labs: seq<int>)
  {
    forall i, j :: 0 <= i < j < |labs| ==> labs[i] != labs[j]
  }

  /** A world that has not changed for one container, or one project. */
  predicate SameContainer(a: World, b: World, id: string)
  {
    (id in a.containers <==> id in b.containers) && (id in a.containers ==> a.containers[id] == b.containers[id])
  }

  predicate SameProject(a: World, b: World, name: string)
  {
    RuntimesOf(a, name) == RuntimesOf(b, name)
  }

  lemma OnContainerIsLocal(w: World, id: string, action: ContainerAction, p: Pass)
    ensures var w' := OnContainer(w, id, action, p);
      w'.projects == w.projects && forall other :: other != id ==> SameContainer(w, w', other)
  {
  }

  lemma VisitContainerIsLocal(st: PassState, row: ContainerRow, p: Pass)
    ensures var st' := VisitContainer(st, row, p);
      && (forall id :: id != row.containerId ==> SameContainer(st.world, st'.world, id))
      && st'.world.projects == st.world.projects && st'.projects == st.projects
      && forall r :: r in st'.containers <==>
           r in st.containers && !(r.id == row.id && ContainerIsDone(row, InfoOf(st.world, p, row.containerId), p.now))
  {
    var action := DecideContainer(row, InfoOf(st.world, p, row.containerId), p.now);
    OnContainerIsLocal(st.world, row.containerId, action, p);
    assert action == RemoveAll || action == DropRow <==>
      ContainerIsDone(row, InfoOf(st.world, p, row.containerId), p.now);
  }

  lemma VisitProjectIsLocal(st: PassState, row: ProjectRow, p: Pass)
    ensures var st' := VisitProject(st, row, p);
      && (forall name :: name != row.name ==> SameProject(st.world, st'.world, name))
      && st'.world.containers == st.world.containers && st'.containers == st.containers
      && forall r :: r in st'.projects <==>
           r in st.projects && !(r.id == row.id && ProjectIsDone(row, ListingOf(st.world, p, row), p.now))
  {
  }

  /** Which container rows are left after visiting some of them, in terms of the world before. */
  lemma {:induction false} ContainersLeft(st: PassState, rows: seq<ContainerRow>, p: Pass)
    requires UniqueContainers(rows)
    ensures var st' := VisitContainers(st, rows, p);
      && (forall id :: (forall row :: row in rows ==> row.containerId != id) ==> SameContainer(st.world, st'.world, id))
      && st'.world.projects == st.world.projects && st'.projects == st.projects
      && forall r :: r in st'.containers <==>
           r in st.containers &&
           !(exists row ::
               && row in rows && row.id == r.id
               && ContainerIsDone(row, InfoOf(st.world, p, row.containerId), p.now))
    decreases rows
  {
    if rows != [] {
      var row, rest := rows[0], rows[1..];
      var mid := VisitContainer(st, row, p);
      VisitContainerIsLocal(st, row, p);
      ContainersLeft(mid, rest, p);
      assert forall r :: r in rows <==> r == row || r in rest;
      forall other | other in rest
        ensures InfoOf(mid.world, p, other.containerId) == InfoOf(st.world, p, other.containerId)
      {
        assert other.containerId != row.containerId;
        assert SameContainer(st.world, mid.world, other.containerId);
      }
      var last := VisitContainers(st, rows, p).world;
      forall id | forall r :: r in rows ==> r.containerId != id
        ensures SameContainer(st.world, last, id)
      {
        assert row in rows;
        assert SameContainer(st.world, mid.world, id) && SameContainer(mid.world, last, id);
      }
    }
  }

  lemma {:induction false} ProjectsLeft(st: PassState, rows: seq<ProjectRow>, lab: int, p: Pass)
    requires UniqueProjects(rows) && forall row :: row in rows ==> row.lab == lab
    ensures var st' := VisitProjects(st, rows, p);
      && (forall name :: (forall row :: row in rows ==> row.name != name) ==> SameProject(st.world, st'.world, name))
      && st'.world.containers == st.world.containers && st'.containers == st.containers
      && forall r :: r in st'.projects <==>
           r in st.projects &&
           !(exists row :: row in rows && row.id == r.id && ProjectIsDone(row, ListingOf(st.world, p, row), p.now))
    decreases rows
  {
    if rows != [] {
      var row, rest := rows[0], rows[1..];
      var mid := VisitProject(st, row, p);
      VisitProjectIsLocal(st, row, p);
      ProjectsLeft(mid, rest, lab, p);
      assert forall r :: r in rows <==> r == row || r in rest;
      forall other | other in rest
        ensures ListingOf(mid.world, p, other) == ListingOf(st.world, p, other)
      {
        assert other.name != row.name;
        assert SameProject(st.world, mid.world, other.name);
      }
      var last := VisitProjects(st, rows, p).world;
      forall name | forall r :: r in rows ==> r.name != name
        ensures SameProject(st.world, last, name)
      {
        assert row in rows;
        assert SameProject(st.world, mid.world, name) && SameProject(mid.world, last, name);
      }
    }
  }

  // ---------------------------------------------------------------- uniqueness is kept

  lemma {:induction false} KeptContainersAreUnique(rows: seq<ContainerRow>, p: ContainerRow -> bool)
    requires UniqueContainers(rows)
    ensures UniqueContainers(Keep(rows, p))
    decreases rows
  {
    if rows != [] {
      var rest := Keep(rows[1..], p);
      KeptContainersAreUnique(rows[1..], p);
      forall j | 0 <= j < |rest| ensures rest[j] in rows[1..] { assert rest[j] in rest; }
      assert Keep(rows, p) == (if p(rows[0]) then [rows[0]] else []) + rest;
    }
  }

  lemma {:induction false} KeptProjectsAreUnique(rows: seq<ProjectRow>, p: ProjectRow -> bool)
    requires UniqueProjects(rows)
    ensures UniqueProjects(Keep(rows, p))
    decreases rows
  {
    if rows != [] {
      var rest := Keep(rows[1..], p);
      KeptProjectsAreUnique(rows[1..], p);
      forall j | 0 <= j < |rest| ensures rest[j] in rows[1..] { assert rest[j] in rest; }
      assert Keep(rows, p) == (if p(rows[0]) then [rows[0]] else []) + rest;
    }
  }

  lemma {:induction false} VisitsKeepUniqueContainers(st: PassState, rows: seq<ContainerRow>, p: Pass)
    requires UniqueContainers(st.containers)
    ensures UniqueContainers(VisitContainers(st, rows, p).containers)
    decreases rows
  {
    if rows != [] {
      KeptContainersAreUnique(st.containers, (row: ContainerRow) => row.id != rows[0].id);
      VisitsKeepUniqueContainers(VisitContainer(st, rows[0], p), rows[1..], p);
    }
  }

  lemma {:induction false} VisitsKeepUniqueProjects(st: PassState, rows: seq<ProjectRow>, p: Pass)
    requires UniqueProjects(st.projects)
    ensures UniqueProjects(VisitProjects(st, rows, p).projects)
    decreases rows
  {
    if rows != [] {
      KeptProjectsAreUnique(st.projects, (row: ProjectRow) => row.id != rows[0].id);
      VisitsKeepUniqueProjects(VisitProject(st, rows[0], p), rows[1..], p);
    }
  }

  /** What the schema guarantees of the two tables. */
  predicate Distinguishable(st: PassState)
  {
    UniqueContainers(st.containers) && UniqueProjects(st.projects)
  }

  lemma VisitLabKeepsDistinguishable(st: PassState, lab: int, p: Pass)
    requires Distinguishable(st)
    ensures Distinguishable(VisitLab(st, lab, p))
  {
    var rows := ContainersOf(st.containers, lab);
    var mid := VisitContainers(st, rows, p);
    KeptContainersAreUnique(st.containers, (row: ContainerRow) => row.lab == lab);
    ContainersLeft(st, rows, p);
    VisitsKeepUniqueContainers(st, rows, p);
    KeptProjectsAreUnique(st.projects, (row: ProjectRow) => row.lab == lab);
    ProjectsLeft(mid, ProjectsOf(mid.projects, lab), lab, p);
    VisitsKeepUniqueProjects(mid, ProjectsOf(mid.projects, lab), p);
  }

  // ---------------------------------------------------------------- what a visit does to the lab host

  /** What the world knows of a row after its visit is what its own action made of the world before. */
  predicate ActedOnContainer(w: World, row: ContainerRow, p: Pass, w': World)
  {
    SameContainer(OnContainer(w, row.containerId, DecideContainer(row, InfoOf(w, p, row.containerId), p.now), p), w',
                  row.containerId)
  }

  predicate ActedOnProject(w: World, row: ProjectRow, p: Pass, w': World)
  {
    RuntimesOf(w', row.name) == Visited(RuntimesOf(w, row.name), row, p)
  }

  lemma ActedFromSame(a: World, b: World, row: ContainerRow, p: Pass, c: World, d: World)
    requires SameContainer(a, b, row.containerId) && SameContainer(c, d, row.containerId)
    ensures ActedOnContainer(a, row, p, c) <==> ActedOnContainer(b, row, p, d)
  {
    assert InfoOf(a, p, row.containerId) == InfoOf(b, p, row.containerId);
  }

  lemma {:induction false} ContainersActed(st: PassState, rows: seq<ContainerRow>, p: Pass)
    requires UniqueContainers(rows)
    ensures forall r :: r in rows ==> ActedOnContainer(st.world, r, p, VisitContainers(st, rows, p).world)
    decreases rows
  {
    if rows != [] {
      var row, rest := rows[0], rows[1..];
      var mid := VisitContainer(st, row, p);
      var last := VisitContainers(st, rows, p);
      VisitContainerIsLocal(st, row, p);
      ContainersLeft(mid, rest, p);
      ContainersActed(mid, rest, p);
      forall r | r in rows ensures ActedOnContainer(st.world, r, p, last.world) {
        if r == row {
          assert SameContainer(mid.world, last.world, row.containerId);
        } else {
          assert r in rest;
          ActedFromSame(st.world, mid.world, r, p, last.world, last.world);
        }
      }
    }
  }

  lemma {:induction false} ProjectsActed(st: PassState, rows: seq<ProjectRow>, lab: int, p: Pass)
    requires UniqueProjects(rows) && forall row :: row in rows ==> row.lab == lab
    ensures forall r :: r in rows ==> ActedOnProject(st.world, r, p, VisitProjects(st, rows, p).world)
    decreases rows
  {
    if rows != [] {
      var row, rest := rows[0], rows[1..];
      var mid := VisitProject(st, row, p);
      var last := VisitProjects(st, rows, p);
      VisitProjectIsLocal(st, row, p);
      ProjectsLeft(mid, rest, lab, p);
      ProjectsActed(mid, rest, lab, p);
      forall r | r in rows ensures ActedOnProject(st.world, r, p, last.world) {
        if r == row {
          assert SameProject(mid.world, last.world, row.name);
        } else {
          assert r in rest;
          assert SameProject(st.world, mid.world, r.name);
        }
      }
    }
  }

  lemma LabActed(st: PassState, lab: int, p: Pass)
    requires Distinguishable(st)
    ensures forall r :: r in st.containers && r.lab == lab ==>
      ActedOnContainer(st.world, r, p, VisitLab(st, lab, p).world)
    ensures forall r :: r in st.projects && r.lab == lab ==> ActedOnProject(st.world, r, p, VisitLab(st, lab, p).world)
  {
    var rows := ContainersOf(st.containers, lab);
    var mid := VisitContainers(st, rows, p);
    var projects := ProjectsOf(mid.projects, lab);
    var last := VisitLab(st, lab, p);
    KeptContainersAreUnique(st.containers, (row: ContainerRow) => row.lab == lab);
    ContainersLeft(st, rows, p);
    ContainersActed(st, rows, p);
    KeptProjectsAreUnique(st.projects, (row: ProjectRow) => row.lab == lab);
    ProjectsLeft(mid, projects, lab, p);
    ProjectsActed(mid, projects, lab, p);
    forall r | r in st.containers && r.lab == lab ensures ActedOnContainer(st.world, r, p, last.world) {
      assert r in rows;
      ActedFromSame(st.world, st.world, r, p, mid.world, last.world);
    }
    forall r | r in st.projects && r.lab == lab ensures ActedOnProject(st.world, r, p, last.world) {
      assert r in projects;
      assert SameProject(st.world, mid.world, r.name);
    }
  }

  // ---------------------------------------------------------------- the deletion theorem

  /** `a` is visited before `b`. */
  predicate Before(labs: seq<int>, a: int, b: int)
  {
    labs != [] && ((labs[0] == a && b in labs[1..]) || Before(labs[1..], a, b))
  }

  /** Whether the visit to a row makes the lab host do something with its project. */
  predicate Acts(w: World, p: Pass, q: ProjectRow)
  {
    q.id !in p.refusedProjects && DecideProject(q, ListingOf(w, p, q), p.now) != LeaveProject
  }

  /** An earlier lab of the host has a project of the same name on which the pass acts. */
  predicate Shadowed(projects: seq<ProjectRow>, w: World, labs: seq<int>, p: Pass, r: ProjectRow)
  {
    exists q :: q in projects && q.name == r.name && Acts(w, p, q) && Before(labs, q.lab, r.lab)
  }

  predicate ContainerStays(st: PassState, labs: seq<int>, p: Pass, r: ContainerRow)
  {
    r in st.containers && !(r.lab in labs && ContainerIsDone(r, InfoOf(st.world, p, r.containerId), p.now))
  }

  predicate ProjectStays(st: PassState, labs: seq<int>, p: Pass, r: ProjectRow)
  {
    && r in st.projects
    && !(&& r.lab in labs
         && ProjectIsDone(r, ListingOf(st.world, p, r), p.now)
         && (r.lifetime == SingleUse ==> !Shadowed(st.projects, st.world, labs, p, r)))
  }

  lemma SameIdSameContainer(rows: seq<ContainerRow>, a: ContainerRow, b: ContainerRow)
    requires UniqueContainers(rows) && a in rows && b in rows
    ensures a.id == b.id || a.containerId == b.containerId ==> a == b
  {
  }

  lemma OtherLabsIds(containers: seq<ContainerRow>, lab: int, r: ContainerRow)
    requires UniqueContainers(containers) && r in containers && r.lab != lab
    ensures forall q :: q in containers && q.lab == lab ==> q.containerId != r.containerId
  {
  }

  lemma SameIdSameProject(rows: seq<ProjectRow>, a: ProjectRow, b: ProjectRow)
    requires UniqueProjects(rows) && a in rows && b in rows
    ensures a.id == b.id ==> a == b
    ensures a.lab == b.lab && a.name == b.name ==> a == b
  {
  }

  /** One lab: its finished rows go, all other rows stay, and the lab host's other containers and
      projects are left alone. */
  lemma VisitLabEffect(st: PassState, lab: int, p: Pass)
    requires Distinguishable(st)
    ensures var st' := VisitLab(st, lab, p);
      && (forall r :: r in st'.containers <==> ContainerStays(st, [lab], p, r))
      && (forall r :: r in st'.projects <==>
           r in st.projects && !(r.lab == lab && ProjectIsDone(r, ListingOf(st.world, p, r), p.now)))
      && (forall id :: (forall q :: q in st.containers && q.lab == lab ==> q.containerId != id) ==>
          SameContainer(st.world, st'.world, id))
      && (forall name :: (forall q :: q in st.projects && q.lab == lab ==> q.name != name) ==>
          SameProject(st.world, st'.world, name))
  {
    var rows := ContainersOf(st.containers, lab);
    var mid := VisitContainers(st, rows, p);
    var projects := ProjectsOf(mid.projects, lab);
    KeptContainersAreUnique(st.containers, (row: ContainerRow) => row.lab == lab);
    ContainersLeft(st, rows, p);
    KeptProjectsAreUnique(st.projects, (row: ProjectRow) => row.lab == lab);
    ProjectsLeft(mid, projects, lab, p);
    var st' := VisitLab(st, lab, p);
    forall r ensures r in st'.containers <==> ContainerStays(st, [lab], p, r) {
      if r in st.containers {
        forall row | row in rows && row.id == r.id ensures row == r { SameIdSameContainer(st.containers, row, r); }
        if r.lab == lab { assert r in rows; }
      }
    }
    forall r ensures r in st'.projects <==>
        r in st.projects && !(r.lab == lab && ProjectIsDone(r, ListingOf(st.world, p, r), p.now)) {
      if r in st.projects {
        forall row | row in projects && row.id == r.id ensures row == r { SameIdSameProject(st.projects, row, r); }
        if r.lab == lab { assert r in projects; }
      }
    }
    forall id | forall q :: q in st.containers && q.lab == lab ==> q.containerId != id
      ensures SameContainer(st.world, st'.world, id)
    {
      assert forall q :: q in rows ==> q.containerId != id;
      assert SameContainer(st.world, mid.world, id);
    }
    forall name | forall q :: q in st.projects && q.lab == lab ==> q.name != name
      ensures SameProject(st.world, st'.world, name)
    {
      assert forall q :: q in projects ==> q.name != name;
      assert SameProject(mid.world, st'.world, name);
    }
  }

  predicate ListingSucceeded(w: World, name: string)
  {
    name in w.projects && AllSucceeded(w.projects[name])
  }

  /** Every command on a project leaves it in a state that does not count as success, so after a lab
      has been visited a name still does exactly if it did and no project of the lab was acted on. In
      that case the project is as it was. */
  lemma SuccessSurvivesALab(st: PassState, lab: int, p: Pass, name: string)
    requires Distinguishable(st)
    ensures ListingSucceeded(VisitLab(st, lab, p).world, name)
       <==> ListingSucceeded(st.world, name) &&
            !exists q :: q in st.projects && q.lab == lab && q.name == name && Acts(st.world, p, q)
    ensures ListingSucceeded(VisitLab(st, lab, p).world, name) ==>
      SameProject(st.world, VisitLab(st, lab, p).world, name)
  {
    VisitLabEffect(st, lab, p);
    LabActed(st, lab, p);
    var last := VisitLab(st, lab, p).world;
    if q :| q in st.projects && q.lab == lab && q.name == name {
      forall q' | q' in st.projects && q'.lab == lab && q'.name == name ensures q' == q {
        SameIdSameProject(st.projects, q, q');
      }
      ActingEndsSuccess(st.world, last, q, p);
    } else {
      assert SameProject(st.world, last, name);
    }
  }

  lemma UpIsNoSuccess(rs: seq<Runtime>)
    ensures SomeAlive(AfterUp(rs)) && !AllSucceeded(AfterUp(rs))
  {
    var up := AfterUp(rs);
    assert Alive(up[0]) && !Succeeded(up[0]);
  }

  lemma ActingEndsSuccess(w: World, w': World, q: ProjectRow, p: Pass)
    requires ActedOnProject(w, q, p, w')
    ensures ListingSucceeded(w', q.name) <==> ListingSucceeded(w, q.name) && !Acts(w, p, q)
    ensures ListingSucceeded(w', q.name) ==> SameProject(w, w', q.name)
  {
    var known := RuntimesOf(w, q.name);
    if known.Some? { UpIsNoSuccess(known.value); }
  }

  /** One pass deletes exactly the rows that are done: expired ephemeral ones, single-use containers
      that are gone or have succeeded, and single-use projects all of whose containers, at least one,
      have succeeded, unless an earlier lab of the host has acted on a project of that name. Nothing
      else is deleted and no row is changed, whatever the lab host answers. A container that cannot be
      read counts as gone, a project that cannot be listed as one without containers. */
  lemma {:induction false} PassDeletesExactlyTheDone(st: PassState, labs: seq<int>, p: Pass)
    requires Distinguishable(st) && UniqueLabs(labs)
    ensures forall r :: r in VisitLabs(st, labs, p).containers <==> ContainerStays(st, labs, p, r)
    ensures forall r :: r in VisitLabs(st, labs, p).projects <==> ProjectStays(st, labs, p, r)
    decreases labs
  {
    if labs != [] {
      var lab, rest := labs[0], labs[1..];
      var mid := VisitLab(st, lab, p);
      VisitLabEffect(st, lab, p);
      VisitLabKeepsDistinguishable(st, lab, p);
      PassDeletesExactlyTheDone(mid, rest, p);
      forall r ensures ContainerStays(mid, rest, p, r) <==> ContainerStays(st, labs, p, r) {
        ContainerStaysOverALab(st, labs, p, r);
      }
      forall r ensures ProjectStays(mid, rest, p, r) <==> ProjectStays(st, labs, p, r) {
        if r in st.projects {
          ProjectStaysOverALab(st, labs, p, r);
        }
      }
    }
  }

  lemma {:induction false} BeforeMeansIn(labs: seq<int>, a: int, b: int)
    requires Before(labs, a, b)
    ensures a in labs && b in labs[1..]
    decreases labs
  {
    if !(labs[0] == a && b in labs[1..]) { BeforeMeansIn(labs[1..], a, b); }
  }

  /** While a project is as it was, so are the rows that would act on it. */
  lemma ShadowedOverALab(st: PassState, mid: PassState, labs: seq<int>, p: Pass, r: ProjectRow)
    requires labs != [] && UniqueLabs(labs) && r.lab in labs[1..] && SameProject(st.world, mid.world, r.name)
    requires forall q :: q in mid.projects ==> q in st.projects
    requires forall q :: q in st.projects && q.lab != labs[0] ==> q in mid.projects
    ensures Shadowed(st.projects, st.world, labs, p, r)
       <==> (exists q :: q in st.projects && q.lab == labs[0] && q.name == r.name && Acts(st.world, p, q))
            || Shadowed(mid.projects, mid.world, labs[1..], p, r)
  {
    forall q | Before(labs[1..], q, r.lab) ensures q != labs[0] { BeforeMeansIn(labs[1..], q, r.lab); }
    forall q: ProjectRow | q.name == r.name ensures Acts(st.world, p, q) <==> Acts(mid.world, p, q) {
    }
  }

  lemma ContainerStaysOverALab(st: PassState, labs: seq<int>, p: Pass, r: ContainerRow)
    requires Distinguishable(st) && UniqueLabs(labs) && labs != []
    ensures ContainerStays(VisitLab(st, labs[0], p), labs[1..], p, r) <==> ContainerStays(st, labs, p, r)
  {
    var mid := VisitLab(st, labs[0], p);
    VisitLabEffect(st, labs[0], p);
    assert r in mid.containers <==> ContainerStays(st, [labs[0]], p, r);
    if r in st.containers && r.lab != labs[0] {
      OtherLabsIds(st.containers, labs[0], r);
      assert SameContainer(st.world, mid.world, r.containerId);
    }
  }

  lemma ProjectStaysOverALab(st: PassState, labs: seq<int>, p: Pass, r: ProjectRow)
    requires Distinguishable(st) && UniqueLabs(labs) && labs != [] && r in st.projects
    ensures ProjectStays(VisitLab(st, labs[0], p), labs[1..], p, r) <==> ProjectStays(st, labs, p, r)
  {
    var mid := VisitLab(st, labs[0], p);
    VisitLabEffect(st, labs[0], p);
    if r.lab == labs[0] {
      FirstIsNotShadowed(st, labs, p, r);
    } else if r.lab in labs[1..] && r.lifetime == SingleUse && !ListingFails(p, r.id) {
      SuccessSurvivesALab(st, labs[0], p, r.name);
      if ListingSucceeded(mid.world, r.name) {
        ShadowedOverALab(st, mid, labs, p, r);
      } else if ListingSucceeded(st.world, r.name) {
        var q :| q in st.projects && q.lab == labs[0] && q.name == r.name && Acts(st.world, p, q);
        assert Before(labs, q.lab, r.lab);
      }
    }
  }

  lemma NothingPrecedesTheFirst(labs: seq<int>, a: int)
    requires UniqueLabs(labs) && labs != []
    ensures !Before(labs, a, labs[0])
  {
    if Before(labs, a, labs[0]) { BeforeMeansIn(labs, a, labs[0]); }
  }

  lemma FirstIsNotShadowed(st: PassState, labs: seq<int>, p: Pass, r: ProjectRow)
    requires UniqueLabs(labs) && labs != [] && r.lab == labs[0]
    ensures !Shadowed(st.projects, st.world, labs, p, r)
  {
    forall a ensures !Before(labs, a, r.lab) { NothingPrecedesTheFirst(labs, a); }
  }

  /** Session and persistent rows survive every pass. */
  lemma SessionAndPersistentSurvive(st: PassState, labs: seq<int>, p: Pass)
    requires Distinguishable(st) && UniqueLabs(labs)
    ensures forall r :: r in st.containers && (r.lifetime == Session || r.lifetime == Persistent) ==>
      r in VisitLabs(st, labs, p).containers
    ensures forall r :: r in st.projects && (r.lifetime == Session || r.lifetime == Persistent) ==>
      r in VisitLabs(st, labs, p).projects
  {
    PassDeletesExactlyTheDone(st, labs, p);
    forall r | r in st.containers && (r.lifetime == Session || r.lifetime == Persistent)
      ensures r in VisitLabs(st, labs, p).containers
    {
      assert ContainerStays(st, labs, p, r);
    }
    forall r | r in st.projects && (r.lifetime == Session || r.lifetime == Persistent)
      ensures r in VisitLabs(st, labs, p).projects
    {
      assert ProjectStays(st, labs, p, r);
    }
  }

  predicate KeepsDoneProject(st: PassState, labs: seq<int>, p: Pass, r: ProjectRow)
  {
    && r in st.projects && r.lab in labs
    && ProjectIsDone(r, ListingOf(st.world, p, r), p.now)
    && r in VisitLabs(st, labs, p).projects
  }

  /** A pass can therefore keep a project that is done: the visit to an earlier project of that name
      leaves nothing that the later one could be judged by. */
  lemma ShadowKeepsDoneProject(st: PassState, labs: seq<int>, p: Pass, a: ProjectRow, b: ProjectRow)
    requires Distinguishable(st) && UniqueLabs(labs) && a in st.projects && b in st.projects
    requires a.name == b.name && Acts(st.world, p, a) && b.lifetime == SingleUse && Before(labs, a.lab, b.lab)
    requires ProjectIsDone(b, ListingOf(st.world, p, b), p.now)
    ensures KeepsDoneProject(st, labs, p, b)
  {
    PassDeletesExactlyTheDone(st, labs, p);
    BeforeMeansIn(labs, a.lab, b.lab);
    assert Shadowed(st.projects, st.world, labs, p, b);
    assert ProjectStays(st, labs, p, b);
  }

  lemma SharedProjectNameIsKept()
    ensures exists st, p, r :: Distinguishable(st) && UniqueLabs([1, 2]) && KeepsDoneProject(st, [1, 2], p, r)
  {
    var a := ProjectRow(1, 1, "job", [], SingleUse, None, 0, ToRun);
    var b := ProjectRow(2, 2, "job", [], SingleUse, None, 0, ToRun);
    var done := [Runtime(Exited, Some(0))];
    var st := PassState([], [a, b], World(map[], map["job" := done]), []);
    var p := Pass(0, map[], map[], map[], map[], {}, {}, 0, false);
    assert AllSucceeded(done);
    assert [1, 2][1..] == [2];
    assert RuntimesOf(st.world, "job") == Some(done);
    assert UniqueContainers(st.containers) && UniqueProjects(st.projects);
    assert Acts(st.world, p, a);
    ShadowKeepsDoneProject(st, [1, 2], p, a, b);
  }

  /** A live, unfinished single-use container loses its row exactly when the heartbeat does not mention
      it and the lab host answers its read with an error, whatever the error. */
  lemma LiveContainerLosesItsRowExactlyWhenUnread(st: PassState, labs: seq<int>, p: Pass, r: ContainerRow)
    requires Distinguishable(st) && UniqueLabs(labs) && r in st.containers && r.lab in labs && r.lifetime == SingleUse
    requires RuntimeIn(st.world, r.containerId).Some? && !Succeeded(RuntimeIn(st.world, r.containerId).value)
    requires r.containerId in p.reported ==> p.reported[r.containerId] == st.world.containers[r.containerId]
    ensures r !in VisitLabs(st, labs, p).containers <==> r.containerId !in p.reported && ReadFails(p, r.containerId)
  {
    PassDeletesExactlyTheDone(st, labs, p);
    assert r in VisitLabs(st, labs, p).containers <==> ContainerStays(st, labs, p, r);
  }

  /** In a periodic pass, which has no report, a host that answers 500 to a read loses the row of a
      running container. */
  lemma UnreadContainerLosesItsRow()
    ensures exists st, p, r ::
      && Distinguishable(st) && r in st.containers && r.lab == 1 && r.lifetime == SingleUse
      && RuntimeIn(st.world, r.containerId) == Some(Runtime(Running, None))
      && r !in VisitLabs(st, [1], p).containers
  {
    var r := ContainerRow(1, 1, "job", "c1", SingleUse, None, 0, Started);
    var st := PassState([r], [], World(map["c1" := Runtime(Running, None)], map[]), []);
    var p := Pass(0, map[], map["c1" := 500], map[], map[], {}, {}, 0, false);
    LiveContainerLosesItsRowExactlyWhenUnread(st, [1], p, r);
  }

  // ---------------------------------------------------------------- the periodic pass

  lemma {:induction false} PassKeepsDistinguishable(st: PassState, labs: seq<int>, p: Pass)
    requires Distinguishable(st)
    ensures Distinguishable(VisitLabs(st, labs, p))
    decreases labs
  {
    if labs != [] {
      VisitLabKeepsDistinguishable(st, labs[0], p);
      PassKeepsDistinguishable(VisitLab(st, labs[0], p), labs[1..], p);
    }
  }

  /** Each host has labs of its own. */
  predicate OwnLabs(turns: seq<Turn>)
  {
    && (forall k :: 0 <= k < |turns| ==> UniqueLabs(turns[k].labs))
    && forall i, k, lab :: 0 <= i < k < |turns| && lab in turns[i].labs ==> lab !in turns[k].labs
  }

  /** A row is not one that its host's turn deletes, judged by the tables before the first turn. */
  predicate ContainerStaysInTurn(st: PassState, turn: Turn, r: ContainerRow)
  {
    turn.keyUsable ==> ContainerStays(st.(world := turn.world), turn.labs, turn.pass.(reported := map[]), r)
  }

  predicate ProjectStaysInTurn(st: PassState, turn: Turn, r: ProjectRow)
  {
    turn.keyUsable ==> ProjectStays(st.(world := turn.world), turn.labs, turn.pass.(reported := map[]), r)
  }

  lemma ShadowsOfOwnLabs(a: seq<ProjectRow>, b: seq<ProjectRow>, w: World, labs: seq<int>, p: Pass, r: ProjectRow)
    requires forall q :: q in b ==> q in a
    requires forall q :: q in a && q.lab in labs ==> q in b
    ensures Shadowed(a, w, labs, p, r) <==> Shadowed(b, w, labs, p, r)
  {
    forall x | Before(labs, x, r.lab) ensures x in labs { BeforeMeansIn(labs, x, r.lab); }
  }

  /** The periodic pass deletes exactly the rows that the passes over their own hosts delete: no host's
      turn changes what becomes of another host's rows. */
  lemma {:induction false} TurnsDeleteExactlyTheDone(st: PassState, turns: seq<Turn>)
    requires Distinguishable(st) && OwnLabs(turns)
    ensures var last := AfterTurns(st, turns);
      && Distinguishable(last)
      && (forall r :: r in last.containers <==>
          r in st.containers && forall t :: t in turns ==> ContainerStaysInTurn(st, t, r))
      && (forall r :: r in last.projects <==>
          r in st.projects && forall t :: t in turns ==> ProjectStaysInTurn(st, t, r))
    decreases turns
  {
    if turns != [] {
      var n := |turns| - 1;
      var front, turn := turns[..n], turns[n];
      var mid := AfterTurns(st, front);
      assert forall t :: t in turns <==> t in front || t == turn;
      TurnsDeleteExactlyTheDone(st, front);
      LastTurn(st, mid, front, turn);
    }
  }

  lemma LastTurn(st: PassState, mid: PassState, front: seq<Turn>, turn: Turn)
    requires Distinguishable(mid) && OwnLabs(front + [turn])
    requires forall r :: r in mid.containers <==>
      r in st.containers && forall t :: t in front ==> ContainerStaysInTurn(st, t, r)
    requires forall r :: r in mid.projects <==>
      r in st.projects && forall t :: t in front ==> ProjectStaysInTurn(st, t, r)
    ensures var last := AfterTurn(mid, turn, map[]);
      && Distinguishable(last)
      && (forall r :: r in last.containers <==> r in mid.containers && ContainerStaysInTurn(st, turn, r))
      && (forall r :: r in last.projects <==> r in mid.projects && ProjectStaysInTurn(st, turn, r))
  {
    var all := front + [turn];
    assert all[|front|] == turn;
    var p, begun := turn.pass.(reported := map[]), mid.(world := turn.world);
    if turn.keyUsable {
      PassKeepsDistinguishable(begun, turn.labs, p);
      PassDeletesExactlyTheDone(begun, turn.labs, p);
      forall q | q in st.projects && q.lab in turn.labs ensures q in mid.projects {
        forall t | t in front ensures ProjectStaysInTurn(st, t, q) {
          var i :| 0 <= i < |front| && front[i] == t;
          assert all[i] == t;
        }
      }
      forall r
        ensures r in VisitLabs(begun, turn.labs, p).projects <==> r in mid.projects && ProjectStaysInTurn(st, turn, r)
      {
        ShadowsOfOwnLabs(st.projects, mid.projects, turn.world, turn.labs, p, r);
      }
      forall r
        ensures r in VisitLabs(begun, turn.labs, p).containers <==>
          r in mid.containers && ContainerStaysInTurn(st, turn, r)
      {
      }
    }
  }
}

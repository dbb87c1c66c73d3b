/** What a reconciliation pass makes of the lab host, and when a second pass has nothing left to do. */
module Settling {
  import opened Wrappers
  import opened Reconciler

  /** A pass does nothing to containers and projects that no row of the host names. */
  lemma {:induction false} PassSparesContainer(st: PassState, labs: seq<int>, p: Pass, id: string)
    requires Distinguishable(st) && forall q :: q in st.containers && q.lab in labs ==> q.containerId != id
    ensures SameContainer(st.world, VisitLabs(st, labs, p).world, id)
    decreases labs
  {
    if labs != [] {
      var mid := VisitLab(st, labs[0], p);
      VisitLabEffect(st, labs[0], p);
      VisitLabKeepsDistinguishable(st, labs[0], p);
      forall q | q in mid.containers && q.lab in labs[1..] ensures q.containerId != id {
        assert ContainerStays(st, [labs[0]], p, q);
      }
      PassSparesContainer(mid, labs[1..], p, id);
      assert SameContainer(st.world, mid.world, id);
    }
  }

  lemma {:induction false} PassSparesProject(st: PassState, labs: seq<int>, p: Pass, name: string)
    requires Distinguishable(st) && forall q :: q in st.projects && q.lab in labs ==> q.name != name
    ensures SameProject(st.world, VisitLabs(st, labs, p).world, name)
    decreases labs
  {
    if labs != [] {
      var mid := VisitLab(st, labs[0], p);
      VisitLabEffect(st, labs[0], p);
      VisitLabKeepsDistinguishable(st, labs[0], p);
      PassSparesProject(mid, labs[1..], p, name);
      assert SameProject(st.world, mid.world, name);
    }
  }

  /** A whole pass does for each row of the host what the row alone calls for. */
  lemma {:induction false} PassActsOnContainers(st: PassState, labs: seq<int>, p: Pass, r: ContainerRow)
    requires Distinguishable(st) && UniqueLabs(labs) && r in st.containers && r.lab in labs
    ensures ActedOnContainer(st.world, r, p, VisitLabs(st, labs, p).world)
    decreases labs
  {
    var lab, rest := labs[0], labs[1..];
    var mid, last := VisitLab(st, lab, p), VisitLabs(st, labs, p);
    VisitLabEffect(st, lab, p);
    VisitLabKeepsDistinguishable(st, lab, p);
    if r.lab == lab {
      LabActed(st, lab, p);
      forall q | q in mid.containers && q.lab in rest ensures q.containerId != r.containerId {
        assert ContainerStays(st, [lab], p, q);
        SameIdSameContainer(st.containers, q, r);
      }
      PassSparesContainer(mid, rest, p, r.containerId);
      ActedFromSame(st.world, st.world, r, p, mid.world, last.world);
    } else {
      OtherLabsIds(st.containers, lab, r);
      assert ContainerStays(st, [lab], p, r);
      PassActsOnContainers(mid, rest, p, r);
      ActedFromSame(st.world, mid.world, r, p, last.world, last.world);
    }
  }

  // ---------------------------------------------------------------- one name over a pass

  /** What is known of a project after the rows of its name have been visited, one after the other. */
  function Outcome(known: Option<seq<Runtime>>, rows: seq<ProjectRow>, p: Pass): Option<seq<Runtime>>
    decreases rows
  {
    if rows == [] then known else
    var n := |rows| - 1;
    Visited(Outcome(known, rows[..n], p), rows[n], p)
  }

  lemma {:induction false} OutcomeCons(known: Option<seq<Runtime>>, q: ProjectRow, rows: seq<ProjectRow>, p: Pass)
    ensures Outcome(known, [q] + rows, p) == Outcome(Visited(known, q, p), rows, p)
    decreases rows
  {
    var all := [q] + rows;
    if rows == [] {
      assert all == [q] && all[..0] == [];
    } else {
      var n := |rows| - 1;
      assert all[..n + 1] == [q] + rows[..n] && all[n + 1] == rows[n];
      OutcomeCons(known, q, rows[..n], p);
    }
  }

  /** Whether the visit to row i of a name, after those before it, deletes the row. */
  predicate Deletes(known: Option<seq<Runtime>>, rows: seq<ProjectRow>, i: nat, p: Pass)
    requires i < |rows|
  {
    DecideProject(rows[i], Listed(Outcome(known, rows[..i], p), rows[i], p), p.now) == RemoveWhole
  }

  /** The rows of one name on a host, in the order of their visits. */
  ghost predicate RowsOfName(st: PassState, labs: seq<int>, name: string, rows: seq<ProjectRow>)
  {
    && (forall q :: q in rows <==> q in st.projects && q.lab in labs && q.name == name)
    && forall i, j :: 0 <= i < j < |rows| ==> Before(labs, rows[i].lab, rows[j].lab)
  }

  /** Between two states of a pass a project has gone through the visits to these rows, each of which is
      still there unless its visit deleted it. */
  ghost predicate RunOfName(st: PassState, last: PassState, labs: seq<int>, p: Pass, name: string,
                            rows: seq<ProjectRow>)
  {
    && RowsOfName(st, labs, name, rows)
    && RuntimesOf(last.world, name) == Outcome(RuntimesOf(st.world, name), rows, p)
    && forall i: nat :: i < |rows| ==> (rows[i] in last.projects <==> !Deletes(RuntimesOf(st.world, name), rows, i, p))
  }

  /** The visit to one lab, as one name sees it. */
  lemma LabOfName(st: PassState, lab: int, p: Pass, name: string) returns (q: Option<ProjectRow>)
    requires Distinguishable(st)
    ensures var mid := VisitLab(st, lab, p);
      && Distinguishable(mid)
      && (forall r :: r in mid.projects ==> r in st.projects)
      && (forall r :: r in st.projects && r.lab != lab ==> r in mid.projects)
      && match q
         case None =>
           SameProject(st.world, mid.world, name) && forall r :: r in st.projects && r.lab == lab ==> r.name != name
         case Some(r) =>
           && r in st.projects && r.lab == lab && r.name == name
           && RuntimesOf(mid.world, name) == Visited(RuntimesOf(st.world, name), r, p)
           && (r in mid.projects <==> DecideProject(r, Listed(RuntimesOf(st.world, name), r, p), p.now) != RemoveWhole)
  {
    VisitLabEffect(st, lab, p);
    VisitLabKeepsDistinguishable(st, lab, p);
    if r :| r in st.projects && r.lab == lab && r.name == name {
      RowOfLab(st, lab, p, r);
      q := Some(r);
    } else {
      q := None;
    }
  }

  lemma RowOfLab(st: PassState, lab: int, p: Pass, r: ProjectRow)
    requires Distinguishable(st) && r in st.projects && r.lab == lab
    ensures RuntimesOf(VisitLab(st, lab, p).world, r.name) == Visited(RuntimesOf(st.world, r.name), r, p)
    ensures r in VisitLab(st, lab, p).projects <==>
            DecideProject(r, Listed(RuntimesOf(st.world, r.name), r, p), p.now) != RemoveWhole
  {
    LabActed(st, lab, p);
    assert ActedOnProject(st.world, r, p, VisitLab(st, lab, p).world);
    VisitLabEffect(st, lab, p);
    DoneMeansRemoved(r, ListingOf(st.world, p, r), p.now);
  }

  lemma DoneMeansRemoved(r: ProjectRow, listing: Listing, now: int)
    ensures DecideProject(r, listing, now) == RemoveWhole <==> ProjectIsDone(r, listing, now)
  {
  }

  lemma OtherLabsKeepRow(st: PassState, labs: seq<int>, p: Pass, q: ProjectRow)
    requires Distinguishable(st) && UniqueLabs(labs) && q.lab !in labs
    ensures q in VisitLabs(st, labs, p).projects <==> q in st.projects
  {
    PassDeletesExactlyTheDone(st, labs, p);
    assert q in VisitLabs(st, labs, p).projects <==> ProjectStays(st, labs, p, q);
  }

  /** A pass does to a project what its rows do one after the other, whatever else it visits. */
  lemma {:induction false} NameRun(st: PassState, labs: seq<int>, p: Pass, name: string) returns (rows: seq<ProjectRow>)
    requires Distinguishable(st) && UniqueLabs(labs)
    ensures RunOfName(st, VisitLabs(st, labs, p), labs, p, name, rows)
    decreases labs
  {
    if labs == [] {
      rows := [];
    } else {
      var mid := VisitLab(st, labs[0], p);
      var q := LabOfName(st, labs[0], p, name);
      var later := NameRun(mid, labs[1..], p, name);
      match q
      case None =>
        rows := later;
        NoRowMore(st, mid, VisitLabs(st, labs, p), labs, p, name, later);
      case Some(r) =>
        rows := [r] + later;
        OtherLabsKeepRow(mid, labs[1..], p, r);
        OneRowMore(st, mid, VisitLabs(st, labs, p), labs, p, name, r, later);
    }
  }

  lemma NoRowMore(st: PassState, mid: PassState, last: PassState, labs: seq<int>, p: Pass, name: string,
                  later: seq<ProjectRow>)
    requires UniqueLabs(labs) && labs != [] && RunOfName(mid, last, labs[1..], p, name, later)
    requires SameProject(st.world, mid.world, name)
    requires forall r :: r in st.projects && r.lab == labs[0] ==> r.name != name
    requires forall r :: r in mid.projects ==> r in st.projects
    requires forall r :: r in st.projects && r.lab != labs[0] ==> r in mid.projects
    ensures RunOfName(st, last, labs, p, name, later)
  {
  }

  lemma DeletesCons(known: Option<seq<Runtime>>, q: ProjectRow, later: seq<ProjectRow>, i: nat, p: Pass)
    requires i < |later|
    ensures Deletes(known, [q] + later, i + 1, p) <==> Deletes(Visited(known, q, p), later, i, p)
  {
    assert ([q] + later)[..i + 1] == [q] + later[..i];
    OutcomeCons(known, q, later[..i], p);
  }

  lemma OneRowMore(st: PassState, mid: PassState, last: PassState, labs: seq<int>, p: Pass, name: string, q: ProjectRow,
                   later: seq<ProjectRow>)
    requires UniqueProjects(st.projects) && UniqueLabs(labs) && labs != []
    requires RunOfName(mid, last, labs[1..], p, name, later)
    requires q in st.projects && q.lab == labs[0] && q.name == name
    requires RuntimesOf(mid.world, name) == Visited(RuntimesOf(st.world, name), q, p)
    requires q in last.projects <==> DecideProject(q, Listed(RuntimesOf(st.world, name), q, p), p.now) != RemoveWhole
    requires forall r :: r in mid.projects ==> r in st.projects
    requires forall r :: r in st.projects && r.lab != labs[0] ==> r in mid.projects
    ensures RunOfName(st, last, labs, p, name, [q] + later)
  {
    var known, rows := RuntimesOf(st.world, name), [q] + later;
    OutcomeCons(known, q, later, p);
    RowsWithOneMore(st, mid, labs, name, q, later);
    forall i: nat | i < |rows| ensures rows[i] in last.projects <==> !Deletes(known, rows, i, p) {
      if i == 0 {
        assert rows[..0] == [] && Outcome(known, [], p) == known;
      } else {
        DeletesCons(known, q, later, i - 1, p);
        assert rows[i] == later[i - 1];
      }
    }
  }

  lemma RowsWithOneMore(st: PassState, mid: PassState, labs: seq<int>, name: string, q: ProjectRow,
                        later: seq<ProjectRow>)
    requires UniqueProjects(st.projects) && UniqueLabs(labs) && labs != []
    requires q in st.projects && q.lab == labs[0] && q.name == name && RowsOfName(mid, labs[1..], name, later)
    requires forall r :: r in mid.projects ==> r in st.projects
    requires forall r :: r in st.projects && r.lab != labs[0] ==> r in mid.projects
    ensures RowsOfName(st, labs, name, [q] + later)
  {
    var rows := [q] + later;
    forall r ensures r in rows <==> r in st.projects && r.lab in labs && r.name == name {
      if r in st.projects && r.lab == labs[0] && r.name == name { SameIdSameProject(st.projects, r, q); }
    }
    forall i, j | 0 <= i < j < |rows| ensures Before(labs, rows[i].lab, rows[j].lab) {
      assert rows[j] == later[j - 1] && later[j - 1] in later;
      if i > 0 { assert rows[i] == later[i - 1]; }
    }
  }

  // ---------------------------------------------------------------- reliable passes

  /** Nothing is reported that is not so, and every read is answered. */
  predicate Fresh(p: Pass, w: World)
  {
    && (forall id :: id in p.reported ==> id in w.containers && p.reported[id] == w.containers[id])
    && (forall id :: id in p.readCodes ==> !ReadFails(p, id))
    && (forall id :: id in p.listCodes ==> !ListingFails(p, id))
  }

  predicate Obeyed(p: Pass) { p.refusedContainers == {} && p.refusedProjects == {} }

  predicate Listable(p: Pass) { forall id :: id in p.listCodes ==> !ListingFails(p, id) }

  ghost predicate NoneDeleted(known: Option<seq<Runtime>>, rows: seq<ProjectRow>, p: Pass)
  {
    forall i: nat :: i < |rows| ==> !Deletes(known, rows, i, p)
  }

  lemma NoneDeletedInFront(known: Option<seq<Runtime>>, rows: seq<ProjectRow>, p: Pass)
    requires rows != []
    ensures NoneDeleted(known, rows, p) <==>
      NoneDeleted(known, rows[..|rows| - 1], p) && !Deletes(known, rows, |rows| - 1, p)
  {
    var front := rows[..|rows| - 1];
    forall i: nat | i < |front| ensures Deletes(known, rows, i, p) <==> Deletes(known, front, i, p) {
      assert rows[..i] == front[..i];
    }
    if NoneDeleted(known, front, p) && !Deletes(known, rows, |front|, p) {
      forall i: nat | i < |rows| ensures !Deletes(known, rows, i, p) {
        if i < |front| { assert !Deletes(known, front, i, p); }
      }
    }
    if NoneDeleted(known, rows, p) {
      forall i: nat | i < |front| ensures !Deletes(known, front, i, p) { assert !Deletes(known, rows, i, p); }
    }
  }

  /** A project that the lab host does not know, or that a row of its name removes, is unknown in the
      end; any other one is known. */
  lemma {:induction false} OutcomeIsKnown(known: Option<seq<Runtime>>, rows: seq<ProjectRow>, p: Pass)
    requires Listable(p) && Obeyed(p)
    ensures Outcome(known, rows, p).Some? <==> known.Some? && NoneDeleted(known, rows, p)
    decreases rows
  {
    if rows != [] {
      NoneDeletedInFront(known, rows, p);
      OutcomeIsKnown(known, rows[..|rows| - 1], p);
    }
  }

  /** The last row of a name that is not a session one has its way. */
  lemma {:induction false} LastRowDecides(known: Option<seq<Runtime>>, rows: seq<ProjectRow>, k: nat, p: Pass)
    requires Listable(p) && Obeyed(p) && known.Some? && NoneDeleted(known, rows, p)
    requires k < |rows| && rows[k].lifetime != Session && forall j :: k < j < |rows| ==> rows[j].lifetime == Session
    ensures Outcome(known, rows, p).Some?
    ensures match rows[k].desired
      case ToRun => SomeAlive(Outcome(known, rows, p).value)
      case ToStop => Outcome(known, rows, p) == Some([])
    decreases rows
  {
    var n := |rows| - 1;
    NoneDeletedInFront(known, rows, p);
    OutcomeIsKnown(known, rows[..n], p);
    if k == n {
      var before := Outcome(known, rows[..n], p).value;
      UpIsNoSuccess(before);
    } else {
      LastRowDecides(known, rows[..n], k, p);
    }
  }

  predicate AsDesired(known: Option<seq<Runtime>>, q: ProjectRow)
  {
    q.lifetime == Session ||
    match q.desired
    case ToRun => known.Some? && SomeAlive(known.value)
    case ToStop => known == None || known == Some([])
  }

  /** A project that is as all its rows want it is not touched. */
  lemma {:induction false} DesiredIsKept(known: Option<seq<Runtime>>, rows: seq<ProjectRow>, p: Pass)
    requires Listable(p) && Obeyed(p) && NoneDeleted(known, rows, p) && forall q :: q in rows ==> AsDesired(known, q)
    ensures Outcome(known, rows, p) == known
    decreases rows
  {
    if rows != [] {
      var n := |rows| - 1;
      NoneDeletedInFront(known, rows, p);
      DesiredIsKept(known, rows[..n], p);
      assert AsDesired(known, rows[n]);
    }
  }

  // ---------------------------------------------------------------- reaching the desired state

  /** What a pass makes of a row's container. A container that already is as desired is not touched. */
  predicate ContainerReached(r: ContainerRow, before: Option<Runtime>, after: Option<Runtime>, p: Pass)
  {
    if r.lifetime == Session then after == before
    else if ContainerIsDone(r, before, p.now) then after.None? || Stuck(p, r.containerId)
    else match (r.desired, before)
      case (_, None) => after.None?
      case (Started, Some(b)) =>
        && after.Some?
        && if b.status == PausedNow || b.status == Dead || Alive(b) then after == before else Alive(after.value)
      case (Stopped, Some(b)) =>
        after.Some? && if Alive(b) || b.status == PausedNow then Finished(after.value) else after == before
      case (Paused, Some(b)) =>
        after.Some? && if b.status == Running then after.value.status == PausedNow else after == before
      case (Created, Some(_)) => after == before
  }

  /** A row of a host for a project of that name. */
  predicate IsRowOf(st: PassState, labs: seq<int>, name: string, q: ProjectRow)
  {
    q in st.projects && q.lab in labs && q.name == name
  }

  /** The last row of a name to be visited, of those that count. */
  predicate IsLastOf(st: PassState, labs: seq<int>, name: string, q: ProjectRow)
  {
    && IsRowOf(st, labs, name, q) && q.lifetime != Session
    && forall r :: r in st.projects && IsRowOf(st, labs, name, r) && r.lifetime != Session && r != q ==>
      Before(labs, r.lab, q.lab)
  }

  predicate AllRowsStay(st: PassState, last: PassState, labs: seq<int>, name: string)
  {
    forall q :: q in st.projects && IsRowOf(st, labs, name, q) ==> q in last.projects
  }

  /** What a pass makes of the project of a name, however many labs of the host have one: it is unknown
      afterwards if it was or if a row of that name has removed it; otherwise it is as the last of its
      rows wants it, and untouched if it was as all of them want it. */
  ghost predicate NameReached(st: PassState, last: PassState, labs: seq<int>, name: string)
  {
    var before, after := RuntimesOf(st.world, name), RuntimesOf(last.world, name);
    && (after.Some? <==> before.Some? && AllRowsStay(st, last, labs, name))
    && (after.Some? ==> forall q :: q in st.projects && IsLastOf(st, labs, name, q) ==>
          match q.desired case ToRun => SomeAlive(after.value) case ToStop => after == Some([]))
    && (AllRowsStay(st, last, labs, name) &&
        (forall q :: q in st.projects && IsRowOf(st, labs, name, q) ==> AsDesired(before, q)) ==>
          after == before)
  }

  lemma RowsStayWhenNoneDeleted(st: PassState, last: PassState, labs: seq<int>, p: Pass, name: string,
                                rows: seq<ProjectRow>)
    requires RunOfName(st, last, labs, p, name, rows)
    ensures AllRowsStay(st, last, labs, name) <==> NoneDeleted(RuntimesOf(st.world, name), rows, p)
  {
    if AllRowsStay(st, last, labs, name) {
      forall i: nat | i < |rows| ensures !Deletes(RuntimesOf(st.world, name), rows, i, p) {
        assert rows[i] in rows && IsRowOf(st, labs, name, rows[i]);
      }
    }
    if NoneDeleted(RuntimesOf(st.world, name), rows, p) {
      forall q | q in st.projects && IsRowOf(st, labs, name, q) ensures q in last.projects {
        var i :| 0 <= i < |rows| && rows[i] == q;
      }
    }
  }

  lemma {:induction false} NeverBothWays(labs: seq<int>, a: int, b: int)
    requires UniqueLabs(labs)
    ensures !(Before(labs, a, b) && Before(labs, b, a))
    decreases labs
  {
    if labs != [] {
      NeverBothWays(labs[1..], a, b);
      if Before(labs[1..], a, b) { BeforeMeansIn(labs[1..], a, b); }
      if Before(labs[1..], b, a) { BeforeMeansIn(labs[1..], b, a); }
    }
  }

  lemma LastRowOfName(st: PassState, labs: seq<int>, name: string, rows: seq<ProjectRow>, q: ProjectRow)
    returns (k: nat)
    requires UniqueLabs(labs) && RowsOfName(st, labs, name, rows) && IsLastOf(st, labs, name, q)
    ensures k < |rows| && rows[k] == q && forall j :: k < j < |rows| ==> rows[j].lifetime == Session
  {
    k :| 0 <= k < |rows| && rows[k] == q;
    forall j | k < j < |rows| ensures rows[j].lifetime == Session {
      assert rows[j] in rows && IsRowOf(st, labs, name, rows[j]);
      NeverBothWays(labs, rows[j].lab, q.lab);
    }
  }

  lemma PassReachesName(st: PassState, labs: seq<int>, p: Pass, name: string)
    requires Distinguishable(st) && UniqueLabs(labs) && Listable(p) && Obeyed(p)
    ensures NameReached(st, VisitLabs(st, labs, p), labs, name)
  {
    var last, known := VisitLabs(st, labs, p), RuntimesOf(st.world, name);
    var rows := NameRun(st, labs, p, name);
    RowsStayWhenNoneDeleted(st, last, labs, p, name, rows);
    OutcomeIsKnown(known, rows, p);
    if RuntimesOf(last.world, name).Some? {
      forall q | q in st.projects && IsLastOf(st, labs, name, q)
        ensures match q.desired
          case ToRun => SomeAlive(RuntimesOf(last.world, name).value)
          case ToStop => RuntimesOf(last.world, name) == Some([])
      {
        var k := LastRowOfName(st, labs, name, rows, q);
        LastRowDecides(known, rows, k, p);
      }
    }
    var wanted := forall q :: q in st.projects && IsRowOf(st, labs, name, q) ==> AsDesired(known, q);
    if AllRowsStay(st, last, labs, name) && wanted {
      forall q | q in rows ensures AsDesired(known, q) { assert IsRowOf(st, labs, name, q); }
      DesiredIsKept(known, rows, p);
    }
  }

  lemma ActedMeansReached(w: World, w': World, r: ContainerRow, p: Pass)
    requires Fresh(p, w) && Obeyed(p) && ActedOnContainer(w, r, p, w')
    ensures ContainerReached(r, RuntimeIn(w, r.containerId), RuntimeIn(w', r.containerId), p)
  {
    assert InfoOf(w, p, r.containerId) == RuntimeIn(w, r.containerId);
  }

  /** With fresh information one pass brings every container and project of the host to the state its
      row asks for, as far as a start can and for a shared name as far as its last row goes, and removes
      those whose rows are done. */
  lemma PassReachesDesiredStates(st: PassState, labs: seq<int>, p: Pass)
    requires Distinguishable(st) && UniqueLabs(labs) && Fresh(p, st.world) && Obeyed(p)
    ensures forall r :: r in st.containers && r.lab in labs ==>
      ContainerReached(r, RuntimeIn(st.world, r.containerId), RuntimeIn(VisitLabs(st, labs, p).world, r.containerId), p)
    ensures forall name :: NameReached(st, VisitLabs(st, labs, p), labs, name)
  {
    forall r | r in st.containers && r.lab in labs
      ensures ContainerReached(r, RuntimeIn(st.world, r.containerId),
                               RuntimeIn(VisitLabs(st, labs, p).world, r.containerId), p)
    {
      PassActsOnContainers(st, labs, p, r);
      ActedMeansReached(st.world, VisitLabs(st, labs, p).world, r, p);
    }
    forall name ensures NameReached(st, VisitLabs(st, labs, p), labs, name) {
      PassReachesName(st, labs, p, name);
    }
  }

  // ---------------------------------------------------------------- a second pass

  /** The container rows that every pass has to command anew: what is wanted as started but has no
      runtime, or one that starting cannot bring back, and a single-use one that stopping turns into
      a finished one. */
  predicate RestlessContainer(row: ContainerRow, info: Option<Runtime>, stopCode: int)
  {
    match row.lifetime
    case Session => false
    case Persistent => CannotStart(row, info)
    case Ephemeral => CannotStart(row, info)
    case SingleUse =>
      CannotStart(row, info) ||
      (row.desired == Stopped && stopCode == 0 && info.Some? && (Alive(info.value) || info.value.status == PausedNow))
  }

  predicate CannotStart(row: ContainerRow, info: Option<Runtime>)
  {
    row.desired == Started && (info.None? || info.value.status == PausedNow || info.value.status == Dead)
  }

  /** The rows of a name that survive a pass and count. */
  predicate Survives(last: PassState, labs: seq<int>, name: string, q: ProjectRow)
  {
    IsRowOf(last, labs, name, q) && q.lifetime != Session
  }

  /** All rows of a name that are left want the same; if they want the project up, the lab host knew it
      and no row of that name has been removed with it. */
  ghost predicate NameSettled(st: PassState, last: PassState, labs: seq<int>, name: string)
  {
    || (forall q :: q in last.projects && Survives(last, labs, name, q) ==> q.desired == ToStop)
    || (&& (forall q :: q in last.projects && Survives(last, labs, name, q) ==> q.desired == ToRun)
        && RuntimesOf(st.world, name).Some? && AllRowsStay(st, last, labs, name))
  }

  /** No lifetime runs out between the two passes. */
  predicate NoneExpires(st: PassState, labs: seq<int>, before: int, after: int)
  {
    && (forall r :: r in st.containers && r.lab in labs && TtlExpired(r.createdAt, r.ttl, after) ==>
        TtlExpired(r.createdAt, r.ttl, before))
    && (forall r :: r in st.projects && r.lab in labs && TtlExpired(r.createdAt, r.ttl, after) ==>
        TtlExpired(r.createdAt, r.ttl, before))
  }

  lemma ContainerSettles(w: World, w': World, row: ContainerRow, p: Pass, p': Pass)
    requires Fresh(p, w) && Obeyed(p) && Fresh(p', w') && ActedOnContainer(w, row, p, w')
    requires !ContainerIsDone(row, InfoOf(w, p, row.containerId), p.now)
    requires TtlExpired(row.createdAt, row.ttl, p'.now) ==> TtlExpired(row.createdAt, row.ttl, p.now)
    ensures DecideContainer(row, InfoOf(w', p', row.containerId), p'.now) == LeaveContainer
       <==> !RestlessContainer(row, InfoOf(w, p, row.containerId), p.stopCode)
  {
    var info := RuntimeIn(w, row.containerId);
    assert InfoOf(w, p, row.containerId) == info && InfoOf(w', p', row.containerId) == RuntimeIn(w', row.containerId);
    ActedMeansReached(w, w', row, p);
    if info.Some? && row.lifetime != Session && row.desired == Stopped
       && (Alive(info.value) || info.value.status == PausedNow) {
      assert RuntimeIn(w', row.containerId) == Some(Runtime(Exited, Some(p.stopCode)));
    }
  }

  /** Whether a second pass leaves all rows of a name alone. */
  ghost predicate NameIsLeft(last: PassState, labs: seq<int>, p': Pass, name: string)
  {
    forall q :: q in last.projects && IsRowOf(last, labs, name, q) ==>
      DecideProject(q, ListingOf(last.world, p', q), p'.now) == LeaveProject
  }

  /** After a pass a name never counts as finished, unless nothing has been done to it. */
  lemma SurvivorsAreNotDone(st: PassState, labs: seq<int>, p: Pass, p': Pass, name: string, q: ProjectRow)
    requires Distinguishable(st) && UniqueLabs(labs) && Listable(p) && Obeyed(p) && Listable(p')
    requires NoneExpires(st, labs, p.now, p'.now)
    requires var last := VisitLabs(st, labs, p); q in last.projects && IsRowOf(last, labs, name, q)
    ensures var last := VisitLabs(st, labs, p);
      q in st.projects && !ProjectIsDone(q, ListingOf(last.world, p', q), p'.now)
  {
    var last := VisitLabs(st, labs, p);
    PassDeletesExactlyTheDone(st, labs, p);
    assert ProjectStays(st, labs, p, q);
    if q.lifetime == SingleUse && ListingSucceeded(last.world, name) {
      SuccessMeansUntouched(st, labs, p, name);
      DoneRowActs(st.world, p, q);
      assert false;
    }
  }

  lemma DoneRowActs(w: World, p: Pass, q: ProjectRow)
    requires Listable(p) && Obeyed(p) && q.lifetime == SingleUse && ListingSucceeded(w, q.name)
    ensures Acts(w, p, q)
  {
  }

  /** A project that counts as finished after a pass did so before, and no row has acted on it. */
  lemma {:induction false} SuccessMeansUntouched(st: PassState, labs: seq<int>, p: Pass, name: string)
    requires Distinguishable(st) && UniqueLabs(labs) && ListingSucceeded(VisitLabs(st, labs, p).world, name)
    ensures ListingSucceeded(st.world, name)
    ensures forall q :: q in st.projects && IsRowOf(st, labs, name, q) ==> !Acts(st.world, p, q)
    decreases labs
  {
    if labs != [] {
      var mid := VisitLab(st, labs[0], p);
      VisitLabEffect(st, labs[0], p);
      VisitLabKeepsDistinguishable(st, labs[0], p);
      SuccessMeansUntouched(mid, labs[1..], p, name);
      SuccessSurvivesALab(st, labs[0], p, name);
      forall q | q in st.projects && IsRowOf(st, labs, name, q) ensures !Acts(st.world, p, q) {
        if q.lab != labs[0] { assert IsRowOf(mid, labs[1..], name, q); }
      }
    }
  }

  lemma LeftMeansAsDesired(known: Option<seq<Runtime>>, q: ProjectRow, p': Pass)
    requires Listable(p') && !ProjectIsDone(q, Listed(known, q, p'), p'.now)
    ensures DecideProject(q, Listed(known, q, p'), p'.now) == LeaveProject <==> AsDesired(known, q)
  {
  }

  lemma {:induction false} LastActive(rows: seq<ProjectRow>) returns (k: nat)
    requires exists q :: q in rows && q.lifetime != Session
    ensures k < |rows| && rows[k].lifetime != Session && forall j :: k < j < |rows| ==> rows[j].lifetime == Session
    decreases rows
  {
    var n := |rows| - 1;
    if rows[n].lifetime != Session {
      k := n;
    } else {
      var q :| q in rows && q.lifetime != Session;
      assert q in rows[..n];
      k := LastActive(rows[..n]);
    }
  }

  /** What a pass leaves of a name: whether it is known at all, and if so, and if rows of it survive
      that count, one of them that has it as it wants it. */
  lemma NameAfterPass(st: PassState, labs: seq<int>, p: Pass, name: string) returns (winner: Option<ProjectRow>)
    requires Distinguishable(st) && UniqueLabs(labs) && Listable(p) && Obeyed(p)
    ensures var last := VisitLabs(st, labs, p);
      var after := RuntimesOf(last.world, name);
      && (after.Some? <==> RuntimesOf(st.world, name).Some? && AllRowsStay(st, last, labs, name))
      && match winner
         case None => after.None? || forall q :: q in last.projects ==> !Survives(last, labs, name, q)
         case Some(q) => after.Some? && q in last.projects && Survives(last, labs, name, q) && AsDesired(after, q) &&
                         (q.desired == ToStop ==> after == Some([]))
  {
    var last, known := VisitLabs(st, labs, p), RuntimesOf(st.world, name);
    var rows := NameRun(st, labs, p, name);
    PassDeletesExactlyTheDone(st, labs, p);
    RowsStayWhenNoneDeleted(st, last, labs, p, name, rows);
    OutcomeIsKnown(known, rows, p);
    if RuntimesOf(last.world, name).Some? && exists q :: q in rows && q.lifetime != Session {
      var k := LastActive(rows);
      LastRowDecides(known, rows, k, p);
      assert rows[k] in rows && IsRowOf(st, labs, name, rows[k]);
      winner := Some(rows[k]);
    } else {
      winner := None;
      forall q | q in last.projects && Survives(last, labs, name, q) ensures q in rows {
        assert ProjectStays(st, labs, p, q);
      }
    }
  }

  /** What the first pass leaves of a name is as all surviving rows want it exactly when they agree and,
      if they want it up, it has been there throughout. */
  lemma NameIsAsDesired(st: PassState, labs: seq<int>, p: Pass, name: string)
    requires Distinguishable(st) && UniqueLabs(labs) && Listable(p) && Obeyed(p)
    ensures var last := VisitLabs(st, labs, p);
      (forall q :: q in last.projects && Survives(last, labs, name, q) ==> AsDesired(RuntimesOf(last.world, name), q))
      <==> NameSettled(st, last, labs, name)
  {
    var winner := NameAfterPass(st, labs, p, name);
  }

  lemma NameSettles(st: PassState, labs: seq<int>, p: Pass, p': Pass, name: string)
    requires Distinguishable(st) && UniqueLabs(labs) && Listable(p) && Obeyed(p) && Listable(p')
    requires NoneExpires(st, labs, p.now, p'.now)
    ensures NameIsLeft(VisitLabs(st, labs, p), labs, p', name) <==> NameSettled(st, VisitLabs(st, labs, p), labs, name)
  {
    var last := VisitLabs(st, labs, p);
    var after := RuntimesOf(last.world, name);
    forall q | q in last.projects && IsRowOf(last, labs, name, q)
      ensures DecideProject(q, ListingOf(last.world, p', q), p'.now) == LeaveProject <==> AsDesired(after, q)
    {
      SurvivorsAreNotDone(st, labs, p, p', name, q);
      LeftMeansAsDesired(after, q, p');
    }
    NameIsAsDesired(st, labs, p, name);
    forall q | q in last.projects && IsRowOf(last, labs, name, q) && q.lifetime == Session ensures AsDesired(after, q) {
    }
    assert NameIsLeft(last, labs, p', name) <==>
      forall q :: q in last.projects && Survives(last, labs, name, q) ==> AsDesired(after, q);
  }

  /** A second pass with fresh information leaves a surviving container row alone exactly when it is not
      a restless one, and the surviving project rows of a name exactly when the name has settled. */
  lemma SecondPassLeavesExactlyTheSettled(st: PassState, labs: seq<int>, p: Pass, p': Pass)
    requires Distinguishable(st) && UniqueLabs(labs) && Fresh(p, st.world) && Obeyed(p)
    requires Fresh(p', VisitLabs(st, labs, p).world) && NoneExpires(st, labs, p.now, p'.now)
    ensures var last := VisitLabs(st, labs, p);
      forall r :: r in last.containers && r.lab in labs ==>
        (DecideContainer(r, InfoOf(last.world, p', r.containerId), p'.now) == LeaveContainer
         <==> !RestlessContainer(r, InfoOf(st.world, p, r.containerId), p.stopCode))
    ensures forall name :: NameIsLeft(VisitLabs(st, labs, p), labs, p', name) <==>
      NameSettled(st, VisitLabs(st, labs, p), labs, name)
  {
    var last := VisitLabs(st, labs, p);
    PassDeletesExactlyTheDone(st, labs, p);
    forall r | r in last.containers && r.lab in labs
      ensures DecideContainer(r, InfoOf(last.world, p', r.containerId), p'.now) == LeaveContainer
         <==> !RestlessContainer(r, InfoOf(st.world, p, r.containerId), p.stopCode)
    {
      assert ContainerStays(st, labs, p, r);
      PassActsOnContainers(st, labs, p, r);
      ContainerSettles(st.world, last.world, r, p, p');
    }
    forall name ensures NameIsLeft(last, labs, p', name) <==> NameSettled(st, last, labs, name) {
      NameSettles(st, labs, p, p', name);
    }
  }

  // ---------------------------------------------------------------- passes that change nothing

  predicate Idle(st: PassState, labs: seq<int>, p: Pass)
  {
    && (forall r :: r in st.containers && r.lab in labs ==>
        DecideContainer(r, InfoOf(st.world, p, r.containerId), p.now) == LeaveContainer)
    && (forall r :: r in st.projects && r.lab in labs ==>
        DecideProject(r, ListingOf(st.world, p, r), p.now) == LeaveProject)
  }

  lemma {:induction false} IdleContainers(st: PassState, rows: seq<ContainerRow>, p: Pass)
    requires forall r :: r in rows ==> DecideContainer(r, InfoOf(st.world, p, r.containerId), p.now) == LeaveContainer
    ensures VisitContainers(st, rows, p) == st
    decreases rows
  {
    if rows != [] {
      assert st.log + [] == st.log;
      assert VisitContainer(st, rows[0], p) == st;
      IdleContainers(st, rows[1..], p);
    }
  }

  lemma {:induction false} IdleProjects(st: PassState, rows: seq<ProjectRow>, p: Pass)
    requires forall r :: r in rows ==> DecideProject(r, ListingOf(st.world, p, r), p.now) == LeaveProject
    ensures VisitProjects(st, rows, p) == st
    decreases rows
  {
    if rows != [] {
      assert st.log + [] == st.log;
      assert VisitProject(st, rows[0], p) == st;
      IdleProjects(st, rows[1..], p);
    }
  }

  lemma {:induction false} IdlePass(st: PassState, labs: seq<int>, p: Pass)
    requires Idle(st, labs, p)
    ensures VisitLabs(st, labs, p) == st
    decreases labs
  {
    if labs != [] {
      IdleContainers(st, ContainersOf(st.containers, labs[0]), p);
      IdleProjects(st, ProjectsOf(st.projects, labs[0]), p);
      IdlePass(st, labs[1..], p);
    }
  }

  /** Every visit that does not leave its row alone sends a command or deletes a row. */
  function Effort(st: PassState): int { |st.log| - |st.containers| - |st.projects| }

  lemma {:induction false} KeepIsNoLonger<T(!new)>(s: seq<T>, p: T -> bool)
    ensures |Keep(s, p)| <= |s|
    ensures (exists x :: x in s && !p(x)) ==> |Keep(s, p)| < |s|
    decreases s
  {
    if s != [] { KeepIsNoLonger(s[1..], p); }
  }

  lemma ContainerVisitTakesEffort(st: PassState, row: ContainerRow, p: Pass)
    ensures Effort(VisitContainer(st, row, p)) >= Effort(st)
    ensures row in st.containers &&
            DecideContainer(row, InfoOf(st.world, p, row.containerId), p.now) != LeaveContainer ==>
      Effort(VisitContainer(st, row, p)) > Effort(st)
  {
    KeepIsNoLonger(st.containers, (r: ContainerRow) => r.id != row.id);
  }

  lemma ProjectVisitTakesEffort(st: PassState, row: ProjectRow, p: Pass)
    ensures Effort(VisitProject(st, row, p)) >= Effort(st)
    ensures DecideProject(row, ListingOf(st.world, p, row), p.now) != LeaveProject ==>
      Effort(VisitProject(st, row, p)) > Effort(st)
  {
    KeepIsNoLonger(st.projects, (r: ProjectRow) => r.id != row.id);
  }

  lemma {:induction false} EffortlessContainers(st: PassState, rows: seq<ContainerRow>, p: Pass)
    requires forall r :: r in rows ==> r in st.containers
    ensures Effort(VisitContainers(st, rows, p)) >= Effort(st)
    ensures Effort(VisitContainers(st, rows, p)) == Effort(st) ==>
      forall r :: r in rows ==> DecideContainer(r, InfoOf(st.world, p, r.containerId), p.now) == LeaveContainer
    decreases rows
  {
    if rows != [] {
      var mid := VisitContainer(st, rows[0], p);
      ContainerVisitTakesEffort(st, rows[0], p);
      if Effort(mid) == Effort(st) {
        assert st.log + [] == st.log;
        assert mid == st;
        EffortlessContainers(st, rows[1..], p);
      } else {
        VisitsNeverSave(mid, rows[1..], p);
      }
    }
  }

  lemma {:induction false} VisitsNeverSave(st: PassState, rows: seq<ContainerRow>, p: Pass)
    ensures Effort(VisitContainers(st, rows, p)) >= Effort(st)
    decreases rows
  {
    if rows != [] {
      ContainerVisitTakesEffort(st, rows[0], p);
      VisitsNeverSave(VisitContainer(st, rows[0], p), rows[1..], p);
    }
  }

  lemma {:induction false} ProjectVisitsNeverSave(st: PassState, rows: seq<ProjectRow>, p: Pass)
    ensures Effort(VisitProjects(st, rows, p)) >= Effort(st)
    decreases rows
  {
    if rows != [] {
      ProjectVisitTakesEffort(st, rows[0], p);
      ProjectVisitsNeverSave(VisitProject(st, rows[0], p), rows[1..], p);
    }
  }

  lemma {:induction false} EffortlessProjects(st: PassState, rows: seq<ProjectRow>, p: Pass)
    requires Effort(VisitProjects(st, rows, p)) == Effort(st)
    ensures forall r :: r in rows ==> DecideProject(r, ListingOf(st.world, p, r), p.now) == LeaveProject
    decreases rows
  {
    if rows != [] {
      var mid := VisitProject(st, rows[0], p);
      ProjectVisitTakesEffort(st, rows[0], p);
      ProjectVisitsNeverSave(mid, rows[1..], p);
      assert st.log + [] == st.log;
      assert mid == st;
      EffortlessProjects(st, rows[1..], p);
    }
  }

  lemma LabNeverSaves(st: PassState, lab: int, p: Pass)
    ensures Effort(VisitLab(st, lab, p)) >= Effort(st)
    ensures Effort(VisitLab(st, lab, p)) == Effort(st) ==> Idle(st, [lab], p) && VisitLab(st, lab, p) == st
  {
    var rows := ContainersOf(st.containers, lab);
    var mid := VisitContainers(st, rows, p);
    var projects := ProjectsOf(mid.projects, lab);
    EffortlessContainers(st, rows, p);
    ProjectVisitsNeverSave(mid, projects, p);
    if Effort(VisitLab(st, lab, p)) == Effort(st) {
      IdleContainers(st, rows, p);
      EffortlessProjects(st, projects, p);
      IdleProjects(st, projects, p);
      forall r | r in st.containers && r.lab in [lab] ensures r in rows { }
      forall r | r in st.projects && r.lab in [lab] ensures r in projects { }
    }
  }

  lemma {:induction false} PassNeverSaves(st: PassState, labs: seq<int>, p: Pass)
    ensures Effort(VisitLabs(st, labs, p)) >= Effort(st)
    ensures Effort(VisitLabs(st, labs, p)) == Effort(st) ==> Idle(st, labs, p)
    decreases labs
  {
    if labs != [] {
      LabNeverSaves(st, labs[0], p);
      PassNeverSaves(VisitLab(st, labs[0], p), labs[1..], p);
    }
  }

  /** Reconciliation settles: a second pass changes no table, touches nothing on the lab host and issues
      no command if and only if no surviving container row is restless and every name has settled. */
  lemma ReconciliationSettles(st: PassState, labs: seq<int>, p: Pass, p': Pass)
    requires Distinguishable(st) && UniqueLabs(labs) && Fresh(p, st.world) && Obeyed(p)
    requires Fresh(p', VisitLabs(st, labs, p).world) && NoneExpires(st, labs, p.now, p'.now)
    ensures var last := VisitLabs(st, labs, p);
      VisitLabs(last, labs, p') == last <==>
        && (forall r :: r in last.containers && r.lab in labs ==>
            !RestlessContainer(r, InfoOf(st.world, p, r.containerId), p.stopCode))
        && (forall q :: q in last.projects && q.lab in labs ==> NameSettled(st, last, labs, q.name))
  {
    var last := VisitLabs(st, labs, p);
    SecondPassLeavesExactlyTheSettled(st, labs, p, p');
    PassNeverSaves(last, labs, p');
    if Idle(last, labs, p') {
      IdlePass(last, labs, p');
      forall q | q in last.projects && q.lab in labs ensures NameSettled(st, last, labs, q.name) {
        assert NameIsLeft(last, labs, p', q.name);
      }
    }
    if forall q :: q in last.projects && q.lab in labs ==> NameSettled(st, last, labs, q.name) {
      forall q | q in last.projects && q.lab in labs
        ensures DecideProject(q, ListingOf(last.world, p', q), p'.now) == LeaveProject
      {
        assert NameIsLeft(last, labs, p', q.name) && IsRowOf(last, labs, q.name, q);
      }
    }
  }

  /** Rows of one name that want it up and down are commanded in every pass. */
  lemma OpposedRowsNeverSettle(st: PassState, labs: seq<int>, p: Pass, p': Pass, a: ProjectRow, b: ProjectRow)
    requires Distinguishable(st) && UniqueLabs(labs) && Fresh(p, st.world) && Obeyed(p)
    requires Fresh(p', VisitLabs(st, labs, p).world) && NoneExpires(st, labs, p.now, p'.now)
    requires a in st.projects && b in st.projects && a.lab in labs && b.lab in labs && a.name == b.name
    requires a.lifetime == b.lifetime == Persistent && a.desired == ToRun && b.desired == ToStop
    ensures VisitLabs(VisitLabs(st, labs, p), labs, p') != VisitLabs(st, labs, p)
  {
    var last := VisitLabs(st, labs, p);
    SessionAndPersistentSurvive(st, labs, p);
    ReconciliationSettles(st, labs, p, p');
    assert Survives(last, labs, a.name, a) && Survives(last, labs, a.name, b);
    assert !NameSettled(st, last, labs, a.name);
  }

  predicate NeverSettles(st: PassState, labs: seq<int>, p: Pass)
  {
    VisitLabs(VisitLabs(st, labs, p), labs, p) != VisitLabs(st, labs, p)
  }

  lemma SharedNameExample() returns (st: PassState, p: Pass, a: ProjectRow, b: ProjectRow)
    ensures Distinguishable(st) && UniqueLabs([1, 2]) && Obeyed(p) && forall w :: Fresh(p, w)
    ensures a in st.projects && b in st.projects && a.lab == 1 && b.lab == 2 && a.name == b.name
    ensures a.lifetime == b.lifetime == Persistent && a.desired == ToRun && b.desired == ToStop
    ensures RuntimesOf(st.world, a.name).Some?
  {
    a := ProjectRow(1, 1, "web", [], Persistent, None, 0, ToRun);
    b := ProjectRow(2, 2, "web", [], Persistent, None, 0, ToStop);
    st := PassState([], [a, b], World(map[], map["web" := [Runtime(Running, None)]]), []);
    p := Pass(0, map[], map[], map[], map[], {}, {}, 0, false);
  }

  /** The schema allows two such rows, in two labs of a host, and nothing else need be amiss. */
  lemma SharedNameNeverSettles()
    ensures exists st, p ::
      Distinguishable(st) && UniqueLabs([1, 2]) && Fresh(p, st.world) && Obeyed(p) && NeverSettles(st, [1, 2], p)
  {
    var st, p, a, b := SharedNameExample();
    OpposedRowsNeverSettle(st, [1, 2], p, p, a, b);
    assert NeverSettles(st, [1, 2], p);
  }
}

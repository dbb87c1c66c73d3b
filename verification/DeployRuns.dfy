/** Deployments as two separate steps, the capacity check and the commit, with other requests and
    the reconciler running in between, and what the caps are worth over such runs. */
module DeployRuns {
  import opened Wrappers
  import opened Tables

  /** A deployment that has passed its check: what it will charge, and the row it replaces. */
  datatype Deploy = Deploy(lab: int, kind: Kind, name: string, replaced: Option<RowId>, cpu: Option<Amount>,
                           mem: Option<nat>)

  /** At most one deployment is in flight per host; ids come from a sequence and are never reused. */
  datatype State = State(db: Database, inFlight: map<int, Deploy>, next: int)

  // ---------------------------------------------------------------- the steps

  function RequestFor(h: Host, named: seq<Row>, cpu: Option<Amount>, mem: Option<nat>): Request
  {
    Request(Effective(h, cpu), Effective(h, mem),
            if named == [] then None else named[0].cpu, if named == [] then None else named[0].mem)
  }

  /** The check. A lab, host or key that is missing, an ambiguous name, or a refusal changes nothing. */
  function Begin(s: State, lab: int, kind: Kind, name: string, cpu: Option<Amount>, mem: Option<nat>): State
  {
    match FindLab(s.db.labs, lab)
    case None => s
    case Some(l) =>
      if l.host !in s.db.hosts || l.host in s.inFlight then s else
      var h := s.db.hosts[l.host];
      var named := Named(s.db.rows, kind, lab, name);
      if !h.hasApiKey || |named| > 1 || !Admitted(s.db, l, h, RequestFor(h, named, cpu, mem)) then s else
      var replaced := if named == [] then None else Some(named[0].id);
      s.(inFlight := s.inFlight[l.host := Deploy(lab, kind, name, replaced, Effective(h, cpu), Effective(h, mem))])
  }

  function WithoutOptional(rows: seq<Row>, id: Option<RowId>): seq<Row>
  {
    match id case None => rows case Some(i) => Without(rows, i)
  }

  /** An environment row takes its name from the container, a project row keeps the one asked for. */
  function NewRow(d: Deploy, id: RowId, name: string, runtimeId: string): Row
  {
    Row(id, d.lab, if d.kind == Project then d.name else name, runtimeId, d.cpu, d.mem)
  }

  /** The rows after the commit. An environment row that already carries the new Docker id is taken
      over, and the replaced row is then deleted as well. A lab that is gone, or a row to update that
      is gone, makes the database refuse the statement: nothing is written. */
  function CommitRows(labs: seq<Lab>, rows: seq<Row>, d: Deploy, serial: int, name: string, runtimeId: string): seq<Row>
  {
    var taken := if d.kind == Environment then ByRuntimeId(rows, runtimeId) else [];
    if FindLab(labs, d.lab).None? || |taken| > 1 then rows else
    var target := if taken == [] then d.replaced else Some(taken[0].id);
    match target
    case None => rows + [NewRow(d, RowId(d.kind, serial), name, runtimeId)]
    case Some(id) =>
      if !HasRow(rows, id) then rows
      else WithoutOptional(Without(rows, id), d.replaced) + [NewRow(d, id, name, runtimeId)]
  }

  function Commit(s: State, host: int, name: string, runtimeId: string): State
  {
    if host !in s.inFlight then s else
    var d := s.inFlight[host];
    State(s.db.(rows := CommitRows(s.db.labs, s.db.rows, d, s.next, name, runtimeId)), s.inFlight - {host}, s.next + 1)
  }

  /** Registration overwrites an existing host and does not look at what is allocated on it. */
  function Register(s: State, id: int, h: Host): State
  {
    s.(db := s.db.(hosts := s.db.hosts[id := h]))
  }

  function CreateLab(s: State, host: int, cpu: Option<nat>, mem: Option<nat>, status: LabStatus): State
  {
    if host !in s.db.hosts then s else
    var h := s.db.hosts[host];
    if h.status != Online || !h.hasApiKey || !CanHostLab(s.db, host, h, cpu, mem) then s else
    s.(db := s.db.(labs := s.db.labs + [Lab(s.next, host, status, Effective(h, cpu), Effective(h, mem))]),
       next := s.next + 1)
  }

  function DeleteRow(s: State, id: RowId): State
  {
    s.(db := s.db.(rows := Without(s.db.rows, id)))
  }

  function DeleteLab(s: State, lab: int): State
  {
    s.(db := s.db.(labs := WithoutLab(s.db.labs, lab), rows := WithoutLabRows(s.db.rows, lab)))
  }

  function DeleteLabs(s: State, labs: seq<Lab>): State
    decreases labs
  {
    if labs == [] then s else DeleteLabs(DeleteLab(s, labs[0].id), labs[1..])
  }

  /** Deleting a host takes its labs and their rows along. */
  function DeleteHost(s: State, host: int): State
  {
    var s' := DeleteLabs(s, Keep(s.db.labs, (l: Lab) => l.host == host));
    s'.(db := s'.db.(hosts := s'.db.hosts - {host}))
  }

  /** A deployment that fails between check and commit. */
  function Abandon(s: State, host: int): State
  {
    s.(inFlight := s.inFlight - {host})
  }

  datatype Event =
    | RegisterEvent(host: int, row: Host)
    | CreateLabEvent(host: int, cpuLimit: Option<nat>, memLimit: Option<nat>, status: LabStatus)
    | BeginEvent(lab: int, kind: Kind, name: string, cpu: Option<Amount>, mem: Option<nat>)
    | CommitEvent(host: int, runtimeName: string, runtimeId: string)
    | AbandonEvent(host: int)
    | DeleteRowEvent(id: RowId)
    | DeleteLabEvent(lab: int)
    | DeleteHostEvent(host: int)

  function Step(s: State, e: Event): State
  {
    match e
    case RegisterEvent(host, row) => Register(s, host, row)
    case CreateLabEvent(host, cpu, mem, status) => CreateLab(s, host, cpu, mem, status)
    case BeginEvent(lab, kind, name, cpu, mem) => Begin(s, lab, kind, name, cpu, mem)
    case CommitEvent(host, name, runtimeId) => Commit(s, host, name, runtimeId)
    case AbandonEvent(host) => Abandon(s, host)
    case DeleteRowEvent(id) => DeleteRow(s, id)
    case DeleteLabEvent(lab) => DeleteLab(s, lab)
    case DeleteHostEvent(host) => DeleteHost(s, host)
  }

  function Run(s: State, events: seq<Event>): State
    decreases events
  {
    if events == [] then s else Run(Step(s, events[0]), events[1..])
  }

  // ---------------------------------------------------------------- the invariants

  /** What the deployment's replaced row still takes from its lab: nothing once it is deleted. */
  function Credit(rows: seq<Row>, d: Deploy, r: Resource): real
  {
    match d.replaced case None => 0.0 case Some(id) => Held(rows, id, r, d.lab)
  }

  /** The use of the deployment's lab or host once it commits. */
  function Projected(use: real, rows: seq<Row>, d: Deploy, r: Resource): real
  {
    use - Credit(rows, d, r) + Charge(d.cpu, d.mem, r)
  }

  predicate IdsInSequence(s: State)
  {
    && UniqueLabIds(s.db.labs)
    && (forall l :: l in s.db.labs ==> l.id < s.next && l.host in s.db.hosts)
    && (forall row :: row in s.db.rows ==> row.lab < s.next)
    && (forall h :: h in s.inFlight ==> s.inFlight[h].lab < s.next)
    && (forall h, l :: h in s.inFlight && l in s.db.labs && l.id == s.inFlight[h].lab ==> l.host == h)
  }

  /** A lab keeps its cap for a resource, now and when the deployment in flight commits. */
  predicate LabCap(s: State, l: Lab, r: Resource)
  {
    var use := LabUse(s.db.rows, r, l.id);
    && WithinLab(l, r, use)
    && (l.host in s.inFlight && s.inFlight[l.host].lab == l.id ==>
          WithinLab(l, r, Projected(use, s.db.rows, s.inFlight[l.host], r)))
  }

  predicate LabCaps(s: State)
  {
    forall l, r :: l in s.db.labs ==> LabCap(s, l, r)
  }

  /** The same for a total on a host. */
  predicate HostCap(s: State, id: int, h: Host, r: Resource)
  {
    var use := HostUse(s.db.labs, s.db.rows, r, id);
    Unbounded(h) ||
    (&& WithinHost(h, r, use)
     && (id in s.inFlight && FindLab(s.db.labs, s.inFlight[id].lab).Some? ==>
           WithinHost(h, r, Projected(use, s.db.rows, s.inFlight[id], r))))
  }

  predicate HostCaps(s: State)
  {
    forall id, r :: id in s.db.hosts ==> HostCap(s, id, s.db.hosts[id], r)
  }

  // ---------------------------------------------------------------- deletions

  lemma {:induction false} HeldAfterDelete(rows: seq<Row>, id: RowId, other: RowId, r: Resource, lab: int)
    ensures Held(Without(rows, id), other, r, lab) == if other == id then 0.0 else Held(rows, other, r, lab)
    decreases rows
  {
    if rows != [] {
      HeldAfterDelete(rows[1..], id, other, r, lab);
      var rest := Without(rows[1..], id);
      if rows[0].id == id {
        assert Without(rows, id) == rest;
      } else {
        assert Without(rows, id) == [rows[0]] + rest && ([rows[0]] + rest)[1..] == rest;
      }
    }
  }

  /** Deleting any row, the replaced one included, lowers the use and the projected use of a lab. */
  lemma DeleteLowersLab(rows: seq<Row>, id: RowId, d: Deploy, r: Resource)
    ensures LabUse(Without(rows, id), r, d.lab) <= LabUse(rows, r, d.lab)
    ensures Projected(LabUse(Without(rows, id), r, d.lab), Without(rows, id), d, r) <=
            Projected(LabUse(rows, r, d.lab), rows, d, r)
  {
    LabUseWithoutRow(rows, id, r, d.lab);
    HeldIsNonNegative(rows, id, r, d.lab);
    if d.replaced.Some? { HeldAfterDelete(rows, id, d.replaced.value, r, d.lab); }
  }

  lemma DeleteLowersHost(labs: seq<Lab>, rows: seq<Row>, id: RowId, d: Deploy, r: Resource, host: int)
    ensures HostUse(labs, Without(rows, id), r, host) <= HostUse(labs, rows, r, host)
    ensures IsOnHost(labs, d.lab, host) ==>
            Projected(HostUse(labs, Without(rows, id), r, host), Without(rows, id), d, r) <=
            Projected(HostUse(labs, rows, r, host), rows, d, r)
  {
    HostUseWithoutRow(labs, rows, id, r, host);
    HeldOnHostIsNonNegative(labs, rows, id, r, host);
    if d.replaced.Some? { HeldAfterDelete(rows, id, d.replaced.value, r, d.lab); }
    if IsOnHost(labs, d.lab, host) {
      var l :| l in labs && l.id == d.lab && l.host == host;
      HeldInLabOfHost(labs, rows, id, r, l);
    }
  }

  lemma LabsAndHosts(s: State, host: int)
    requires IdsInSequence(s) && host in s.inFlight
    ensures FindLab(s.db.labs, s.inFlight[host].lab).Some? <==> IsOnHost(s.db.labs, s.inFlight[host].lab, host)
  {
    var found := FindLab(s.db.labs, s.inFlight[host].lab);
    if found.Some? { assert found.value in s.db.labs && found.value.host == host; }
  }

  lemma DeleteRowKeepsCaps(s: State, id: RowId)
    requires IdsInSequence(s) && LabCaps(s)
    ensures IdsInSequence(DeleteRow(s, id)) && LabCaps(DeleteRow(s, id))
    ensures HostCaps(s) ==> HostCaps(DeleteRow(s, id))
  {
    var s' := DeleteRow(s, id);
    forall l, r | l in s'.db.labs ensures LabCap(s', l, r) {
      assert LabCap(s, l, r);
      var d := if l.host in s.inFlight && s.inFlight[l.host].lab == l.id
               then s.inFlight[l.host] else Deploy(l.id, Project, "", None, None, None);
      DeleteLowersLab(s.db.rows, id, d, r);
    }
    if HostCaps(s) {
      forall h, r | h in s'.db.hosts ensures HostCap(s', h, s'.db.hosts[h], r) {
        assert HostCap(s, h, s.db.hosts[h], r);
        if h in s.inFlight {
          LabsAndHosts(s, h);
          DeleteLowersHost(s.db.labs, s.db.rows, id, s.inFlight[h], r, h);
        } else {
          DeleteLowersHost(s.db.labs, s.db.rows, id, Deploy(0, Project, "", None, None, None), r, h);
        }
      }
    }
  }

  // ---------------------------------------------------------------- commits

  /** Whether the commit writes anything. */
  predicate Writes(labs: seq<Lab>, rows: seq<Row>, d: Deploy, runtimeId: string)
  {
    var taken := if d.kind == Environment then ByRuntimeId(rows, runtimeId) else [];
    && FindLab(labs, d.lab).Some? && |taken| <= 1
    && (taken != [] || d.replaced.Some? ==> HasRow(rows, if taken != [] then taken[0].id else d.replaced.value))
  }

  /** The rows that the commit keeps before it adds its own. */
  function Kept(rows: seq<Row>, d: Deploy, runtimeId: string): seq<Row>
  {
    var taken := if d.kind == Environment then ByRuntimeId(rows, runtimeId) else [];
    if taken != [] then WithoutOptional(Without(rows, taken[0].id), d.replaced)
    else match d.replaced case None => rows case Some(id) => Without(Without(rows, id), id)
  }

  lemma CommitAddsOneRow(labs: seq<Lab>, rows: seq<Row>, d: Deploy, serial: int, name: string, runtimeId: string)
    returns (row: Row)
    requires Writes(labs, rows, d, runtimeId)
    ensures CommitRows(labs, rows, d, serial, name, runtimeId) == Kept(rows, d, runtimeId) + [row]
    ensures row == NewRow(d, row.id, name, runtimeId)
    ensures row.id == (match Taken(rows, d, runtimeId) case Some(id) => id case None =>
                       match d.replaced case Some(id) => id case None => RowId(d.kind, serial))
  {
    var taken := if d.kind == Environment then ByRuntimeId(rows, runtimeId) else [];
    var target := if taken == [] then d.replaced else Some(taken[0].id);
    row := NewRow(d, if target.Some? then target.value else RowId(d.kind, serial), name, runtimeId);
  }

  /** Rows that a commit drops free at least the credit of the replaced row. */
  lemma KeptFreesCredit(rows: seq<Row>, d: Deploy, runtimeId: string, r: Resource)
    ensures LabUse(Kept(rows, d, runtimeId), r, d.lab) <= LabUse(rows, r, d.lab) - Credit(rows, d, r)
  {
    var taken := if d.kind == Environment then ByRuntimeId(rows, runtimeId) else [];
    if taken != [] {
      DropTwoFromLab(rows, taken[0].id, d, r);
    } else if d.replaced.Some? {
      DropTwoFromLab(rows, d.replaced.value, d, r);
    }
  }

  lemma DropTwoFromLab(rows: seq<Row>, id: RowId, d: Deploy, r: Resource)
    ensures LabUse(WithoutOptional(Without(rows, id), d.replaced), r, d.lab) <=
            LabUse(rows, r, d.lab) - Credit(rows, d, r)
  {
    LabUseWithoutRow(rows, id, r, d.lab);
    HeldIsNonNegative(rows, id, r, d.lab);
    if d.replaced.Some? {
      var oldId := d.replaced.value;
      LabUseWithoutRow(Without(rows, id), oldId, r, d.lab);
      HeldAfterDelete(rows, id, oldId, r, d.lab);
    }
  }

  lemma DropTwoFromHost(labs: seq<Lab>, rows: seq<Row>, id: RowId, d: Deploy, r: Resource, host: int)
    requires IsOnHost(labs, d.lab, host)
    ensures HostUse(labs, WithoutOptional(Without(rows, id), d.replaced), r, host) <=
            HostUse(labs, rows, r, host) - Credit(rows, d, r)
  {
    var l :| l in labs && l.id == d.lab && l.host == host;
    HostUseWithoutRow(labs, rows, id, r, host);
    HeldInLabOfHost(labs, rows, id, r, l);
    HeldIsNonNegative(rows, id, r, d.lab);
    if d.replaced.Some? {
      var oldId := d.replaced.value;
      HostUseWithoutRow(labs, Without(rows, id), oldId, r, host);
      HeldAfterDelete(rows, id, oldId, r, d.lab);
      HeldInLabOfHost(labs, Without(rows, id), oldId, r, l);
      HeldIsNonNegative(Without(rows, id), oldId, r, d.lab);
    }
  }

  lemma KeptFreesHostCredit(labs: seq<Lab>, rows: seq<Row>, d: Deploy, runtimeId: string, r: Resource, host: int)
    requires IsOnHost(labs, d.lab, host)
    ensures HostUse(labs, Kept(rows, d, runtimeId), r, host) <= HostUse(labs, rows, r, host) - Credit(rows, d, r)
  {
    var taken := if d.kind == Environment then ByRuntimeId(rows, runtimeId) else [];
    if taken != [] {
      DropTwoFromHost(labs, rows, taken[0].id, d, r, host);
    } else if d.replaced.Some? {
      DropTwoFromHost(labs, rows, d.replaced.value, d, r, host);
    }
  }

  /** For everybody else the kept rows are the result of deletions. */
  lemma KeptIsDeletions(rows: seq<Row>, d: Deploy, runtimeId: string, other: Deploy, r: Resource)
    ensures LabUse(Kept(rows, d, runtimeId), r, other.lab) <= LabUse(rows, r, other.lab)
    ensures Projected(LabUse(Kept(rows, d, runtimeId), r, other.lab), Kept(rows, d, runtimeId), other, r) <=
            Projected(LabUse(rows, r, other.lab), rows, other, r)
  {
    var taken := if d.kind == Environment then ByRuntimeId(rows, runtimeId) else [];
    var first := if taken != [] then Some(taken[0].id) else d.replaced;
    if first.Some? {
      DeleteLowersLab(rows, first.value, other, r);
      if d.replaced.Some? { DeleteLowersLab(Without(rows, first.value), d.replaced.value, other, r); }
    }
  }

  lemma KeptIsDeletionsOnHost(labs: seq<Lab>, rows: seq<Row>, d: Deploy, runtimeId: string, other: Deploy, r: Resource,
                              host: int)
    ensures HostUse(labs, Kept(rows, d, runtimeId), r, host) <= HostUse(labs, rows, r, host)
    ensures IsOnHost(labs, other.lab, host) ==>
            Projected(HostUse(labs, Kept(rows, d, runtimeId), r, host), Kept(rows, d, runtimeId), other, r) <=
            Projected(HostUse(labs, rows, r, host), rows, other, r)
  {
    var taken := if d.kind == Environment then ByRuntimeId(rows, runtimeId) else [];
    var first := if taken != [] then Some(taken[0].id) else d.replaced;
    if first.Some? {
      DeleteLowersHost(labs, rows, first.value, other, r, host);
      if d.replaced.Some? { DeleteLowersHost(labs, Without(rows, first.value), d.replaced.value, other, r, host); }
    }
  }

  lemma {:induction false} HeldWithRow(rows: seq<Row>, row: Row, id: RowId, r: Resource, lab: int)
    requires row.lab != lab
    ensures Held(rows + [row], id, r, lab) == Held(rows, id, r, lab)
    decreases rows
  {
    if rows == [] {
      assert rows + [row] == [row];
    } else {
      assert (rows + [row])[1..] == rows[1..] + [row];
      HeldWithRow(rows[1..], row, id, r, lab);
    }
  }

  /** After the commit its own lab uses at most what was projected. */
  lemma CommitMeetsProjection(s: State, host: int, name: string, runtimeId: string, r: Resource)
    requires IdsInSequence(s) && host in s.inFlight
    requires Writes(s.db.labs, s.db.rows, s.inFlight[host], runtimeId)
    ensures var d, rows' := s.inFlight[host], Commit(s, host, name, runtimeId).db.rows;
      && LabUse(rows', r, d.lab) <= Projected(LabUse(s.db.rows, r, d.lab), s.db.rows, d, r)
      && HostUse(s.db.labs, rows', r, host) <= Projected(HostUse(s.db.labs, s.db.rows, r, host), s.db.rows, d, r)
  {
    var d := s.inFlight[host];
    var row := CommitAddsOneRow(s.db.labs, s.db.rows, d, s.next, name, runtimeId);
    var kept := Kept(s.db.rows, d, runtimeId);
    LabsAndHosts(s, host);
    LabUseWithRow(kept, row, r, d.lab);
    KeptFreesCredit(s.db.rows, d, runtimeId, r);
    HostUseWithRow(s.db.labs, kept, row, r, host);
    KeptFreesHostCredit(s.db.labs, s.db.rows, d, runtimeId, r, host);
  }

  /** The environment row, if any, that already carries the new container's id. */
  function Taken(rows: seq<Row>, d: Deploy, runtimeId: string): Option<RowId>
  {
    var taken := if d.kind == Environment then ByRuntimeId(rows, runtimeId) else [];
    if taken == [] then None else Some(taken[0].id)
  }

  /** A commit that writes records the deployment in one row, which reuses the id of the row it takes
      over or replaces, removes these two, and leaves every other row as it is. */
  lemma CommitIsRecorded(s: State, host: int, name: string, runtimeId: string) returns (row: Row)
    requires host in s.inFlight && Writes(s.db.labs, s.db.rows, s.inFlight[host], runtimeId)
    ensures var d := s.inFlight[host];
      && row == Row(row.id, d.lab, if d.kind == Project then d.name else name, runtimeId, d.cpu, d.mem)
      && row.id == (match Taken(s.db.rows, d, runtimeId) case Some(id) => id case None =>
                    match d.replaced case Some(id) => id case None => RowId(d.kind, s.next))
      && forall q :: q in Commit(s, host, name, runtimeId).db.rows <==>
           q == row || (q in s.db.rows && Some(q.id) != d.replaced && Some(q.id) != Taken(s.db.rows, d, runtimeId))
  {
    var d := s.inFlight[host];
    row := CommitAddsOneRow(s.db.labs, s.db.rows, d, s.next, name, runtimeId);
    assert forall q :: q in Kept(s.db.rows, d, runtimeId) <==>
      q in s.db.rows && Some(q.id) != d.replaced && Some(q.id) != Taken(s.db.rows, d, runtimeId);
  }

  /** When no row other than the replaced one is taken over, the lab's use is exactly as projected. */
  lemma CommitIsExact(s: State, host: int, name: string, runtimeId: string, r: Resource)
    requires host in s.inFlight && Writes(s.db.labs, s.db.rows, s.inFlight[host], runtimeId)
    requires Taken(s.db.rows, s.inFlight[host], runtimeId).None? ||
      Taken(s.db.rows, s.inFlight[host], runtimeId) == s.inFlight[host].replaced
    ensures var d := s.inFlight[host];
      LabUse(Commit(s, host, name, runtimeId).db.rows, r, d.lab) ==
      Projected(LabUse(s.db.rows, r, d.lab), s.db.rows, d, r)
  {
    var d := s.inFlight[host];
    var row := CommitAddsOneRow(s.db.labs, s.db.rows, d, s.next, name, runtimeId);
    var kept := Kept(s.db.rows, d, runtimeId);
    LabUseWithRow(kept, row, r, d.lab);
    if d.replaced.Some? {
      var id := d.replaced.value;
      LabUseWithoutRow(s.db.rows, id, r, d.lab);
      LabUseWithoutRow(Without(s.db.rows, id), id, r, d.lab);
      HeldAfterDelete(s.db.rows, id, id, r, d.lab);
    }
  }

  /** Another lab, and a deployment in flight there, can only gain room from a commit. */
  lemma CommitSparesOtherLab(s: State, host: int, name: string, runtimeId: string, other: Deploy, r: Resource)
    requires IdsInSequence(s) && host in s.inFlight
    requires Writes(s.db.labs, s.db.rows, s.inFlight[host], runtimeId)
    requires other.lab != s.inFlight[host].lab
    ensures var rows' := Commit(s, host, name, runtimeId).db.rows;
      && LabUse(rows', r, other.lab) <= LabUse(s.db.rows, r, other.lab)
      && Projected(LabUse(rows', r, other.lab), rows', other, r) <=
         Projected(LabUse(s.db.rows, r, other.lab), s.db.rows, other, r)
  {
    var d := s.inFlight[host];
    var row := CommitAddsOneRow(s.db.labs, s.db.rows, d, s.next, name, runtimeId);
    var kept := Kept(s.db.rows, d, runtimeId);
    LabUseWithRow(kept, row, r, other.lab);
    if other.replaced.Some? { HeldWithRow(kept, row, other.replaced.value, r, other.lab); }
    KeptIsDeletions(s.db.rows, d, runtimeId, other, r);
  }

  lemma CommitSparesOtherHost(s: State, host: int, name: string, runtimeId: string, other: Deploy, r: Resource,
                              elsewhere: int)
    requires IdsInSequence(s) && host in s.inFlight && elsewhere != host
    requires Writes(s.db.labs, s.db.rows, s.inFlight[host], runtimeId)
    requires other.lab != s.inFlight[host].lab
    ensures var labs, rows' := s.db.labs, Commit(s, host, name, runtimeId).db.rows;
      && HostUse(labs, rows', r, elsewhere) <= HostUse(labs, s.db.rows, r, elsewhere)
      && (IsOnHost(labs, other.lab, elsewhere) ==>
            Projected(HostUse(labs, rows', r, elsewhere), rows', other, r) <=
            Projected(HostUse(labs, s.db.rows, r, elsewhere), s.db.rows, other, r))
  {
    var d := s.inFlight[host];
    var row := CommitAddsOneRow(s.db.labs, s.db.rows, d, s.next, name, runtimeId);
    var kept := Kept(s.db.rows, d, runtimeId);
    LabsAndHosts(s, host);
    assert !IsOnHost(s.db.labs, d.lab, elsewhere);
    HostUseWithRow(s.db.labs, kept, row, r, elsewhere);
    if other.replaced.Some? { HeldWithRow(kept, row, other.replaced.value, r, other.lab); }
    KeptIsDeletionsOnHost(s.db.labs, s.db.rows, d, runtimeId, other, r, elsewhere);
  }

  lemma KeptRowsAreOld(rows: seq<Row>, d: Deploy, runtimeId: string)
    ensures forall row :: row in Kept(rows, d, runtimeId) ==> row in rows
  {
  }

  lemma CommitKeepsIds(s: State, host: int, name: string, runtimeId: string)
    requires IdsInSequence(s)
    ensures IdsInSequence(Commit(s, host, name, runtimeId))
  {
    if host in s.inFlight && Writes(s.db.labs, s.db.rows, s.inFlight[host], runtimeId) {
      var d := s.inFlight[host];
      var row := CommitAddsOneRow(s.db.labs, s.db.rows, d, s.next, name, runtimeId);
      KeptRowsAreOld(s.db.rows, d, runtimeId);
    }
  }

  lemma CommitKeepsLabCaps(s: State, host: int, name: string, runtimeId: string)
    requires IdsInSequence(s) && LabCaps(s)
    ensures LabCaps(Commit(s, host, name, runtimeId))
  {
    var s' := Commit(s, host, name, runtimeId);
    forall l, r | l in s'.db.labs ensures LabCap(s', l, r) {
      assert LabCap(s, l, r);
      if host in s.inFlight && Writes(s.db.labs, s.db.rows, s.inFlight[host], runtimeId) {
        var d := s.inFlight[host];
        if l.id == d.lab {
          CommitMeetsProjection(s, host, name, runtimeId, r);
        } else {
          var other := if l.host in s.inFlight && s.inFlight[l.host].lab == l.id
                       then s.inFlight[l.host] else Deploy(l.id, Project, "", None, None, None);
          CommitSparesOtherLab(s, host, name, runtimeId, other, r);
        }
      }
    }
  }

  lemma CommitKeepsHostCaps(s: State, host: int, name: string, runtimeId: string)
    requires IdsInSequence(s) && HostCaps(s)
    ensures HostCaps(Commit(s, host, name, runtimeId))
  {
    var s' := Commit(s, host, name, runtimeId);
    forall h, r | h in s'.db.hosts ensures HostCap(s', h, s'.db.hosts[h], r) {
      assert HostCap(s, h, s.db.hosts[h], r);
      if host in s.inFlight && Writes(s.db.labs, s.db.rows, s.inFlight[host], runtimeId) {
        if h == host {
          CommitMeetsProjection(s, host, name, runtimeId, r);
        } else if h in s.inFlight {
          LabsAndHosts(s, h);
          LabsAndHosts(s, host);
          if FindLab(s.db.labs, s.inFlight[h].lab).Some? {
            CommitSparesOtherHost(s, host, name, runtimeId, s.inFlight[h], r, h);
          } else {
            CommitSparesOtherHost(s, host, name, runtimeId,
                                  Deploy(s.inFlight[host].lab - 1, Project, "", None, None, None), r, h);
          }
        } else {
          CommitSparesOtherHost(s, host, name, runtimeId,
                                Deploy(s.inFlight[host].lab - 1, Project, "", None, None, None), r, h);
        }
      }
    }
  }

  // ---------------------------------------------------------------- checks

  lemma CreditAtLeastCharge(rows: seq<Row>, kind: Kind, lab: int, name: string, r: Resource)
    ensures var named := Named(rows, kind, lab, name);
      named != [] ==> ChargeOf(named[0], r) <= Held(rows, named[0].id, r, lab)
  {
    var named := Named(rows, kind, lab, name);
    if named != [] { HeldByRow(rows, named[0], r); }
  }

  /** An admitted deployment's projection fits: the replaced row is credited with no more than it
      takes, and on an unbounded host nothing is charged. */
  lemma AdmittedProjectionFits(s: State, l: Lab, h: Host, d: Deploy, named: seq<Row>, cpu: Option<Amount>,
                               mem: Option<nat>, r: Resource)
    requires named == Named(s.db.rows, d.kind, l.id, d.name) && Admitted(s.db, l, h, RequestFor(h, named, cpu, mem))
    requires d == Deploy(l.id, d.kind, d.name, if named == [] then None else Some(named[0].id),
                         Effective(h, cpu), Effective(h, mem))
    ensures WithinLab(l, r, LabUse(s.db.rows, r, l.id)) ==>
      WithinLab(l, r, Projected(LabUse(s.db.rows, r, l.id), s.db.rows, d, r))
    ensures !Unbounded(h) ==> WithinHost(h, r, Projected(HostUse(s.db.labs, s.db.rows, r, l.host), s.db.rows, d, r))
  {
    CreditAtLeastCharge(s.db.rows, d.kind, l.id, d.name, r);
    if named != [] { HeldIsNonNegative(s.db.rows, named[0].id, r, l.id); }
    if !Unbounded(h) { assert Fits(s.db, l, h, RequestFor(h, named, cpu, mem), r); }
  }

  /** Replacing a row by one that asks for no more of anything is never refused while the caps hold,
      however full the lab and the host are. */
  lemma ReplacementByNoMoreIsAdmitted(s: State, l: Lab, kind: Kind, name: string, cpu: Option<Amount>, mem: Option<nat>)
    requires IdsInSequence(s) && LabCaps(s) && HostCaps(s) && l in s.db.labs
    requires var named := Named(s.db.rows, kind, l.id, name);
      named != [] && forall r :: Charge(cpu, mem, r) <= ChargeOf(named[0], r)
    ensures Admitted(s.db, l, s.db.hosts[l.host],
                     RequestFor(s.db.hosts[l.host], Named(s.db.rows, kind, l.id, name), cpu, mem))
  {
    var h := s.db.hosts[l.host];
    var q := RequestFor(h, Named(s.db.rows, kind, l.id, name), cpu, mem);
    if !Unbounded(h) {
      forall r: Resource ensures Fits(s.db, l, h, q, r) {
        assert LabCap(s, l, r) && HostCap(s, l.host, h, r);
      }
    }
  }

  lemma BeginKeepsCaps(s: State, lab: int, kind: Kind, name: string, cpu: Option<Amount>, mem: Option<nat>)
    requires IdsInSequence(s) && LabCaps(s)
    ensures var s' := Begin(s, lab, kind, name, cpu, mem);
      IdsInSequence(s') && LabCaps(s') && (HostCaps(s) ==> HostCaps(s'))
  {
    var s' := Begin(s, lab, kind, name, cpu, mem);
    if s' != s {
      var l := FindLab(s.db.labs, lab).value;
      var h, d := s.db.hosts[l.host], s'.inFlight[l.host];
      UniqueMeansSame(s.db.labs, l);
      forall k, r | k in s'.db.labs ensures LabCap(s', k, r) {
        assert LabCap(s, k, r);
        AdmittedProjectionFits(s, l, h, d, Named(s.db.rows, kind, lab, name), cpu, mem, r);
      }
      if HostCaps(s) {
        forall id, r | id in s'.db.hosts ensures HostCap(s', id, s'.db.hosts[id], r) {
          assert HostCap(s, id, s.db.hosts[id], r);
          AdmittedProjectionFits(s, l, h, d, Named(s.db.rows, kind, lab, name), cpu, mem, r);
        }
      }
    }
  }

  lemma UniqueMeansSame(labs: seq<Lab>, l: Lab)
    requires UniqueLabIds(labs) && l in labs
    ensures forall k :: k in labs && k.id == l.id ==> k == l
  {
  }

  // ---------------------------------------------------------------- hosts and labs

  lemma {:induction false} NoRowsNoUse(rows: seq<Row>, r: Resource, kind: Kind, lab: int)
    requires forall row :: row in rows ==> row.lab != lab
    ensures SumOf(rows, r, kind, lab) == 0.0
    decreases rows
  {
    if rows != [] { NoRowsNoUse(rows[1..], r, kind, lab); }
  }

  lemma {:induction false} HostUseWithLab(labs: seq<Lab>, rows: seq<Row>, l: Lab, r: Resource, host: int)
    ensures HostUse(labs + [l], rows, r, host) ==
            HostUse(labs, rows, r, host) + (if l.host == host then LabUse(rows, r, l.id) else 0.0)
    decreases labs
  {
    if labs == [] {
      assert labs + [l] == [l];
    } else {
      assert (labs + [l])[1..] == labs[1..] + [l];
      HostUseWithLab(labs[1..], rows, l, r, host);
    }
  }

  lemma {:induction false} FindLabAfterAppend(labs: seq<Lab>, l: Lab, id: int)
    requires l.id != id
    ensures FindLab(labs + [l], id) == FindLab(labs, id)
    decreases labs
  {
    if labs == [] {
      assert labs + [l] == [l];
    } else {
      assert (labs + [l])[1..] == labs[1..] + [l];
      FindLabAfterAppend(labs[1..], l, id);
    }
  }

  lemma CreateLabKeepsCaps(s: State, host: int, cpu: Option<nat>, mem: Option<nat>, status: LabStatus)
    requires IdsInSequence(s) && LabCaps(s)
    ensures var s' := CreateLab(s, host, cpu, mem, status);
      IdsInSequence(s') && LabCaps(s') && (HostCaps(s) ==> HostCaps(s'))
  {
    var s' := CreateLab(s, host, cpu, mem, status);
    if s' != s {
      var l := s'.db.labs[|s.db.labs|];
      assert s'.db.labs == s.db.labs + [l];
      forall r: Resource ensures LabUse(s.db.rows, r, l.id) == 0.0 {
        NoRowsNoUse(s.db.rows, r, Environment, l.id);
        NoRowsNoUse(s.db.rows, r, Project, l.id);
      }
      forall k, r | k in s'.db.labs ensures LabCap(s', k, r) {
        if k in s.db.labs { assert LabCap(s, k, r); }
      }
      if HostCaps(s) {
        forall id, r | id in s'.db.hosts ensures HostCap(s', id, s'.db.hosts[id], r) {
          assert HostCap(s, id, s.db.hosts[id], r);
          HostUseWithLab(s.db.labs, s.db.rows, l, r, id);
          if id in s.inFlight { FindLabAfterAppend(s.db.labs, l, s.inFlight[id].lab); }
        }
      }
    }
  }

  lemma {:induction false} SumWithoutOtherLab(rows: seq<Row>, gone: int, r: Resource, kind: Kind, lab: int)
    requires gone != lab
    ensures SumOf(WithoutLabRows(rows, gone), r, kind, lab) == SumOf(rows, r, kind, lab)
    decreases rows
  {
    if rows != [] {
      SumWithoutOtherLab(rows[1..], gone, r, kind, lab);
      var rest := WithoutLabRows(rows[1..], gone);
      if rows[0].lab == gone {
        assert WithoutLabRows(rows, gone) == rest;
      } else {
        assert WithoutLabRows(rows, gone) == [rows[0]] + rest && ([rows[0]] + rest)[1..] == rest;
      }
    }
  }

  lemma {:induction false} HeldWithoutOtherLab(rows: seq<Row>, gone: int, id: RowId, r: Resource, lab: int)
    requires gone != lab
    ensures Held(WithoutLabRows(rows, gone), id, r, lab) == Held(rows, id, r, lab)
    decreases rows
  {
    if rows != [] {
      HeldWithoutOtherLab(rows[1..], gone, id, r, lab);
      var rest := WithoutLabRows(rows[1..], gone);
      if rows[0].lab == gone {
        assert WithoutLabRows(rows, gone) == rest;
      } else {
        assert WithoutLabRows(rows, gone) == [rows[0]] + rest && ([rows[0]] + rest)[1..] == rest;
      }
    }
  }

  lemma LabUseWithoutOtherLab(rows: seq<Row>, gone: int, r: Resource, lab: int)
    requires gone != lab
    ensures LabUse(WithoutLabRows(rows, gone), r, lab) == LabUse(rows, r, lab)
  {
    SumWithoutOtherLab(rows, gone, r, Environment, lab);
    SumWithoutOtherLab(rows, gone, r, Project, lab);
  }

  lemma {:induction false} HostUseWithoutLab(labs: seq<Lab>, rows: seq<Row>, gone: int, r: Resource, host: int)
    ensures HostUse(WithoutLab(labs, gone), WithoutLabRows(rows, gone), r, host) <= HostUse(labs, rows, r, host)
    decreases labs
  {
    if labs != [] {
      HostUseWithoutLab(labs[1..], rows, gone, r, host);
      var rest := WithoutLab(labs[1..], gone);
      if labs[0].id == gone {
        assert WithoutLab(labs, gone) == rest;
        LabUseIsNonNegative(rows, r, gone);
      } else {
        assert WithoutLab(labs, gone) == [labs[0]] + rest && ([labs[0]] + rest)[1..] == rest;
        LabUseWithoutOtherLab(rows, gone, r, labs[0].id);
      }
    }
  }

  lemma {:induction false} WithoutLabKeepsUnique(labs: seq<Lab>, gone: int)
    requires UniqueLabIds(labs)
    ensures UniqueLabIds(WithoutLab(labs, gone))
    decreases labs
  {
    if labs != [] {
      var rest := WithoutLab(labs[1..], gone);
      WithoutLabKeepsUnique(labs[1..], gone);
      forall j | 0 <= j < |rest| ensures rest[j] in labs[1..] { assert rest[j] in rest; }
    }
  }

  lemma DeleteLabKeepsCaps(s: State, lab: int)
    requires IdsInSequence(s) && LabCaps(s)
    ensures IdsInSequence(DeleteLab(s, lab)) && LabCaps(DeleteLab(s, lab))
    ensures HostCaps(s) ==> HostCaps(DeleteLab(s, lab))
  {
    var s' := DeleteLab(s, lab);
    WithoutLabKeepsUnique(s.db.labs, lab);
    forall l, r | l in s'.db.labs ensures LabCap(s', l, r) {
      assert LabCap(s, l, r);
      LabUseWithoutOtherLab(s.db.rows, lab, r, l.id);
      if l.host in s.inFlight && s.inFlight[l.host].lab == l.id && s.inFlight[l.host].replaced.Some? {
        HeldWithoutOtherLab(s.db.rows, lab, s.inFlight[l.host].replaced.value, r, l.id);
      }
    }
    if HostCaps(s) {
      forall h, r | h in s'.db.hosts ensures HostCap(s', h, s'.db.hosts[h], r) {
        assert HostCap(s, h, s.db.hosts[h], r);
        HostUseWithoutLab(s.db.labs, s.db.rows, lab, r, h);
        if h in s.inFlight && FindLab(s'.db.labs, s.inFlight[h].lab).Some? && s.inFlight[h].replaced.Some? {
          HeldWithoutOtherLab(s.db.rows, lab, s.inFlight[h].replaced.value, r, s.inFlight[h].lab);
        }
      }
    }
  }

  lemma {:induction false} DeleteLabsKeepsCaps(s: State, labs: seq<Lab>)
    requires IdsInSequence(s) && LabCaps(s)
    ensures var s' := DeleteLabs(s, labs);
      && IdsInSequence(s') && LabCaps(s') && (HostCaps(s) ==> HostCaps(s'))
      && s'.db.hosts == s.db.hosts
      && forall l :: l in s'.db.labs ==> l in s.db.labs && forall k :: k in labs ==> k.id != l.id
    decreases labs
  {
    if labs != [] {
      DeleteLabKeepsCaps(s, labs[0].id);
      DeleteLabsKeepsCaps(DeleteLab(s, labs[0].id), labs[1..]);
    }
  }

  lemma DeleteHostKeepsCaps(s: State, host: int)
    requires IdsInSequence(s) && LabCaps(s)
    ensures var s' := DeleteHost(s, host);
      IdsInSequence(s') && LabCaps(s') && (HostCaps(s) ==> HostCaps(s'))
  {
    var gone := Keep(s.db.labs, (l: Lab) => l.host == host);
    var mid, s' := DeleteLabs(s, gone), DeleteHost(s, host);
    DeleteLabsKeepsCaps(s, gone);
    forall l | l in mid.db.labs ensures l.host != host {
      assert l in s.db.labs && l !in gone;
    }
    forall l, r | l in s'.db.labs ensures LabCap(s', l, r) {
      assert LabCap(mid, l, r);
    }
    if HostCaps(s) {
      forall id, r | id in s'.db.hosts ensures HostCap(s', id, s'.db.hosts[id], r) {
        assert HostCap(mid, id, mid.db.hosts[id], r);
      }
    }
  }

  // ---------------------------------------------------------------- every run

  /** A registration that leaves room for what is allocated and in flight on the host. */
  predicate LeavesRoom(s: State, e: Event)
  {
    e.RegisterEvent? ==> HostCap(s, e.host, e.row, Cpu) && HostCap(s, e.host, e.row, Memory)
  }

  lemma RegisterKeepsCaps(s: State, id: int, h: Host)
    requires IdsInSequence(s) && LabCaps(s)
    ensures IdsInSequence(Register(s, id, h)) && LabCaps(Register(s, id, h))
    ensures HostCaps(s) && LeavesRoom(s, RegisterEvent(id, h)) ==> HostCaps(Register(s, id, h))
  {
    var s' := Register(s, id, h);
    forall l, r | l in s'.db.labs ensures LabCap(s', l, r) {
      assert LabCap(s, l, r);
    }
    if HostCaps(s) && LeavesRoom(s, RegisterEvent(id, h)) {
      forall k, r | k in s'.db.hosts ensures HostCap(s', k, s'.db.hosts[k], r) {
        assert HostCap(s, k, s'.db.hosts[k], r);
      }
    }
  }

  lemma AbandonKeepsCaps(s: State, host: int)
    requires IdsInSequence(s) && LabCaps(s)
    ensures IdsInSequence(Abandon(s, host)) && LabCaps(Abandon(s, host))
    ensures HostCaps(s) ==> HostCaps(Abandon(s, host))
  {
    var s' := Abandon(s, host);
    forall l, r | l in s'.db.labs ensures LabCap(s', l, r) {
      assert LabCap(s, l, r);
    }
    if HostCaps(s) {
      forall k, r | k in s'.db.hosts ensures HostCap(s', k, s'.db.hosts[k], r) {
        assert HostCap(s, k, s.db.hosts[k], r);
      }
    }
  }

  lemma StepKeepsCaps(s: State, e: Event)
    requires IdsInSequence(s) && LabCaps(s)
    ensures IdsInSequence(Step(s, e)) && LabCaps(Step(s, e))
    ensures HostCaps(s) && LeavesRoom(s, e) ==> HostCaps(Step(s, e))
  {
    match e
    case RegisterEvent(host, row) => RegisterKeepsCaps(s, host, row);
    case CreateLabEvent(host, cpu, mem, status) => CreateLabKeepsCaps(s, host, cpu, mem, status);
    case BeginEvent(lab, kind, name, cpu, mem) => BeginKeepsCaps(s, lab, kind, name, cpu, mem);
    case CommitEvent(host, name, runtimeId) =>
      CommitKeepsIds(s, host, name, runtimeId);
      CommitKeepsLabCaps(s, host, name, runtimeId);
      if HostCaps(s) { CommitKeepsHostCaps(s, host, name, runtimeId); }
    case AbandonEvent(host) => AbandonKeepsCaps(s, host);
    case DeleteRowEvent(id) => DeleteRowKeepsCaps(s, id);
    case DeleteLabEvent(lab) => DeleteLabKeepsCaps(s, lab);
    case DeleteHostEvent(host) => DeleteHostKeepsCaps(s, host);
  }

  /** Every lab stays within its own limits over every run, whatever is registered, resized, declared
      unbounded, deleted or abandoned between a check and its commit. */
  lemma {:induction false} LabCapsHoldInEveryRun(s: State, events: seq<Event>)
    requires IdsInSequence(s) && LabCaps(s)
    ensures IdsInSequence(Run(s, events)) && LabCaps(Run(s, events))
    decreases events
  {
    if events != [] {
      StepKeepsCaps(s, events[0]);
      LabCapsHoldInEveryRun(Step(s, events[0]), events[1..]);
    }
  }

  /** No registration in the run lowers a total below what is allocated or in flight at that moment. */
  predicate NeverShrinksBelowUse(s: State, events: seq<Event>)
    decreases events
  {
    events == [] || (LeavesRoom(s, events[0]) && NeverShrinksBelowUse(Step(s, events[0]), events[1..]))
  }

  lemma {:induction false} HostCapsHoldInEveryRun(s: State, events: seq<Event>)
    requires IdsInSequence(s) && LabCaps(s) && HostCaps(s)
    requires NeverShrinksBelowUse(s, events)
    ensures HostCaps(Run(s, events))
    decreases events
  {
    if events != [] {
      StepKeepsCaps(s, events[0]);
      HostCapsHoldInEveryRun(Step(s, events[0]), events[1..]);
    }
  }

  /** The host caps hold throughout a run, before and after each of its steps. */
  predicate HostCapsThroughout(s: State, events: seq<Event>)
    decreases events
  {
    HostCaps(s) && (events == [] || HostCapsThroughout(Step(s, events[0]), events[1..]))
  }

  /** The host caps hold throughout, for what is allocated and for what each deployment in flight comes
      to, if and only if registrations leave room for both. (The totals alone: see `HostTotals`.) */
  lemma {:induction false} HostCapsHoldExactlyWhenRoomIsLeft(s: State, events: seq<Event>)
    requires IdsInSequence(s) && LabCaps(s) && HostCaps(s)
    ensures HostCapsThroughout(s, events) <==> NeverShrinksBelowUse(s, events)
    decreases events
  {
    if events != [] {
      var s' := Step(s, events[0]);
      StepKeepsCaps(s, events[0]);
      if HostCaps(s') {
        if events[0].RegisterEvent? { RoomIsNeeded(s, events[0].host, events[0].row); }
        HostCapsHoldExactlyWhenRoomIsLeft(s', events[1..]);
      }
    }
  }

  lemma RoomIsNeeded(s: State, id: int, h: Host)
    requires HostCaps(Register(s, id, h))
    ensures LeavesRoom(s, RegisterEvent(id, h))
  {
    var s' := Register(s, id, h);
    assert s'.db.hosts[id] == h;
    assert HostCap(s', id, h, Cpu) && HostCap(s', id, h, Memory);
  }

  const EMPTY := State(Database(map[], [], []), map[], 0)

  /** From the empty tables on. */
  lemma CapsHoldFromTheStart(events: seq<Event>)
    requires NeverShrinksBelowUse(EMPTY, events)
    ensures LabCaps(Run(EMPTY, events)) && HostCaps(Run(EMPTY, events))
  {
    LabCapsHoldInEveryRun(EMPTY, events);
    HostCapsHoldInEveryRun(EMPTY, events);
  }

  // ---------------------------------------------------------------- why one in flight

  /** With two checks before the first commit the code does exceed a cap: the check is not repeated. */
  lemma OverlappingDeploysExceedTheCap()
    ensures exists db: Database, l: Lab, h: Host, d: Deploy, e: Deploy, q: Request ::
      && db.labs == [l] && db.hosts == map[l.host := h] && !Unbounded(h)
      && Admitted(db, l, h, q)
      && q == Request(d.cpu, d.mem, None, None) == Request(e.cpu, e.mem, None, None)
      && d.lab == l.id == e.lab && d.name != e.name
      && !WithinHost(h, Memory,
           HostUse(db.labs, CommitRows(db.labs, CommitRows(db.labs, db.rows, d, 1, "", ""), e, 2, "", ""), Memory,
                   l.host))
  {
    var l := Lab(0, 7, Running, None, None);
    var h := Host(Online, true, 4, 100);
    var db := Database(map[7 := h], [l], []);
    var d := Deploy(0, Project, "a", None, None, Some(60));
    var e := Deploy(0, Project, "b", None, None, Some(60));
    var q := Request(None, Some(60), None, None);
    var one := NewRow(d, RowId(Project, 1), "", "");
    var two := NewRow(e, RowId(Project, 2), "", "");
    assert CommitRows([l], [], d, 1, "", "") == [] + [one] == [one];
    assert CommitRows([l], [one], e, 2, "", "") == [one] + [two];
    OnlyLab(l, [], Cpu);
    OnlyLab(l, [], Memory);
    OnlyLab(l, [one] + [two], Memory);
    assert Admitted(db, l, h, q);
    SumWithRow([], one, Memory, Project, 0);
    SumWithRow([one], two, Memory, Project, 0);
    assert [] + [one] == [one];
    assert SumOf([one] + [two], Memory, Project, 0) == 120.0;
    SumIsNonNegative([one] + [two], Memory, Environment, 0);
    assert !WithinHost(h, Memory,
                       HostUse([l], CommitRows([l], CommitRows([l], [], d, 1, "", ""), e, 2, "", ""), Memory, 7));
  }

  lemma OnlyLab(l: Lab, rows: seq<Row>, r: Resource)
    ensures HostUse([l], rows, r, l.host) == LabUse(rows, r, l.id)
  {
    assert [l][1..] == [];
  }
}

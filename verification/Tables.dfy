/** The control plane's tables, what is allocated from labs and hosts, and the capacity check. */
module Tables {
  import opened Wrappers

  /** The two resources that are accounted for. Amounts are exact numbers: cores, and MiB. */
  datatype Resource = Cpu | Memory

  /** Request validators admit no negative amounts. */
  type Amount = r: real | 0.0 <= r

  datatype HostStatus = Online | Offline | Draining

  datatype LabStatus = Running | Stopped | Failed

  datatype Host = Host(status: HostStatus, hasApiKey: bool, cpuTotal: nat, memTotal: nat)

  /** A lab's limits are caps on what its rows may use together. */
  datatype Lab = Lab(id: int, host: int, status: LabStatus, cpuLimit: Option<nat>, memLimit: Option<nat>)

  datatype Kind = Environment | Project

  datatype RowId = RowId(kind: Kind, n: int)

  /** A container or project row. `runtimeId` is the Docker id of an environment. */
  datatype Row = Row(id: RowId, lab: int, name: string, runtimeId: string, cpu: Option<Amount>, mem: Option<nat>)

  datatype Database = Database(hosts: map<int, Host>, labs: seq<Lab>, rows: seq<Row>)

  // ---------------------------------------------------------------- queries

  function FindLab(labs: seq<Lab>, id: int): (r: Option<Lab>)
    ensures r.Some? ==> r.value in labs && r.value.id == id
    ensures r.None? ==> forall l :: l in labs ==> l.id != id
  {
    if labs == [] then None else if labs[0].id == id then Some(labs[0]) else FindLab(labs[1..], id)
  }

  /** The rows of one kind with a given name in a lab. */
  function Named(rows: seq<Row>, kind: Kind, lab: int, name: string): seq<Row>
  {
    Keep(rows, (row: Row) => row.id.kind == kind && row.lab == lab && row.name == name)
  }

  /** The environments with a given Docker id. */
  function ByRuntimeId(rows: seq<Row>, runtimeId: string): seq<Row>
  {
    Keep(rows, (row: Row) => row.id.kind == Environment && row.runtimeId == runtimeId)
  }

  predicate HasRow(rows: seq<Row>, id: RowId)
  {
    rows != [] && (rows[0].id == id || HasRow(rows[1..], id))
  }

  /** DELETE of one row. */
  function Without(rows: seq<Row>, id: RowId): seq<Row>
  {
    Keep(rows, (row: Row) => row.id != id)
  }

  /** DELETE of all rows of a lab. */
  function WithoutLabRows(rows: seq<Row>, lab: int): seq<Row>
  {
    Keep(rows, (row: Row) => row.lab != lab)
  }

  function WithoutLab(labs: seq<Lab>, id: int): seq<Lab>
  {
    Keep(labs, (l: Lab) => l.id != id)
  }

  // ---------------------------------------------------------------- allocations

  /** A missing limit is charged as zero. */
  function Charge(cpu: Option<Amount>, mem: Option<nat>, r: Resource): real
  {
    match r
    case Cpu => (match cpu case Some(c) => c case None => 0.0)
    case Memory => (match mem case Some(m) => m as real case None => 0.0)
  }

  function ChargeOf(row: Row, r: Resource): real { Charge(row.cpu, row.mem, r) }

  /** The sum over the rows of one kind in a lab. */
  function SumOf(rows: seq<Row>, r: Resource, kind: Kind, lab: int): real
  {
    if rows == [] then 0.0 else
    (if rows[0].id.kind == kind && rows[0].lab == lab then ChargeOf(rows[0], r) else 0.0) +
      SumOf(rows[1..], r, kind, lab)
  }

  function LabUse(rows: seq<Row>, r: Resource, lab: int): real
  {
    SumOf(rows, r, Environment, lab) + SumOf(rows, r, Project, lab)
  }

  /** The sum over the labs of a host. */
  function HostUse(labs: seq<Lab>, rows: seq<Row>, r: Resource, host: int): real
  {
    if labs == [] then 0.0 else
    (if labs[0].host == host then LabUse(rows, r, labs[0].id) else 0.0) + HostUse(labs[1..], rows, r, host)
  }

  lemma ChargeIsNonNegative(row: Row, r: Resource)
    ensures 0.0 <= ChargeOf(row, r)
  {
  }

  lemma {:induction false} SumIsNonNegative(rows: seq<Row>, r: Resource, kind: Kind, lab: int)
    ensures 0.0 <= SumOf(rows, r, kind, lab)
    decreases rows
  {
    if rows != [] {
      ChargeIsNonNegative(rows[0], r);
      SumIsNonNegative(rows[1..], r, kind, lab);
    }
  }

  lemma LabUseIsNonNegative(rows: seq<Row>, r: Resource, lab: int)
    ensures 0.0 <= LabUse(rows, r, lab)
  {
    SumIsNonNegative(rows, r, Environment, lab);
    SumIsNonNegative(rows, r, Project, lab);
  }

  lemma {:induction false} HostUseIsNonNegative(labs: seq<Lab>, rows: seq<Row>, r: Resource, host: int)
    ensures 0.0 <= HostUse(labs, rows, r, host)
    decreases labs
  {
    if labs != [] {
      LabUseIsNonNegative(rows, r, labs[0].id);
      HostUseIsNonNegative(labs[1..], rows, r, host);
    }
  }

  /** A lab never uses more than its host. */
  lemma {:induction false} LabUseAtMostHostUse(labs: seq<Lab>, rows: seq<Row>, r: Resource, lab: Lab)
    requires lab in labs
    ensures LabUse(rows, r, lab.id) <= HostUse(labs, rows, r, lab.host)
    decreases labs
  {
    LabUseIsNonNegative(rows, r, labs[0].id);
    HostUseIsNonNegative(labs[1..], rows, r, lab.host);
    if lab != labs[0] { LabUseAtMostHostUse(labs[1..], rows, r, lab); }
  }

  // ---------------------------------------------------------------- one row more or less

  /** What row `id` takes from a lab. */
  function Held(rows: seq<Row>, id: RowId, r: Resource, lab: int): real
  {
    if rows == [] then 0.0 else
    (if rows[0].id == id && rows[0].lab == lab then ChargeOf(rows[0], r) else 0.0) + Held(rows[1..], id, r, lab)
  }

  lemma {:induction false} HeldIsNonNegative(rows: seq<Row>, id: RowId, r: Resource, lab: int)
    ensures 0.0 <= Held(rows, id, r, lab)
    decreases rows
  {
    if rows != [] {
      ChargeIsNonNegative(rows[0], r);
      HeldIsNonNegative(rows[1..], id, r, lab);
    }
  }

  lemma {:induction false} HeldByRow(rows: seq<Row>, row: Row, r: Resource)
    requires row in rows
    ensures ChargeOf(row, r) <= Held(rows, row.id, r, row.lab)
    decreases rows
  {
    ChargeIsNonNegative(rows[0], r);
    HeldIsNonNegative(rows[1..], row.id, r, row.lab);
    if row != rows[0] { HeldByRow(rows[1..], row, r); }
  }

  /** What row `id` takes from a host. */
  function HeldOnHost(labs: seq<Lab>, rows: seq<Row>, id: RowId, r: Resource, host: int): real
  {
    if labs == [] then 0.0 else
    (if labs[0].host == host then Held(rows, id, r, labs[0].id) else 0.0) + HeldOnHost(labs[1..], rows, id, r, host)
  }

  lemma {:induction false} HeldOnHostIsNonNegative(labs: seq<Lab>, rows: seq<Row>, id: RowId, r: Resource, host: int)
    ensures 0.0 <= HeldOnHost(labs, rows, id, r, host)
    decreases labs
  {
    if labs != [] {
      HeldIsNonNegative(rows, id, r, labs[0].id);
      HeldOnHostIsNonNegative(labs[1..], rows, id, r, host);
    }
  }

  lemma {:induction false} HeldInLabOfHost(labs: seq<Lab>, rows: seq<Row>, id: RowId, r: Resource, lab: Lab)
    requires lab in labs
    ensures Held(rows, id, r, lab.id) <= HeldOnHost(labs, rows, id, r, lab.host)
    decreases labs
  {
    HeldIsNonNegative(rows, id, r, labs[0].id);
    HeldOnHostIsNonNegative(labs[1..], rows, id, r, lab.host);
    if lab != labs[0] { HeldInLabOfHost(labs[1..], rows, id, r, lab); }
  }

  lemma {:induction false} SumWithoutRow(rows: seq<Row>, id: RowId, r: Resource, kind: Kind, lab: int)
    ensures SumOf(Without(rows, id), r, kind, lab) ==
            SumOf(rows, r, kind, lab) - (if id.kind == kind then Held(rows, id, r, lab) else 0.0)
    decreases rows
  {
    if rows != [] {
      SumWithoutRow(rows[1..], id, r, kind, lab);
      var rest := Without(rows[1..], id);
      if rows[0].id == id {
        assert Without(rows, id) == rest;
      } else {
        assert Without(rows, id) == [rows[0]] + rest && ([rows[0]] + rest)[1..] == rest;
      }
    }
  }

  lemma LabUseWithoutRow(rows: seq<Row>, id: RowId, r: Resource, lab: int)
    ensures LabUse(Without(rows, id), r, lab) == LabUse(rows, r, lab) - Held(rows, id, r, lab)
  {
    SumWithoutRow(rows, id, r, Environment, lab);
    SumWithoutRow(rows, id, r, Project, lab);
  }

  lemma {:induction false} HostUseWithoutRow(labs: seq<Lab>, rows: seq<Row>, id: RowId, r: Resource, host: int)
    ensures HostUse(labs, Without(rows, id), r, host) ==
            HostUse(labs, rows, r, host) - HeldOnHost(labs, rows, id, r, host)
    decreases labs
  {
    if labs != [] {
      LabUseWithoutRow(rows, id, r, labs[0].id);
      HostUseWithoutRow(labs[1..], rows, id, r, host);
    }
  }

  lemma {:induction false} SumWithRow(rows: seq<Row>, row: Row, r: Resource, kind: Kind, lab: int)
    ensures SumOf(rows + [row], r, kind, lab) ==
            SumOf(rows, r, kind, lab) + (if row.id.kind == kind && row.lab == lab then ChargeOf(row, r) else 0.0)
    decreases rows
  {
    if rows == [] {
      assert rows + [row] == [row];
    } else {
      assert (rows + [row])[1..] == rows[1..] + [row];
      SumWithRow(rows[1..], row, r, kind, lab);
    }
  }

  lemma LabUseWithRow(rows: seq<Row>, row: Row, r: Resource, lab: int)
    ensures LabUse(rows + [row], r, lab) == LabUse(rows, r, lab) + (if row.lab == lab then ChargeOf(row, r) else 0.0)
  {
    SumWithRow(rows, row, r, Environment, lab);
    SumWithRow(rows, row, r, Project, lab);
  }

  predicate UniqueLabIds(labs: seq<Lab>)
  {
    forall i, j :: 0 <= i < j < |labs| ==> labs[i].id != labs[j].id
  }

  /** Whether a lab of that id exists on that host. */
  predicate IsOnHost(labs: seq<Lab>, lab: int, host: int)
  {
    exists l :: l in labs && l.id == lab && l.host == host
  }

  /** A row counts towards the host of its lab, once, and towards no other. */
  lemma {:induction false} HostUseWithRow(labs: seq<Lab>, rows: seq<Row>, row: Row, r: Resource, host: int)
    requires UniqueLabIds(labs)
    ensures HostUse(labs, rows + [row], r, host) ==
            HostUse(labs, rows, r, host) + (if IsOnHost(labs, row.lab, host) then ChargeOf(row, r) else 0.0)
    decreases labs
  {
    if labs != [] {
      LabUseWithRow(rows, row, r, labs[0].id);
      HostUseWithRow(labs[1..], rows, row, r, host);
      LabIsElsewhere(labs, row.lab, host);
    }
  }

  lemma LabIsElsewhere(labs: seq<Lab>, lab: int, host: int)
    requires labs != [] && UniqueLabIds(labs)
    ensures IsOnHost(labs, lab, host) <==> (labs[0].id == lab && labs[0].host == host) || IsOnHost(labs[1..], lab, host)
    ensures labs[0].id == lab ==> !IsOnHost(labs[1..], lab, host)
  {
    assert forall l :: l in labs <==> l == labs[0] || l in labs[1..];
  }

  // ---------------------------------------------------------------- capacity

  predicate Unbounded(h: Host) { h.cpuTotal == 0 && h.memTotal == 0 }

  function LabLimit(l: Lab, r: Resource): Option<nat>
  {
    match r case Cpu => l.cpuLimit case Memory => l.memLimit
  }

  function HostTotal(h: Host, r: Resource): nat
  {
    match r case Cpu => h.cpuTotal case Memory => h.memTotal
  }

  predicate WithinLab(l: Lab, r: Resource, use: real)
  {
    match LabLimit(l, r) case Some(limit) => use <= limit as real case None => true
  }

  predicate WithinHost(h: Host, r: Resource, use: real)
  {
    use <= HostTotal(h, r) as real
  }

  /** A request for some amount of each resource, and the amounts credited for the row it replaces. */
  datatype Request = Request(cpu: Option<Amount>, mem: Option<nat>, creditCpu: Option<Amount>, creditMem: Option<nat>)
  {
    /** What is used once the credited row is replaced by the requested one. */
    function After(use: real, r: Resource): real
    {
      use - Charge(creditCpu, creditMem, r) + Charge(cpu, mem, r)
    }
  }

  /** Both caps of a resource hold after the request. */
  predicate Fits(db: Database, lab: Lab, host: Host, q: Request, r: Resource)
  {
    && WithinLab(lab, r, q.After(LabUse(db.rows, r, lab.id), r))
    && WithinHost(host, r, q.After(HostUse(db.labs, db.rows, r, lab.host), r))
  }

  predicate Admitted(db: Database, lab: Lab, host: Host, q: Request)
  {
    Unbounded(host) || (Fits(db, lab, host, q, Cpu) && Fits(db, lab, host, q, Memory))
  }

  /** Limits are not recorded for anything on an unbounded host. */
  function Effective<T>(h: Host, limit: Option<T>): Option<T> { if Unbounded(h) then None else limit }

  /** Creating a lab compares its limits with what the host's rows use, not with other labs' limits. */
  predicate CanHostLab(db: Database, id: int, h: Host, cpu: Option<nat>, mem: Option<nat>)
  {
    Unbounded(h) ||
    (&& WithinHost(h, Cpu, HostUse(db.labs, db.rows, Cpu, id) + (match cpu case Some(c) => c as real case None => 0.0))
     && WithinHost(h, Memory, HostUse(db.labs, db.rows, Memory, id) +
                              (match mem case Some(m) => m as real case None => 0.0)))
  }

  datatype Refusal = LabCpu | LabMemory | HostCpu | HostMemory

  /** The first of the four limits that would be exceeded, lab before host and CPU before memory. */
  function CapacityRefusal(db: Database, lab: Lab, host: Host, q: Request): Option<Refusal>
  {
    if Unbounded(host) then None
    else if !WithinLab(lab, Cpu, q.After(LabUse(db.rows, Cpu, lab.id), Cpu)) then Some(LabCpu)
    else if !WithinLab(lab, Memory, q.After(LabUse(db.rows, Memory, lab.id), Memory)) then Some(LabMemory)
    else if !WithinHost(host, Cpu, q.After(HostUse(db.labs, db.rows, Cpu, lab.host), Cpu)) then Some(HostCpu)
    else if !WithinHost(host, Memory, q.After(HostUse(db.labs, db.rows, Memory, lab.host), Memory))
    then Some(HostMemory)
    else None
  }

  /** There is no refusal exactly when the request is admitted, and a refusal names a cap that the
      request would exceed. */
  lemma RefusalIsExact(db: Database, lab: Lab, host: Host, q: Request)
    ensures CapacityRefusal(db, lab, host, q).None? <==> Admitted(db, lab, host, q)
    ensures match CapacityRefusal(db, lab, host, q)
      case Some(LabCpu) => lab.cpuLimit.Some? && q.After(LabUse(db.rows, Cpu, lab.id), Cpu) > lab.cpuLimit.value as real
      case Some(LabMemory) =>
        lab.memLimit.Some? && q.After(LabUse(db.rows, Memory, lab.id), Memory) > lab.memLimit.value as real
      case Some(HostCpu) => q.After(HostUse(db.labs, db.rows, Cpu, lab.host), Cpu) > host.cpuTotal as real
      case Some(HostMemory) => q.After(HostUse(db.labs, db.rows, Memory, lab.host), Memory) > host.memTotal as real
      case None => true
  {
  }
}

/** What the tables charge and what the capacity check admits, in cores and MiB. */
module Charges {
  import opened Wrappers
  import opened Tables
  import opened DeployRuns

  // ---------------------------------------------------------------- what a row is charged

  /** Cores of a request or row, and whole numbers of MiB or of a lab's cores. What is missing counts as
      none. */
  function Cores(cpu: Option<Amount>): real { if cpu.Some? then cpu.value else 0.0 }

  function Whole(n: Option<nat>): real { if n.Some? then n.value as real else 0.0 }

  lemma NothingUsesNothing(labs: seq<Lab>, r: Resource, lab: int, host: int)
    ensures LabUse([], r, lab) == 0.0 && HostUse(labs, [], r, host) == 0.0
  {
    if labs != [] { NothingUsesNothing(labs[1..], r, lab, host); }
  }

  /** One more row: its lab, and the host of its lab, use the row's cores and MiB more than before, and
      no other lab and no other host use any more. */
  lemma RowIsCharged(labs: seq<Lab>, rows: seq<Row>, row: Row, lab: int, host: int)
    requires UniqueLabIds(labs)
    ensures var mine := row.lab == lab;
      && LabUse(rows + [row], Cpu, lab) == LabUse(rows, Cpu, lab) + (if mine then Cores(row.cpu) else 0.0)
      && LabUse(rows + [row], Memory, lab) == LabUse(rows, Memory, lab) + (if mine then Whole(row.mem) else 0.0)
    ensures var mine := exists l :: l in labs && l.id == row.lab && l.host == host;
      && HostUse(labs, rows + [row], Cpu, host) ==
         HostUse(labs, rows, Cpu, host) + (if mine then Cores(row.cpu) else 0.0)
      && HostUse(labs, rows + [row], Memory, host) ==
         HostUse(labs, rows, Memory, host) + (if mine then Whole(row.mem) else 0.0)
  {
    LabUseWithRow(rows, row, Cpu, lab);
    LabUseWithRow(rows, row, Memory, lab);
    HostUseWithRow(labs, rows, row, Cpu, host);
    HostUseWithRow(labs, rows, row, Memory, host);
  }

  // ---------------------------------------------------------------- what is admitted

  /** A host without totals is unbounded: there everything is admitted. Anywhere else a request is
      admitted exactly when what is used, less what is credited and with what is asked for, is at most
      each limit of the lab and each total of the host. */
  lemma AdmittedExactly(db: Database, lab: Lab, host: Host, q: Request)
    ensures var cpu, mem := Cores(q.cpu) - Cores(q.creditCpu), Whole(q.mem) - Whole(q.creditMem);
      Admitted(db, lab, host, q) <==>
      || (host.cpuTotal == 0 && host.memTotal == 0)
      || (&& (lab.cpuLimit.Some? ==> LabUse(db.rows, Cpu, lab.id) + cpu <= lab.cpuLimit.value as real)
          && (lab.memLimit.Some? ==> LabUse(db.rows, Memory, lab.id) + mem <= lab.memLimit.value as real)
          && HostUse(db.labs, db.rows, Cpu, lab.host) + cpu <= host.cpuTotal as real
          && HostUse(db.labs, db.rows, Memory, lab.host) + mem <= host.memTotal as real)
  {
  }

  /** Which refusal is given: the first of the four, the lab's cores, its MiB, the host's cores, its MiB,
      that would be exceeded. */
  lemma RefusalIsTheFirst(db: Database, lab: Lab, host: Host, q: Request)
    ensures var cpu, mem := Cores(q.cpu) - Cores(q.creditCpu), Whole(q.mem) - Whole(q.creditMem);
      var bounded := host.cpuTotal > 0 || host.memTotal > 0;
      var labCpu := lab.cpuLimit.Some? && LabUse(db.rows, Cpu, lab.id) + cpu > lab.cpuLimit.value as real;
      var labMem := lab.memLimit.Some? && LabUse(db.rows, Memory, lab.id) + mem > lab.memLimit.value as real;
      var hostCpu := HostUse(db.labs, db.rows, Cpu, lab.host) + cpu > host.cpuTotal as real;
      var hostMem := HostUse(db.labs, db.rows, Memory, lab.host) + mem > host.memTotal as real;
      var refusal := CapacityRefusal(db, lab, host, q);
      && (refusal == Some(LabCpu) <==> bounded && labCpu)
      && (refusal == Some(LabMemory) <==> bounded && !labCpu && labMem)
      && (refusal == Some(HostCpu) <==> bounded && !labCpu && !labMem && hostCpu)
      && (refusal == Some(HostMemory) <==> bounded && !labCpu && !labMem && !hostCpu && hostMem)
  {
    RefusalIsExact(db, lab, host, q);
  }

  /** A new lab's limits are compared with what the host's rows use. */
  lemma LabIsHostedExactly(db: Database, id: int, h: Host, cpu: Option<nat>, mem: Option<nat>)
    ensures CanHostLab(db, id, h, cpu, mem) <==>
      || (h.cpuTotal == 0 && h.memTotal == 0)
      || (&& HostUse(db.labs, db.rows, Cpu, id) + Whole(cpu) <= h.cpuTotal as real
          && HostUse(db.labs, db.rows, Memory, id) + Whole(mem) <= h.memTotal as real)
  {
  }

  // ---------------------------------------------------------------- what a deployment starts

  /** A row of that kind and name in the lab. */
  predicate IsNamed(row: Row, kind: Kind, lab: int, name: string)
  {
    row.id.kind == kind && row.lab == lab && row.name == name
  }

  predicate OnlyAt(rows: seq<Row>, i: int, kind: Kind, lab: int, name: string)
  {
    forall k :: 0 <= k < |rows| ==> (IsNamed(rows[k], kind, lab, name) <==> k == i)
  }

  /** The only row of its kind and name in the lab, or that there is none. */
  ghost predicate OnlyRow(rows: seq<Row>, kind: Kind, lab: int, name: string, row: Option<Row>)
  {
    match row
    case None => forall i :: 0 <= i < |rows| ==> !IsNamed(rows[i], kind, lab, name)
    case Some(q) => exists i :: 0 <= i < |rows| && rows[i] == q && OnlyAt(rows, i, kind, lab, name)
  }

  lemma NamedIsOnlyRow(rows: seq<Row>, kind: Kind, lab: int, name: string, row: Option<Row>)
    requires OnlyRow(rows, kind, lab, name, row)
    ensures Named(rows, kind, lab, name) == match row case None => [] case Some(q) => [q]
  {
    var named := Named(rows, kind, lab, name);
    var p := (q: Row) => q.id.kind == kind && q.lab == lab && q.name == name;
    if |named| > 1 {
      var i, j := KeptTwo(rows, p);
      assert IsNamed(rows[i], kind, lab, name) && IsNamed(rows[j], kind, lab, name);
    }
    if named != [] {
      assert named[0] in named;
      var k :| 0 <= k < |rows| && rows[k] == named[0];
      assert IsNamed(rows[k], kind, lab, name);
    }
    if row.Some? { assert row.value in named; }
  }

  /** The check of a deployment into a known lab, when at most one row has the name: it gets in flight
      exactly when the host has a key, is not busy with another deployment, and is unbounded or leaves
      room for what is asked for in place of what that row is charged. What gets in flight names that row
      and carries the limits asked for, or none on an unbounded host. */
  lemma StartsExactly(s: State, lab: Lab, kind: Kind, name: string, cpu: Option<Amount>, mem: Option<nat>,
                      prior: Option<Row>)
    requires UniqueLabIds(s.db.labs) && lab in s.db.labs && OnlyRow(s.db.rows, kind, lab.id, name, prior)
    ensures var host := lab.host;
      var h := if host in s.db.hosts then s.db.hosts[host] else Host(Offline, false, 0, 0);
      var unbounded := h.cpuTotal == 0 && h.memTotal == 0;
      var moreCpu := Cores(cpu) - (if prior.Some? then Cores(prior.value.cpu) else 0.0);
      var moreMem := Whole(mem) - (if prior.Some? then Whole(prior.value.mem) else 0.0);
      var fits :=
        && (lab.cpuLimit.Some? ==> LabUse(s.db.rows, Cpu, lab.id) + moreCpu <= lab.cpuLimit.value as real)
        && (lab.memLimit.Some? ==> LabUse(s.db.rows, Memory, lab.id) + moreMem <= lab.memLimit.value as real)
        && HostUse(s.db.labs, s.db.rows, Cpu, host) + moreCpu <= h.cpuTotal as real
        && HostUse(s.db.labs, s.db.rows, Memory, host) + moreMem <= h.memTotal as real;
      Begin(s, lab.id, kind, name, cpu, mem) ==
      if host in s.db.hosts && host !in s.inFlight && h.hasApiKey && (unbounded || fits) then
        State(s.db,
              s.inFlight[host := Deploy(lab.id, kind, name, if prior.Some? then Some(prior.value.id) else None,
                                        if unbounded then None else cpu, if unbounded then None else mem)],
              s.next)
      else s
  {
    UniqueMeansSame(s.db.labs, lab);
    NamedIsOnlyRow(s.db.rows, kind, lab.id, name, prior);
    if lab.host in s.db.hosts {
      var h := s.db.hosts[lab.host];
      AdmittedExactly(s.db, lab, h, RequestFor(h, Named(s.db.rows, kind, lab.id, name), cpu, mem));
    }
  }

  /** Without such a lab, or with two rows of the name, nothing gets in flight. */
  lemma NothingStarts(s: State, lab: int, kind: Kind, name: string, cpu: Option<Amount>, mem: Option<nat>)
    requires (forall l :: l in s.db.labs ==> l.id != lab) ||
      exists i, k :: 0 <= i < k < |s.db.rows| && IsNamed(s.db.rows[i], kind, lab, name) &&
                     IsNamed(s.db.rows[k], kind, lab, name)
    ensures Begin(s, lab, kind, name, cpu, mem) == s
  {
    if i, k :| 0 <= i < k < |s.db.rows| && IsNamed(s.db.rows[i], kind, lab, name) &&
               IsNamed(s.db.rows[k], kind, lab, name) {
      var p := (q: Row) => q.id.kind == kind && q.lab == lab && q.name == name;
      KeepsBoth(s.db.rows, p, i, k);
    }
  }

  // ---------------------------------------------------------------- what a commit writes

  /** An environment that carries the new container's Docker id. */
  predicate Carries(row: Row, d: Deploy, runtimeId: string)
  {
    d.kind == Environment && row.id.kind == Environment && row.runtimeId == runtimeId
  }

  /** A commit writes exactly when its lab is still there, at most one environment carries the new Docker
      id already, and the row to be replaced, unless another is taken over, is still there. */
  lemma WritesExactly(labs: seq<Lab>, rows: seq<Row>, d: Deploy, runtimeId: string)
    ensures Writes(labs, rows, d, runtimeId) <==>
      && (exists l :: l in labs && l.id == d.lab)
      && (forall i, k :: 0 <= i < k < |rows| ==> !(Carries(rows[i], d, runtimeId) && Carries(rows[k], d, runtimeId)))
      && (d.replaced.Some? && (forall row :: row in rows ==> !Carries(row, d, runtimeId)) ==>
          exists row :: row in rows && row.id == d.replaced.value)
  {
    if d.replaced.Some? { HasRowMeansIn(rows, d.replaced.value); }
    if d.kind == Environment {
      var p := (row: Row) => row.id.kind == Environment && row.runtimeId == runtimeId;
      var taken := ByRuntimeId(rows, runtimeId);
      if |taken| > 1 {
        var i, k := KeptTwo(rows, p);
        assert Carries(rows[i], d, runtimeId) && Carries(rows[k], d, runtimeId);
      }
      forall i, k | 0 <= i < k < |rows| && Carries(rows[i], d, runtimeId) && Carries(rows[k], d, runtimeId)
        ensures |taken| > 1
      {
        KeepsBoth(rows, p, i, k);
      }
      if taken != [] {
        assert taken[0] in taken && taken[0] in rows && Carries(taken[0], d, runtimeId);
        HasRowMeansIn(rows, taken[0].id);
      }
    }
  }

  lemma {:induction false} HasRowMeansIn(rows: seq<Row>, id: RowId)
    ensures HasRow(rows, id) <==> exists row :: row in rows && row.id == id
    decreases rows
  {
    if rows != [] { HasRowMeansIn(rows[1..], id); }
  }

  /** The row that is taken over carries the new Docker id; there is one whenever any row does. */
  lemma TakenCarries(rows: seq<Row>, d: Deploy, runtimeId: string)
    ensures match Taken(rows, d, runtimeId)
      case None => forall row :: row in rows ==> !Carries(row, d, runtimeId)
      case Some(id) => exists row :: row in rows && row.id == id && Carries(row, d, runtimeId)
  {
    var taken := ByRuntimeId(rows, runtimeId);
    if d.kind == Environment && taken != [] {
      assert taken[0] in taken;
    }
  }

  /** A commit touches no lab and no host, ends its deployment and no other, and otherwise writes nothing. */
  lemma CommitEndsOne(s: State, host: int, name: string, runtimeId: string)
    ensures var s' := Commit(s, host, name, runtimeId);
      if host in s.inFlight then
        && s'.db.labs == s.db.labs && s'.db.hosts == s.db.hosts && s'.next == s.next + 1
        && s'.inFlight == s.inFlight - {host}
        && (!Writes(s.db.labs, s.db.rows, s.inFlight[host], runtimeId) ==> s'.db.rows == s.db.rows)
      else s' == s
  {
  }

  // ---------------------------------------------------------------- what deleting a host takes along

  lemma {:induction false} DeletedLabs(s: State, gone: seq<Lab>)
    ensures var s' := DeleteLabs(s, gone);
      && s'.db.hosts == s.db.hosts && s'.inFlight == s.inFlight && s'.next == s.next
      && (forall l :: l in s'.db.labs <==> l in s.db.labs && forall g :: g in gone ==> g.id != l.id)
      && (forall row :: row in s'.db.rows <==> row in s.db.rows && forall g :: g in gone ==> g.id != row.lab)
    decreases gone
  {
    if gone != [] {
      DeletedLabs(DeleteLab(s, gone[0].id), gone[1..]);
      assert forall g :: g in gone <==> g == gone[0] || g in gone[1..];
    }
  }

  /** Deleting a host takes along its labs and their rows, and nothing else. */
  lemma DeletedHost(s: State, host: int)
    requires UniqueLabIds(s.db.labs)
    ensures var s' := DeleteHost(s, host);
      && s'.db.hosts == s.db.hosts - {host} && s'.inFlight == s.inFlight && s'.next == s.next
      && (forall l :: l in s'.db.labs <==> l in s.db.labs && l.host != host)
      && (forall row :: row in s'.db.rows <==>
           row in s.db.rows && !exists l :: l in s.db.labs && l.host == host && l.id == row.lab)
  {
    var gone := Keep(s.db.labs, (l: Lab) => l.host == host);
    DeletedLabs(s, gone);
    forall l, g | l in s.db.labs && g in s.db.labs && l.id == g.id ensures l == g {
      UniqueMeansSame(s.db.labs, l);
      UniqueMeansSame(s.db.labs, g);
    }
  }
}

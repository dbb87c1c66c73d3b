/** The control plane's handlers, as far as they read and write the tables. */
module ControlPlane {
  import opened Wrappers
  import opened Tables
  import opened DeployRuns
  import opened HostTotals
  import opened Scheduler
  import M = MemoryLimits

  class Controller {
    var s: State

    constructor ()
      ensures s == EMPTY
    {
      s := EMPTY;
    }

    // -------------------------------------------------------------- allocations

    /** The sum over one kind of row of a lab. */
    method SumOfRows(r: Resource, kind: Kind, lab: int) returns (sum: real)
      ensures sum == SumOf(s.db.rows, r, kind, lab)
    {
      var rows := s.db.rows;
      sum := 0.0;
      var i := 0;
      while i < |rows|
        invariant 0 <= i <= |rows|
        invariant sum + SumOf(rows[i..], r, kind, lab) == SumOf(rows, r, kind, lab)
      {
        var row := rows[i];
        if row.id.kind == kind && row.lab == lab {
          sum := sum + ChargeOf(row, r);
        }
        assert rows[i..][1..] == rows[i + 1..];
        i := i + 1;
      }
    }

    method CalculateLabAllocated(lab: int) returns (cpu: real, mem: real)
      ensures cpu == LabUse(s.db.rows, Cpu, lab) && mem == LabUse(s.db.rows, Memory, lab)
    {
      var environments := SumOfRows(Cpu, Environment, lab);
      var projects := SumOfRows(Cpu, Project, lab);
      cpu := environments + projects;
      environments := SumOfRows(Memory, Environment, lab);
      projects := SumOfRows(Memory, Project, lab);
      mem := environments + projects;
    }

    /** The accumulating loop over the labs of a host. */
    method CalculateHostAllocated(host: int) returns (cpu: real, mem: real)
      ensures cpu == HostUse(s.db.labs, s.db.rows, Cpu, host) && mem == HostUse(s.db.labs, s.db.rows, Memory, host)
    {
      var labs := s.db.labs;
      cpu, mem := 0.0, 0.0;
      var i := 0;
      while i < |labs|
        invariant 0 <= i <= |labs|
        invariant cpu + HostUse(labs[i..], s.db.rows, Cpu, host) == HostUse(labs, s.db.rows, Cpu, host)
        invariant mem + HostUse(labs[i..], s.db.rows, Memory, host) == HostUse(labs, s.db.rows, Memory, host)
      {
        if labs[i].host == host {
          var labCpu, labMem := CalculateLabAllocated(labs[i].id);
          cpu, mem := cpu + labCpu, mem + labMem;
        }
        assert labs[i..][1..] == labs[i + 1..];
        i := i + 1;
      }
    }

    /** The check-and-raise sequence. What its answer means is stated by RefusalIsExact. */
    method EnforceResourceCapacity(lab: Lab, host: Host, q: Request) returns (refusal: Option<Refusal>)
      ensures refusal == CapacityRefusal(s.db, lab, host, q)
    {
      if Unbounded(host) {
        return None;
      }
      var labCpu, labMem := CalculateLabAllocated(lab.id);
      if !WithinLab(lab, Cpu, q.After(labCpu, Cpu)) {
        return Some(LabCpu);
      }
      if !WithinLab(lab, Memory, q.After(labMem, Memory)) {
        return Some(LabMemory);
      }
      var hostCpu, hostMem := CalculateHostAllocated(lab.host);
      if !WithinHost(host, Cpu, q.After(hostCpu, Cpu)) {
        return Some(HostCpu);
      }
      if !WithinHost(host, Memory, q.After(hostMem, Memory)) {
        return Some(HostMemory);
      }
      return None;
    }

    // -------------------------------------------------------------- scheduling

    /** The head of the sorted candidate list. */
    static method FirstBy(policy: Policy, candidates: seq<Candidate>) returns (k: nat)
      requires candidates != []
      ensures k < |candidates|
      ensures forall i :: 0 <= i < |candidates| ==> Precedes(policy, candidates[k], candidates[i])
    {
      k := 0;
      var i := 1;
      while i < |candidates|
        invariant 0 <= k < i <= |candidates|
        invariant forall j :: 0 <= j < i ==> Precedes(policy, candidates[k], candidates[j])
      {
        if !Precedes(policy, candidates[k], candidates[i]) {
          k := i;
        }
        i := i + 1;
      }
    }

    method SelectTargetLab(policy: Policy, cpu: Option<Amount>, mem: Option<nat>) returns (r: Result<Lab, SelectError>)
      ensures BestLab(s.db, policy, cpu, mem, r)
    {
      var labs := s.db.labs;
      if labs == [] {
        return Err(NoLabs);
      }
      var eligible: seq<Lab> := [];
      var candidates: seq<Candidate> := [];
      var i := 0;
      while i < |labs|
        invariant 0 <= i <= |labs| && |candidates| == |eligible|
        invariant forall l :: l in eligible <==> l in labs[..i] && EligibleLab(s.db, l, cpu, mem)
        invariant forall k :: 0 <= k < |eligible| ==>
          eligible[k].host in s.db.hosts && candidates[k] == LabCandidate(s.db, eligible[k])
      {
        var lab := labs[i];
        assert labs[..i + 1] == labs[..i] + [lab];
        if lab.status != Failed && lab.host in s.db.hosts && s.db.hosts[lab.host].status == Online {
          var host := s.db.hosts[lab.host];
          var refusal := EnforceResourceCapacity(lab, host, Request(cpu, mem, None, None));
          RefusalIsExact(s.db, lab, host, Request(cpu, mem, None, None));
          if refusal.None? {
            var labCpu, labMem := CalculateLabAllocated(lab.id);
            eligible := eligible + [lab];
            candidates := candidates + [Candidate(lab.id, LabScore(lab, host, labCpu, labMem))];
          }
        }
        i := i + 1;
      }
      assert labs[..i] == labs;
      if candidates == [] {
        return Err(NoneEligible);
      }
      var k := FirstBy(policy, candidates);
      assert eligible[k] in eligible;
      return Ok(eligible[k]);
    }

    method SelectTargetHost(policy: Policy, cpu: Option<nat>, mem: Option<nat>) returns (r: Option<int>)
      ensures BestHost(s.db, policy, cpu, mem, r)
    {
      var db := s.db;
      var todo := db.hosts.Keys;
      var candidates: seq<Candidate> := [];
      while todo != {}
        invariant todo <= db.hosts.Keys
        invariant forall k :: 0 <= k < |candidates| ==>
          EligibleHost(db, candidates[k].id, cpu, mem) && candidates[k] == HostCandidate(db, candidates[k].id)
        invariant forall id :: EligibleHost(db, id, cpu, mem) && id !in todo ==>
          exists k :: 0 <= k < |candidates| && candidates[k].id == id
        decreases todo
      {
        var id := Pick(todo);
        ghost var before := candidates;
        var host := db.hosts[id];
        if host.status == Online && host.hasApiKey {
          var hostCpu, hostMem := CalculateHostAllocated(id);
          if Unbounded(host) ||
             (&& WithinHost(host, Cpu, hostCpu + (match cpu case Some(c) => c as real case None => 0.0))
              && WithinHost(host, Memory, hostMem + (match mem case Some(m) => m as real case None => 0.0))) {
            candidates := candidates + [Candidate(id, HostScore(host, hostCpu, hostMem))];
            assert candidates[|before|].id == id;
          }
        }
        assert forall k :: 0 <= k < |before| ==> candidates[k] == before[k];
        todo := todo - {id};
      }
      if candidates == [] {
        return None;
      }
      var k := FirstBy(policy, candidates);
      return Some(candidates[k].id);
    }

    // -------------------------------------------------------------- handlers

    /** The check half of a deployment. A memory text that cannot be read is refused. */
    method BeginDeploy(labId: int, kind: Kind, name: string, cpu: Option<Amount>, limit: Option<string>)
      modifies this
      ensures limit.None? ==> s == Begin(old(s), labId, kind, name, cpu, None)
      ensures limit.Some? && M.ToMiB(limit.value).Ok? ==>
        s == Begin(old(s), labId, kind, name, cpu, Some(M.ToMiB(limit.value).value))
      ensures limit.Some? && M.ToMiB(limit.value).Err? ==> s == old(s)
    {
      var parsed := M.ToOptionalMiB(limit);
      if parsed.Err? {
        return;
      }
      var mem := parsed.value;
      var found := FindLab(s.db.labs, labId);
      if found.None? || found.value.host !in s.db.hosts || found.value.host in s.inFlight {
        return;
      }
      var lab, host := found.value, s.db.hosts[found.value.host];
      var named := Named(s.db.rows, kind, labId, name);
      if |named| > 1 || !host.hasApiKey {
        return;
      }
      var q := RequestFor(host, named, cpu, mem);
      var refusal := EnforceResourceCapacity(lab, host, q);
      RefusalIsExact(s.db, lab, host, q);
      if refusal.None? {
        var replaced := if named == [] then None else Some(named[0].id);
        s := s.(inFlight := s.inFlight[lab.host := Deploy(labId, kind, name, replaced, q.cpu, q.mem)]);
      }
    }

    /** The commit half: the row updates, insertions and deletions after the lab host has answered. */
    method CommitDeploy(host: int, name: string, runtimeId: string)
      modifies this
      ensures s == Commit(old(s), host, name, runtimeId)
    {
      if host !in s.inFlight {
        return;
      }
      var d := s.inFlight[host];
      var taken := if d.kind == Environment then ByRuntimeId(s.db.rows, runtimeId) else [];
      if FindLab(s.db.labs, d.lab).Some? && |taken| <= 1 {
        var target := if taken == [] then d.replaced else Some(taken[0].id);
        if target.None? {
          s := s.(db := s.db.(rows := s.db.rows + [NewRow(d, RowId(d.kind, s.next), name, runtimeId)]));
        } else if HasRow(s.db.rows, target.value) {
          var kept := Without(s.db.rows, target.value);
          if d.replaced.Some? {
            kept := Without(kept, d.replaced.value);
          }
          s := s.(db := s.db.(rows := kept + [NewRow(d, target.value, name, runtimeId)]));
        }
      }
      s := s.(inFlight := s.inFlight - {host}, next := s.next + 1);
    }

    /** A whole serial deployment: the caps that held before it hold after it. */
    method DeploySerially(labId: int, kind: Kind, name: string, cpu: Option<Amount>, limit: Option<string>,
                          runtimeId: string)
      requires IdsInSequence(s) && LabCaps(s) && HostCaps(s) && s.inFlight == map[]
      modifies this
      ensures IdsInSequence(s) && LabCaps(s) && HostCaps(s) && s.inFlight == map[]
      ensures s == old(s) ||
        exists host, mem ::
          && M.ToOptionalMiB(limit) == Ok(mem)
          && s == Commit(Begin(old(s), labId, kind, name, cpu, mem), host, name, runtimeId)
    {
      var parsed := M.ToOptionalMiB(limit);
      if parsed.Err? {
        return;
      }
      ghost var checked := Begin(s, labId, kind, name, cpu, parsed.value);
      BeginKeepsCaps(s, labId, kind, name, cpu, parsed.value);
      BeginDeploy(labId, kind, name, cpu, limit);
      assert s == checked;
      var found := FindLab(s.db.labs, labId);
      if found.Some? && found.value.host in s.inFlight {
        CommitKeepsIds(s, found.value.host, name, runtimeId);
        CommitKeepsLabCaps(s, found.value.host, name, runtimeId);
        CommitKeepsHostCaps(s, found.value.host, name, runtimeId);
        CommitDeploy(found.value.host, name, runtimeId);
        assert s == Commit(checked, found.value.host, name, runtimeId);
      }
    }

    /** Registration looks at nothing that is allocated: it keeps all labs, rows and sums, every lab's
        cap, and the totals of all hosts exactly when it leaves room on its own. */
    method RegisterHost(id: int, h: Host)
      modifies this
      ensures s == State(Database(old(s).db.hosts[id := h], old(s).db.labs, old(s).db.rows), old(s).inFlight,
                         old(s).next)
      ensures IdsInSequence(old(s)) && LabCaps(old(s)) ==> IdsInSequence(s) && LabCaps(s)
      ensures AllWithin(old(s)) ==> (AllWithin(s) <==> HasRoom(old(s), RegisterEvent(id, h)))
    {
      if IdsInSequence(s) && LabCaps(s) { RegisterKeepsCaps(s, id, h); }
      if AllWithin(s) { RegisterWithin(s, id, h); }
      s := s.(db := s.db.(hosts := s.db.hosts[id := h]));
    }

    /** Creating a lab on a given host, with a comparison of its own: the totals against what is used on
        the host and what is asked for. It goes ahead exactly on the hosts the scheduler considers. */
    method CreateLabOn(host: int, cpu: Option<nat>, mem: Option<nat>, status: LabStatus) returns (created: bool)
      modifies this
      ensures created <==> EligibleHost(old(s).db, host, cpu, mem)
      ensures s == CreateLab(old(s), host, cpu, mem, status)
      ensures !created ==> s == old(s)
      ensures created ==>
        var bounded := !Unbounded(old(s).db.hosts[host]);
        && s.db.labs == old(s).db.labs +
          [Lab(old(s).next, host, status, if bounded then cpu else None, if bounded then mem else None)]
        && s.db.rows == old(s).db.rows && s.db.hosts == old(s).db.hosts
        && s.inFlight == old(s).inFlight && s.next == old(s).next + 1
    {
      if host !in s.db.hosts {
        return false;
      }
      var h := s.db.hosts[host];
      if h.status != Online {
        return false;
      }
      if !(h.cpuTotal == 0 && h.memTotal == 0) {
        var hostCpu, hostMem := CalculateHostAllocated(host);
        var cpuAfter := hostCpu + (match cpu case Some(c) => c as real case None => 0.0);
        var memAfter := hostMem + (match mem case Some(m) => m as real case None => 0.0);
        if cpuAfter > h.cpuTotal as real {
          return false;
        }
        if memAfter > h.memTotal as real {
          return false;
        }
      }
      if !h.hasApiKey {
        return false;
      }
      var bounded := !(h.cpuTotal == 0 && h.memTotal == 0);
      var lab := Lab(s.next, host, status, if bounded then cpu else None, if bounded then mem else None);
      s := s.(db := s.db.(labs := s.db.labs + [lab]), next := s.next + 1);
      return true;
    }

    /** The row deletions of the delete handlers and of the reconciler. */
    method DeleteRowById(id: RowId)
      modifies this
      ensures s == DeleteRow(old(s), id)
      ensures forall q :: q in s.db.rows <==> q in old(s).db.rows && q.id != id
    {
      s := s.(db := s.db.(rows := Without(s.db.rows, id)));
    }

    /** The deletions by lab: nothing of the lab is left, everything else is, and its host has the lab's
        use back. */
    method DeleteLabRows(lab: Lab)
      requires lab in s.db.labs
      modifies this
      ensures s == DeleteLab(old(s), lab.id)
      ensures forall l :: l in s.db.labs <==> l in old(s).db.labs && l.id != lab.id
      ensures forall row :: row in s.db.rows <==> row in old(s).db.rows && row.lab != lab.id
      ensures UniqueLabIds(old(s).db.labs) ==>
        forall r ::
          HostUse(s.db.labs, s.db.rows, r, lab.host) ==
          HostUse(old(s).db.labs, old(s).db.rows, r, lab.host) - LabUse(old(s).db.rows, r, lab.id)
    {
      if UniqueLabIds(s.db.labs) { forall r { DeletedLabFreesItsUse(s.db.labs, s.db.rows, lab, r, lab.host); } }
      s := s.(db := s.db.(rows := WithoutLabRows(s.db.rows, lab.id)));
      s := s.(db := s.db.(labs := WithoutLab(s.db.labs, lab.id)));
    }
  }
}

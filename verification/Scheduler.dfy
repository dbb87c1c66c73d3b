/** Choosing a lab for a deployment and a host for a lab. */
module Scheduler {
  import opened Wrappers
  import opened Tables
  import opened DeployRuns
  import opened Charges

  datatype Policy = FirstFit | LeastAllocated

  datatype SelectError = NoLabs | NoneEligible

  // ---------------------------------------------------------------- scores

  function Max(a: real, b: real): real { if a < b then b else a }

  /** A capacity of zero counts as full. */
  function Ratio(used: real, capacity: nat): real
  {
    if capacity > 0 then used / (capacity as real) else 1.0
  }

  /** What a lab's use of a resource is measured against: its own limit, or the host's total. */
  function Capacity(l: Lab, h: Host, r: Resource): nat
  {
    match LabLimit(l, r) case Some(limit) => limit case None => HostTotal(h, r)
  }

  function LabScore(l: Lab, h: Host, cpu: real, mem: real): real
  {
    if Unbounded(h) then 0.0 else Max(Ratio(cpu, Capacity(l, h, Cpu)), Ratio(mem, Capacity(l, h, Memory)))
  }

  function HostScore(h: Host, cpu: real, mem: real): real
  {
    if Unbounded(h) then 0.0 else Max(Ratio(cpu, h.cpuTotal), Ratio(mem, h.memTotal))
  }

  datatype Candidate = Candidate(id: int, score: real)

  /** The order in which the policy ranks candidates. */
  predicate Precedes(policy: Policy, a: Candidate, b: Candidate)
  {
    match policy
    case FirstFit => a.id <= b.id
    case LeastAllocated => a.score < b.score || (a.score == b.score && a.id <= b.id)
  }

  // ---------------------------------------------------------------- eligibility

  predicate EligibleLab(db: Database, l: Lab, cpu: Option<Amount>, mem: Option<nat>)
  {
    && l.status != Failed
    && l.host in db.hosts && db.hosts[l.host].status == Online
    && Admitted(db, l, db.hosts[l.host], Request(cpu, mem, None, None))
  }

  function LabCandidate(db: Database, l: Lab): Candidate
    requires l.host in db.hosts
  {
    Candidate(l.id, LabScore(l, db.hosts[l.host], LabUse(db.rows, Cpu, l.id), LabUse(db.rows, Memory, l.id)))
  }

  predicate EligibleHost(db: Database, id: int, cpu: Option<nat>, mem: Option<nat>)
  {
    && id in db.hosts && db.hosts[id].status == Online && db.hosts[id].hasApiKey
    && CanHostLab(db, id, db.hosts[id], cpu, mem)
  }

  function HostCandidate(db: Database, id: int): Candidate
    requires id in db.hosts
  {
    Candidate(id, HostScore(db.hosts[id], HostUse(db.labs, db.rows, Cpu, id), HostUse(db.labs, db.rows, Memory, id)))
  }

  /** The scheduler's promise for labs: an eligible lab that no eligible lab precedes; "no labs" and
      "none eligible" exactly when that is the case. */
  ghost predicate BestLab(db: Database, policy: Policy, cpu: Option<Amount>, mem: Option<nat>,
                          r: Result<Lab, SelectError>)
  {
    && (r == Err(NoLabs) <==> db.labs == [])
    && (r == Err(NoneEligible) <==> db.labs != [] && forall l :: l in db.labs ==> !EligibleLab(db, l, cpu, mem))
    && (r.Ok? ==> r.value in db.labs && EligibleLab(db, r.value, cpu, mem))
    && (r.Ok? ==> forall l :: l in db.labs && EligibleLab(db, l, cpu, mem) ==>
          Precedes(policy, LabCandidate(db, r.value), LabCandidate(db, l)))
  }

  /** The same for hosts. */
  ghost predicate BestHost(db: Database, policy: Policy, cpu: Option<nat>, mem: Option<nat>, r: Option<int>)
  {
    && (r.None? <==> forall id :: !EligibleHost(db, id, cpu, mem))
    && (r.Some? ==> EligibleHost(db, r.value, cpu, mem))
    && (r.Some? ==> forall id :: EligibleHost(db, id, cpu, mem) ==>
          Precedes(policy, HostCandidate(db, r.value), HostCandidate(db, id)))
  }

  // ---------------------------------------------------------------- what scheduling guarantees

  /** In plain words: first fit takes the eligible lab with the lowest id, least allocated one with the
      lowest score and, among those, the lowest id. */
  lemma ChosenLabIsLeast(db: Database, policy: Policy, cpu: Option<Amount>, mem: Option<nat>, l: Lab, m: Lab)
    requires BestLab(db, policy, cpu, mem, Ok(l)) && m in db.labs && EligibleLab(db, m, cpu, mem)
    ensures policy == FirstFit ==> l.id <= m.id
    ensures policy == LeastAllocated ==> LabCandidate(db, l).score <= LabCandidate(db, m).score
    ensures policy == LeastAllocated && LabCandidate(db, l).score == LabCandidate(db, m).score ==> l.id <= m.id
  {
    assert Precedes(policy, LabCandidate(db, l), LabCandidate(db, m));
  }

  lemma ChosenHostIsLeast(db: Database, policy: Policy, cpu: Option<nat>, mem: Option<nat>, h: int, k: int)
    requires BestHost(db, policy, cpu, mem, Some(h)) && EligibleHost(db, k, cpu, mem)
    ensures policy == FirstFit ==> h <= k
    ensures policy == LeastAllocated ==> HostCandidate(db, h).score <= HostCandidate(db, k).score
    ensures policy == LeastAllocated && HostCandidate(db, h).score == HostCandidate(db, k).score ==> h <= k
  {
    assert Precedes(policy, HostCandidate(db, h), HostCandidate(db, k));
  }

  /** The answer is determined: labs have unique ids, so no two candidates tie. */
  lemma BestLabIsUnique(db: Database, policy: Policy, cpu: Option<Amount>, mem: Option<nat>,
                        a: Result<Lab, SelectError>, b: Result<Lab, SelectError>)
    requires UniqueLabIds(db.labs)
    requires BestLab(db, policy, cpu, mem, a) && BestLab(db, policy, cpu, mem, b)
    ensures a == b
  {
    match (a, b)
    case (Ok(l), Ok(m)) =>
      assert Precedes(policy, LabCandidate(db, l), LabCandidate(db, m));
      assert Precedes(policy, LabCandidate(db, m), LabCandidate(db, l));
      UniqueMeansSame(db.labs, l);
    case (Err(x), Err(y)) =>
      OneOfTwo(x);
      OneOfTwo(y);
    case (Ok(l), Err(y)) => OneOfTwo(y);
    case (Err(x), Ok(m)) => OneOfTwo(x);
  }

  /** Hosts have unique ids as well. */
  lemma BestHostIsUnique(db: Database, policy: Policy, cpu: Option<nat>, mem: Option<nat>, a: Option<int>,
                         b: Option<int>)
    requires BestHost(db, policy, cpu, mem, a) && BestHost(db, policy, cpu, mem, b)
    ensures a == b
  {
    if a.Some? && b.Some? {
      assert Precedes(policy, HostCandidate(db, a.value), HostCandidate(db, b.value));
      assert Precedes(policy, HostCandidate(db, b.value), HostCandidate(db, a.value));
    }
  }

  lemma OneOfTwo(e: SelectError)
    ensures e == NoLabs || e == NoneEligible
  {
  }

  lemma QuotientInUnit(a: real, b: real)
    requires 0.0 <= a <= b && 0.0 < b
    ensures 0.0 <= a / b <= 1.0
  {
    var q := a / b;
    assert q * b == a;
    assert (1.0 - q) * b == b - a;
  }

  lemma RatioInUnit(used: real, capacity: nat)
    requires 0.0 <= used <= capacity as real
    ensures 0.0 <= Ratio(used, capacity) <= 1.0
  {
    if capacity > 0 {
      QuotientInUnit(used, capacity as real);
    }
  }

  lemma LabFitsItsCapacity(db: Database, l: Lab, h: Host, cpu: Option<Amount>, mem: Option<nat>, r: Resource)
    requires l in db.labs && Fits(db, l, h, Request(cpu, mem, None, None), r)
    ensures 0.0 <= LabUse(db.rows, r, l.id) <= Capacity(l, h, r) as real
  {
    LabUseIsNonNegative(db.rows, r, l.id);
    LabUseAtMostHostUse(db.labs, db.rows, r, l);
  }

  lemma QuotientAtMost(a: real, b: real, t: real)
    requires 0.0 < b
    ensures a / b <= t <==> a <= t * b
  {
    var q := a / b;
    assert q * b == a;
    assert (t - q) * b == t * b - a;
  }

  /** A share of a capacity that covers some use. No share below one of a capacity of zero covers any. */
  predicate Covers(share: real, use: real, capacity: nat)
  {
    if capacity == 0 then 1.0 <= share else use <= share * capacity as real
  }

  lemma RatioCovers(use: real, capacity: nat, share: real)
    ensures Ratio(use, capacity) <= share <==> Covers(share, use, capacity)
  {
    if capacity > 0 { QuotientAtMost(use, capacity as real, share); }
  }

  /** A lab's score is zero on an unbounded host. Elsewhere it is the load of the scarcer resource: the
      least share that covers the cores and the MiB that the lab's rows use, of the lab's own limits or,
      where it has none, of the host's totals. */
  lemma LabScoreIsTheScarcerLoad(db: Database, l: Lab, share: real)
    requires l.host in db.hosts
    ensures var h := db.hosts[l.host];
      && LabCandidate(db, l).id == l.id
      && if h.cpuTotal == 0 && h.memTotal == 0 then LabCandidate(db, l).score == 0.0 else
         (LabCandidate(db, l).score <= share <==>
          && Covers(share, LabUse(db.rows, Cpu, l.id), if l.cpuLimit.Some? then l.cpuLimit.value else h.cpuTotal)
          && Covers(share, LabUse(db.rows, Memory, l.id), if l.memLimit.Some? then l.memLimit.value else h.memTotal))
  {
    var h := db.hosts[l.host];
    RatioCovers(LabUse(db.rows, Cpu, l.id), Capacity(l, h, Cpu), share);
    RatioCovers(LabUse(db.rows, Memory, l.id), Capacity(l, h, Memory), share);
  }

  /** The same for a host, whose score is the load of its own totals. */
  lemma HostScoreIsTheScarcerLoad(db: Database, id: int, share: real)
    requires id in db.hosts
    ensures var h := db.hosts[id];
      && HostCandidate(db, id).id == id
      && if h.cpuTotal == 0 && h.memTotal == 0 then HostCandidate(db, id).score == 0.0 else
         (HostCandidate(db, id).score <= share <==>
          && Covers(share, HostUse(db.labs, db.rows, Cpu, id), h.cpuTotal)
          && Covers(share, HostUse(db.labs, db.rows, Memory, id), h.memTotal))
  {
    var h := db.hosts[id];
    RatioCovers(HostUse(db.labs, db.rows, Cpu, id), h.cpuTotal, share);
    RatioCovers(HostUse(db.labs, db.rows, Memory, id), h.memTotal, share);
  }

  /** The labs that are considered: those not failed, on an online host that is unbounded or has room for
      the request within the lab's limits and its own totals. */
  lemma LabIsEligibleExactly(db: Database, l: Lab, cpu: Option<Amount>, mem: Option<nat>)
    ensures EligibleLab(db, l, cpu, mem) <==>
      && (l.status == LabStatus.Running || l.status == LabStatus.Stopped)
      && l.host in db.hosts && db.hosts[l.host].status == Online
      && var h := db.hosts[l.host];
         || (h.cpuTotal == 0 && h.memTotal == 0)
         || (&& (l.cpuLimit.Some? ==> LabUse(db.rows, Cpu, l.id) + Cores(cpu) <= l.cpuLimit.value as real)
             && (l.memLimit.Some? ==> LabUse(db.rows, Memory, l.id) + Whole(mem) <= l.memLimit.value as real)
             && HostUse(db.labs, db.rows, Cpu, l.host) + Cores(cpu) <= h.cpuTotal as real
             && HostUse(db.labs, db.rows, Memory, l.host) + Whole(mem) <= h.memTotal as real)
  {
    if l.host in db.hosts { AdmittedExactly(db, l, db.hosts[l.host], Request(cpu, mem, None, None)); }
  }

  /** The hosts that are considered: those online and with a key, unbounded or with room for the limits
      asked for beside what their rows use. */
  lemma HostIsEligibleExactly(db: Database, id: int, cpu: Option<nat>, mem: Option<nat>)
    ensures EligibleHost(db, id, cpu, mem) <==>
      && id in db.hosts && db.hosts[id].status == Online && db.hosts[id].hasApiKey
      && var h := db.hosts[id];
         || (h.cpuTotal == 0 && h.memTotal == 0)
         || (&& HostUse(db.labs, db.rows, Cpu, id) + Whole(cpu) <= h.cpuTotal as real
             && HostUse(db.labs, db.rows, Memory, id) + Whole(mem) <= h.memTotal as real)
  {
    if id in db.hosts { LabIsHostedExactly(db, id, db.hosts[id], cpu, mem); }
  }

  /** Every lab that is scored has a score between 0 and 1. */
  lemma LabScoreInUnit(db: Database, l: Lab, cpu: Option<Amount>, mem: Option<nat>)
    requires l in db.labs && EligibleLab(db, l, cpu, mem)
    ensures 0.0 <= LabCandidate(db, l).score <= 1.0
  {
    var h := db.hosts[l.host];
    if !Unbounded(h) {
      LabFitsItsCapacity(db, l, h, cpu, mem, Cpu);
      LabFitsItsCapacity(db, l, h, cpu, mem, Memory);
      RatioInUnit(LabUse(db.rows, Cpu, l.id), Capacity(l, h, Cpu));
      RatioInUnit(LabUse(db.rows, Memory, l.id), Capacity(l, h, Memory));
    }
  }

  lemma HostScoreInUnit(db: Database, id: int, cpu: Option<nat>, mem: Option<nat>)
    requires EligibleHost(db, id, cpu, mem)
    ensures 0.0 <= HostCandidate(db, id).score <= 1.0
  {
    var h := db.hosts[id];
    if !Unbounded(h) {
      HostUseIsNonNegative(db.labs, db.rows, Cpu, id);
      HostUseIsNonNegative(db.labs, db.rows, Memory, id);
      RatioInUnit(HostUse(db.labs, db.rows, Cpu, id), h.cpuTotal);
      RatioInUnit(HostUse(db.labs, db.rows, Memory, id), h.memTotal);
    }
  }

  /** The capacity check inside the deployment never refuses the lab the scheduler has just chosen,
      whether or not a row of that name is being replaced. */
  lemma SecondCheckPasses(db: Database, l: Lab, cpu: Option<Amount>, mem: Option<nat>, named: seq<Row>)
    requires l in db.labs && EligibleLab(db, l, cpu, mem)
    ensures CapacityRefusal(db, l, db.hosts[l.host], RequestFor(db.hosts[l.host], named, cpu, mem)).None?
  {
    var h := db.hosts[l.host];
    if !Unbounded(h) {
      forall r: Resource
        ensures Fits(db, l, h, RequestFor(h, named, cpu, mem), r)
      {
        assert Fits(db, l, h, Request(cpu, mem, None, None), r);
        if named != [] { ChargeIsNonNegative(named[0], r); }
      }
    }
  }

  /** So a scheduled deployment gets in flight whenever its host has a key, is not busy with another
      deployment, and the name is not ambiguous. */
  lemma ScheduledDeployBegins(s: State, policy: Policy, kind: Kind, name: string,
                              cpu: Option<Amount>, mem: Option<nat>, r: Result<Lab, SelectError>)
    requires IdsInSequence(s) && BestLab(s.db, policy, cpu, mem, r) && r.Ok?
    requires s.db.hosts[r.value.host].hasApiKey && r.value.host !in s.inFlight
    requires |Named(s.db.rows, kind, r.value.id, name)| <= 1
    ensures r.value.host in Begin(s, r.value.id, kind, name, cpu, mem).inFlight
  {
    var l := r.value;
    var named := Named(s.db.rows, kind, l.id, name);
    UniqueMeansSame(s.db.labs, l);
    SecondCheckPasses(s.db, l, cpu, mem, named);
    RefusalIsExact(s.db, l, s.db.hosts[l.host], RequestFor(s.db.hosts[l.host], named, cpu, mem));
  }
}

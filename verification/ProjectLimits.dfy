/** The lab host's division of a project's limits over its containers, compared with what the control
    plane charges for them. */
module ProjectLimits {
  import opened Wrappers
  import opened Tables
  import M = MemoryLimits

  const CPU_PERIOD: nat := 100000

  // ---------------------------------------------------------------- shares

  /** The i-th of n shares: the quotient, and one more for the first `total % n` containers. */
  function Share(total: nat, n: nat, i: nat): nat
    requires n > 0
  {
    total / n + (if i < total % n then 1 else 0)
  }

  function Shares(total: nat, n: nat): (r: seq<nat>)
    requires n > 0
    ensures |r| == n
  {
    seq(n, i requires 0 <= i < n => Share(total, n, i))
  }

  function SumNat(s: seq<nat>): nat
  {
    if s == [] then 0 else SumNat(s[..|s| - 1]) + s[|s| - 1]
  }

  lemma {:induction false} SumOfFirstShares(total: nat, n: nat, k: nat)
    requires n > 0 && k <= n
    ensures SumNat(Shares(total, n)[..k]) == k * (total / n) + (if k < total % n then k else total % n)
    decreases k
  {
    if k > 0 {
      SumOfFirstShares(total, n, k - 1);
      assert Shares(total, n)[..k][..k - 1] == Shares(total, n)[..k - 1];
      assert k * (total / n) == (k - 1) * (total / n) + total / n;
    }
  }

  /** Conservation: the shares add up to the total exactly. */
  lemma SharesConserve(total: nat, n: nat)
    requires n > 0
    ensures SumNat(Shares(total, n)) == total
  {
    SumOfFirstShares(total, n, n);
    assert Shares(total, n)[..n] == Shares(total, n);
    assert total == n * (total / n) + total % n;
  }

  /** Fairness: no container is left without, no two differ by more than one, earlier ones first. */
  lemma SharesAreFair(total: nat, n: nat, i: nat, j: nat)
    requires 0 < n <= total && i <= j < n
    ensures Shares(total, n)[j] >= 1
    ensures Shares(total, n)[j] <= Shares(total, n)[i] <= Shares(total, n)[j] + 1
  {
    QuotientPositive(total, n);
  }

  lemma QuotientPositive(total: nat, n: nat)
    requires 0 < n <= total
    ensures total / n >= 1
  {
  }

  /** Only this division is fair and conserving in index order. */
  lemma {:induction false} SharesAreTheOnlyFairDivision(total: nat, n: nat, s: seq<nat>)
    requires n > 0 && |s| == n && SumNat(s) == total
    requires forall i, j :: 0 <= i <= j < n ==> s[j] <= s[i] <= s[j] + 1
    ensures s == Shares(total, n)
  {
    var low := s[n - 1];
    var high := FirstAtLow(s, low);
    SumOfTwoLevels(s, n, low, high);
    assert s[..n] == s;
    assert total == n * low + high;
    QuotientIsUnique(total, n, low, high);
  }

  lemma QuotientIsUnique(total: nat, n: nat, q: nat, r: nat)
    requires r < n && total == n * q + r
    ensures total / n == q && total % n == r
  {
    var q', r' := total / n, total % n;
    assert total == n * q' + r';
    assert n * (q' - q) == n * q' - n * q == r - r';
    MultiplesAreFarApart(n, q' - q);
  }

  lemma MultiplesAreFarApart(n: nat, d: int)
    ensures d >= 1 ==> n * d >= n
    ensures d <= -1 ==> n * d <= 0 - n
  {
    if d >= 1 {
      assert n * d == n + n * (d - 1);
    }
    if d <= -1 {
      assert n * d == n * (d + 1) - n;
    }
  }

  /** Where a non-increasing sequence of spread one drops to its last value. */
  lemma FirstAtLow(s: seq<nat>, low: nat) returns (k: nat)
    requires s != [] && low == s[|s| - 1]
    requires forall i, j :: 0 <= i <= j < |s| ==> s[j] <= s[i] <= s[j] + 1
    ensures k < |s|
    ensures forall i :: 0 <= i < k ==> s[i] == low + 1
    ensures forall i :: k <= i < |s| ==> s[i] == low
  {
    k := 0;
    while s[k] != low
      invariant k < |s|
      invariant forall i :: 0 <= i < k ==> s[i] == low + 1
      decreases |s| - k
    {
      k := k + 1;
    }
    assert forall i :: k <= i < |s| ==> s[|s| - 1] <= s[i] <= s[k];
  }

  lemma {:induction false} SumOfTwoLevels(s: seq<nat>, n: nat, low: nat, k: nat)
    requires n <= |s|
    requires forall i :: 0 <= i < |s| ==> s[i] == if i < k then low + 1 else low
    ensures SumNat(s[..n]) == n * low + (if n < k then n else k)
    decreases n
  {
    if n > 0 {
      SumOfTwoLevels(s, n - 1, low, k);
      assert s[..n][..n - 1] == s[..n - 1];
      assert n * low == (n - 1) * low + low;
    }
  }

  // ---------------------------------------------------------------- applying the limits

  datatype ApplyError = CpuTooLow | MemoryTooLow | BadMemory(error: M.LimitError)

  class ProjectContainer {
    var cpuQuota: Option<nat>
    var memLimit: Option<nat>
  }

  function CpuQuota(cpu: Amount): nat
  {
    (cpu * CPU_PERIOD as real).Floor
  }

  /** What each of n containers is to receive, when there is a limit. */
  function CpuPlan(cpu: Option<Amount>, n: nat): (r: Result<Option<seq<nat>>, ApplyError>)
    requires n > 0
    ensures r.Ok? && r.value.Some? ==> |r.value.value| == n
  {
    match cpu
    case None => Ok(None)
    case Some(c) => if CpuQuota(c) < n then Err(CpuTooLow) else Ok(Some(Shares(CpuQuota(c), n)))
  }

  function MemoryPlan(memory: Option<string>, n: nat): (r: Result<Option<seq<nat>>, ApplyError>)
    requires n > 0
    ensures r.Ok? && r.value.Some? ==> |r.value.value| == n
  {
    match memory
    case None => Ok(None)
    case Some(text) =>
      match M.ToBytes(text)
      case Err(e) => Err(BadMemory(e))
      case Ok(bytes) => if bytes < n then Err(MemoryTooLow) else Ok(Some(Shares(bytes, n)))
  }

  /** The update loop over a project's containers. */
  method UpdateContainers(containers: seq<ProjectContainer>, cpus: Option<seq<nat>>, mems: Option<seq<nat>>)
    requires forall i, j :: 0 <= i < j < |containers| ==> containers[i] != containers[j]
    requires cpus.Some? ==> |cpus.value| == |containers|
    requires mems.Some? ==> |mems.value| == |containers|
    modifies containers
    ensures forall i :: 0 <= i < |containers| ==>
      containers[i].cpuQuota == if cpus.Some? then Some(cpus.value[i]) else old(containers[i].cpuQuota)
    ensures forall i :: 0 <= i < |containers| ==>
      containers[i].memLimit == if mems.Some? then Some(mems.value[i]) else old(containers[i].memLimit)
  {
    var i := 0;
    while i < |containers|
      invariant 0 <= i <= |containers|
      invariant forall j :: 0 <= j < i ==>
        containers[j].cpuQuota == if cpus.Some? then Some(cpus.value[j]) else old(containers[j].cpuQuota)
      invariant forall j :: 0 <= j < i ==>
        containers[j].memLimit == if mems.Some? then Some(mems.value[j]) else old(containers[j].memLimit)
      invariant forall j :: i <= j < |containers| ==> containers[j].cpuQuota == old(containers[j].cpuQuota)
      invariant forall j :: i <= j < |containers| ==> containers[j].memLimit == old(containers[j].memLimit)
    {
      var container := containers[i];
      if cpus.Some? {
        container.cpuQuota := Some(cpus.value[i]);
      }
      if mems.Some? {
        container.memLimit := Some(mems.value[i]);
      }
      i := i + 1;
    }
  }

  /** Both limits are checked before the first update, so a refusal changes no container; a project
      without containers is not checked at all. */
  method ApplyProjectLimits(containers: seq<ProjectContainer>, cpu: Option<Amount>, memory: Option<string>)
    returns (refusal: Option<ApplyError>)
    requires forall i, j :: 0 <= i < j < |containers| ==> containers[i] != containers[j]
    modifies containers
    ensures containers == [] ==> refusal.None?
    ensures refusal.Some? ==> forall c :: c in containers ==> unchanged(c)
    ensures containers != [] ==>
      (refusal == Some(CpuTooLow) <==> cpu.Some? && (cpu.value * 100000.0).Floor < |containers|)
    ensures containers != [] && refusal != Some(CpuTooLow) ==>
      && (forall e :: refusal == Some(BadMemory(e)) <==> memory.Some? && M.ToBytes(memory.value) == Err(e))
      && (refusal == Some(MemoryTooLow) <==>
          memory.Some? && M.ToBytes(memory.value).Ok? && M.ToBytes(memory.value).value < |containers|)
    ensures refusal.None? ==> forall i :: 0 <= i < |containers| ==>
      containers[i].cpuQuota ==
      if cpu.None? then old(containers[i].cpuQuota) else
      Some(Share((cpu.value * 100000.0).Floor, |containers|, i))
    ensures containers != [] && refusal.None? && memory.Some? ==> M.ToBytes(memory.value).Ok?
    ensures refusal.None? ==> forall i :: 0 <= i < |containers| ==>
      containers[i].memLimit ==
      if memory.None? then old(containers[i].memLimit) else
      Some(Share(M.ToBytes(memory.value).value, |containers|, i))
  {
    if (cpu.None? && memory.None?) || containers == [] {
      return None;
    }
    var cpus := CpuPlan(cpu, |containers|);
    if cpus.Err? {
      return Some(cpus.error);
    }
    var mems := MemoryPlan(memory, |containers|);
    if mems.Err? {
      return Some(mems.error);
    }
    UpdateContainers(containers, cpus.value, mems.value);
    return None;
  }

  /** A CPU limit is applied exactly when it gives every container at least one unit of quota. */
  lemma CpuLimitIsAppliedWhenEnough(cpu: Amount, n: nat)
    requires n > 0
    ensures CpuPlan(Some(cpu), n).Ok? <==> cpu * 100000.0 >= n as real
  {
    var x := cpu * CPU_PERIOD as real;
    assert x.Floor as real <= x < (x.Floor + 1) as real;
    if x.Floor < n {
      assert (x.Floor + 1) as real <= n as real;
    }
  }

  /** The CPU quotas of a project add up to its limit, short of it by less than one unit. */
  lemma CpuSharesMatchLimit(cpu: Amount, n: nat)
    requires n > 0 && CpuPlan(Some(cpu), n).Ok?
    ensures var total := SumNat(CpuPlan(Some(cpu), n).value.value);
      cpu * 100000.0 - 1.0 < total as real <= cpu * 100000.0
  {
    SharesConserve(CpuQuota(cpu), n);
  }

  /** For a project the control plane has charged with mb MiB, the per-container limits, if they are
      applied at all, add up to at least mb MiB and less than one MiB more. */
  lemma MemorySharesMatchCharge(text: string, mb: nat, n: nat)
    requires n > 0 && M.ToMiB(text) == Ok(mb)
    ensures MemoryPlan(Some(text), n).Ok? <==> n <= M.ToBytes(text).value
    ensures MemoryPlan(Some(text), n).Ok? ==>
      mb * 1048576 <= SumNat(MemoryPlan(Some(text), n).value.value) < (mb + 1) * 1048576
  {
    M.ChargedIsEnforceable(text);
    var bytes := M.ToBytes(text).value;
    if n <= bytes { SharesConserve(bytes, n); }
  }

  /** Up to a million containers the limits of a charged project are always applied. */
  lemma ChargedLimitsAreApplied(text: string, n: nat)
    requires 0 < n <= 1048576 && M.ToMiB(text).Ok?
    ensures MemoryPlan(Some(text), n).Ok?
  {
    M.ChargedIsEnforceable(text);
    OneMiBAtLeast(M.ToMiB(text).value);
    M.ReadingsAgree(M.Read(text).value.0, M.Read(text).value.1);
  }

  lemma OneMiBAtLeast(mb: nat)
    ensures mb >= 1 ==> mb * M.MIB >= M.MIB
  {
  }
}

/** The host-port allocator of the lab host: linear probing without wraparound, run greedily over
    a list of requests that shares one growing set of used ports. */
module PortAllocator {
  import opened Wrappers

  const MAX_PORT := 65535

  function Max(a: int, b: int): int { if a < b then b else a }

  // ---------------------------------------------------------------- probing one port

  /** The first free port at or above `port`, if there is one up to MAX_PORT. */
  function NextFree(port: int, used: set<int>): (r: Option<int>)
    ensures r.Some? ==> port <= r.value <= 65535 && r.value !in used
    ensures r.Some? ==> forall q :: port <= q < r.value ==> q in used
    ensures r.None? ==> forall q :: port <= q <= 65535 ==> q in used
    decreases MAX_PORT - port
  {
    if port > MAX_PORT then None
    else if port in used then NextFree(port + 1, used)
    else Some(port)
  }

  /** The probing loop. It finds the first free port from `start`, or from 1 if that is higher, and fails
      exactly when there is none up to 65535. */
  method NextAvailableHostPort(start: int, used: set<int>) returns (r: Option<int>)
    ensures r.Some? ==> 1 <= r.value <= 65535 && start <= r.value && r.value !in used
    ensures r.Some? ==> forall q :: 1 <= q < r.value && start <= q ==> q in used
    ensures r.None? <==> forall q :: 1 <= q <= 65535 && start <= q ==> q in used
    ensures r == NextFree(Max(1, start), used)
  {
    var port := Max(1, start);
    while port in used && port <= MAX_PORT
      invariant Max(1, start) <= port
      invariant forall q :: Max(1, start) <= q < port ==> q in used
      invariant NextFree(port, used) == NextFree(Max(1, start), used)
      decreases MAX_PORT - port
    {
      port := port + 1;
    }
    if port > MAX_PORT {
      return None;
    }
    return Some(port);
  }

  /** What one request receives: the desired port itself when free, whatever its value, and
      otherwise the next free port of the legal range. */
  function Assign(desired: int, used: set<int>): (r: Option<int>)
    ensures r.Some? ==> r.value !in used
    ensures desired !in used ==> r == Some(desired)
    ensures desired in used && r.Some? ==> 1 <= r.value <= 65535 && desired <= r.value
    ensures desired in used && r.Some? ==> forall q :: 1 <= q < r.value && desired <= q ==> q in used
    ensures r.None? <==> desired in used && forall q :: 1 <= q <= 65535 && desired <= q ==> q in used
  {
    if desired in used then NextFree(Max(1, desired), used) else Some(desired)
  }

  // ---------------------------------------------------------------- the greedy process

  /** The ports received, in request order, by a list of requests that share one set of used ports. */
  function Park(used: set<int>, requests: seq<int>): (r: Option<seq<int>>)
    ensures r.Some? ==> |r.value| == |requests|
    decreases requests
  {
    if requests == [] then Some([]) else
    match Assign(requests[0], used)
    case None => None
    case Some(p) =>
      match Park(used + {p}, requests[1..])
      case None => None
      case Some(rest) => Some([p] + rest)
  }

  function Elements(s: seq<int>): set<int> { set x | x in s }

  predicate Distinct(s: seq<int>)
  {
    forall i, j :: 0 <= i < j < |s| ==> s[i] != s[j]
  }

  predicate InRange(s: seq<int>)
  {
    forall i :: 0 <= i < |s| ==> 1 <= s[i] <= 65535
  }

  /** Request i keeps its desired port when no earlier request and no old binding holds it, and
      otherwise gets the least port of the legal range at or above it that nobody holds yet. */
  ghost predicate GreedyAt(used: set<int>, requests: seq<int>, placed: seq<int>, i: int)
    requires |placed| == |requests| && 0 <= i < |requests|
  {
    var taken := used + Elements(placed[..i]);
    && placed[i] !in taken
    && (requests[i] !in taken ==> placed[i] == requests[i])
    && (requests[i] in taken ==>
          && 1 <= placed[i] <= 65535 && requests[i] <= placed[i]
          && forall q :: 1 <= q < placed[i] && requests[i] <= q ==> q in taken)
  }

  lemma {:induction false} ParkIsGreedy(used: set<int>, requests: seq<int>)
    requires Park(used, requests).Some?
    ensures forall i :: 0 <= i < |requests| ==> GreedyAt(used, requests, Park(used, requests).value, i)
    decreases requests
  {
    var placed := Park(used, requests).value;
    if requests != [] {
      var p := placed[0];
      var rest := Park(used + {p}, requests[1..]).value;
      ParkIsGreedy(used + {p}, requests[1..]);
      forall i | 0 <= i < |requests|
        ensures GreedyAt(used, requests, placed, i)
      {
        if i > 0 {
          assert GreedyAt(used + {p}, requests[1..], rest, i - 1);
          assert placed[..i] == [p] + rest[..i - 1];
          assert used + Elements(placed[..i]) == used + {p} + Elements(rest[..i - 1]);
        }
      }
    }
  }

  /** No two requests receive one port, and nobody receives a port that was in use before. */
  lemma {:induction false} ParkIsInjective(used: set<int>, requests: seq<int>)
    requires Park(used, requests).Some?
    ensures Distinct(Park(used, requests).value)
    ensures Elements(Park(used, requests).value) !! used
    decreases requests
  {
    if requests != [] {
      var p := Assign(requests[0], used).value;
      ParkIsInjective(used + {p}, requests[1..]);
      var rest := Park(used + {p}, requests[1..]).value;
      assert forall i :: 0 <= i < |rest| ==> rest[i] in Elements(rest);
      assert Elements([p] + rest) == {p} + Elements(rest);
    }
  }

  lemma {:induction false} ParkStaysInRange(used: set<int>, requests: seq<int>)
    requires InRange(requests) && Park(used, requests).Some?
    ensures InRange(Park(used, requests).value)
    ensures forall i :: 0 <= i < |requests| ==> requests[i] <= Park(used, requests).value[i]
    decreases requests
  {
    if requests != [] {
      var p := Assign(requests[0], used).value;
      ParkStaysInRange(used + {p}, requests[1..]);
      var rest := Park(used + {p}, requests[1..]).value;
      forall i | 0 <= i < |requests|
        ensures requests[i] <= ([p] + rest)[i] <= MAX_PORT
      {
        if i > 0 { assert requests[i] == requests[1..][i - 1]; }
      }
    }
  }

  // ---------------------------------------------------------------- order independence

  /** Two runs have the same outcome: both fail, or both succeed with the same ports overall. */
  predicate SameOutcome(a: Option<seq<int>>, b: Option<seq<int>>)
  {
    match (a, b)
    case (None, None) => true
    case (Some(x), Some(y)) => multiset(x) == multiset(y)
    case _ => false
  }

  lemma NextFreeAfterTaking(port: int, used: set<int>, p: int)
    ensures NextFree(port, used) != Some(p) ==> NextFree(port, used + {p}) == NextFree(port, used)
    ensures NextFree(port, used) == Some(p) ==> NextFree(port, used + {p}) == NextFree(p + 1, used)
    decreases MAX_PORT - port
  {
    if port > MAX_PORT {
    } else if port in used {
      NextFreeAfterTaking(port + 1, used, p);
    } else if port == p {
      NextFreeAbove(port + 1, used, p);
    }
  }

  lemma NextFreeAbove(port: int, used: set<int>, p: int)
    requires p < port
    ensures NextFree(port, used + {p}) == NextFree(port, used)
    decreases MAX_PORT - port
  {
    if port <= MAX_PORT { NextFreeAbove(port + 1, used, p); }
  }

  lemma AssignTwo(used: set<int>, a: int, b: int)
    ensures Assign(a, used).None? && Assign(b, used).Some? ==>
      Assign(a, used + {Assign(b, used).value}).None?
    ensures Assign(a, used).Some? && Assign(b, used).Some? && Assign(a, used) != Assign(b, used) ==>
      Assign(a, used + {Assign(b, used).value}) == Assign(a, used)
    ensures Assign(a, used).Some? && Assign(b, used) == Assign(a, used) ==>
      Assign(a, used + {Assign(a, used).value}) == Assign(b, used + {Assign(a, used).value})
  {
    if Assign(b, used).Some? {
      var q := Assign(b, used).value;
      NextFreeAfterTaking(Max(1, a), used, q);
      NextFreeAfterTaking(Max(1, b), used, q);
      if a == q { NextFreeAbove(a + 1, used, q); }
      if b == q { NextFreeAbove(b + 1, used, q); }
    }
  }

  /** Swapping two neighbouring requests changes nothing. */
  lemma SwapFirstTwo(used: set<int>, a: int, b: int, rest: seq<int>)
    ensures SameOutcome(Park(used, [a, b] + rest), Park(used, [b, a] + rest))
  {
    AssignTwo(used, a, b);
    AssignTwo(used, b, a);
    ParkCons(used, a, [b] + rest);
    ParkCons(used, b, [a] + rest);
    assert [a] + ([b] + rest) == [a, b] + rest;
    assert [b] + ([a] + rest) == [b, a] + rest;
    if Assign(a, used).Some? && Assign(b, used).Some? {
      var p, q := Assign(a, used).value, Assign(b, used).value;
      ParkCons(used + {p}, b, rest);
      ParkCons(used + {q}, a, rest);
      assert used + {p} + {q} == used + {q} + {p};
    } else if Assign(a, used).Some? {
      ParkCons(used + {Assign(a, used).value}, b, rest);
    } else if Assign(b, used).Some? {
      ParkCons(used + {Assign(b, used).value}, a, rest);
    }
  }

  /** The one-step unfolding of Park, on a list built with a new head. */
  lemma ParkCons(used: set<int>, x: int, rest: seq<int>)
    ensures Park(used, [x] + rest) ==
      match Assign(x, used)
      case None => None
      case Some(p) =>
        match Park(used + {p}, rest)
        case None => None
        case Some(tail) => Some([p] + tail)
  {
    assert ([x] + rest)[1..] == rest;
  }

  lemma ParkConsSame(used: set<int>, x: int, xs: seq<int>, ys: seq<int>)
    requires forall u :: SameOutcome(Park(u, xs), Park(u, ys))
    ensures SameOutcome(Park(used, [x] + xs), Park(used, [x] + ys))
  {
    ParkCons(used, x, xs);
    ParkCons(used, x, ys);
    if Assign(x, used).Some? {
      assert SameOutcome(Park(used + {Assign(x, used).value}, xs), Park(used + {Assign(x, used).value}, ys));
    }
  }

  lemma {:induction false} MoveToFront(used: set<int>, before: seq<int>, x: int, after: seq<int>)
    ensures SameOutcome(Park(used, before + [x] + after), Park(used, [x] + before + after))
    decreases before
  {
    if before == [] {
      assert before + [x] + after == [x] + before + after;
    } else {
      var y, more := before[0], before[1..];
      forall u ensures SameOutcome(Park(u, more + [x] + after), Park(u, [x] + more + after)) {
        MoveToFront(u, more, x, after);
      }
      ParkConsSame(used, y, more + [x] + after, [x] + more + after);
      assert [y] + (more + [x] + after) == before + [x] + after;
      assert [y] + ([x] + more + after) == [y, x] + (more + after);
      SwapFirstTwo(used, y, x, more + after);
      assert [x, y] + (more + after) == [x] + before + after;
    }
  }

  /** A permutation of a nonempty list still contains its head somewhere. */
  lemma FindHead<T>(xs: seq<T>, ys: seq<T>) returns (i: nat)
    requires xs != [] && multiset(xs) == multiset(ys)
    ensures i < |ys| && ys[i] == xs[0]
    ensures ys == ys[..i] + [xs[0]] + ys[i + 1..]
    ensures multiset(xs[1..]) == multiset(ys[..i] + ys[i + 1..])
  {
    var x := xs[0];
    assert x in multiset(ys);
    i :| 0 <= i < |ys| && ys[i] == x;
    assert xs == [x] + xs[1..];
    assert ys == ys[..i] + [x] + ys[i + 1..];
    DropOne(xs, [], x, xs[1..]);
    DropOne(ys, ys[..i], x, ys[i + 1..]);
    assert [] + xs[1..] == xs[1..];
  }

  lemma DropOne<T>(s: seq<T>, before: seq<T>, x: T, after: seq<T>)
    requires s == before + [x] + after
    ensures multiset(before + after) == multiset(s) - multiset{x}
  {
  }

  /** Order independence: whether the requests succeed, and which ports they take together, depends
      only on which requests there are. It holds for every integer request, legal port or not. */
  lemma {:induction false} ParkIsOrderIndependent(used: set<int>, xs: seq<int>, ys: seq<int>)
    requires multiset(xs) == multiset(ys)
    ensures SameOutcome(Park(used, xs), Park(used, ys))
    decreases xs
  {
    if xs == [] {
      assert |multiset(ys)| == 0;
    } else {
      var x := xs[0];
      var i := FindHead(xs, ys);
      var before, after := ys[..i], ys[i + 1..];
      forall u ensures SameOutcome(Park(u, xs[1..]), Park(u, before + after)) {
        ParkIsOrderIndependent(u, xs[1..], before + after);
      }
      ParkConsSame(used, x, xs[1..], before + after);
      MoveToFront(used, before, x, after);
      assert xs == [x] + xs[1..];
      assert [x] + (before + after) == [x] + before + after;
    }
  }

  function Sum(s: seq<int>): int
  {
    if s == [] then 0 else s[0] + Sum(s[1..])
  }

  lemma {:induction false} SumSplit(a: seq<int>, b: seq<int>)
    ensures Sum(a + b) == Sum(a) + Sum(b)
    decreases a
  {
    if a == [] {
      assert a + b == b;
    } else {
      assert (a + b)[1..] == a[1..] + b;
      SumSplit(a[1..], b);
    }
  }

  lemma {:induction false} SumOfPermutation(xs: seq<int>, ys: seq<int>)
    requires multiset(xs) == multiset(ys)
    ensures Sum(xs) == Sum(ys)
    decreases xs
  {
    if xs == [] {
      assert |multiset(ys)| == 0;
    } else {
      var i := FindHead(xs, ys);
      SumOfPermutation(xs[1..], ys[..i] + ys[i + 1..]);
      SumSplit(ys[..i], ys[i + 1..]);
      SumSplit(ys[..i] + [xs[0]], ys[i + 1..]);
      SumSplit(ys[..i], [xs[0]]);
    }
  }

  /** How far the requests are moved in total. */
  function Displacement(requests: seq<int>, placed: seq<int>): int
  {
    Sum(placed) - Sum(requests)
  }

  /** Every port counts by how far it is from the one asked for. */
  lemma DisplacementOfOneMore(requests: seq<int>, placed: seq<int>, d: int, p: int)
    ensures Displacement([], []) == 0
    ensures Displacement(requests + [d], placed + [p]) == Displacement(requests, placed) + (p - d)
  {
    SumSplit(requests, [d]);
    SumSplit(placed, [p]);
    assert [d][1..] == [] && [p][1..] == [] && Sum([d]) == d && Sum([p]) == p;
  }

  lemma DisplacementIsOrderIndependent(used: set<int>, xs: seq<int>, ys: seq<int>)
    requires multiset(xs) == multiset(ys)
    requires Park(used, xs).Some?
    ensures Park(used, ys).Some?
    ensures Elements(Park(used, xs).value) == Elements(Park(used, ys).value)
    ensures Displacement(xs, Park(used, xs).value) == Displacement(ys, Park(used, ys).value)
  {
    ParkIsOrderIndependent(used, xs, ys);
    var a, b := Park(used, xs).value, Park(used, ys).value;
    SumOfPermutation(xs, ys);
    SumOfPermutation(a, b);
    forall x ensures x in a <==> x in b {
      assert x in a <==> x in multiset(a);
      assert x in b <==> x in multiset(b);
    }
  }

  // ---------------------------------------------------------------- exactly when it succeeds

  /** Requests for port t or higher. */
  function CountFrom(s: seq<int>, t: int): nat
  {
    if s == [] then 0 else (if s[0] >= t then 1 else 0) + CountFrom(s[1..], t)
  }

  function FreeFrom(used: set<int>, t: int): set<int>
  {
    set p: int | t <= p <= MAX_PORT && p !in used
  }

  /** Above every threshold there are at least as many free ports as requests. */
  ghost predicate EnoughRoom(used: set<int>, requests: seq<int>)
  {
    forall t :: 1 <= t <= MAX_PORT ==> CountFrom(requests, t) <= |FreeFrom(used, t)|
  }

  lemma FreeFromAfterTaking(used: set<int>, p: int, t: int)
    requires p !in used && p <= MAX_PORT
    ensures |FreeFrom(used + {p}, t)| == |FreeFrom(used, t)| - (if t <= p then 1 else 0)
  {
    assert FreeFrom(used + {p}, t) == FreeFrom(used, t) - {p};
  }

  lemma CountFromMonotone(s: seq<int>, t: int, u: int)
    requires t <= u
    ensures CountFrom(s, u) <= CountFrom(s, t)
  {
  }

  lemma {:induction false} RoomBeforeAndAfter(used: set<int>, requests: seq<int>)
    requires requests != [] && InRange(requests)
    requires Assign(requests[0], used).Some?
    ensures EnoughRoom(used, requests) <==>
            EnoughRoom(used + {Assign(requests[0], used).value}, requests[1..])
  {
    var d, p, rest := requests[0], Assign(requests[0], used).value, requests[1..];
    forall t | 1 <= t <= MAX_PORT
      ensures EnoughRoom(used, requests) ==> CountFrom(rest, t) <= |FreeFrom(used + {p}, t)|
      ensures EnoughRoom(used + {p}, rest) ==> CountFrom(requests, t) <= |FreeFrom(used, t)|
    {
      FreeFromAfterTaking(used, p, t);
      if d < t <= p {
        assert FreeFrom(used, d) == FreeFrom(used, t);
        CountFromMonotone(rest, d, t);
      }
    }
  }

  /** The whole remap succeeds if and only if no threshold is oversubscribed. */
  lemma {:induction false} ParkSucceedsExactlyWhenRoom(used: set<int>, requests: seq<int>)
    requires InRange(requests)
    ensures Park(used, requests).Some? <==> EnoughRoom(used, requests)
    decreases requests
  {
    if requests != [] {
      var d := requests[0];
      match Assign(d, used)
      case None =>
        assert FreeFrom(used, d) == {};
        assert CountFrom(requests, d) >= 1;
      case Some(p) =>
        ParkSucceedsExactlyWhenRoom(used + {p}, requests[1..]);
        RoomBeforeAndAfter(used, requests);
    }
  }

  // ---------------------------------------------------------------- completeness and optimality

  /** Any way at all to give every request its own unused port at or above the desired one. */
  ghost predicate IsPlacement(used: set<int>, requests: seq<int>, placed: seq<int>)
  {
    && |placed| == |requests|
    && Distinct(placed)
    && (forall i :: 0 <= i < |requests| ==> requests[i] <= placed[i] <= MAX_PORT)
    && (forall i :: 0 <= i < |requests| ==> placed[i] !in used)
  }

  function ElementsBetween(s: seq<int>, lo: int, hi: int): set<int>
  {
    set x | x in s && lo <= x < hi
  }

  lemma {:induction false} CountBetween(s: seq<int>, lo: int, hi: int)
    requires Distinct(s) && lo <= hi
    ensures CountFrom(s, lo) == CountFrom(s, hi) + |ElementsBetween(s, lo, hi)|
    decreases s
  {
    if s != [] {
      CountBetween(s[1..], lo, hi);
      if lo <= s[0] < hi {
        assert ElementsBetween(s, lo, hi) == {s[0]} + ElementsBetween(s[1..], lo, hi);
        assert s[0] !in s[1..];
      } else {
        assert ElementsBetween(s, lo, hi) == ElementsBetween(s[1..], lo, hi);
      }
    }
  }

  lemma CountFromPointwise(a: seq<int>, b: seq<int>, t: int)
    requires |a| == |b|
    requires forall i :: 0 <= i < |a| ==> (a[i] >= t ==> b[i] >= t)
    ensures CountFrom(a, t) <= CountFrom(b, t)
    decreases a
  {
    if a != [] {
      assert forall i :: 0 <= i < |a[1..]| ==> a[1..][i] == a[i + 1] && b[1..][i] == b[i + 1];
      CountFromPointwise(a[1..], b[1..], t);
    }
  }

  lemma CardinalityOfSubset(a: set<int>, b: set<int>)
    requires a <= b
    ensures |a| <= |b|
  {
    assert b == a + (b - a);
    assert |b| == |a| + |b - a|;
  }

  /** A port that is still free at the end was never probed past. */
  lemma {:induction false} NobodyPassesAFreePort(used: set<int>, requests: seq<int>, hole: int)
    requires InRange(requests) && Park(used, requests).Some?
    requires hole !in used && hole !in Park(used, requests).value
    ensures forall i :: 0 <= i < |requests| && requests[i] <= hole ==> Park(used, requests).value[i] < hole
  {
    ParkIsGreedy(used, requests);
    var placed := Park(used, requests).value;
    forall i | 0 <= i < |requests| && requests[i] <= hole
      ensures placed[i] < hole
    {
      assert GreedyAt(used, requests, placed, i);
      assert hole !in used + Elements(placed[..i]);
      assert placed[i] in placed;
    }
  }

  /** The start of the run of finally occupied ports that ends just below t. */
  lemma StartOfBlock(taken: set<int>, t: int) returns (s: int)
    requires 1 <= t
    ensures 1 <= s <= t
    ensures forall q :: s <= q < t ==> q in taken
    ensures s == 1 || s - 1 !in taken
  {
    s := t;
    while s > 1 && s - 1 in taken
      invariant 1 <= s <= t
      invariant forall q :: s <= q < t ==> q in taken
    {
      s := s - 1;
    }
  }

  /** The greedy remap never occupies more ports above a threshold than any other placement. */
  lemma {:induction false} ParkIsLowest(used: set<int>, requests: seq<int>, other: seq<int>, t: int)
    requires InRange(requests) && IsPlacement(used, requests, other) && 1 <= t
    requires Park(used, requests).Some?
    ensures CountFrom(Park(used, requests).value, t) <= CountFrom(other, t)
  {
    var placed := Park(used, requests).value;
    ParkIsInjective(used, requests);
    ParkStaysInRange(used, requests);
    var s := StartOfBlock(used + Elements(placed), t);
    if s > 1 { NobodyPassesAFreePort(used, requests, s - 1); }
    CountFromPointwise(placed, requests, s);
    CountFromPointwise(requests, other, s);
    CountBetween(placed, s, t);
    CountBetween(other, s, t);
    forall x | x in ElementsBetween(other, s, t) ensures x in ElementsBetween(placed, s, t) {
      assert x in used + Elements(placed);
    }
    CardinalityOfSubset(ElementsBetween(other, s, t), ElementsBetween(placed, s, t));
  }

  /** Sum over the thresholds 1..n of the number of elements at or above the threshold. */
  function SumOfCounts(s: seq<int>, n: nat): int
  {
    if n == 0 then 0 else CountFrom(s, n) + SumOfCounts(s, n - 1)
  }

  function Capped(s: seq<int>, n: int): seq<int>
  {
    seq(|s|, i requires 0 <= i < |s| => if s[i] < n then s[i] else n)
  }

  lemma {:induction false} SumOfCapped(s: seq<int>, n: nat)
    requires n > 0 && InRange(s)
    ensures Sum(Capped(s, n)) == CountFrom(s, n) + Sum(Capped(s, n - 1))
    decreases s
  {
    if s != [] {
      assert Capped(s, n)[1..] == Capped(s[1..], n);
      assert Capped(s, n - 1)[1..] == Capped(s[1..], n - 1);
      SumOfCapped(s[1..], n);
    }
  }

  lemma {:induction false} SumByThresholds(s: seq<int>, n: nat)
    requires InRange(s)
    ensures SumOfCounts(s, n) == Sum(Capped(s, n))
    decreases n
  {
    if n == 0 {
      SumOfZeros(Capped(s, 0));
    } else {
      SumByThresholds(s, n - 1);
      SumOfCapped(s, n);
    }
  }

  lemma SumOfZeros(s: seq<int>)
    requires forall i :: 0 <= i < |s| ==> s[i] == 0
    ensures Sum(s) == 0
  {
  }

  lemma {:induction false} SumOfCountsMonotone(a: seq<int>, b: seq<int>, n: nat)
    requires forall t :: 1 <= t <= n ==> CountFrom(a, t) <= CountFrom(b, t)
    ensures SumOfCounts(a, n) <= SumOfCounts(b, n)
    decreases n
  {
    if n > 0 { SumOfCountsMonotone(a, b, n - 1); }
  }

  /** Completeness and optimality: if the requests can be placed at all, the greedy remap places
      them, and no placement has a smaller total displacement. */
  lemma ParkIsCompleteAndOptimal(used: set<int>, requests: seq<int>, other: seq<int>)
    requires InRange(requests) && IsPlacement(used, requests, other)
    ensures Park(used, requests).Some?
    ensures IsPlacement(used, requests, Park(used, requests).value)
    ensures Displacement(requests, Park(used, requests).value) <= Displacement(requests, other)
  {
    forall t | 1 <= t <= MAX_PORT
      ensures CountFrom(requests, t) <= |FreeFrom(used, t)|
    {
      CountFromPointwise(requests, other, t);
      CountBetween(other, t, MAX_PORT + 1);
      NothingAbove(other, MAX_PORT + 1);
      CardinalityOfSubset(ElementsBetween(other, t, MAX_PORT + 1), FreeFrom(used, t));
    }
    ParkSucceedsExactlyWhenRoom(used, requests);
    var placed := Park(used, requests).value;
    ParkIsInjective(used, requests);
    ParkStaysInRange(used, requests);
    forall i | 0 <= i < |placed| ensures placed[i] !in used {
      assert placed[i] in Elements(placed);
    }
    forall t | 1 <= t <= MAX_PORT ensures CountFrom(placed, t) <= CountFrom(other, t) {
      ParkIsLowest(used, requests, other, t);
    }
    SumOfCountsMonotone(placed, other, MAX_PORT);
    SumByThresholds(placed, MAX_PORT);
    SumByThresholds(other, MAX_PORT);
    assert Capped(placed, MAX_PORT) == placed;
    assert Capped(other, MAX_PORT) == other;
  }

  lemma NothingAbove(s: seq<int>, t: int)
    requires forall i :: 0 <= i < |s| ==> s[i] < t
    ensures CountFrom(s, t) == 0
  {
  }

  // ---------------------------------------------------------------- the request list of a container

  datatype PortMapping = PortMapping(host: int, container: int, protocol: string)

  function Hosts(ports: seq<PortMapping>): (r: seq<int>)
    ensures |r| == |ports|
  {
    seq(|ports|, i requires 0 <= i < |ports| => ports[i].host)
  }

  function WithHosts(ports: seq<PortMapping>, hosts: seq<int>): (r: seq<PortMapping>)
    requires |hosts| == |ports|
    ensures |r| == |ports| && Hosts(r) == hosts
  {
    seq(|ports|, i requires 0 <= i < |ports| => ports[i].(host := hosts[i]))
  }

  lemma ParkOne(used: set<int>, x: int)
    ensures used + Elements([]) == used
    ensures Park(used, [x]) == match Assign(x, used) case None => None case Some(p) => Some([] + [p])
  {
    assert [x][1..] == [];
    if Assign(x, used).Some? { assert [Assign(x, used).value] + [] == [] + [Assign(x, used).value]; }
  }

  lemma {:induction false} ParkSnoc(used: set<int>, requests: seq<int>, x: int)
    ensures Park(used, requests + [x]) ==
      match Park(used, requests)
      case None => None
      case Some(a) =>
        match Assign(x, used + Elements(a))
        case None => None
        case Some(p) => Some(a + [p])
    decreases requests
  {
    if requests == [] {
      assert requests + [x] == [x];
      ParkOne(used, x);
    } else {
      var y, rest := requests[0], requests[1..];
      assert requests == [y] + rest;
      assert requests + [x] == [y] + (rest + [x]);
      ParkCons(used, y, rest);
      ParkCons(used, y, rest + [x]);
      if Assign(y, used).Some? {
        var p := Assign(y, used).value;
        ParkSnoc(used + {p}, rest, x);
        match Park(used + {p}, rest)
        case None =>
        case Some(a) =>
          assert used + {p} + Elements(a) == used + Elements([p] + a);
          if Assign(x, used + {p} + Elements(a)).Some? {
            var q := Assign(x, used + {p} + Elements(a)).value;
            assert [p] + (a + [q]) == ([p] + a) + [q];
          }
      }
    }
  }

  /** Failure is permanent: a prefix that cannot be placed dooms the whole list. */
  lemma {:induction false} ParkPrefix(used: set<int>, requests: seq<int>, n: nat)
    requires n <= |requests|
    requires Park(used, requests[..n]).None?
    ensures Park(used, requests).None?
    decreases |requests| - n
  {
    if n == |requests| {
      assert requests[..n] == requests;
    } else {
      ParkSnoc(used, requests[..n], requests[n]);
      assert requests[..n] + [requests[n]] == requests[..n + 1];
      ParkPrefix(used, requests, n + 1);
    }
  }

  /** One iteration of a remap loop, seen by the specification. */
  lemma ParkStep(initiallyUsed: set<int>, desired: seq<int>, placed: seq<int>, used: set<int>, d: int)
    requires Park(initiallyUsed, desired) == Some(placed)
    requires used == initiallyUsed + Elements(placed)
    ensures Assign(d, used).None? ==> Park(initiallyUsed, desired + [d]).None?
    ensures Assign(d, used).Some? ==>
      var placed' := placed + [Assign(d, used).value];
      && Park(initiallyUsed, desired + [d]) == Some(placed')
      && used + {Assign(d, used).value} == initiallyUsed + Elements(placed')
  {
    ParkSnoc(initiallyUsed, desired, d);
  }

  /** The remap table: keyed by exactly the desired ports that were displaced, and each entry is the
      port one of the requests for that key received. */
  ghost predicate DescribesRemap(desired: seq<int>, placed: seq<int>, remap: map<int, int>)
    requires |placed| == |desired|
  {
    && (forall i :: 0 <= i < |desired| && placed[i] != desired[i] ==> desired[i] in remap)
    && (forall d :: d in remap ==>
        d != remap[d] && exists i :: 0 <= i < |desired| && desired[i] == d && placed[i] == remap[d])
  }

  lemma DescribesRemapStep(desired: seq<int>, placed: seq<int>, remap: map<int, int>, d: int, p: int)
    requires |placed| == |desired| && DescribesRemap(desired, placed, remap)
    ensures DescribesRemap(desired + [d], placed + [p], if p != d then remap[d := p] else remap)
  {
    var desired', placed' := desired + [d], placed + [p];
    var remap' := if p != d then remap[d := p] else remap;
    forall e | e in remap'
      ensures exists i :: 0 <= i < |desired'| && desired'[i] == e && placed'[i] == remap'[e]
    {
      if e == d && p != d {
        assert desired'[|desired|] == e && placed'[|desired|] == remap'[e];
      } else {
        var i :| 0 <= i < |desired| && desired[i] == e && placed[i] == remap[e];
        assert desired'[i] == e && placed'[i] == remap'[e];
      }
    }
  }

  lemma SomeKey<K, V>(m: map<K, V>) returns (k: K)
    requires m != map[]
    ensures k in m
  {
    assert m.Keys != {};
    k :| k in m.Keys;
  }

  /** What a remap loop knows after some requests: the ports placed, the set in use and the table. */
  ghost predicate Progress(initiallyUsed: set<int>, desired: seq<int>, placed: seq<int>, used: set<int>,
                           remap: map<int, int>)
  {
    && Park(initiallyUsed, desired) == Some(placed)
    && used == initiallyUsed + Elements(placed)
    && DescribesRemap(desired, placed, remap)
  }

  lemma ProgressStep(initiallyUsed: set<int>, desired: seq<int>, placed: seq<int>, used: set<int>, remap: map<int, int>,
                     d: int)
    requires Progress(initiallyUsed, desired, placed, used, remap)
    ensures Assign(d, used).None? ==> Park(initiallyUsed, desired + [d]).None?
    ensures Assign(d, used).Some? ==>
      var p := Assign(d, used).value;
      Progress(initiallyUsed, desired + [d], placed + [p], used + {p}, if p != d then remap[d := p] else remap)
  {
    ParkStep(initiallyUsed, desired, placed, used, d);
    if Assign(d, used).Some? { DescribesRemapStep(desired, placed, remap, d, Assign(d, used).value); }
  }

  /** The remap loop over a container's port list. Only host ports change. */
  method RemapRequestedPorts(ports: seq<PortMapping>, initiallyUsed: set<int>)
    returns (r: Option<seq<PortMapping>>, remap: map<int, int>)
    ensures r.None? <==> Park(initiallyUsed, Hosts(ports)).None?
    ensures r.Some? ==> r.value == WithHosts(ports, Park(initiallyUsed, Hosts(ports)).value)
    ensures r.Some? ==> DescribesRemap(Hosts(ports), Hosts(r.value), remap)
  {
    var used := initiallyUsed;
    remap := map[];
    var remapped: seq<PortMapping> := [];
    ghost var desiredSoFar: seq<int>, placedSoFar: seq<int> := [], [];
    ghost var allDesired := Hosts(ports);
    var k := 0;
    while k < |ports|
      invariant 0 <= k <= |ports|
      invariant |placedSoFar| == |desiredSoFar| == |remapped| == k
      invariant desiredSoFar == allDesired[..k]
      invariant forall i :: 0 <= i < k ==> remapped[i] == ports[i].(host := placedSoFar[i])
      invariant Progress(initiallyUsed, desiredSoFar, placedSoFar, used, remap)
    {
      var desired := ports[k].host;
      ProgressStep(initiallyUsed, desiredSoFar, placedSoFar, used, remap, desired);
      var next := Some(desired);
      if desired in used {
        next := NextAvailableHostPort(desired, used);
      }
      if next.None? {
        assert desiredSoFar + [desired] == allDesired[..k + 1];
        ParkPrefix(initiallyUsed, allDesired, k + 1);
        return None, remap;
      }
      if next.value != desired {
        remap := remap[desired := next.value];
      }
      used := used + {next.value};
      remapped := remapped + [ports[k].(host := next.value)];
      desiredSoFar, placedSoFar := desiredSoFar + [desired], placedSoFar + [next.value];
      k := k + 1;
    }
    assert desiredSoFar == allDesired;
    return Some(remapped), remap;
  }
}

/** Port remapping inside a compose document: the greedy allocation of PortAllocator, run over the
    port entries of all services in visiting order and written back into the document. */
module ComposePorts {
  import opened Wrappers
  import opened PortAllocator
  import opened Text
  import S = ShortPorts
  import T = PortTexts

  // ---------------------------------------------------------------- the document

  /** The value under a long-form entry's "published" key. Booleans count as integers, as in Python. */
  datatype Published = Number(n: int) | Numerals(text: string) | OtherValue

  /** One element of a "ports" list; `fields` stands for the remaining keys of a long-form entry. */
  datatype Entry =
    | Short(text: string)
    | Long(published: Published, fields: map<string, string>)
    | OtherEntry(text: string)

  datatype Service =
    | NotAMapping(text: string)
    | WithoutPorts(fields: map<string, string>)
    | WithPorts(ports: seq<Entry>, fields: map<string, string>)

  /** The host port an entry asks for; entries without one are left alone. */
  function HostPortOf(e: Entry): Option<int>
  {
    match e
    case Short(text) => (match S.Parse(text) case None => None case Some(m) => Some(m.hostPort))
    case Long(Number(n), _) => Some(n)
    case Long(Numerals(text), _) => if IsDigits(text) then Some(ParseNat(text)) else None
    case _ => None
  }

  function WithHostPort(e: Entry, port: int): Entry
    requires HostPortOf(e).Some?
  {
    match e
    case Short(text) => Short(S.Render(S.Parse(text).value.(hostPort := port)))
    case Long(_, fields) => Long(Number(port), fields)
  }

  function Entries(s: Service): seq<Entry>
  {
    if s.WithPorts? then s.ports else []
  }

  /** The ports asked for by a list of entries, in order. */
  function Desired(es: seq<Entry>): seq<int>
  {
    if es == [] then [] else
    var front, last := es[..|es| - 1], HostPortOf(es[|es| - 1]);
    if last.Some? then Desired(front) + [last.value] else Desired(front)
  }

  /** The entries with the given ports written into those that ask for one. */
  function Fill(es: seq<Entry>, placed: seq<int>): (r: seq<Entry>)
    requires |placed| == |Desired(es)|
    ensures |r| == |es|
  {
    if es == [] then [] else
    var front, last := es[..|es| - 1], es[|es| - 1];
    if HostPortOf(last).Some?
    then Fill(front, placed[..|placed| - 1]) + [WithHostPort(last, placed[|placed| - 1])]
    else Fill(front, placed) + [last]
  }

  function FillService(s: Service, placed: seq<int>): Service
    requires |placed| == |Desired(Entries(s))|
  {
    if s.WithPorts? then s.(ports := Fill(s.ports, placed)) else s
  }

  function AllDesired(ss: seq<Service>): seq<int>
  {
    if ss == [] then [] else AllDesired(ss[..|ss| - 1]) + Desired(Entries(ss[|ss| - 1]))
  }

  function FillAll(ss: seq<Service>, placed: seq<int>): (r: seq<Service>)
    requires |placed| == |AllDesired(ss)|
    ensures |r| == |ss|
  {
    if ss == [] then [] else
    var front, last := ss[..|ss| - 1], ss[|ss| - 1];
    var n := |AllDesired(front)|;
    FillAll(front, placed[..n]) + [FillService(last, placed[n..])]
  }

  // ---------------------------------------------------------------- the loops

  /** What a failed remap leaves behind: the services before the failing one are already rewritten. */
  ghost predicate RewrittenUpTo(before: seq<Service>, after: seq<Service>, used: set<int>, k: nat)
  {
    && k < |before|
    && Park(used, AllDesired(before[..k])).Some?
    && Park(used, AllDesired(before[..k + 1])).None?
    && after == Rewritten(before, k, Park(used, AllDesired(before[..k])).value)
  }

  class ComposePayload {
    /** The "services" mapping in visiting order, when the document has one. */
    var services: Option<seq<Service>>

    constructor (services: Option<seq<Service>>)
      ensures this.services == services
    {
      this.services := services;
    }

    /** The entry loop of one service. */
    method RemapEntries(ports: seq<Entry>, usedBefore: set<int>, remapBefore: map<int, int>,
                        ghost initiallyUsed: set<int>, ghost desired: seq<int>, ghost placed: seq<int>)
      returns (ok: bool, updated: seq<Entry>, used: set<int>, remap: map<int, int>, ghost here: seq<int>)
      requires Progress(initiallyUsed, desired, placed, usedBefore, remapBefore)
      ensures !ok ==> Park(initiallyUsed, desired + Desired(ports)).None?
      ensures ok ==> |here| == |Desired(ports)| && updated == Fill(ports, here)
      ensures ok ==> Progress(initiallyUsed, desired + Desired(ports), placed + here, used, remap)
    {
      used, remap, updated, here := usedBefore, remapBefore, [], [];
      var j := 0;
      assert desired + [] == desired && placed + [] == placed;
      while j < |ports|
        invariant 0 <= j <= |ports|
        invariant |here| == |Desired(ports[..j])| && updated == Fill(ports[..j], here)
        invariant Progress(initiallyUsed, desired + Desired(ports[..j]), placed + here, used, remap)
      {
        var entry := ports[j];
        var wanted := HostPortOf(entry);
        EntryStep(initiallyUsed, desired, placed, ports, j, here, used, remap);
        if wanted.None? {
          updated := updated + [entry];
        } else {
          var next := wanted;
          if wanted.value in used {
            next := NextAvailableHostPort(wanted.value, used);
          }
          if next.None? {
            return false, updated, used, remap, here;
          }
          if next.value != wanted.value {
            remap := remap[wanted.value := next.value];
          }
          used := used + {next.value};
          updated := updated + [WithHostPort(entry, next.value)];
          here := here + [next.value];
        }
        j := j + 1;
      }
      assert ports[..j] == ports;
      ok := true;
    }

    /** The service loop. On success the document holds the placed ports, and nothing but host ports
        has changed; on failure the services before the failing one have been rewritten. */
    method RemapPorts(initiallyUsed: set<int>) returns (ok: bool, remap: map<int, int>, ghost failedAt: nat)
      modifies this
      ensures old(services).None? ==> ok && remap == map[] && services == None
      ensures old(services).Some? ==>
        (ok <==> Park(initiallyUsed, AllDesired(old(services).value)).Some?)
      ensures old(services).Some? && ok ==>
        var desired := AllDesired(old(services).value);
        var placed := Park(initiallyUsed, desired).value;
        && services == Some(FillAll(old(services).value, placed))
        && DescribesRemap(desired, placed, remap)
      ensures old(services).Some? && !ok ==>
        services.Some? && RewrittenUpTo(old(services).value, services.value, initiallyUsed, failedAt)
    {
      remap, failedAt := map[], 0;
      if services.None? {
        return true, remap, failedAt;
      }
      ghost var all := services.value;
      ghost var placed: seq<int> := [];
      var used := initiallyUsed;
      var i := 0;
      while i < |services.value|
        invariant services.Some? && |services.value| == |all|
        invariant 0 <= i <= |all|
        invariant |placed| == |AllDesired(all[..i])|
        invariant services.value == Rewritten(all, i, placed)
        invariant Progress(initiallyUsed, AllDesired(all[..i]), placed, used, remap)
      {
        var service := services.value[i];
        ghost var here: seq<int> := [];
        if service.WithPorts? {
          var ok, updated, used', remap';
          ok, updated, used', remap', here :=
            RemapEntries(service.ports, used, remap, initiallyUsed, AllDesired(all[..i]), placed);
          if !ok {
            DoomedService(initiallyUsed, all, i);
            return false, remap, i;
          }
          used, remap := used', remap';
          services := Some(services.value[i := service.(ports := updated)]);
        } else {
          NoEntries(AllDesired(all[..i]), placed);
        }
        RewrittenStep(all, i, placed, here);
        placed := placed + here;
        i := i + 1;
      }
      assert all[..i] == all;
      return true, remap, i;
    }
  }

  /** The document after the first i services have been rewritten. */
  function Rewritten(all: seq<Service>, i: nat, placed: seq<int>): (r: seq<Service>)
    requires i <= |all| && |placed| == |AllDesired(all[..i])|
    ensures |r| == |all| && r[i..] == all[i..]
    ensures i == |all| ==> all[..i] == all && r == FillAll(all, placed)
  {
    assert i == |all| ==> all[..i] == all;
    FillAll(all[..i], placed) + all[i..]
  }

  lemma RewrittenStep(all: seq<Service>, i: nat, placed: seq<int>, here: seq<int>)
    requires i < |all|
    requires |placed| == |AllDesired(all[..i])| && |here| == |Desired(Entries(all[i]))|
    ensures AllDesired(all[..i + 1]) == AllDesired(all[..i]) + Desired(Entries(all[i]))
    ensures Rewritten(all, i + 1, placed + here) == Rewritten(all, i, placed)[i := FillService(all[i], here)]
  {
    FillAllStep(all, i, placed, here);
  }

  lemma NoEntries(a: seq<int>, b: seq<int>)
    ensures a + Desired([]) == a && b + [] == b
  {
  }

  lemma DoomedService(initiallyUsed: set<int>, all: seq<Service>, i: nat)
    requires i < |all|
    requires Park(initiallyUsed, AllDesired(all[..i]) + Desired(Entries(all[i]))).None?
    ensures Park(initiallyUsed, AllDesired(all[..i + 1])).None?
    ensures Park(initiallyUsed, AllDesired(all)).None?
  {
    assert all[..i + 1][..i] == all[..i];
    FailureOfPrefix(initiallyUsed, all, i + 1);
  }

  lemma SkipStep(es: seq<Entry>, j: nat, placed: seq<int>)
    requires j < |es| && |placed| == |Desired(es[..j])| && HostPortOf(es[j]).None?
    ensures Desired(es[..j + 1]) == Desired(es[..j])
    ensures Fill(es[..j + 1], placed) == Fill(es[..j], placed) + [es[j]]
  {
    assert es[..j + 1][..j] == es[..j];
  }

  lemma DesiredStep(es: seq<Entry>, j: nat)
    requires j < |es| && HostPortOf(es[j]).Some?
    ensures Desired(es[..j + 1]) == Desired(es[..j]) + [HostPortOf(es[j]).value]
  {
    assert es[..j + 1][..j] == es[..j];
  }

  lemma FillStep(es: seq<Entry>, j: nat, placed: seq<int>, p: int)
    requires j < |es| && |placed| == |Desired(es[..j])| && HostPortOf(es[j]).Some?
    ensures |placed + [p]| == |Desired(es[..j + 1])|
    ensures Fill(es[..j + 1], placed + [p]) == Fill(es[..j], placed) + [WithHostPort(es[j], p)]
  {
    DesiredStep(es, j);
    assert es[..j + 1][..j] == es[..j];
    assert (placed + [p])[..|placed|] == placed;
  }

  lemma Regroup(a: seq<int>, b: seq<int>, x: int)
    ensures a + b + [x] == a + (b + [x])
  {
  }

  lemma ParkExtension(used: set<int>, a: seq<int>, b: seq<int>, c: seq<int>)
    requires b <= c && Park(used, a + b).None?
    ensures Park(used, a + c).None?
  {
    assert (a + c)[..|a + b|] == a + b;
    ParkPrefix(used, a + c, |a + b|);
  }

  /** An entry that gets no port fails the whole service. */
  lemma DoomedEntry(initiallyUsed: set<int>, desired: seq<int>, es: seq<Entry>, j: nat)
    requires j < |es| && HostPortOf(es[j]).Some?
    requires Park(initiallyUsed, desired + Desired(es[..j]) + [HostPortOf(es[j]).value]).None?
    ensures Park(initiallyUsed, desired + Desired(es)).None?
  {
    DesiredStep(es, j);
    Regroup(desired, Desired(es[..j]), HostPortOf(es[j]).value);
    DesiredPrefix(es, j + 1);
    ParkExtension(initiallyUsed, desired, Desired(es[..j + 1]), Desired(es));
  }

  /** One turn of the entry loop. */
  lemma EntryStep(initiallyUsed: set<int>, desired: seq<int>, placed: seq<int>, es: seq<Entry>, j: nat, here: seq<int>,
                  used: set<int>, remap: map<int, int>)
    requires j < |es| && |here| == |Desired(es[..j])|
    requires Progress(initiallyUsed, desired + Desired(es[..j]), placed + here, used, remap)
    ensures HostPortOf(es[j]).None? ==>
      Desired(es[..j + 1]) == Desired(es[..j]) && Fill(es[..j + 1], here) == Fill(es[..j], here) + [es[j]]
    ensures HostPortOf(es[j]).Some? ==>
      match Assign(HostPortOf(es[j]).value, used)
      case None => Park(initiallyUsed, desired + Desired(es)).None?
      case Some(p) =>
        && |here + [p]| == |Desired(es[..j + 1])|
        && Fill(es[..j + 1], here + [p]) == Fill(es[..j], here) + [WithHostPort(es[j], p)]
        && Progress(initiallyUsed, desired + Desired(es[..j + 1]), placed + (here + [p]), used + {p},
                    if p != HostPortOf(es[j]).value then remap[HostPortOf(es[j]).value := p] else remap)
  {
    match HostPortOf(es[j])
    case None => SkipStep(es, j, here);
    case Some(d) =>
      ProgressStep(initiallyUsed, desired + Desired(es[..j]), placed + here, used, remap, d);
      match Assign(d, used)
      case None => DoomedEntry(initiallyUsed, desired, es, j);
      case Some(p) =>
        DesiredStep(es, j);
        Regroup(desired, Desired(es[..j]), d);
        Regroup(placed, here, p);
        FillStep(es, j, here, p);
  }

  lemma FillAllStep(all: seq<Service>, i: nat, placed: seq<int>, here: seq<int>)
    requires i < |all|
    requires |placed| == |AllDesired(all[..i])| && |here| == |Desired(Entries(all[i]))|
    ensures AllDesired(all[..i + 1]) == AllDesired(all[..i]) + Desired(Entries(all[i]))
    ensures FillAll(all[..i + 1], placed + here) == FillAll(all[..i], placed) + [FillService(all[i], here)]
  {
    assert all[..i + 1][..i] == all[..i];
    assert (placed + here)[..|placed|] == placed && (placed + here)[|placed|..] == here;
  }

  lemma {:induction false} DesiredPrefix(es: seq<Entry>, n: nat)
    requires n <= |es|
    ensures Desired(es[..n]) <= Desired(es)
    decreases |es| - n
  {
    if n == |es| {
      assert es[..n] == es;
    } else {
      assert es[..n + 1][..n] == es[..n];
      DesiredPrefix(es, n + 1);
    }
  }

  lemma {:induction false} FailureOfPrefix(used: set<int>, ss: seq<Service>, n: nat)
    requires n <= |ss|
    requires Park(used, AllDesired(ss[..n])).None?
    ensures Park(used, AllDesired(ss)).None?
    decreases |ss| - n
  {
    if n == |ss| {
      assert ss[..n] == ss;
    } else {
      assert ss[..n + 1][..n] == ss[..n];
      var more := AllDesired(ss[..n + 1]);
      assert more[..|AllDesired(ss[..n])|] == AllDesired(ss[..n]);
      ParkPrefix(used, more, |AllDesired(ss[..n])|);
      FailureOfPrefix(used, ss, n + 1);
    }
  }

  // ---------------------------------------------------------------- which entries ask for a port

  /** An entry asks for a host port exactly when it is a text with the parts of a mapping and that host
      port, or has the number, or a text of nothing but digits that is worth it, as its published port. */
  lemma AsksExactly(e: Entry, port: int)
    ensures HostPortOf(e) == Some(port) <==>
      match e
      case Short(text) => exists t :: T.HasParts(text, t) && ParseNat(t.host) == port
      case Long(Number(n), _) => n == port
      case Long(Numerals(text), _) => IsDigits(text) && ParseNat(text) == port
      case Long(OtherValue, _) => false
      case OtherEntry(_) => false
  {
    if e.Short? {
      if S.Parse(e.text).Some? {
        var t := T.ParseIsSound(e.text);
        assert T.HasParts(e.text, t);
      }
      forall t | T.HasParts(e.text, t) ensures S.Parse(e.text) == Some(T.MappingOf(t)) {
        T.ParseIsComplete(e.text, t);
      }
    }
  }

  // ---------------------------------------------------------------- what a rewrite keeps

  /** A rewritten entry differs from the original at most in its host port: the container port, the
      protocol, the bind address and every other key are kept. The only entries that cannot be read
      back are tcp ones with a '/' in the bind address. */
  ghost predicate SameButHostPort(before: Entry, after: Entry, port: int)
    requires HostPortOf(before).Some?
  {
    match before
    case Short(text) =>
      var m := S.Parse(text).value;
      && after.Short?
      && S.Parse(after.text) ==
         if S.SurvivesPrinting(m) then Some(S.WithoutEmptyAddress(m).(hostPort := port)) else None
    case Long(_, fields) => after == Long(Number(port), fields)
  }

  lemma RewriteKeepsEntry(e: Entry, port: int)
    requires HostPortOf(e).Some?
    requires e.Short? ==> port >= 0
    ensures SameButHostPort(e, WithHostPort(e, port), port)
    ensures e.Long? ==> HostPortOf(WithHostPort(e, port)) == Some(port)
    ensures e.Short? ==>
      (HostPortOf(WithHostPort(e, port)) == Some(port) <==> S.SurvivesPrinting(S.Parse(e.text).value))
  {
    if e.Short? {
      S.ParseResultIsParsed(e.text);
      S.PrintThenParse(S.Parse(e.text).value.(hostPort := port));
    }
  }

  /** How many entries before position j ask for a port: the place of entry j in the request list. */
  function Place(es: seq<Entry>, j: nat): nat
    requires j <= |es|
  {
    |Desired(es[..j])|
  }

  lemma {:induction false} PlaceIsInOrder(es: seq<Entry>, j: nat)
    requires j < |es| && HostPortOf(es[j]).Some?
    ensures Place(es, j) < |Desired(es)| && Desired(es)[Place(es, j)] == HostPortOf(es[j]).value
  {
    DesiredStep(es, j);
    DesiredPrefix(es, j + 1);
  }

  /** Entry by entry: those without a port are untouched, in place; the others carry the port that
      the allocator placed for them. */
  lemma FillEntryByEntry(es: seq<Entry>, placed: seq<int>, j: nat)
    requires |placed| == |Desired(es)| && j < |es|
    ensures HostPortOf(es[j]).None? ==> Fill(es, placed)[j] == es[j]
    ensures HostPortOf(es[j]).Some? ==>
      Place(es, j) < |placed| && Fill(es, placed)[j] == WithHostPort(es[j], placed[Place(es, j)])
  {
    match HostPortOf(es[j])
    case None => FillKeepsEntry(es, placed, j);
    case Some(_) => FillWritesEntry(es, placed, j);
  }

  /** Filling entry by entry from the back: the earlier entries do not see the last one's port. */
  function Rest(es: seq<Entry>, placed: seq<int>): (rest: seq<int>)
    requires es != [] && |placed| == |Desired(es)|
    ensures |rest| == |Desired(es[..|es| - 1])|
  {
    placed[..|Desired(es[..|es| - 1])|]
  }

  lemma FillFront(es: seq<Entry>, placed: seq<int>, j: nat)
    requires |placed| == |Desired(es)| && j < |es| - 1
    ensures Fill(es, placed)[j] == Fill(es[..|es| - 1], Rest(es, placed))[j]
  {
    var front, last := es[..|es| - 1], es[|es| - 1];
    match HostPortOf(last)
    case None =>
      assert Rest(es, placed) == placed;
      assert Fill(es, placed) == Fill(front, placed) + [last];
    case Some(_) =>
      var n := |placed| - 1;
      assert Rest(es, placed) == placed[..n];
      assert Fill(es, placed) == Fill(front, placed[..n]) + [WithHostPort(last, placed[n])];
  }

  lemma {:induction false} FillKeepsEntry(es: seq<Entry>, placed: seq<int>, j: nat)
    requires |placed| == |Desired(es)| && j < |es| && HostPortOf(es[j]).None?
    ensures Fill(es, placed)[j] == es[j]
    decreases |es|
  {
    if j < |es| - 1 {
      FillFront(es, placed, j);
      FillKeepsEntry(es[..|es| - 1], Rest(es, placed), j);
    }
  }

  lemma {:induction false} FillWritesEntry(es: seq<Entry>, placed: seq<int>, j: nat)
    requires |placed| == |Desired(es)| && j < |es| && HostPortOf(es[j]).Some?
    ensures Place(es, j) < |placed| && Fill(es, placed)[j] == WithHostPort(es[j], placed[Place(es, j)])
    decreases |es|
  {
    PlaceIsInOrder(es, j);
    if j < |es| - 1 {
      var front, rest := es[..|es| - 1], Rest(es, placed);
      FillFront(es, placed, j);
      FillWritesEntry(front, rest, j);
      assert Place(front, j) == Place(es, j) by { assert front[..j] == es[..j]; }
      assert rest[Place(es, j)] == placed[Place(es, j)];
    } else {
      var n := |placed| - 1;
      assert Fill(es, placed) == Fill(es[..j], placed[..n]) + [WithHostPort(es[j], placed[n])];
      assert Place(es, j) == n;
    }
  }

  /** Service by service: each receives the consecutive stretch of ports that answers its requests. */
  lemma {:induction false} FillAllServiceByService(ss: seq<Service>, placed: seq<int>, i: nat)
    requires |placed| == |AllDesired(ss)| && i < |ss|
    ensures |AllDesired(ss[..i])| + |Desired(Entries(ss[i]))| <= |placed|
    ensures FillAll(ss, placed)[i] ==
      FillService(ss[i], placed[|AllDesired(ss[..i])|..][..|Desired(Entries(ss[i]))|])
    decreases |ss|
  {
    var front := ss[..|ss| - 1];
    var n := |AllDesired(front)|;
    if i < |front| {
      assert front[..i] == ss[..i];
      FillAllServiceByService(front, placed[..n], i);
      SliceOfSlice(placed, n, |AllDesired(ss[..i])|, |Desired(Entries(ss[i]))|);
    } else {
      assert placed[n..][..|placed| - n] == placed[n..];
    }
  }

  lemma SliceOfSlice(s: seq<int>, n: nat, from: nat, len: nat)
    requires from + len <= n <= |s|
    ensures s[..n][from..][..len] == s[from..][..len]
  {
  }

  /** The ports written into a document are pairwise distinct, none was in use before, and each is
      the desired one unless that is held by an earlier entry or an older binding. */
  lemma DocumentPortsAreDisjoint(used: set<int>, ss: seq<Service>)
    requires Park(used, AllDesired(ss)).Some?
    ensures var placed := Park(used, AllDesired(ss)).value;
      && Distinct(placed)
      && Elements(placed) !! used
      && forall i :: 0 <= i < |placed| ==> GreedyAt(used, AllDesired(ss), placed, i)
  {
    ParkIsInjective(used, AllDesired(ss));
    ParkIsGreedy(used, AllDesired(ss));
  }

  /** The remap table is empty exactly when no entry's host port changed. */
  lemma EmptyRemapMeansUnmoved(desired: seq<int>, placed: seq<int>, remap: map<int, int>)
    requires |placed| == |desired| && DescribesRemap(desired, placed, remap)
    ensures remap == map[] <==> placed == desired
  {
    if remap == map[] {
      forall i | 0 <= i < |desired| ensures placed[i] == desired[i] {
        assert desired[i] !in remap;
      }
    }
    if remap != map[] {
      var d := SomeKey(remap);
      var i :| 0 <= i < |desired| && desired[i] == d && placed[i] == remap[d];
      assert placed[i] != desired[i];
    }
  }

  /** The place of an entry of a document in the list of all requests. */
  function PlaceOf(ss: seq<Service>, i: nat, j: nat): nat
    requires i < |ss| && j <= |Entries(ss[i])|
  {
    |AllDesired(ss[..i])| + Place(Entries(ss[i]), j)
  }

  /** Whether entry j of service i asks for a host port. */
  predicate Asks(ss: seq<Service>, i: nat, j: nat)
  {
    i < |ss| && j < |Entries(ss[i])| && HostPortOf(Entries(ss[i])[j]).Some?
  }

  lemma AllDesiredAround(ss: seq<Service>, i: nat) returns (later: seq<int>)
    requires i < |ss|
    ensures AllDesired(ss) == AllDesired(ss[..i]) + Desired(Entries(ss[i])) + later
  {
    assert ss == ss[..i + 1] + ss[i + 1..];
    AllDesiredSplit(ss[..i + 1], ss[i + 1..]);
    OneServiceMore(ss, i);
    later := AllDesired(ss[i + 1..]);
  }

  lemma OneServiceMore(ss: seq<Service>, i: nat)
    requires i < |ss|
    ensures AllDesired(ss[..i + 1]) == AllDesired(ss[..i]) + Desired(Entries(ss[i]))
  {
    var front := ss[..i + 1];
    assert front[..i] == ss[..i] && |front| - 1 == i && front[i] == ss[i];
  }

  /** Its request is the one at its place. */
  lemma PlaceOfItsRequest(ss: seq<Service>, i: nat, j: nat)
    requires Asks(ss, i, j)
    ensures PlaceOf(ss, i, j) < |AllDesired(ss)|
    ensures AllDesired(ss)[PlaceOf(ss, i, j)] == HostPortOf(Entries(ss[i])[j]).value
  {
    PlaceIsInOrder(Entries(ss[i]), j);
    RequestInTheMiddle(ss, i, Place(Entries(ss[i]), j), PlaceOf(ss, i, j), HostPortOf(Entries(ss[i])[j]).value);
  }

  lemma RequestInTheMiddle(ss: seq<Service>, i: nat, k: nat, place: nat, asked: int)
    requires i < |ss| && k < |Desired(Entries(ss[i]))| && Desired(Entries(ss[i]))[k] == asked
    requires place == |AllDesired(ss[..i])| + k
    ensures place < |AllDesired(ss)| && AllDesired(ss)[place] == asked
  {
    var later := AllDesiredAround(ss, i);
    InTheMiddle(AllDesired(ss), AllDesired(ss[..i]), Desired(Entries(ss[i])), later, k);
  }

  lemma InTheMiddle(all: seq<int>, a: seq<int>, b: seq<int>, c: seq<int>, k: nat)
    requires all == a + b + c && k < |b|
    ensures |a| + k < |all| && all[|a| + k] == b[k]
  {
  }

  lemma {:induction false} EntryOfRequest(es: seq<Entry>, k: nat) returns (j: nat)
    requires k < |Desired(es)|
    ensures j < |es| && HostPortOf(es[j]).Some? && Place(es, j) == k
    decreases |es|
  {
    var n := |es| - 1;
    var front := es[..n];
    if k < |Desired(front)| {
      j := EntryOfRequest(front, k);
      assert front[..j] == es[..j];
    } else {
      j := n;
    }
  }

  /** Every request comes from an entry. */
  lemma {:induction false} RequestComesFrom(ss: seq<Service>, k: nat) returns (i: nat, j: nat)
    requires k < |AllDesired(ss)|
    ensures Asks(ss, i, j) && PlaceOf(ss, i, j) == k
    decreases |ss|
  {
    var n := |ss| - 1;
    var front := ss[..n];
    if k < |AllDesired(front)| {
      i, j := RequestComesFrom(front, k);
      assert front[..i] == ss[..i];
    } else {
      i := n;
      j := EntryOfRequest(Entries(ss[n]), k - |AllDesired(front)|);
    }
  }

  /** Entry j of service i of a document is read as asking for the port placed for the original entry. */
  predicate ReadsAsPlaced(ss: seq<Service>, placed: seq<int>, now: seq<Service>, i: nat, j: nat)
    requires Asks(ss, i, j)
  {
    && PlaceOf(ss, i, j) < |placed| && i < |now| && j < |Entries(now[i])|
    && HostPortOf(Entries(now[i])[j]) == Some(placed[PlaceOf(ss, i, j)])
  }

  /** Without a save the file stays as it is. That is sound exactly when the table is empty: then, and
      only then, every entry of the file already asks for just the port that was placed for it. */
  lemma SkippingTheSaveIsSound(used: set<int>, ss: seq<Service>, remap: map<int, int>)
    requires Park(used, AllDesired(ss)).Some? && DescribesRemap(AllDesired(ss), Park(used, AllDesired(ss)).value, remap)
    ensures remap == map[] <==>
      forall i: nat, j: nat :: Asks(ss, i, j) ==> ReadsAsPlaced(ss, Park(used, AllDesired(ss)).value, ss, i, j)
  {
    var desired := AllDesired(ss);
    var placed := Park(used, desired).value;
    EmptyRemapMeansUnmoved(desired, placed, remap);
    forall i: nat, j: nat | Asks(ss, i, j)
      ensures PlaceOf(ss, i, j) < |desired| && desired[PlaceOf(ss, i, j)] == HostPortOf(Entries(ss[i])[j]).value
    {
      PlaceOfItsRequest(ss, i, j);
    }
    if forall i: nat, j: nat :: Asks(ss, i, j) ==> ReadsAsPlaced(ss, placed, ss, i, j) {
      forall k | 0 <= k < |desired| ensures placed[k] == desired[k] {
        var i, j := RequestComesFrom(ss, k);
        assert ReadsAsPlaced(ss, placed, ss, i, j);
      }
    }
  }

  lemma PlacedIsPrintable(used: set<int>, ss: seq<Service>, i: nat, j: nat)
    requires Park(used, AllDesired(ss)).Some? && Asks(ss, i, j)
    ensures PlaceOf(ss, i, j) < |AllDesired(ss)|
    ensures Entries(ss[i])[j].Short? ==> Park(used, AllDesired(ss)).value[PlaceOf(ss, i, j)] >= 0
  {
    PlaceOfItsRequest(ss, i, j);
    ParkIsGreedy(used, AllDesired(ss));
    assert GreedyAt(used, AllDesired(ss), Park(used, AllDesired(ss)).value, PlaceOf(ss, i, j));
    var e := Entries(ss[i])[j];
    if e.Short? { S.ParseResultIsParsed(e.text); }
  }

  lemma FilledEntry(ss: seq<Service>, placed: seq<int>, i: nat, j: nat)
    requires |placed| == |AllDesired(ss)| && Asks(ss, i, j)
    ensures PlaceOf(ss, i, j) < |placed|
    ensures |Entries(FillAll(ss, placed)[i])| == |Entries(ss[i])|
    ensures Entries(FillAll(ss, placed)[i])[j] == WithHostPort(Entries(ss[i])[j], placed[PlaceOf(ss, i, j)])
  {
    PlaceOfItsRequest(ss, i, j);
    FillAllServiceByService(ss, placed, i);
    var from, es := |AllDesired(ss[..i])|, Entries(ss[i]);
    var here := placed[from..][..|Desired(es)|];
    PlaceIsInOrder(es, j);
    FillEntryByEntry(es, here, j);
    assert here[Place(es, j)] == placed[from + Place(es, j)];
  }

  /** After a save an entry is read as asking for the port placed for it, unless it is a short tcp entry
      with a '/' in its bind address. */
  lemma SavedEntryIsReadable(used: set<int>, ss: seq<Service>, i: nat, j: nat)
    requires Park(used, AllDesired(ss)).Some? && Asks(ss, i, j)
    ensures var placed, e := Park(used, AllDesired(ss)).value, Entries(ss[i])[j];
      ReadsAsPlaced(ss, placed, FillAll(ss, placed), i, j) <==> (e.Short? ==> S.SurvivesPrinting(S.Parse(e.text).value))
  {
    var placed := Park(used, AllDesired(ss)).value;
    PlacedIsPrintable(used, ss, i, j);
    FilledEntry(ss, placed, i, j);
    RewriteKeepsEntry(Entries(ss[i])[j], placed[PlaceOf(ss, i, j)]);
  }

  /** What the entries of a file ask for after a remap, whether it was written or not. */
  ghost predicate FileIsPlaced(ss: seq<Service>, placed: seq<int>, now: seq<Service>, written: bool)
  {
    forall i: nat, j: nat :: Asks(ss, i, j) ==>
      (ReadsAsPlaced(ss, placed, now, i, j) <==>
       (written && Entries(ss[i])[j].Short? ==> S.SurvivesPrinting(S.Parse(Entries(ss[i])[j].text).value)))
  }

  lemma RemappedFileIsPlaced(used: set<int>, ss: seq<Service>, remap: map<int, int>)
    requires Park(used, AllDesired(ss)).Some? && DescribesRemap(AllDesired(ss), Park(used, AllDesired(ss)).value, remap)
    ensures remap == map[] ==> FileIsPlaced(ss, Park(used, AllDesired(ss)).value, ss, false)
    ensures FileIsPlaced(ss, Park(used, AllDesired(ss)).value, FillAll(ss, Park(used, AllDesired(ss)).value), true)
  {
    SkippingTheSaveIsSound(used, ss, remap);
    forall i: nat, j: nat | Asks(ss, i, j) { SavedEntryIsReadable(used, ss, i, j); }
  }

  /** The compose file on disk. */
  datatype FileState = Unreadable | NotAMapping | Document(services: Option<seq<Service>>)

  class ComposeFile {
    var state: FileState

    constructor (state: FileState)
      ensures this.state == state
    {
      this.state := state;
    }

    /** Remaps the ports of the file and writes it back if any has moved. A remap that fails leaves the
        file alone. Afterwards an entry that asked for a port is read as asking for the one placed for
        it, unless the file was written and the entry does not survive printing. */
    method RemapIfNeeded(initiallyUsed: set<int>) returns (ok: bool, remap: map<int, int>)
      modifies this
      ensures !(old(state).Document? && old(state).services.Some?) ==> ok && remap == map[] && state == old(state)
      ensures !ok || remap == map[] ==> state == old(state)
      ensures old(state).Document? && old(state).services.Some? ==>
        var ss := old(state).services.value;
        && (ok <==> Park(initiallyUsed, AllDesired(ss)).Some?)
        && (ok && remap != map[] ==> state == Document(Some(FillAll(ss, Park(initiallyUsed, AllDesired(ss)).value))))
        && (ok ==> state.Document? && state.services.Some? &&
                   FileIsPlaced(ss, Park(initiallyUsed, AllDesired(ss)).value, state.services.value, remap != map[]))
    {
      if !state.Document? {
        return true, map[];
      }
      var payload := new ComposePayload(state.services);
      ghost var failedAt;
      ok, remap, failedAt := payload.RemapPorts(initiallyUsed);
      if !ok {
        return;
      }
      if state.services.Some? {
        RemappedFileIsPlaced(initiallyUsed, state.services.value, remap);
      }
      if remap != map[] {
        state := Document(payload.services);
      }
    }
  }

  /** The order in which services are visited does not matter to success or to the ports taken. */
  lemma VisitingOrderDoesNotMatter(used: set<int>, ss: seq<Service>, ts: seq<Service>)
    requires multiset(ss) == multiset(ts)
    ensures SameOutcome(Park(used, AllDesired(ss)), Park(used, AllDesired(ts)))
  {
    AllDesiredOfPermutation(ss, ts);
    ParkIsOrderIndependent(used, AllDesired(ss), AllDesired(ts));
  }

  lemma Concatenate(a: seq<int>, b: seq<int>, c: seq<int>)
    ensures a + b + c == a + (b + c)
  {
  }

  lemma {:induction false} AllDesiredSplit(a: seq<Service>, b: seq<Service>)
    ensures AllDesired(a + b) == AllDesired(a) + AllDesired(b)
    decreases b
  {
    if b == [] {
      assert a + b == a;
    } else {
      var front, last := b[..|b| - 1], b[|b| - 1];
      var all := a + b;
      assert all[..|all| - 1] == a + front && all[|all| - 1] == last;
      AllDesiredSplit(a, front);
      Concatenate(AllDesired(a), AllDesired(front), Desired(Entries(last)));
    }
  }

  lemma {:induction false} AllDesiredOfPermutation(ss: seq<Service>, ts: seq<Service>)
    requires multiset(ss) == multiset(ts)
    ensures multiset(AllDesired(ss)) == multiset(AllDesired(ts))
    decreases ss
  {
    if ss == [] {
      assert |multiset(ts)| == 0;
    } else {
      var s := ss[0];
      var i := FindHead(ss, ts);
      assert ss == [s] + ss[1..];
      assert ts == ts[..i] + ([s] + ts[i + 1..]);
      AllDesiredOfPermutation(ss[1..], ts[..i] + ts[i + 1..]);
      AllDesiredSplit([s], ss[1..]);
      AllDesiredSplit(ts[..i], ts[i + 1..]);
      AllDesiredSplit(ts[..i], [s] + ts[i + 1..]);
      AllDesiredSplit([s], ts[i + 1..]);
    }
  }
}

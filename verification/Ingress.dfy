/** The ingress route store: a state file that is read, changed and rewritten by every request, and the
    proxy configuration rendered from it. */
module Ingress {
  import opened Wrappers

  /** JSON values, as far as the store looks into them. It takes `true` and `false` for the integers 1 and 0. */
  datatype Json = JString(s: string) | JInt(n: int) | JObject(fields: map<string, Json>) | JOther

  /** The state file. `Garbled` is a file that cannot be read or is not JSON. */
  datatype File = Missing | Garbled | Document(json: Json)

  datatype Route = Route(host: string, port: int, scheme: string, metadata: map<string, Json>)

  type Routes = map<string, Route>

  predicate KnownScheme(scheme: string) { scheme == "http" || scheme == "https" }

  /** Routes as the store keeps them: the scheme is one of two. */
  predicate Normal(routes: Routes)
  {
    forall h :: h in routes ==> KnownScheme(routes[h].scheme)
  }

  // ---------------------------------------------------------------- the state file

  predicate Usable(entry: Json)
  {
    && entry.JObject?
    && "upstream_host" in entry.fields && entry.fields["upstream_host"].JString?
    && "upstream_port" in entry.fields && entry.fields["upstream_port"].JInt?
  }

  function SchemeOf(fields: map<string, Json>): string
  {
    if "service_scheme" in fields && fields["service_scheme"].JString? && KnownScheme(fields["service_scheme"].s)
    then fields["service_scheme"].s else "http"
  }

  function MetadataOf(fields: map<string, Json>): map<string, Json>
  {
    if "metadata" in fields && fields["metadata"].JObject? then fields["metadata"].fields else map[]
  }

  function RouteOf(entry: Json): Route
    requires Usable(entry)
  {
    Route(entry.fields["upstream_host"].s, entry.fields["upstream_port"].n, SchemeOf(entry.fields),
          MetadataOf(entry.fields))
  }

  /** Unreadable files and entries without an upstream are dropped without a word. */
  function Load(file: File): Routes
  {
    match file
    case Missing => map[]
    case Garbled => map[]
    case Document(json) =>
      if !json.JObject? then map[] else
      map h | h in json.fields && Usable(json.fields[h]) :: RouteOf(json.fields[h])
  }

  function EntryOf(r: Route): Json
  {
    JObject(map["upstream_host" := JString(r.host), "upstream_port" := JInt(r.port),
                "service_scheme" := JString(r.scheme), "metadata" := JObject(r.metadata)])
  }

  function Dump(routes: Routes): File
  {
    Document(JObject(map h | h in routes :: EntryOf(routes[h])))
  }

  /** Exactly which hostnames are loaded, those whose entry is an object with a text for the upstream's
      host and an integer for its port, and what is loaded for them: a scheme other than the two known
      ones counts as http, and metadata that is not an object as none. */
  lemma LoadsExactly(file: File, h: string)
    ensures h in Load(file) <==>
      && file.Document? && file.json.JObject? && h in file.json.fields && file.json.fields[h].JObject?
      && var entry := file.json.fields[h].fields;
         && "upstream_host" in entry && entry["upstream_host"].JString?
         && "upstream_port" in entry && entry["upstream_port"].JInt?
    ensures h in Load(file) ==>
      var entry, r := file.json.fields[h].fields, Load(file)[h];
      && JString(r.host) == entry["upstream_host"] && JInt(r.port) == entry["upstream_port"]
      && r.scheme == (if "service_scheme" in entry && entry["service_scheme"] == JString("https")
                      then "https" else "http")
      && if "metadata" in entry && entry["metadata"].JObject? then JObject(r.metadata) == entry["metadata"]
         else r.metadata == map[]
  {
    if h in Load(file) {
      var entry := file.json.fields[h].fields;
      if "service_scheme" in entry && entry["service_scheme"].JString? {
        assert entry["service_scheme"] == JString(entry["service_scheme"].s);
      }
    }
  }

  lemma LoadIsNormal(file: File)
    ensures Normal(Load(file))
  {
  }

  lemma EntryRoundTrip(r: Route)
    ensures Usable(EntryOf(r))
    ensures KnownScheme(r.scheme) ==> RouteOf(EntryOf(r)) == r
    ensures !KnownScheme(r.scheme) ==> RouteOf(EntryOf(r)) == r.(scheme := "http")
  {
  }

  /** Loading what was written gives the routes back exactly when they are normalised. */
  lemma LoadAfterDump(routes: Routes)
    ensures Load(Dump(routes)) == routes <==> Normal(routes)
  {
    var back := Load(Dump(routes));
    forall h | h in routes
      ensures h in back && back[h] == RouteOf(EntryOf(routes[h]))
      ensures back[h] == routes[h] <==> KnownScheme(routes[h].scheme)
    {
      EntryRoundTrip(routes[h]);
    }
    assert forall h :: h in back ==> h in routes;
  }

  // ---------------------------------------------------------------- the proxy's configuration

  datatype Router = Router(hostname: string, service: string)

  datatype Upstream = Upstream(scheme: string, host: string, port: int)

  /** The rendered file as the proxy reads it: two tables, from route ids to routers and from service
      names to upstreams. Of two entries under one key the later one counts. */
  datatype Config = Config(routers: map<string, Router>, services: map<string, Upstream>)

  function UpstreamOf(r: Route): Upstream
  {
    Upstream(if r.scheme == "" then "http" else r.scheme, r.host, r.port)
  }

  /** The hostnames listed one after the other; `ids` gives each its route id. */
  function Routers(hostnames: seq<string>, ids: string -> string): map<string, Router>
  {
    if hostnames == [] then map[] else
    var n := |hostnames| - 1;
    Routers(hostnames[..n], ids)[ids(hostnames[n]) := Router(hostnames[n], ids(hostnames[n]))]
  }

  function Services(hostnames: seq<string>, routes: Routes, ids: string -> string): map<string, Upstream>
    requires forall h :: h in hostnames ==> h in routes
  {
    if hostnames == [] then map[] else
    var n := |hostnames| - 1;
    Services(hostnames[..n], routes, ids)[ids(hostnames[n]) := UpstreamOf(routes[hostnames[n]])]
  }

  /** A listing of exactly the hostnames of a store, each once. */
  ghost predicate Lists(hostnames: seq<string>, routes: Routes)
  {
    && (forall h :: h in hostnames <==> h in routes)
    && forall i, j :: 0 <= i < j < |hostnames| ==> hostnames[i] != hostnames[j]
  }

  function Render(hostnames: seq<string>, routes: Routes, ids: string -> string): Config
    requires forall h :: h in hostnames ==> h in routes
  {
    Config(Routers(hostnames, ids), Services(hostnames, routes, ids))
  }

  /** The configuration is a rendering of the routes. */
  ghost predicate IsRendering(config: Config, routes: Routes, ids: string -> string)
  {
    exists hostnames :: Lists(hostnames, routes) && config == Render(hostnames, routes, ids)
  }

  /** The proxy sends requests for a hostname to an upstream. */
  predicate Serves(config: Config, hostname: string, upstream: Upstream)
  {
    exists id :: id in config.routers && config.routers[id].hostname == hostname &&
                 config.routers[id].service in config.services &&
                   config.services[config.routers[id].service] == upstream
  }

  /** What the two tables hold, hostname by hostname. */
  lemma {:induction false} RenderedTables(hostnames: seq<string>, routes: Routes, ids: string -> string)
    requires forall h :: h in hostnames ==> h in routes
    ensures var routers, services := Routers(hostnames, ids), Services(hostnames, routes, ids);
      && routers.Keys == services.Keys
      && (forall h :: h in hostnames ==> ids(h) in routers)
      && forall id :: id in routers ==>
           var h := routers[id].hostname;
           h in hostnames && ids(h) == id && routers[id].service == id && services[id] == UpstreamOf(routes[h])
    decreases |hostnames|
  {
    if hostnames != [] {
      var n := |hostnames| - 1;
      RenderedTables(hostnames[..n], routes, ids);
      assert hostnames == hostnames[..n] + [hostnames[n]];
    }
  }

  /** Every router of a rendering names a service that is rendered too, and a hostname that is served
      at all is served by the host and port of its own route, with the route's scheme or, where that is
      empty, http, whether or not route ids are distinct. */
  lemma RoutersNameTheirServices(config: Config, routes: Routes, ids: string -> string)
    requires IsRendering(config, routes, ids)
    ensures forall id :: id in config.routers ==> config.routers[id].service in config.services
    ensures forall h, u :: Serves(config, h, u) ==>
      && h in routes && u.host == routes[h].host && u.port == routes[h].port
      && u.scheme == if routes[h].scheme == "" then "http" else routes[h].scheme
  {
    var hostnames :| Lists(hostnames, routes) && config == Render(hostnames, routes, ids);
    RenderedTables(hostnames, routes, ids);
  }

  /** Every stored hostname is served exactly when no two of them share a route id. */
  lemma ServesAllExactlyWhenIdsDiffer(config: Config, routes: Routes, ids: string -> string)
    requires IsRendering(config, routes, ids)
    ensures (forall h :: h in routes ==> exists u :: Serves(config, h, u)) <==>
            (forall g, h :: g in routes && h in routes && ids(g) == ids(h) ==> g == h)
  {
    var hostnames :| Lists(hostnames, routes) && config == Render(hostnames, routes, ids);
    RenderedTables(hostnames, routes, ids);
    if forall g, h :: g in routes && h in routes && ids(g) == ids(h) ==> g == h {
      forall h | h in routes ensures exists u :: Serves(config, h, u) {
        assert h in hostnames;
        assert config.routers[ids(h)].hostname == h;
        assert Serves(config, h, UpstreamOf(routes[h]));
      }
    } else {
      var g, h :| g in routes && h in routes && ids(g) == ids(h) && g != h;
      var lost := if config.routers[ids(g)].hostname == g then h else g;
      assert forall u :: !Serves(config, lost, u);
    }
  }

  // ---------------------------------------------------------------- route ids

  predicate IsSlugChar(c: char) { 'a' <= c <= 'z' || '0' <= c <= '9' || c == '-' }

  function SlugChar(c: char): (r: char)
    ensures IsSlugChar(r)
  {
    if 'A' <= c <= 'Z' then 'a' + (c - 'A') else if IsSlugChar(c) then c else '-'
  }

  function Dashless(s: string): (r: string)
    ensures r == [] || (r[0] != '-' && r[|r| - 1] != '-')
    ensures forall c :: c in r ==> c in s
  {
    if s == [] then [] else
    if s[0] == '-' then Dashless(s[1..]) else
    if s[|s| - 1] == '-' then Dashless(s[..|s| - 1]) else s
  }

  function Mapped(hostname: string): (r: string)
    ensures |r| == |hostname| && forall i :: 0 <= i < |hostname| ==> r[i] == SlugChar(hostname[i])
  {
    seq(|hostname|, i requires 0 <= i < |hostname| => SlugChar(hostname[i]))
  }

  function Slug(hostname: string): (r: string)
    ensures r != [] && r[0] != '-' && r[|r| - 1] != '-'
    ensures forall c :: c in r ==> IsSlugChar(c)
  {
    var slug := Dashless(Mapped(hostname));
    if slug == [] then "route" else slug
  }

  predicate Dashes(s: string) { forall c :: c in s ==> c == '-' }

  /** Only dashes are taken off, at the two ends. */
  lemma {:induction false} DashlessIsTheMiddle(s: string) returns (a: string, b: string)
    ensures s == a + Dashless(s) + b && Dashes(a) && Dashes(b)
    decreases s
  {
    a, b := "", "";
    if s != [] {
      if s[0] == '-' {
        a, b := DashlessIsTheMiddle(s[1..]);
        assert s == ['-'] + s[1..];
        a := ['-'] + a;
      } else if s[|s| - 1] == '-' {
        a, b := DashlessIsTheMiddle(s[..|s| - 1]);
        assert s == s[..|s| - 1] + ['-'];
        b := b + ['-'];
      }
    }
  }

  /** A slug is its hostname, character by character in lower case or, where it is no letter, digit or
      dash, replaced by a dash, but for the dashes at both ends; a hostname that leaves nothing else has
      the slug "route". */
  lemma SlugOfHostname(hostname: string) returns (a: string, b: string)
    ensures |Mapped(hostname)| == |hostname|
    ensures forall i :: 0 <= i < |hostname| ==>
      var c, m := hostname[i], Mapped(hostname)[i];
      if 'A' <= c <= 'Z' then m as int == c as int + 32
      else if 'a' <= c <= 'z' || '0' <= c <= '9' then m == c
      else m == '-'
    ensures Dashes(Mapped(hostname)) ==> Slug(hostname) == "route"
    ensures !Dashes(Mapped(hostname)) ==> Mapped(hostname) == a + Slug(hostname) + b && Dashes(a) && Dashes(b)
  {
    var m := Mapped(hostname);
    a, b := DashlessIsTheMiddle(m);
    var d := Dashless(m);
    if d == [] {
      forall c | c in m ensures c == '-' { assert c in a || c in b; }
    } else {
      assert d[0] in m;
    }
  }

  /** The digest is the first eight characters of a hash, which is not modelled. */
  function RouteId(hostname: string, digest: string -> string): string
  {
    Slug(hostname) + "-" + digest(hostname)
  }

  /** Two hostnames share a route id exactly when both their slugs and their digests agree. */
  lemma RouteIdsAgree(g: string, h: string, digest: string -> string)
    requires |digest(g)| == 8 && |digest(h)| == 8
    ensures RouteId(g, digest) == RouteId(h, digest) <==> Slug(g) == Slug(h) && digest(g) == digest(h)
  {
    var a, b := RouteId(g, digest), RouteId(h, digest);
    assert digest(g) == a[|a| - 8..] && digest(h) == b[|b| - 8..];
    assert Slug(g) == a[..|a| - 9] && Slug(h) == b[..|b| - 9];
  }

  // ---------------------------------------------------------------- requests

  datatype Request = Ensure | Upsert(hostname: string, route: Route) | Remove(hostname: string)

  /** The request validator admits two schemes only. */
  predicate Admissible(request: Request)
  {
    request.Upsert? ==> KnownScheme(request.route.scheme)
  }

  /** What a request means: an operation on a plain map. */
  function Applied(routes: Routes, request: Request): Routes
  {
    match request
    case Ensure => routes
    case Upsert(hostname, route) => routes[hostname := route]
    case Remove(hostname) => routes - {hostname}
  }

  function AllApplied(routes: Routes, requests: seq<Request>): Routes
  {
    if requests == [] then routes else
    Applied(AllApplied(routes, requests[..|requests| - 1]), requests[|requests| - 1])
  }

  predicate IsAbout(request: Request, h: string)
  {
    (request.Upsert? || request.Remove?) && request.hostname == h
  }

  /** What requests mean for a hostname: the last one about it decides, and without one the hostname is
      as it was. */
  lemma {:induction false} LastRequestDecides(routes: Routes, requests: seq<Request>, h: string, k: int)
    requires -1 <= k < |requests| && (k >= 0 ==> IsAbout(requests[k], h))
    requires forall j :: k < j < |requests| ==> !IsAbout(requests[j], h)
    ensures var after := AllApplied(routes, requests);
      if k < 0 then (h in after <==> h in routes) && (h in routes ==> after[h] == routes[h])
      else match requests[k]
        case Upsert(_, route) => h in after && after[h] == route
        case Remove(_) => h !in after
        case Ensure => false
    decreases requests
  {
    if requests != [] {
      var n := |requests| - 1;
      if k < n { LastRequestDecides(routes, requests[..n], h, k); }
    }
  }

  /** Lists the hostnames of a store in some order. */
  method ListHostnames(routes: Routes) returns (hostnames: seq<string>)
    ensures Lists(hostnames, routes)
  {
    hostnames := [];
    var left := routes.Keys;
    while left != {}
      invariant left <= routes.Keys
      invariant forall h :: h in hostnames <==> h in routes && h !in left
      invariant forall i, j :: 0 <= i < j < |hostnames| ==> hostnames[i] != hostnames[j]
      decreases |left|
    {
      var h := Pick(left);
      hostnames := hostnames + [h];
      left := left - {h};
    }
  }

  class RouteStore {
    var file: File
    var config: Config
    const ids: string -> string

    constructor (file: File, config: Config, ids: string -> string)
      ensures this.file == file && this.config == config && this.ids == ids
    {
      this.file := file;
      this.config := config;
      this.ids := ids;
    }

    /** Reads the state file, after putting an empty one in place of a missing one. */
    method LoadRoutes() returns (routes: Routes)
      modifies this`file
      ensures routes == Load(old(file)) && Load(file) == routes && Normal(routes)
      ensures file == if old(file) == Missing then Document(JObject(map[])) else old(file)
    {
      if file == Missing {
        file := Document(JObject(map[]));
      }
      routes := Load(file);
      LoadIsNormal(file);
    }

    /** Renders the configuration, routers first and then services. */
    method WriteConfig(routes: Routes)
      modifies this`config
      ensures IsRendering(config, routes, ids)
    {
      var hostnames := ListHostnames(routes);
      var routers: map<string, Router> := map[];
      var k := 0;
      while k < |hostnames|
        invariant 0 <= k <= |hostnames|
        invariant routers == Routers(hostnames[..k], ids)
      {
        assert hostnames[..k + 1][..k] == hostnames[..k];
        routers := routers[ids(hostnames[k]) := Router(hostnames[k], ids(hostnames[k]))];
        k := k + 1;
      }
      var services: map<string, Upstream> := map[];
      k := 0;
      while k < |hostnames|
        invariant 0 <= k <= |hostnames|
        invariant services == Services(hostnames[..k], routes, ids)
      {
        assert hostnames[..k + 1][..k] == hostnames[..k];
        services := services[ids(hostnames[k]) := UpstreamOf(routes[hostnames[k]])];
        k := k + 1;
      }
      assert hostnames[..|hostnames|] == hostnames;
      config := Config(routers, services);
    }

    method EnsureProxy()
      modifies this
      ensures Load(file) == Load(old(file))
      ensures IsRendering(config, Load(file), ids)
    {
      var routes := LoadRoutes();
      WriteConfig(routes);
    }

    method UpsertRoute(hostname: string, route: Route)
      requires KnownScheme(route.scheme)
      modifies this
      ensures Load(file) == Load(old(file))[hostname := route]
      ensures IsRendering(config, Load(file), ids)
    {
      var routes := LoadRoutes();
      routes := routes[hostname := route];
      LoadAfterDump(routes);
      file := Dump(routes);
      WriteConfig(routes);
    }

    method RemoveRoute(hostname: string) returns (removed: bool)
      modifies this
      ensures removed == (hostname in Load(old(file)))
      ensures Load(file) == Load(old(file)) - {hostname}
      ensures IsRendering(config, Load(file), ids)
    {
      var routes := LoadRoutes();
      removed := hostname in routes;
      if removed {
        routes := routes - {hostname};
      }
      assert routes == Load(old(file)) - {hostname};
      assert Normal(routes);
      LoadAfterDump(routes);
      file := Dump(routes);
      WriteConfig(routes);
    }

    /** Over every run of requests, from whatever state file, the store is the plain map that the
        requests describe, and the configuration is a rendering of it. */
    method Serve(requests: seq<Request>)
      requires forall r :: r in requests ==> Admissible(r)
      modifies this
      ensures Load(file) == AllApplied(Load(old(file)), requests)
      ensures requests != [] ==> IsRendering(config, Load(file), ids)
    {
      var k := 0;
      while k < |requests|
        invariant 0 <= k <= |requests|
        invariant Load(file) == AllApplied(Load(old(file)), requests[..k])
        invariant k > 0 ==> IsRendering(config, Load(file), ids)
      {
        assert requests[..k + 1][..k] == requests[..k];
        match requests[k] {
          case Ensure => EnsureProxy();
          case Upsert(hostname, route) =>
            assert Admissible(requests[k]);
            UpsertRoute(hostname, route);
          case Remove(hostname) =>
            var _ := RemoveRoute(hostname);
        }
        k := k + 1;
      }
      assert requests[..k] == requests;
    }
  }
}

/** Which route checks exist (`route_checks` in backend/app/collectors/autochecks.py), derived
    from the Gateway API status that backend/app/collectors/gateway.py maps. */
module RouteChecks {
  import opened Basics
  import opened Options
  import opened AutoChecks

  datatype Listener = Listener(hostname: Option<string>, port: Option<int>, protocol: Option<string>)

  datatype Gateway = Gateway(addresses: seq<string>, listeners: seq<Listener>)

  datatype Service = Service(clusterIp: Option<string>, externalIps: seq<string>)

  datatype Route = Route(
    accepted: bool, resolvedRefs: bool,
    parentNames: seq<string>, parentNamespaces: seq<string>, hostnames: seq<string>
  )

  /** Python's truth value of an optional string. */
  predicate Truthy(s: Option<string>) {
    s.Some? && s.value != ""
  }

  function First<X>(s: seq<X>, p: X -> bool): (r: Option<X>)
    ensures r.Some? ==> exists i :: 0 <= i < |s| && s[i] == r.value && p(s[i]) && forall j :: 0 <= j < i ==> !p(s[j])
    ensures r.None? ==> forall i :: 0 <= i < |s| ==> !p(s[i])
  {
    if s == [] then None
    else if p(s[0]) then Some(s[0])
    else First(s[1..], p)
  }

  predicate IsHttp(l: Listener) {
    l.protocol == Some("HTTP") || l.protocol == Some("HTTPS")
  }

  /** The first listener for the hostname itself, else the first catch-all. */
  function FindListener(gateway: Gateway, hostname: string): Option<Listener> {
    var exact := First(gateway.listeners, (l: Listener) => l.hostname == Some(hostname) && IsHttp(l));
    if exact.Some? then exact
    else First(gateway.listeners, (l: Listener) => !Truthy(l.hostname) && IsHttp(l))
  }

  predicate Shares(gateway: Gateway, svc: Service) {
    exists a :: a in gateway.addresses && a in svc.externalIps
  }

  /** The cluster IP of the first Service with one of the gateway's addresses. */
  function GatewayClusterIp(gateway: Gateway, services: seq<Service>): Option<string> {
    var svc := First(services, (s: Service) => Shares(gateway, s));
    if svc.Some? then svc.value.clusterIp else None
  }

  /** What the derivation reads of the cluster state, in iteration order. */
  datatype Status = Status(routes: seq<Route>, gateways: map<string, Gateway>, services: seq<Service>)

  function ParentCount(route: Route): nat {
    Min(|route.parentNames|, |route.parentNamespaces|)
  }

  function ParentKey(route: Route, p: nat): string
    requires p < ParentCount(route)
  {
    route.parentNamespaces[p] + "/" + route.parentNames[p]
  }

  /** The parent's gateway exists and a Service with a cluster IP stands behind it. */
  predicate Backed(st: Status, route: Route, p: nat) {
    && p < ParentCount(route)
    && ParentKey(route, p) in st.gateways
    && Truthy(GatewayClusterIp(st.gateways[ParentKey(route, p)], st.services))
  }

  predicate Listens(gateway: Gateway, hostname: string) {
    var l := FindListener(gateway, hostname);
    l.Some? && l.value.port.Some? && l.value.port.value != 0
  }

  /** The route offers the hostname through its p-th parent. */
  predicate Offers(st: Status, route: Route, p: nat, hostname: string) {
    && route.accepted && route.resolvedRefs
    && Backed(st, route, p)
    && hostname in route.hostnames
    && Listens(st.gateways[ParentKey(route, p)], hostname)
  }

  function CheckFor(st: Status, route: Route, p: nat, hostname: string): Check
    requires Backed(st, route, p) && Listens(st.gateways[ParentKey(route, p)], hostname)
  {
    var gateway := st.gateways[ParentKey(route, p)];
    var l := FindListener(gateway, hostname).value;
    RouteCheck(GatewayClusterIp(gateway, st.services).value, l.port.value, l.protocol == Some("HTTPS"), hostname)
  }

  /** The check from the last of a route's first k parents that offers the hostname. */
  function FromParents(st: Status, route: Route, k: nat, hostname: string): Option<Check> {
    if k == 0 then None
    else if Offers(st, route, k - 1, hostname) then Some(CheckFor(st, route, k - 1, hostname))
    else FromParents(st, route, k - 1, hostname)
  }

  /** The check from the last of the first n routes that offers the hostname. */
  function FromRoutes(st: Status, n: nat, hostname: string): Option<Check>
    requires n <= |st.routes|
  {
    if n == 0 then None
    else
      var c := FromParents(st, st.routes[n - 1], ParentCount(st.routes[n - 1]), hostname);
      if c.Some? then c else FromRoutes(st, n - 1, hostname)
  }

  /** `route_checks`. */
  method DeriveRouteChecks(st: Status) returns (checks: map<string, Check>)
    ensures forall h: string :: Find(checks, h) == FromRoutes(st, |st.routes|, h)
  {
    checks := map[];
    for n := 0 to |st.routes|
      invariant forall h: string :: Find(checks, h) == FromRoutes(st, n, h)
    {
      var route := st.routes[n];
      ghost var before := checks;
      if route.accepted && route.resolvedRefs {
        for p := 0 to ParentCount(route)
          invariant forall h: string ::
            Find(checks, h) ==
            (if FromParents(st, route, p, h).Some? then FromParents(st, route, p, h) else Find(before, h))
        {
          if Backed(st, route, p) {
            checks := AddHostnames(st, route, p, checks);
          }
        }
      } else {
        forall h: string ensures FromParents(st, route, ParentCount(route), h) == None {
          NoParent(st, route, ParentCount(route), h);
        }
      }
    }
  }

  lemma {:induction false} NoParent(st: Status, route: Route, k: nat, h: string)
    requires !(route.accepted && route.resolvedRefs)
    ensures FromParents(st, route, k, h) == None
  {
    if k > 0 {
      NoParent(st, route, k - 1, h);
    }
  }

  /** The innermost loop: one parent, every hostname. */
  method AddHostnames(st: Status, route: Route, p: nat, checks0: map<string, Check>)
    returns (checks: map<string, Check>)
    requires route.accepted && route.resolvedRefs && Backed(st, route, p)
    ensures forall h: string ::
      Find(checks, h) == (if Offers(st, route, p, h) then Some(CheckFor(st, route, p, h)) else Find(checks0, h))
  {
    checks := checks0;
    var gateway := st.gateways[ParentKey(route, p)];
    var clusterIp := GatewayClusterIp(gateway, st.services).value;
    for i := 0 to |route.hostnames|
      invariant forall h: string ::
        Find(checks, h) ==
        (if h in route.hostnames[..i] && Offers(st, route, p, h) then Some(CheckFor(st, route, p, h))
         else Find(checks0, h))
    {
      var hostname := route.hostnames[i];
      var listener := FindListener(gateway, hostname);
      if listener.Some? && listener.value.port.Some? && listener.value.port.value != 0 {
        checks := checks[hostname :=
          RouteCheck(clusterIp, listener.value.port.value, listener.value.protocol == Some("HTTPS"), hostname)];
      }
      assert forall h: string :: h in route.hostnames[..i + 1] <==> h in route.hostnames[..i] || h == hostname;
    }
  }

  // ---------------- what the result means ----------------

  /** (i, p) comes before (j, q) in iteration order. */
  predicate Before(i: nat, p: nat, j: nat, q: nat) {
    i < j || (i == j && p < q)
  }

  ghost predicate OffersAt(st: Status, i: nat, p: nat, h: string) {
    i < |st.routes| && Offers(st, st.routes[i], p, h)
  }

  lemma {:induction false} FromParentsIsLast(st: Status, route: Route, k: nat, h: string)
    requires k <= ParentCount(route)
    ensures FromParents(st, route, k, h).None? ==> forall p :: 0 <= p < k ==> !Offers(st, route, p, h)
    ensures FromParents(st, route, k, h).Some? ==>
      exists p: nat :: p < k && Offers(st, route, p, h)
        && FromParents(st, route, k, h).value == CheckFor(st, route, p, h)
        && forall q :: p < q < k ==> !Offers(st, route, q, h)
  {
    if k > 0 {
      FromParentsIsLast(st, route, k - 1, h);
    }
  }

  /** The last (route, parent) that offers a hostname decides its check. */
  ghost predicate Decides(st: Status, n: nat, i: nat, p: nat, h: string, c: Check) {
    && i < n && OffersAt(st, i, p, h)
    && c == CheckFor(st, st.routes[i], p, h)
    && forall j: nat, q: nat :: j < n && OffersAt(st, j, q, h) ==> !Before(i, p, j, q)
  }

  lemma {:induction false} NoRoute(st: Status, n: nat, h: string)
    requires n <= |st.routes| && FromRoutes(st, n, h).None?
    ensures forall i: nat, p: nat :: i < n ==> !OffersAt(st, i, p, h)
  {
    if n > 0 {
      NoRoute(st, n - 1, h);
      FromParentsIsLast(st, st.routes[n - 1], ParentCount(st.routes[n - 1]), h);
    }
  }

  lemma {:induction false} FromRoutesIsLast(st: Status, n: nat, h: string) returns (i: nat, p: nat)
    requires n <= |st.routes| && FromRoutes(st, n, h).Some?
    ensures Decides(st, n, i, p, h, FromRoutes(st, n, h).value)
  {
    var route := st.routes[n - 1];
    var k := ParentCount(route);
    FromParentsIsLast(st, route, k, h);
    var c := FromParents(st, route, k, h);
    if c.Some? {
      p :| p < k && Offers(st, route, p, h) && c.value == CheckFor(st, route, p, h)
        && forall q :: p < q < k ==> !Offers(st, route, q, h);
      i := n - 1;
    } else {
      i, p := FromRoutesIsLast(st, n - 1, h);
    }
  }

  /** A hostname has a check exactly if some route offers it, and its check is the one of the
      last (route, parent) that does. */
  lemma RouteChecksExact(st: Status, checks: map<string, Check>, h: string)
    requires forall h: string :: Find(checks, h) == FromRoutes(st, |st.routes|, h)
    ensures h in checks <==> exists i: nat, p: nat :: OffersAt(st, i, p, h)
    ensures h in checks ==> exists i: nat, p: nat :: Decides(st, |st.routes|, i, p, h, checks[h])
  {
    assert Find(checks, h) == FromRoutes(st, |st.routes|, h);
    if h in checks {
      var i, p := FromRoutesIsLast(st, |st.routes|, h);
      assert Decides(st, |st.routes|, i, p, h, checks[h]);
      assert OffersAt(st, i, p, h);
    } else {
      NoRoute(st, |st.routes|, h);
    }
  }

  // ---------------- in terms of the status alone ----------------

  ghost predicate SpeaksHttp(l: Listener) {
    l.protocol == Some("HTTP") || l.protocol == Some("HTTPS")
  }

  ghost predicate IsFor(l: Listener, hostname: string) {
    SpeaksHttp(l) && l.hostname == Some(hostname)
  }

  ghost predicate CatchesAll(l: Listener) {
    SpeaksHttp(l) && (l.hostname == None || l.hostname == Some(""))
  }

  /** Listener i serves the hostname: it is the first of its own, and where there is none the
      first that catches all. */
  ghost predicate Serves(ls: seq<Listener>, i: nat, hostname: string) {
    && i < |ls|
    && if exists j :: 0 <= j < |ls| && IsFor(ls[j], hostname)
       then IsFor(ls[i], hostname) && forall j :: 0 <= j < i ==> !IsFor(ls[j], hostname)
       else CatchesAll(ls[i]) && forall j :: 0 <= j < i ==> !CatchesAll(ls[j])
  }

  lemma OwnListener(gateway: Gateway, hostname: string)
    ensures
      var l, ls := FindListener(gateway, hostname), gateway.listeners;
      (exists j :: 0 <= j < |ls| && IsFor(ls[j], hostname)) ==>
        l.Some? && exists i :: 0 <= i < |ls| && ls[i] == l.value && Serves(ls, i, hostname)
  {
    var ls := gateway.listeners;
    if k :| 0 <= k < |ls| && IsFor(ls[k], hostname) {
      var l := First(ls, (l: Listener) => l.hostname == Some(hostname) && IsHttp(l)).value;
      var i :| 0 <= i < |ls| && ls[i] == l && IsFor(ls[i], hostname) && forall j :: 0 <= j < i ==> !IsFor(ls[j], hostname);
      assert Serves(ls, i, hostname);
    }
  }

  lemma CatchAllListener(gateway: Gateway, hostname: string)
    requires forall j :: 0 <= j < |gateway.listeners| ==> !IsFor(gateway.listeners[j], hostname)
    ensures
      var l, ls := FindListener(gateway, hostname), gateway.listeners;
      if l.Some? then exists i :: 0 <= i < |ls| && ls[i] == l.value && Serves(ls, i, hostname)
      else forall j :: 0 <= j < |ls| ==> !CatchesAll(ls[j])
  {
    var ls, l := gateway.listeners, FindListener(gateway, hostname);
    if l.Some? {
      var i :| 0 <= i < |ls| && ls[i] == l.value && CatchesAll(ls[i]) && forall j :: 0 <= j < i ==> !CatchesAll(ls[j]);
      assert Serves(ls, i, hostname);
    }
  }

  lemma ListenerServes(gateway: Gateway, hostname: string) returns (i: nat)
    ensures FindListener(gateway, hostname).Some? ==>
      Serves(gateway.listeners, i, hostname) && FindListener(gateway, hostname).value == gateway.listeners[i]
    ensures FindListener(gateway, hostname).None? ==> forall j: nat :: !Serves(gateway.listeners, j, hostname)
  {
    i := 0;
    var ls, l := gateway.listeners, FindListener(gateway, hostname);
    OwnListener(gateway, hostname);
    if !exists j :: 0 <= j < |ls| && IsFor(ls[j], hostname) {
      CatchAllListener(gateway, hostname);
    }
    hide FindListener, IsFor, CatchesAll;
    if l.Some? {
      i :| 0 <= i < |ls| && ls[i] == l.value && Serves(ls, i, hostname);
    }
  }

  ghost predicate SharesAddress(gateway: Gateway, svc: Service) {
    exists a :: a in gateway.addresses && a in svc.externalIps
  }

  /** Service i stands behind the gateway: it is the first with one of its addresses. */
  ghost predicate Fronts(services: seq<Service>, i: nat, gateway: Gateway) {
    && i < |services| && SharesAddress(gateway, services[i])
    && forall j :: 0 <= j < i ==> !SharesAddress(gateway, services[j])
  }

  lemma OnlyFront(services: seq<Service>, i: nat, j: nat, gateway: Gateway)
    requires Fronts(services, i, gateway) && Fronts(services, j, gateway)
    ensures i == j
  {
  }

  lemma ServiceFronts(gateway: Gateway, services: seq<Service>) returns (i: nat)
    ensures GatewayClusterIp(gateway, services).Some? ==>
      Fronts(services, i, gateway) && GatewayClusterIp(gateway, services) == services[i].clusterIp
    ensures forall j: nat | Fronts(services, j, gateway) ::
      GatewayClusterIp(gateway, services) == services[j].clusterIp
  {
    i := 0;
    var svc := First(services, (s: Service) => Shares(gateway, s));
    assert forall j :: 0 <= j < |services| ==> (Shares(gateway, services[j]) <==> SharesAddress(gateway, services[j]));
    if svc.Some? {
      i :| 0 <= i < |services| && services[i] == svc.value && Shares(gateway, services[i])
        && forall j :: 0 <= j < i ==> !Shares(gateway, services[j]);
      assert Fronts(services, i, gateway);
      forall j: nat | Fronts(services, j, gateway) ensures services[j].clusterIp == services[i].clusterIp {
        OnlyFront(services, i, j, gateway);
      }
    }
  }

  /** An offer with everything it rests on: the route is in order and has the hostname, its p-th
      parent is a known gateway, Service i with a cluster IP fronts it, and its listener l with
      a port serves the hostname. */
  ghost predicate Offered(st: Status, route: Route, p: nat, hostname: string, i: nat, l: nat) {
    && route.accepted && route.resolvedRefs && hostname in route.hostnames
    && p < |route.parentNames| && p < |route.parentNamespaces|
    && var key := route.parentNamespaces[p] + "/" + route.parentNames[p];
    && key in st.gateways
    && Fronts(st.services, i, st.gateways[key])
    && st.services[i].clusterIp.Some? && st.services[i].clusterIp.value != ""
    && Serves(st.gateways[key].listeners, l, hostname)
    && st.gateways[key].listeners[l].port.Some? && st.gateways[key].listeners[l].port.value != 0
  }

  /** The check of such an offer: the Service's address, the listener's port, TLS exactly for HTTPS. */
  ghost function OfferedCheck(st: Status, route: Route, p: nat, hostname: string, i: nat, l: nat): Check
    requires Offered(st, route, p, hostname, i, l)
  {
    var listener := st.gateways[route.parentNamespaces[p] + "/" + route.parentNames[p]].listeners[l];
    RouteCheck(st.services[i].clusterIp.value, listener.port.value, listener.protocol == Some("HTTPS"), hostname)
  }

  lemma OnlyOne(ls: seq<Listener>, i: nat, j: nat, hostname: string)
    requires Serves(ls, i, hostname) && Serves(ls, j, hostname)
    ensures i == j
  {
  }

  lemma OfferIsOffered(st: Status, route: Route, p: nat, hostname: string)
    ensures Offers(st, route, p, hostname) <==> exists i: nat, l: nat :: Offered(st, route, p, hostname, i, l)
    ensures forall i: nat, l: nat | Offered(st, route, p, hostname, i, l) ::
      Offers(st, route, p, hostname) && CheckFor(st, route, p, hostname) == OfferedCheck(st, route, p, hostname, i, l)
  {
    hide FindListener, GatewayClusterIp, Fronts, Serves;
    if p < ParentCount(route) && ParentKey(route, p) in st.gateways {
      var gateway := st.gateways[ParentKey(route, p)];
      var i := ServiceFronts(gateway, st.services);
      var l := ListenerServes(gateway, hostname);
      if Offers(st, route, p, hostname) {
        assert Offered(st, route, p, hostname, i, l);
      }
      forall i': nat, l': nat | Offered(st, route, p, hostname, i', l')
        ensures Offers(st, route, p, hostname)
        ensures CheckFor(st, route, p, hostname) == OfferedCheck(st, route, p, hostname, i', l')
      {
        if FindListener(gateway, hostname).Some? {
          OnlyOne(gateway.listeners, l, l', hostname);
        }
      }
    }
  }

  ghost predicate OfferedAt(st: Status, r: nat, p: nat, hostname: string, i: nat, l: nat) {
    r < |st.routes| && Offered(st, st.routes[r], p, hostname, i, l)
  }

  /** Route r's p-th parent makes the offer, and no later route or parent makes another. */
  ghost predicate LastOffer(st: Status, r: nat, p: nat, hostname: string, i: nat, l: nat) {
    && OfferedAt(st, r, p, hostname, i, l)
    && forall s: nat, q: nat, j: nat, m: nat :: OfferedAt(st, s, q, hostname, j, m) ==> !Before(r, p, s, q)
  }

  /** Which checks there are and what they probe, from the status alone: a hostname has a check
      exactly if there is an offer for it, and the last offer decides what is probed. */
  lemma RouteChecksMean(st: Status, checks: map<string, Check>, h: string)
    requires forall h: string :: Find(checks, h) == FromRoutes(st, |st.routes|, h)
    ensures h in checks <==> exists r: nat, p: nat, i: nat, l: nat :: OfferedAt(st, r, p, h, i, l)
    ensures h in checks ==> exists r: nat, p: nat, i: nat, l: nat ::
      LastOffer(st, r, p, h, i, l) && checks[h] == OfferedCheck(st, st.routes[r], p, h, i, l)
  {
    hide Offers, Offered, FromRoutes, CheckFor, OfferedCheck;
    RouteChecksExact(st, checks, h);
    forall r: nat, p: nat, i: nat, l: nat | OfferedAt(st, r, p, h, i, l) ensures OffersAt(st, r, p, h) {
      OfferIsOffered(st, st.routes[r], p, h);
    }
    if h in checks {
      var r: nat, p: nat :| Decides(st, |st.routes|, r, p, h, checks[h]);
      OfferIsOffered(st, st.routes[r], p, h);
      var i: nat, l: nat :| Offered(st, st.routes[r], p, h, i, l);
      assert LastOffer(st, r, p, h, i, l);
    }
  }

  // ---------------- where the status comes from ----------------

  datatype Condition = Condition(kind: string, status: string)

  datatype ParentRef = ParentRef(name: Option<string>, namespace: Option<string>)

  /** An HTTPRoute object, as far as its routing status goes. */
  datatype Item = Item(
    namespace: string, parentRefs: seq<ParentRef>, hostnames: seq<string>, parents: seq<seq<Condition>>
  )

  /** `_condition(conditions, kind).get("status") == "True"`: the first condition counts. */
  predicate Holds(conditions: seq<Condition>, kind: string) {
    var c := First(conditions, (x: Condition) => x.kind == kind);
    c.Some? && c.value.status == "True"
  }

  /** `_map_http_route`. A route is accepted when some parent has reported and all that have
      agree; parent names and namespaces are two lists of the same length, a missing namespace
      is the route's own. */
  method MapHttpRoute(item: Item) returns (route: Route)
    ensures route.accepted <==> item.parents != [] && forall c <- item.parents :: Holds(c, "Accepted")
    ensures route.resolvedRefs <==> forall c <- item.parents :: Holds(c, "ResolvedRefs")
    ensures route.hostnames == item.hostnames
    ensures |route.parentNames| == |route.parentNamespaces| == |Named(item.parentRefs)|
    ensures forall p :: 0 <= p < |route.parentNames| ==>
      var ref := Named(item.parentRefs)[p];
      && route.parentNames[p] == ref.name.value
      && route.parentNamespaces[p] == if Truthy(ref.namespace) then ref.namespace.value else item.namespace
  {
    var refs := Named(item.parentRefs);
    var names := seq(|refs|, i requires 0 <= i < |refs| => refs[i].name.value);
    var namespaces := seq(|refs|, i requires 0 <= i < |refs| =>
      if Truthy(refs[i].namespace) then refs[i].namespace.value else item.namespace);
    var accepted, resolvedRefs := true, true;
    for i := 0 to |item.parents|
      invariant accepted <==> forall j :: 0 <= j < i ==> Holds(item.parents[j], "Accepted")
      invariant resolvedRefs <==> forall j :: 0 <= j < i ==> Holds(item.parents[j], "ResolvedRefs")
    {
      if !Holds(item.parents[i], "Accepted") {
        accepted := false;
      }
      if !Holds(item.parents[i], "ResolvedRefs") {
        resolvedRefs := false;
      }
    }
    if item.parents == [] {
      accepted := false;
    }
    route := Route(accepted, resolvedRefs, names, namespaces, item.hostnames);
  }

  /** The first condition of a kind decides. */
  lemma HoldsExactly(conditions: seq<Condition>, kind: string)
    ensures Holds(conditions, kind) <==> exists i ::
      && 0 <= i < |conditions| && conditions[i].kind == kind && conditions[i].status == "True"
      && forall j :: 0 <= j < i ==> conditions[j].kind != kind
  {
  }

  /** The references that have a name stay, in their order, and no other. */
  lemma NamedInOrder(before: seq<ParentRef>, ref: ParentRef, after: seq<ParentRef>)
    ensures Named(before + [ref] + after)
         == Named(before) + (if ref.name == None || ref.name == Some("") then [] else [ref]) + Named(after)
  {
    NamedOne(ref);
    NamedSplit(before, [ref]);
    NamedSplit(before + [ref], after);
  }

  lemma NamedOne(ref: ParentRef)
    ensures Named([ref]) == if ref.name == None || ref.name == Some("") then [] else [ref]
  {
    assert [ref][1..] == [];
  }

  lemma {:induction false} NamedSplit(a: seq<ParentRef>, b: seq<ParentRef>)
    ensures Named(a + b) == Named(a) + Named(b)
  {
    if a == [] {
      assert a + b == b;
    } else {
      assert (a + b)[1..] == a[1..] + b;
      NamedSplit(a[1..], b);
    }
  }

  /** The parent references that have a name. */
  function Named(refs: seq<ParentRef>): (r: seq<ParentRef>)
    ensures forall ref <- r :: ref in refs && Truthy(ref.name)
    ensures forall ref <- refs :: Truthy(ref.name) ==> ref in r
  {
    if refs == [] then []
    else (if Truthy(refs[0].name) then [refs[0]] else []) + Named(refs[1..])
  }
}

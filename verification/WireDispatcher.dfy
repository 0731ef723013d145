/**
 A dispatcher's routes: exact and prefix registrations keyed by encoded path, matched to
 the exact route, else to the longest registered prefix.
 */
module WireDispatcher {
  import opened WirePaths
  import opened Wrappers

  datatype Route = Route(name: string, prefix: bool)

  // A registration is compared by identity: the serial it was made with.
  datatype Registration = Registration(path: Path, serial: nat)

  datatype Error = Closed | BadPath | ReceiverExists

  datatype Registered = Registered(route: Route, serial: nat) | Refused(error: Error)

  type Routes = map<Route, Registration>

  ghost predicate RoutesOk(routes: Routes, next: nat) {
    && (forall k :: k in routes ==>
       ValidPath(routes[k].path) && k.name == Encoded(routes[k].path) && routes[k].serial < next)
    && forall j, k :: j in routes && k in routes && routes[j].serial == routes[k].serial ==> j == k
  }

  // The registration is for this exact path, or for a prefix of it.
  predicate Exact(routes: Routes, k: Route, path: Path) { k in routes && !k.prefix && routes[k].path == path }

  predicate Covers(routes: Routes, k: Route, path: Path) { k in routes && k.prefix && routes[k].path <= path }

  /** The policy: an exact route wins; else the one prefix route longer than every other. */
  ghost predicate Chosen(routes: Routes, path: Path, r: Option<Registration>) {
    if exists k :: Exact(routes, k, path) then
      exists k :: Exact(routes, k, path) && r == Some(routes[k])
    else if exists k :: Covers(routes, k, path) then
      exists k :: Covers(routes, k, path) && r == Some(routes[k]) && Longest(routes, k, path)
    else r == None
  }

  ghost predicate Longest(routes: Routes, k: Route, path: Path)
    requires k in routes
  {
    forall j :: Covers(routes, j, path) && j != k ==> |routes[j].path| < |routes[k].path|
  }

  // A route and a path determine each other.
  lemma RouteOfPath(routes: Routes, next: nat, j: Route, k: Route)
    requires RoutesOk(routes, next) && j in routes && k in routes && j.prefix == k.prefix
    ensures routes[j].path == routes[k].path <==> j == k
  {
  }

  lemma PrefixesOfOneLength(routes: Routes, next: nat, j: Route, k: Route, path: Path)
    requires RoutesOk(routes, next) && Covers(routes, j, path) && Covers(routes, k, path)
             && |routes[j].path| == |routes[k].path|
    ensures j == k
  {
    assert routes[j].path == path[..|routes[j].path|] == routes[k].path;
  }

  /** The policy chooses one registration at most, whatever order the routes are kept in. */
  lemma ChoiceIsUnique(routes: Routes, next: nat, path: Path, a: Option<Registration>, b: Option<Registration>)
    requires RoutesOk(routes, next) && Chosen(routes, path, a) && Chosen(routes, path, b)
    ensures a == b
  {
    if exists k :: Exact(routes, k, path) {
      var j :| Exact(routes, j, path) && a == Some(routes[j]);
      var k :| Exact(routes, k, path) && b == Some(routes[k]);
      RouteOfPath(routes, next, j, k);
    }
  }

  // `attached` says that the dispatcher holds its attachment to the root endpoint; `owns`,
  // that closing it closes the endpoint.
  class Dispatcher {
    const owns: bool
    var closed: bool
    var attached: bool
    var routes: Routes
    var next: nat

    ghost predicate Valid()
      reads this
    {
      RoutesOk(routes, next) && (closed ==> routes == map[]) && attached == !closed
    }

    // The endpoint may end while it is being attached to.
    constructor (owns: bool, ended: bool)
      ensures Valid() && closed == ended && routes == map[] && this.owns == owns
    {
      this.owns, closed, attached, routes, next := owns, ended, !ended, map[], 0;
    }

    method Register(path: Path, prefix: bool) returns (r: Registered)
      requires Valid()
      modifies this
      ensures Valid() && closed == old(closed)
      ensures r.Refused? ==> routes == old(routes)
      ensures !ValidPath(path) ==> r == Refused(BadPath)
      ensures ValidPath(path) && closed ==> r == Refused(Closed)
      ensures ValidPath(path) && !closed ==>
                var route := Route(Encoded(path), prefix);
                if route in old(routes) then r == Refused(ReceiverExists)
                else
                  && r == Registered(route, old(next)) && next == old(next) + 1
                  && routes == old(routes)[route := Registration(path, old(next))]
    {
      var name := EncodePath(path);
      if name.None? { return Refused(BadPath); }
      if closed { return Refused(Closed); }
      var route := Route(name.value, prefix);
      if route in routes { return Refused(ReceiverExists); }
      routes, next := routes[route := Registration(path, next)], next + 1;
      r := Registered(route, next - 1);
    }

    /** Detaching, at whatever time, removes the registration it was returned with and
        no other: not a later one for the same route. */
    method Detach(registered: Registered)
      requires Valid() && registered.Registered? && registered.serial < next
      modifies this
      ensures Valid() && closed == old(closed) && next == old(next)
      ensures forall k :: k in routes <==>
              k in old(routes) && !(k == registered.route && old(routes)[k].serial == registered.serial)
      ensures forall k :: k in routes ==> routes[k] == old(routes)[k]
    {
      if registered.route in routes && routes[registered.route].serial == registered.serial {
        routes := routes - {registered.route};
      }
    }

    method Match(path: Path, name: string) returns (r: Option<Registration>)
      requires Valid() && ValidPath(path) && name == Encoded(path)
      ensures Chosen(routes, path, r)
    {
      ghost var exact := Route(name, false);
      forall k | Exact(routes, k, path) ensures k == exact { }
      if Route(name, false) in routes {
        EncodingIsInjective(routes[exact].path, path);
        assert Exact(routes, exact, path);
        return Some(routes[Route(name, false)]);
      }
      r := None;
      var left := routes.Keys;
      ghost var best: Route := exact;
      while left != {}
        invariant left <= routes.Keys
        invariant r.None? ==> forall k :: k !in left ==> !Covers(routes, k, path)
        invariant r.Some? ==> Covers(routes, best, path) && r == Some(routes[best])
        invariant r.Some? ==> forall k :: k !in left && Covers(routes, k, path) && k != best ==>
                  |routes[k].path| < |routes[best].path|
      {
        var k :| k in left;
        left := left - {k};
        var candidate := routes[k];
        if k.prefix && |candidate.path| <= |path| && (r.None? || |candidate.path| > |r.value.path|)
          && candidate.path == path[..|candidate.path|] {
          r, best := Some(candidate), k;
        } else if r.Some? && Covers(routes, k, path) && |candidate.path| == |r.value.path| {
          PrefixesOfOneLength(routes, next, k, best, path);
        }
      }
    }

    /** The first closing gives the root attachment back, tells every registration once that the
        dispatcher has closed, and closes the endpoint if it is owned; a later one does nothing. */
    method Close() returns (detached: bool, told: seq<Registration>, ended: bool)
      requires Valid()
      modifies this
      ensures Valid() && closed && !attached && routes == map[] && next == old(next)
      ensures old(closed) ==> !detached && told == [] && !ended
      ensures !old(closed) ==> detached && ended == owns
      ensures !old(closed) ==> forall r :: r in told <==> exists k :: k in old(routes) && old(routes)[k] == r
      ensures forall i, j :: 0 <= i < j < |told| ==> told[i].serial != told[j].serial
    {
      told := [];
      if closed { return false, [], false; }
      detached, attached, ended := attached, false, owns;
      var keys, was := routes.Keys, routes;
      closed, routes := true, map[];
      var left := keys;
      while left != {}
        invariant closed && !attached && routes == map[] && left <= was.Keys
        invariant forall r :: r in told <==> exists k :: k in was && k !in left && was[k] == r
        invariant forall i, j :: 0 <= i < j < |told| ==> told[i].serial != told[j].serial
      {
        var k :| k in left;
        left := left - {k};
        forall i | 0 <= i < |told| ensures told[i].serial != was[k].serial {
          assert told[i] in told;
        }
        told := told + [was[k]];
      }
    }
  }
}

/**
 Sending through composed access: selections, mounts, and declared nodes.
 */
module WireTree {
  // Delivery is compared with the places a tree has, worked out from the leaves up without any
  // message in hand.

  import opened WirePaths

  datatype Wire =
    | Leaf(id: nat)
    // duplex.At, and a dispatcher's selected endpoint, which may be closed.
    | Selected(root: Wire, prefix: Path, shut: bool)
    | Mounted(routes: map<string, Wire>, closed: bool)
    | Declared(origin: Wire, children: map<string, Wire>)
    // Sends through separate access while open.
    | Through(access: Wire, ended: bool)

  datatype Error = Closed | NoRoute | BadPath

  datatype Outcome = Delivered(leaf: nat, rest: Path) | Refused(error: Error)

  /** What one send does: the leaf it reaches and the path delivered there. */
  function Send(w: Wire, path: Path): Outcome
    decreases w
  {
    match w
    case Leaf(id) => Delivered(id, path)
    case Selected(root, prefix, shut) => if shut then Refused(Closed) else Send(root, prefix + path)
    case Mounted(routes, closed) =>
      if closed then Refused(Closed)
      else if path == [] then Refused(NoRoute)
      else if !ValidPath(path) then Refused(BadPath)
      else if path[0] !in routes then Refused(NoRoute)
      else Send(routes[path[0]], path[1..])
    case Declared(origin, children) =>
      if !ValidPath(path) then Refused(BadPath)
      else if path == [] then Send(origin, [])
      else if path[0] !in children then Refused(NoRoute)
      else Send(children[path[0]], path[1..])
    case Through(access, ended) => if ended then Refused(Closed) else Send(access, path)
  }

  // A place: sending `address` and more reaches the leaf with `extra` and the same more.
  // An exact place takes no more; a guarded one takes only valid segments.
  datatype Place = Place(address: Path, leaf: nat, extra: Path, exact: bool, guarded: bool)

  // The place a child has, seen from its parent, that this one is.
  function Inner(p: Place, guarded: bool): Place
    requires p.address != []
  {
    p.(address := p.address[1..], guarded := guarded)
  }

  // What a node that routes by the first segment routes to.
  function Children(w: Wire): map<string, Wire> {
    match w
    case Mounted(routes, _) => routes
    case Declared(_, children) => children
    case _ => map[]
  }

  // A place beneath such a node.
  ghost predicate Beneath(w: Wire, p: Place)
    decreases w, 0
  {
    && p.guarded && p.address != [] && ValidPath(p.address) && p.address[0] in Children(w)
    && exists guarded :: Has(Children(w)[p.address[0]], Inner(p, guarded))
  }

  // A place within the prefix of a selection, the rest of which is always delivered.
  ghost predicate Within(prefix: Path, inner: Place, p: Place) {
    && inner.address <= prefix && inner.address != prefix && !inner.exact
    && (inner.guarded ==> ValidPath(prefix[|inner.address|..]))
    && p == inner.(address := [], extra := inner.extra + prefix[|inner.address|..])
  }

  /** The places a tree has. */
  ghost predicate Has(w: Wire, p: Place)
    decreases w, 1
  {
    match w
    case Leaf(id) => p == Place([], id, [], false, false)
    case Selected(root, prefix, shut) =>
      !shut && (Has(root, p.(address := prefix + p.address))
        || exists inner :: Has(root, inner) && Within(prefix, inner, p))
    case Mounted(routes, closed) => !closed && Beneath(w, p)
    case Declared(origin, children) =>
      || Beneath(w, p)
      || exists inner :: Has(origin, inner) && inner.address == [] && p == inner.(exact := true, guarded := true)
    case Through(access, ended) => !ended && Has(access, p)
  }

  ghost predicate Takes(p: Place, path: Path, leaf: nat, rest: Path) {
    && p.leaf == leaf && p.address <= path && rest == p.extra + path[|p.address|..]
    && (p.exact ==> p.address == path)
    && (p.guarded ==> ValidPath(path[|p.address|..]))
  }

  ghost predicate Placed(w: Wire, path: Path, leaf: nat, rest: Path) {
    exists p :: Has(w, p) && Takes(p, path, leaf, rest)
  }

  // ---- One constructor at a time.

  lemma BeneathPlaced(w: Wire, path: Path, leaf: nat, rest: Path)
    ensures var children := Children(w);
            (exists p :: Beneath(w, p) && Takes(p, path, leaf, rest)) <==>
            path != [] && ValidPath(path) && path[0] in children && Placed(children[path[0]], path[1..], leaf, rest)
  {
    var children := Children(w);
    if path != [] && ValidPath(path) && path[0] in children && Placed(children[path[0]], path[1..], leaf, rest) {
      var inner :| Has(children[path[0]], inner) && Takes(inner, path[1..], leaf, rest);
      var p := inner.(address := [path[0]] + inner.address, guarded := true);
      assert path == [path[0]] + path[1..];
      assert path[|p.address|..] == path[1..][|inner.address|..];
      assert Inner(p, inner.guarded) == inner;
      assert Beneath(w, p) && Takes(p, path, leaf, rest);
    }
    if p :| Beneath(w, p) && Takes(p, path, leaf, rest) {
      var guarded :| Has(children[p.address[0]], Inner(p, guarded));
      BeneathTakes(p, guarded, path, leaf, rest);
    }
  }

  lemma BeneathTakes(p: Place, guarded: bool, path: Path, leaf: nat, rest: Path)
    requires Takes(p, path, leaf, rest) && p.guarded && p.address != [] && ValidPath(p.address)
    ensures path != [] && path[0] == p.address[0] && ValidPath(path) && Takes(Inner(p, guarded), path[1..], leaf, rest)
  {
    assert path == p.address + path[|p.address|..];
    assert path[1..][|p.address| - 1..] == path[|p.address|..];
    assert forall i :: |p.address| <= i < |path| ==> path[i] == path[|p.address|..][i - |p.address|];
    assert ValidPath(path);
  }

  lemma SelectedPlaced(root: Wire, prefix: Path, path: Path, leaf: nat, rest: Path)
    ensures Placed(root, prefix + path, leaf, rest) <==> Placed(Selected(root, prefix, false), path, leaf, rest)
  {
    var w := Selected(root, prefix, false);
    if Placed(root, prefix + path, leaf, rest) {
      var inner :| Has(root, inner) && Takes(inner, prefix + path, leaf, rest);
      SelectedHas(w, inner, path, leaf, rest);
    }
    if Placed(w, path, leaf, rest) {
      var p :| Has(w, p) && Takes(p, path, leaf, rest);
      if Has(root, p.(address := prefix + p.address)) {
        var inner := p.(address := prefix + p.address);
        assert (prefix + path)[|inner.address|..] == path[|p.address|..];
        assert Takes(inner, prefix + path, leaf, rest);
      } else {
        var inner :| Has(root, inner) && Within(prefix, inner, p);
        WithinTakes(prefix, inner, p, path, leaf, rest);
      }
    }
  }

  lemma WithinTakes(prefix: Path, inner: Place, p: Place, path: Path, leaf: nat, rest: Path)
    requires Within(prefix, inner, p)
    ensures Takes(p, path, leaf, rest) <==> Takes(inner, prefix + path, leaf, rest)
  {
    var n := |inner.address|;
    assert (prefix + path)[n..] == prefix[n..] + path;
    assert path[0..] == path;
    assert (inner.extra + prefix[n..]) + path == inner.extra + (prefix[n..] + path);
    assert inner.guarded && ValidPath(path) ==> ValidPath(prefix[n..] + path);
    assert inner.guarded && ValidPath(prefix[n..] + path) ==> forall i :: 0 <= i < |path| ==>
           path[i] == (prefix[n..] + path)[|prefix| - n + i];
  }

  lemma SelectedHas(w: Wire, inner: Place, path: Path, leaf: nat, rest: Path)
    requires w.Selected? && !w.shut && Has(w.root, inner) && Takes(inner, w.prefix + path, leaf, rest)
    ensures Placed(w, path, leaf, rest)
  {
    var prefix, n := w.prefix, |inner.address|;
    if n >= |prefix| {
      var p := inner.(address := inner.address[|prefix|..]);
      assert inner.address == prefix + p.address;
      assert (prefix + path)[n..] == path[n - |prefix|..];
      assert Takes(p, path, leaf, rest);
    } else {
      assert inner.address == prefix[..n];
      var p := inner.(address := [], extra := inner.extra + prefix[n..]);
      assert (prefix + path)[n..] == prefix[n..] + path;
      assert inner.guarded ==> forall i :: 0 <= i < |prefix[n..]| ==> prefix[n..][i] == (prefix[n..] + path)[i];
      assert Within(prefix, inner, p);
      WithinTakes(prefix, inner, p, path, leaf, rest);
    }
  }

  lemma OriginPlaced(origin: Wire, children: map<string, Wire>, leaf: nat, rest: Path)
    ensures Placed(origin, [], leaf, rest) <==> Placed(Declared(origin, children), [], leaf, rest)
  {
    var w := Declared(origin, children);
    if Placed(origin, [], leaf, rest) {
      var inner :| Has(origin, inner) && Takes(inner, [], leaf, rest);
      var p := inner.(exact := true, guarded := true);
      assert Has(w, p) && Takes(p, [], leaf, rest);
    }
    if Placed(w, [], leaf, rest) {
      var p :| Has(w, p) && Takes(p, [], leaf, rest);
      assert p.address == [] && !Beneath(w, p);
      var inner :| Has(origin, inner) && inner.address == [] && p == inner.(exact := true, guarded := true);
      assert Takes(inner, [], leaf, rest);
    }
  }

  // A declared node takes a path with segments by its children, and only a valid one.
  lemma ChildrenPlaced(origin: Wire, children: map<string, Wire>, path: Path, leaf: nat, rest: Path)
    requires path != []
    ensures Placed(Declared(origin, children), path, leaf, rest) <==>
            exists p :: Beneath(Declared(origin, children), p) && Takes(p, path, leaf, rest)
  {
  }

  /** A send reaches exactly the leaf at the place its path leads to, with the keys on the
      way consumed, in every tree and for every path. */
  lemma {:induction false} SendReachesItsPlace(w: Wire, path: Path, leaf: nat, rest: Path)
    ensures Send(w, path) == Delivered(leaf, rest) <==> Placed(w, path, leaf, rest)
    decreases w
  {
    match w
    case Leaf(id) =>
      assert Has(w, Place([], id, [], false, false));
      assert path[0..] == path && [] + path == path;
    case Selected(root, prefix, shut) =>
      SendReachesItsPlace(root, prefix + path, leaf, rest);
      if !shut { SelectedPlaced(root, prefix, path, leaf, rest); }
    case Mounted(routes, closed) =>
      BeneathPlaced(w, path, leaf, rest);
      if path != [] && path[0] in routes { SendReachesItsPlace(routes[path[0]], path[1..], leaf, rest); }
    case Declared(origin, children) =>
      if path == [] {
        SendReachesItsPlace(origin, [], leaf, rest);
        OriginPlaced(origin, children, leaf, rest);
      } else {
        BeneathPlaced(w, path, leaf, rest);
        ChildrenPlaced(origin, children, path, leaf, rest);
        if path[0] in children { SendReachesItsPlace(children[path[0]], path[1..], leaf, rest); }
      }
    case Through(access, ended) => SendReachesItsPlace(access, path, leaf, rest);
  }

  /** Selecting twice is selecting the joined path, and selecting a mount's key is its child. */
  lemma SelectionsCompose(w: Wire, p: Path, q: Path, path: Path)
    ensures Send(Selected(Selected(w, p, false), q, false), path) == Send(Selected(w, p + q, false), path)
    ensures Send(Selected(w, [], false), path) == Send(w, path)
    ensures w.Mounted? && !w.closed && q != [] && ValidPath(q + path) && q[0] in w.routes ==>
              Send(Selected(w, q, false), path) == Send(Selected(w.routes[q[0]], q[1..], false), path)
  {
    assert p + (q + path) == (p + q) + path;
    assert [] + path == path;
    if q != [] { assert (q + path)[1..] == q[1..] + path; }
  }

  // ---- Why a send is refused.

  // The tree with nothing closed.
  function Opened(w: Wire): Wire {
    match w
    case Leaf(_) => w
    case Selected(root, prefix, _) => Selected(Opened(root), prefix, false)
    case Mounted(routes, _) => Mounted(map k | k in routes :: Opened(routes[k]), false)
    case Declared(origin, children) => Declared(Opened(origin), map k | k in children :: Opened(children[k]))
    case Through(access, _) => Through(Opened(access), false)
  }

  // Every selection in the tree is at a valid path.
  predicate SelectsValidly(w: Wire) {
    match w
    case Leaf(_) => true
    case Selected(root, prefix, _) => ValidPath(prefix) && SelectsValidly(root)
    case Mounted(routes, _) => forall k :: k in routes ==> SelectsValidly(routes[k])
    case Declared(origin, children) => SelectsValidly(origin) && forall k :: k in children ==>
      SelectsValidly(children[k])
    case Through(access, _) => SelectsValidly(access)
  }

  /** A send is refused as closed only because of what is closed: otherwise it does what it
      does with nothing closed. Of a valid path nothing is refused as a bad one. */
  lemma {:induction false} RefusalsHaveTheirCause(w: Wire, path: Path)
    ensures Send(w, path) == Refused(Closed) || Send(w, path) == Send(Opened(w), path)
    ensures Send(Opened(w), path) != Refused(Closed)
    ensures ValidPath(path) && SelectsValidly(w) ==> Send(w, path) != Refused(BadPath)
    decreases w
  {
    match w
    case Leaf(_) =>
    case Selected(root, prefix, _) => RefusalsHaveTheirCause(root, prefix + path);
    case Mounted(routes, _) =>
      if path != [] && path[0] in routes { RefusalsHaveTheirCause(routes[path[0]], path[1..]); }
    case Declared(origin, children) =>
      if path == [] {
        RefusalsHaveTheirCause(origin, []);
      } else if path[0] in children {
        RefusalsHaveTheirCause(children[path[0]], path[1..]);
      }
    case Through(access, _) => RefusalsHaveTheirCause(access, path);
  }
}

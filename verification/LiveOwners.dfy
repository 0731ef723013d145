/**
 The owner tree of a live scope, as values.
 */
module LiveOwners {
  // Owner states are numbered in creation order, so a parent's number is below its children's.
  // A parent links a child only while something below it is owned; the parent pointer is kept
  // regardless.

  import opened Wrappers

  // A binding id: this scope's nonce and a serial, or anything else.
  datatype Id = Own(serial: nat) | Foreign(name: string)

  // `owned` maps an id to whether it is an import.
  datatype OwnerState = OwnerState(parent: Option<nat>, children: set<nat>, owned: map<Id, bool>, released: bool)

  type Owners = seq<OwnerState>

  predicate Acyclic(owners: Owners) {
    forall x :: 0 <= x < |owners| && owners[x].parent.Some? ==> owners[x].parent.value < x
  }

  predicate Empty(owners: Owners, x: nat)
    requires x < |owners|
  {
    owners[x].owned == map[] && owners[x].children == {}
  }

  predicate IsParent(owners: Owners, p: nat, c: nat) {
    c < |owners| && owners[c].parent == Some(p)
  }

  // Links out of a parent name children of that parent.
  ghost predicate LinksName(owners: Owners) {
    forall p, c :: 0 <= p < |owners| && c in owners[p].children ==> IsParent(owners, p, c)
  }

  // c, if it has a parent, is linked exactly while it is not empty.
  ghost predicate LinkExact(owners: Owners, c: nat)
    requires c < |owners| && Acyclic(owners)
  {
    owners[c].parent.Some? ==> (c in owners[owners[c].parent.value].children <==> !Empty(owners, c))
  }

  /** A child is linked if and only if it owns or links something itself. */
  ghost predicate LinksExact(owners: Owners) {
    Acyclic(owners) && LinksName(owners) && forall c :: 0 <= c < |owners| ==> LinkExact(owners, c)
  }

  // Everywhere but at one state, whose own link may be stale in the given direction.
  ghost predicate LinksExactBut(owners: Owners, x: nat, stale: bool)
    requires x < |owners|
  {
    && Acyclic(owners) && LinksName(owners)
    && (forall c :: 0 <= c < |owners| && c != x ==> LinkExact(owners, c))
    && (owners[x].parent.Some? ==>
          if stale then !Empty(owners, x) ==> x in owners[owners[x].parent.value].children
          else !Empty(owners, x))
  }

  // x is o or below it, following parents whether linked or not.
  predicate Descends(owners: Owners, x: nat, o: nat)
    requires x < |owners| && Acyclic(owners)
    decreases x
  {
    x == o || (owners[x].parent.Some? && Descends(owners, owners[x].parent.value, o))
  }

  // Whether an owner may still allocate: nothing at or above it was released.
  predicate Ended(owners: Owners, o: nat)
    requires o < |owners| && Acyclic(owners)
    decreases o
  {
    owners[o].released || (owners[o].parent.Some? && Ended(owners, owners[o].parent.value))
  }

  predicate SameShape(a: Owners, b: Owners) {
    |a| == |b| && forall x :: 0 <= x < |a| ==> a[x].parent == b[x].parent
  }

  ghost predicate SameBut(a: Owners, b: Owners) {
    SameShape(a, b) && forall x :: 0 <= x < |a| ==> a[x].owned == b[x].owned && a[x].released == b[x].released
  }

  // Owner states are never forgotten, reparented or revived.
  ghost predicate Grown(a: Owners, b: Owners) {
    && |a| <= |b|
    && forall x :: 0 <= x < |a| ==> a[x].parent == b[x].parent && (a[x].released ==> b[x].released)
  }

  /** What releasing an owner does to the tree: everything below it owns nothing and has ended, and
      nothing else is touched. */
  ghost predicate ReleasedBelow(was: Owners, now: Owners, o: nat)
    requires Acyclic(was) && Acyclic(now) && o < |was|
  {
    && |now| == |was|
    && forall x :: 0 <= x < |now| ==>
         && now[x].owned == (if Descends(was, x, o) then map[] else was[x].owned)
         && (Descends(was, x, o) ==> Ended(now, x))
         && (now[x].released ==> was[x].released || Descends(was, x, o))
  }

  lemma {:induction false} SameDescends(a: Owners, b: Owners, x: nat, o: nat)
    requires SameShape(a, b) && Acyclic(a) && Acyclic(b) && x < |a|
    ensures Descends(a, x, o) <==> Descends(b, x, o)
    decreases x
  {
    if x != o && a[x].parent.Some? {
      SameDescends(a, b, a[x].parent.value, o);
    }
  }

  lemma {:induction false} DescendsIsAbove(owners: Owners, x: nat, o: nat)
    requires x < |owners| && Acyclic(owners) && Descends(owners, x, o)
    ensures o <= x
    decreases x
  {
    if x != o {
      DescendsIsAbove(owners, owners[x].parent.value, o);
    }
  }

  lemma {:induction false} DescendsTransitive(owners: Owners, x: nat, y: nat, o: nat)
    requires x < |owners| && y < |owners| && Acyclic(owners) && Descends(owners, x, y) && Descends(owners, y, o)
    ensures Descends(owners, x, o)
    decreases x
  {
    if x != y {
      DescendsTransitive(owners, owners[x].parent.value, y, o);
    }
  }

  // ---- Ending is terminal.

  /** Once ended, an owner stays ended, whatever happens to the tree. */
  lemma {:induction false} EndedForGood(a: Owners, b: Owners, o: nat)
    requires Grown(a, b) && Acyclic(a) && Acyclic(b) && o < |a| && Ended(a, o)
    ensures Ended(b, o)
    decreases o
  {
    if !a[o].released {
      EndedForGood(a, b, a[o].parent.value);
    }
  }

  /** Releasing an owner ends everything below it, unlinked and pruned states included. */
  lemma {:induction false} EndedBelow(owners: Owners, x: nat, o: nat)
    requires x < |owners| && o < |owners| && Acyclic(owners) && Descends(owners, x, o) && owners[o].released
    ensures Ended(owners, x)
    decreases x
  {
    if x != o {
      EndedBelow(owners, owners[x].parent.value, o);
    }
  }

  lemma AllEndedBelow(owners: Owners, o: nat)
    requires o < |owners| && Acyclic(owners) && owners[o].released
    ensures forall x :: 0 <= x < |owners| && Descends(owners, x, o) ==> Ended(owners, x)
  {
    forall x | 0 <= x < |owners| && Descends(owners, x, o) ensures Ended(owners, x) { EndedBelow(owners, x, o); }
  }

  // ---- Links and ownership.

  // Something at or below o is owned.
  ghost predicate SubtreeOwns(owners: Owners, o: nat)
    requires Acyclic(owners)
  {
    exists x :: 0 <= x < |owners| && Descends(owners, x, o) && owners[x].owned != map[]
  }

  /** The link invariant in the tree's terms: a child is linked if and only if its
      subtree owns something. */
  lemma LinkedIffSubtreeOwns(owners: Owners, c: nat)
    requires LinksExact(owners) && c < |owners| && owners[c].parent.Some?
    ensures c in owners[owners[c].parent.value].children <==> SubtreeOwns(owners, c)
  {
    assert LinkExact(owners, c);
    if !Empty(owners, c) {
      var x := OwningBelow(owners, c);
    }
    if SubtreeOwns(owners, c) {
      var x :| 0 <= x < |owners| && Descends(owners, x, c) && owners[x].owned != map[];
      OwningKeepsAncestors(owners, x, c);
    }
  }

  lemma {:induction false} OwningBelow(owners: Owners, c: nat) returns (x: nat)
    requires LinksExact(owners) && c < |owners| && !Empty(owners, c)
    ensures x < |owners| && Descends(owners, x, c) && owners[x].owned != map[]
    decreases |owners| - c
  {
    if owners[c].owned != map[] {
      x := c;
    } else {
      var d :| d in owners[c].children;
      assert IsParent(owners, c, d) && LinkExact(owners, d);
      x := OwningBelow(owners, d);
      DescendsTransitive(owners, x, d, c);
    }
  }

  lemma {:induction false} OwningKeepsAncestors(owners: Owners, x: nat, o: nat)
    requires LinksExact(owners) && x < |owners| && o < |owners| && Descends(owners, x, o) && !Empty(owners, x)
    ensures !Empty(owners, o)
    ensures x != o ==> exists c :: c in owners[o].children && c < |owners| && Descends(owners, x, c)
    decreases x
  {
    if x != o {
      var p := owners[x].parent.value;
      assert LinkExact(owners, x);
      assert x in owners[p].children;
      OwningKeepsAncestors(owners, p, o);
      if p == o {
        assert x in owners[o].children && Descends(owners, x, x);
      } else {
        var c :| c in owners[o].children && c < |owners| && Descends(owners, p, c);
        assert Descends(owners, x, c);
      }
    }
  }

  // A released state holds nothing, those in progress aside.
  ghost predicate ReleasedEmpty(owners: Owners, inProgress: set<nat>) {
    forall x :: 0 <= x < |owners| && x !in inProgress && owners[x].released ==> Empty(owners, x)
  }

  lemma {:induction false} EndedOwnsNothing(owners: Owners, x: nat)
    requires LinksExact(owners) && ReleasedEmpty(owners, {}) && x < |owners| && Ended(owners, x)
    ensures Empty(owners, x)
    decreases x
  {
    if !owners[x].released {
      EndedOwnsNothing(owners, owners[x].parent.value);
      assert LinkExact(owners, x);
    }
  }

  // No id is owned twice.
  ghost predicate OwnedOnce(owners: Owners) {
    forall x, y, id :: 0 <= x < |owners| && 0 <= y < |owners| && id in owners[x].owned && id in owners[y].owned ==>
      x == y
  }

  // ---- The parentless states: at most the current root still counts.

  ghost predicate RootOk(owners: Owners, root: Option<nat>) {
    && (root.Some? ==> root.value < |owners| && owners[root.value].parent.None?)
    && forall x :: 0 <= x < |owners| && owners[x].parent.None? && !owners[x].released ==> root == Some(x)
  }

  /** Every owning owner hangs, by links, from the current root. */
  lemma {:induction false} OwningHangsFromRoot(owners: Owners, root: Option<nat>, x: nat)
    requires LinksExact(owners) && ReleasedEmpty(owners, {}) && RootOk(owners, root) && x < |owners|
             && !Empty(owners, x)
    ensures root.Some? && Descends(owners, x, root.value) && Reached(owners, root.value, x)
    decreases x
  {
    if owners[x].parent.Some? {
      var p := owners[x].parent.value;
      assert LinkExact(owners, x);
      OwningHangsFromRoot(owners, root, p);
    }
  }

  // There is a chain of links from o down to x.
  predicate Reached(owners: Owners, o: nat, x: nat)
    requires x < |owners| && Acyclic(owners)
    decreases x
  {
    x == o || (owners[x].parent.Some? && x in owners[owners[x].parent.value].children
      && Reached(owners, o, owners[x].parent.value))
  }

  // ---- One link changed, the links above yet to follow.

  lemma UnlinkKeepsLinks(before: Owners, after: Owners, child: nat, p: nat)
    requires child < |before| && LinksExactBut(before, child, true)
    requires before[child].parent == Some(p) && Empty(before, child)
    requires after == before[p := before[p].(children := before[p].children - {child})]
    ensures LinksExactBut(after, p, true)
  {
    forall c | 0 <= c < |after| && c != p ensures LinkExact(after, c) {
      if c != child { assert LinkExact(before, c); }
    }
    assert LinkExact(before, p);
    forall q, c | 0 <= q < |after| && c in after[q].children ensures IsParent(after, q, c) {
      assert IsParent(before, q, c);
    }
  }

  lemma DescendsToParent(before: Owners, o: nat, child: nat, p: nat)
    requires o < |before| && child < |before| && Acyclic(before) && Descends(before, o, child)
             && before[child].parent == Some(p)
    ensures Descends(before, o, p)
  {
    assert Descends(before, child, p);
    DescendsTransitive(before, o, child, p);
  }

  lemma LinkKeepsLinks(before: Owners, after: Owners, child: nat, p: nat)
    requires child < |before| && LinksExactBut(before, child, false) && before[child].parent == Some(p)
    requires after == before[p := before[p].(children := before[p].children + {child})]
    ensures LinksExactBut(after, p, false) && !Empty(after, p)
  {
    assert child in after[p].children;
    forall c | 0 <= c < |after| && c != p ensures LinkExact(after, c) {
      if c != child { assert LinkExact(before, c); }
    }
    forall q, c | 0 <= q < |after| && c in after[q].children ensures IsParent(after, q, c) {
      if q != p || c != child { assert IsParent(before, q, c); }
    }
  }
}

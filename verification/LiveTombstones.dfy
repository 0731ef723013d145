/**
 What releases leave behind. A released id is remembered by a tombstone, so that a reference
 still under way is refused as released rather than taken for a fresh one. Tombstones are a list
 without duplicates, youngest last and bounded: burying appends, and past the bound the oldest
 goes. What is kept of two burials one after the other is what is kept of both at once, which
 is how a whole subtree's or batch's ids are accounted for.
 */
module LiveTombstones {
  import opened LiveOwners
  import opened LiveBooks
  import opened Wrappers

  // Ids were buried one after the other; the oldest tombstones may have gone for it. Said of any
  // equal list, so that what is kept is thought of only where it is named.
  ghost predicate Buried(was: seq<Id>, now: seq<Id>, ids: seq<Id>, bound: nat) {
    forall all: seq<Id> {:trigger Kept(all, bound)} :: all == was + ids ==> now == Kept(all, bound)
  }

  lemma BuriedIsKept(was: seq<Id>, now: seq<Id>, ids: seq<Id>, bound: nat)
    ensures Buried(was, now, ids, bound) <==> now == Kept(was + ids, bound)
  {
  }

  /** The ids were buried, and each has a tombstone; no other tombstone went but the oldest, and
      only those there was no room for. */
  ghost predicate Entombed(was: seq<Id>, now: seq<Id>, gone: set<Id>, ids: seq<Id>, bound: nat) {
    && Buried(was, now, ids, bound) && (forall id :: id in ids ==> id in gone) && forall id :: id in gone <==> id in now
  }

  // Each of a set of ids is told of once, as found.
  ghost predicate AllTold(notices: seq<Notice>, ids: set<Id>) {
    NoDuplicates(notices) && forall n :: n in notices <==> n.found && n.id in ids
  }

  lemma NoneBuried(was: seq<Id>, bound: nat)
    requires |was| <= bound
    ensures Buried(was, was, [], bound)
  {
    BuriedIsKept(was, was, [], bound);
    assert was + [] == was;
  }

  lemma KeptTwice(order: seq<Id>, id: Id, bound: nat)
    requires bound > 0
    ensures Kept(Kept(order, bound) + [id], bound) == Kept(order + [id], bound)
  {
    if |order| > bound {
      var k := |order| - bound;
      assert order[k..] + [id] == (order + [id])[k..];
    }
  }

  lemma BuriedNext(was: seq<Id>, mid: seq<Id>, now: seq<Id>, ids: seq<Id>, id: Id, bound: nat)
    requires bound > 0 && Buried(was, mid, ids, bound) && Buried(mid, now, [id], bound)
    ensures Buried(was, now, ids + [id], bound)
  {
    BuriedIsKept(was, mid, ids, bound);
    BuriedIsKept(mid, now, [id], bound);
    BuriedIsKept(was, now, ids + [id], bound);
    KeptTwice(was + ids, id, bound);
    assert was + (ids + [id]) == was + ids + [id];
  }

  // Whatever is buried next.
  lemma BuriedThen(was: seq<Id>, mid: seq<Id>, ids: seq<Id>, id: Id, bound: nat)
    requires bound > 0 && Buried(was, mid, ids, bound)
    ensures forall now :: Buried(mid, now, [id], bound) ==> Buried(was, now, ids + [id], bound)
  {
    forall now | Buried(mid, now, [id], bound) ensures Buried(was, now, ids + [id], bound) {
      BuriedNext(was, mid, now, ids, id, bound);
    }
  }

  // As many as fit are all there.
  lemma AllBuried(was: seq<Id>, now: seq<Id>, ids: seq<Id>, bound: nat)
    requires Buried(was, now, ids, bound) && |ids| <= bound
    ensures forall id :: id in ids ==> id in now
  {
    BuriedIsKept(was, now, ids, bound);
    forall id | id in ids ensures id in now {
      var k :| 0 <= k < |ids| && ids[k] == id;
      assert (was + ids)[|was| + k] == id;
      assert id == now[|now| - |ids| + k];
    }
  }

  // Ids that are all tabled are no more than there is room for.
  lemma TabledFit(e: Table, i: Table, ids: seq<Id>, maxE: nat, maxI: nat)
    requires NoDuplicates(ids) && (forall id :: id in ids ==> id in e || id in i)
    requires Fits(e, maxE) && Fits(i, maxI)
    ensures |ids| <= maxE + maxI
  {
    FittingSize(e, maxE);
    FittingSize(i, maxI);
    var named := set id | id in ids;
    Distinct(ids);
    assert named <= e.Keys + i.Keys;
    SetsFit(named, e.Keys + i.Keys);
    assert |e.Keys + i.Keys| <= |e.Keys| + |i.Keys|;
  }

  lemma {:induction false} Distinct(ids: seq<Id>)
    requires NoDuplicates(ids)
    ensures |set id | id in ids| == |ids|
  {
    if ids != [] {
      var init, last := ids[..|ids| - 1], ids[|ids| - 1];
      Distinct(init);
      assert (set id | id in ids) == (set id | id in init) + {last};
    }
  }

  lemma {:induction false} SetsFit(a: set<Id>, b: set<Id>)
    requires a <= b
    ensures |a| <= |b|
  {
    assert b == a + (b - a);
  }

  lemma TablesApart(owners: Owners, root: Option<nat>, e: Table, i: Table)
    requires TreeOk(owners, root, e, i, {})
    ensures e.Keys !! i.Keys
  {
  }

  function NoticeIds(notices: seq<Notice>): seq<Id> {
    seq(|notices|, k requires 0 <= k < |notices| => notices[k].id)
  }

  lemma ToldIds(notices: seq<Notice>, ids: seq<Id>)
    requires Told(notices, ids)
    ensures NoticeIds(notices) == ids
  {
  }

  // What is tabled is not closed away and has no tombstone, and there is room for tombstones.
  lemma TabledIsOpen(maxE: nat, maxI: nat, e: Table, i: Table, gone: set<Id>, order: seq<Id>, next: nat,
                     ms: seq<(Id, bool)>, closed: bool)
    requires BooksOk(maxE, maxI, e, i, gone, order, next, ms, closed)
    ensures maxE + maxI > 0 && |order| <= maxE + maxI
    ensures forall id :: id in e || id in i ==> !closed && id !in gone
    ensures forall id :: id in order <==> id in gone
  {
  }

  lemma TabledHasNoTombstone(maxE: nat, maxI: nat, e: Table, i: Table, gone: set<Id>, order: seq<Id>, next: nat,
                             ms: seq<(Id, bool)>, closed: bool, id: Id)
    requires BooksOk(maxE, maxI, e, i, gone, order, next, ms, closed) && (id in e || id in i)
    ensures maxE + maxI > 0 && !closed && id !in gone && Known(id, next)
  {
  }

  lemma StartBuried(maxE: nat, maxI: nat, e: Table, i: Table, gone: set<Id>, order: seq<Id>, next: nat,
                    ms: seq<(Id, bool)>, closed: bool)
    requires BooksOk(maxE, maxI, e, i, gone, order, next, ms, closed)
    ensures Buried(order, order, [], maxE + maxI)
  {
    NoneBuried(order, maxE + maxI);
  }

  lemma ToldConcat(notices: seq<Notice>, ids: seq<Id>, more: seq<Notice>)
    requires Told(notices, ids) && Told(more, NoticeIds(more))
    ensures Told(notices + more, ids + NoticeIds(more))
  {
  }

  // What was taken in turn is what was owned below, and all of it was told.
  lemma AllTakenBelow(e: Table, i: Table, ids: seq<Id>, below: set<Id>, notices: seq<Notice>)
    requires Told(notices, ids) && NoDuplicates(ids) && forall id :: id in ids <==> id in below
    ensures Minus(e, ids) == e - below && Minus(i, ids) == i - below
    ensures AllTold(notices, below) && NoticeIds(notices) == ids
  {
    MinusIsDifference(e, ids, below);
    MinusIsDifference(i, ids, below);
    NoticesAreOfIds(notices, ids, below);
    ToldIds(notices, ids);
  }

  lemma TreeAgrees(owners: Owners, root: Option<nat>, e: Table, i: Table)
    requires TreeOk(owners, root, e, i, {})
    ensures Acyclic(owners) && TablesAgree(owners, e, i, {})
  {
  }

  lemma IdsOfNotices(notices: seq<Notice>, below: set<Id>)
    requires NoDuplicates(notices) && forall n :: n in notices <==> n.found && n.id in below
    ensures NoDuplicates(NoticeIds(notices)) && forall id :: id in NoticeIds(notices) <==> id in below
  {
    forall id ensures id in NoticeIds(notices) <==> id in below {
      if id in below {
        assert Notice(id, true) in notices;
        var k :| 0 <= k < |notices| && notices[k] == Notice(id, true);
        assert NoticeIds(notices)[k] == id;
      }
      if id in NoticeIds(notices) {
        var k :| 0 <= k < |notices| && NoticeIds(notices)[k] == id;
        assert notices[k] in notices;
      }
    }
    forall k, l | 0 <= k < l < |notices| ensures notices[k].id != notices[l].id {
      assert notices[k] in notices && notices[l] in notices;
    }
  }

  // All that an owner and those below it hold is no more than there may be tombstones.
  lemma {:induction false} BelowFits(maxE: nat, maxI: nat, owners: Owners, root: Option<nat>, e: Table, i: Table,
                                     g: set<Id>, order: seq<Id>, next: nat, ms: seq<(Id, bool)>, closed: bool, o: nat)
    requires BooksOk(maxE, maxI, e, i, g, order, next, ms, closed) && TreeOk(owners, root, e, i, {})
    ensures Acyclic(owners) && |OwnedBelow(owners, o)| <= maxE + maxI
  {
    TreeAgrees(owners, root, e, i);
    BooksFit(maxE, maxI, e, i, g, order, next, ms, closed);
    BelowIsFew(owners, e, i, o, maxE, maxI);
  }

  lemma BooksFit(maxE: nat, maxI: nat, e: Table, i: Table, gone: set<Id>, order: seq<Id>, next: nat,
                 ms: seq<(Id, bool)>, closed: bool)
    requires BooksOk(maxE, maxI, e, i, gone, order, next, ms, closed)
    ensures Fits(e, maxE) && Fits(i, maxI)
  {
  }

  lemma {:induction false} BelowIsFew(owners: Owners, e: Table, i: Table, o: nat, maxE: nat, maxI: nat)
    requires Acyclic(owners) && TablesAgree(owners, e, i, {}) && Fits(e, maxE) && Fits(i, maxI)
    ensures |OwnedBelow(owners, o)| <= maxE + maxI
  {
    forall id | id in OwnedBelow(owners, o) ensures id in e.Keys + i.Keys { BelowIsTabled(owners, e, i, o, id); }
    KeysFit(OwnedBelow(owners, o), e, i, maxE, maxI);
  }

  lemma KeysFit(ids: set<Id>, e: Table, i: Table, maxE: nat, maxI: nat)
    requires ids <= e.Keys + i.Keys && Fits(e, maxE) && Fits(i, maxI)
    ensures |ids| <= maxE + maxI
  {
    FittingSize(e, maxE);
    FittingSize(i, maxI);
    SetsFit(ids, e.Keys + i.Keys);
    assert |e.Keys + i.Keys| <= |e.Keys| + |i.Keys|;
  }

  // The tombstones are the ones listed.
  ghost predicate Lists(order: seq<Id>, gone: set<Id>) { forall id :: id in gone <==> id in order }

  lemma BooksList(maxE: nat, maxI: nat, e: Table, i: Table, gone: set<Id>, order: seq<Id>, next: nat,
                  ms: seq<(Id, bool)>, closed: bool)
    requires BooksOk(maxE, maxI, e, i, gone, order, next, ms, closed)
    ensures Lists(order, gone)
  {
  }

  // What a release told of has tombstones, as many as it took.
  lemma ToldAreEntombed(o0: seq<Id>, order: seq<Id>, gone: set<Id>, notices: seq<Notice>, below: set<Id>, bound: nat)
    requires AllTold(notices, below) && |below| <= bound && Lists(order, gone)
    requires Buried(o0, order, NoticeIds(notices), bound)
    ensures Entombed(o0, order, gone, NoticeIds(notices), bound) && below <= gone
  {
    var ids := NoticeIds(notices);
    IdsOfNotices(notices, below);
    Distinct(ids);
    assert (set id | id in ids) == below;
    AllBuried(o0, order, ids, bound);
  }

  // ---- What a discard revokes: each listed allocation that is current when its turn comes.

  ghost function Revoked(e: Table, i: Table, allocations: seq<Allocation>): seq<Id> {
    if allocations == [] then []
    else
      var init, last := allocations[..|allocations| - 1], allocations[|allocations| - 1];
      Revoked(e, i, init) +
      if Current(Without(e, RefsOf(init)), Without(i, RefsOf(init)), last) then [last.id] else []
  }

  lemma RevokedNext(e: Table, i: Table, allocations: seq<Allocation>, k: nat)
    requires k < |allocations|
    ensures var refs := RefsOf(allocations[..k]);
            Revoked(e, i, allocations[..k + 1]) == Revoked(e, i, allocations[..k]) +
            if Current(Without(e, refs), Without(i, refs), allocations[k]) then [allocations[k].id] else []
  {
    assert allocations[..k + 1][..k] == allocations[..k];
  }

  // The first of the listed allocations are discarded.
  ghost predicate Discarded(e: Table, i: Table, o0: seq<Id>, exports: Table, imports: Table, order: seq<Id>,
                            allocations: seq<Allocation>, k: nat, bound: nat) {
    && k <= |allocations|
    && exports == Without(e, RefsOf(allocations[..k])) && imports == Without(i, RefsOf(allocations[..k]))
    && Buried(o0, order, Revoked(e, i, allocations[..k]), bound)
  }

  // What the next one adds to the notices.
  ghost predicate NextTold(e: Table, i: Table, allocations: seq<Allocation>, k: nat, more: seq<Notice>) {
    k < |allocations| && Told(more, NoticeIds(more))
    && Revoked(e, i, allocations[..k + 1]) == Revoked(e, i, allocations[..k]) + NoticeIds(more)
  }

  lemma StartDiscarded(e: Table, i: Table, order: seq<Id>, allocations: seq<Allocation>, bound: nat)
    requires Buried(order, order, [], bound)
    ensures Discarded(e, i, order, e, i, order, allocations, 0, bound)
  {
    NoneDiscarded(e, i);
    assert allocations[..0] == [];
  }

  lemma KeptDiscarded(ms: seq<(Id, bool)>, e: Table, i: Table, o0: seq<Id>, exports: Table, imports: Table,
                      order: seq<Id>,
                      allocations: seq<Allocation>, k: nat, bound: nat)
    requires Discarded(e, i, o0, exports, imports, order, allocations, k, bound) && k < |allocations|
    requires Minted(ms, exports, imports) && AllocationsMinted(ms, allocations) && exports.Keys !! imports.Keys
    requires !Current(exports, imports, allocations[k])
    ensures Discarded(e, i, o0, exports, imports, order, allocations, k + 1, bound)
            && NextTold(e, i, allocations, k, [])
  {
    RevokedNext(e, i, allocations, k);
    NextDiscarded(ms, e, i, exports, imports, allocations, k);
  }

  // What a discard needs to know of what the scope holds.
  ghost predicate Distinguished(ms: seq<(Id, bool)>, exports: Table, imports: Table) {
    Minted(ms, exports, imports) && exports.Keys !! imports.Keys
  }

  lemma DiscardFacts(maxE: nat, maxI: nat, owners: Owners, root: Option<nat>, exports: Table, imports: Table,
                     gone: set<Id>, order: seq<Id>, next: nat, ms: seq<(Id, bool)>, closed: bool)
    requires TreeOk(owners, root, exports, imports, {})
    requires BooksOk(maxE, maxI, exports, imports, gone, order, next, ms, closed)
    ensures Distinguished(ms, exports, imports)
  {
  }

  // What comes of the next allocation.
  lemma {:induction false} NextDiscard(ms: seq<(Id, bool)>, exports: Table, imports: Table, order: seq<Id>, e: Table,
                                       i: Table, o0: seq<Id>, allocations: seq<Allocation>, k: nat, bound: nat)
    requires Distinguished(ms, exports, imports)
    requires AllocationsMinted(ms, allocations) && Discarded(e, i, o0, exports, imports, order, allocations, k, bound)
    requires k < |allocations|
    ensures var id := allocations[k].id;
            if Current(exports, imports, allocations[k])
            then (id in exports || id in imports) && Taken(e, i, exports - {id}, imports - {id}, allocations, k, id)
                 && NextTold(e, i, allocations, k, [Notice(id, true)])
            else Discarded(e, i, o0, exports, imports, order, allocations, k + 1, bound)
                 && NextTold(e, i, allocations, k, [])
  {
    if Current(exports, imports, allocations[k]) {
      NextIsTaken(ms, e, i, o0, exports, imports, order, allocations, k, bound);
    } else {
      KeptDiscarded(ms, e, i, o0, exports, imports, order, allocations, k, bound);
    }
  }

  // What is about to be taken is what comes next.
  lemma NextIsTaken(ms: seq<(Id, bool)>, e: Table, i: Table, o0: seq<Id>, exports: Table, imports: Table,
                    order: seq<Id>,
                    allocations: seq<Allocation>, k: nat, bound: nat)
    requires Discarded(e, i, o0, exports, imports, order, allocations, k, bound) && k < |allocations|
    requires Minted(ms, exports, imports) && AllocationsMinted(ms, allocations) && exports.Keys !! imports.Keys
    requires Current(exports, imports, allocations[k])
    ensures var id := allocations[k].id;
            && Taken(e, i, exports - {id}, imports - {id}, allocations, k, id)
            && NextTold(e, i, allocations, k, [Notice(id, true)])
  {
    RevokedNext(e, i, allocations, k);
    NextDiscarded(ms, e, i, exports, imports, allocations, k);
    assert NoticeIds([Notice(allocations[k].id, true)]) == [allocations[k].id];
  }

  // But for the tombstone, one more is discarded.
  ghost predicate Taken(e: Table, i: Table, exports: Table, imports: Table, allocations: seq<Allocation>, k: nat,
                        id: Id) {
    && k < |allocations| && Revoked(e, i, allocations[..k + 1]) == Revoked(e, i, allocations[..k]) + [id]
    && exports == Without(e, RefsOf(allocations[..k + 1])) && imports == Without(i, RefsOf(allocations[..k + 1]))
  }

  lemma TakenIsDiscarded(e: Table, i: Table, o0: seq<Id>, exports: Table, imports: Table, order: seq<Id>,
                         allocations: seq<Allocation>, k: nat, bound: nat, id: Id)
    requires Taken(e, i, exports, imports, allocations, k, id)
    requires Buried(o0, order, Revoked(e, i, allocations[..k]) + [id], bound)
    ensures Discarded(e, i, o0, exports, imports, order, allocations, k + 1, bound)
  {
  }

  // An id in either table whose entry is of these identities.
  predicate Of(e: Table, i: Table, refs: set<nat>, id: Id) {
    (id in e && e[id].ref in refs) || (id in i && i[id].ref in refs)
  }

  ghost function AllOf(e: Table, i: Table, refs: set<nat>): set<Id> {
    set id | id in e.Keys + i.Keys && Of(e, i, refs, id)
  }

  lemma {:induction false} RevokedAre(ms: seq<(Id, bool)>, e: Table, i: Table, allocations: seq<Allocation>)
    requires Minted(ms, e, i) && AllocationsMinted(ms, allocations) && e.Keys !! i.Keys
    ensures NoDuplicates(Revoked(e, i, allocations))
    ensures forall id :: id in Revoked(e, i, allocations) <==> Of(e, i, RefsOf(allocations), id)
  {
    if allocations != [] {
      var k := |allocations| - 1;
      var init, last := allocations[..k], allocations[k];
      RevokedAre(ms, e, i, init);
      OneMoreRef(allocations, k);
      assert allocations[..k + 1] == allocations;
      var current := Current(Without(e, RefsOf(init)), Without(i, RefsOf(init)), last);
      forall id
        ensures Of(e, i, RefsOf(allocations), id) <==> Of(e, i, RefsOf(init), id) || (current && id == last.id)
      {
      }
      assert current ==> !Of(e, i, RefsOf(init), last.id);
    }
  }

  lemma {:induction false} RevokedAreTold(ms: seq<(Id, bool)>, e: Table, i: Table, allocations: seq<Allocation>,
                                          notices: seq<Notice>)
    requires Minted(ms, e, i) && AllocationsMinted(ms, allocations) && e.Keys !! i.Keys
    requires Told(notices, Revoked(e, i, allocations))
    ensures AllTold(notices, AllOf(e, i, RefsOf(allocations)))
  {
    RevokedAre(ms, e, i, allocations);
    NoticesAreOfIds(notices, Revoked(e, i, allocations), AllOf(e, i, RefsOf(allocations)));
  }

  lemma {:induction false} RevokedAreEntombed(maxE: nat, maxI: nat, ms: seq<(Id, bool)>, e: Table, i: Table,
                                              o0: seq<Id>,
                                              allocations: seq<Allocation>, notices: seq<Notice>, gone: set<Id>,
                                              order: seq<Id>)
    requires Minted(ms, e, i) && AllocationsMinted(ms, allocations) && e.Keys !! i.Keys
    requires Fits(e, maxE) && Fits(i, maxI) && Lists(order, gone) && Told(notices, Revoked(e, i, allocations))
    requires Buried(o0, order, Revoked(e, i, allocations), maxE + maxI)
    ensures Entombed(o0, order, gone, NoticeIds(notices), maxE + maxI)
    ensures AllTold(notices, AllOf(e, i, RefsOf(allocations))) && AllOf(e, i, RefsOf(allocations)) <= gone
  {
    RevokedAreTold(ms, e, i, allocations, notices);
    RevokedAre(ms, e, i, allocations);
    ToldIds(notices, Revoked(e, i, allocations));
    TabledFit(e, i, Revoked(e, i, allocations), maxE, maxI);
    AllBuried(o0, order, Revoked(e, i, allocations), maxE + maxI);
  }

  // What a discard has told of has tombstones, as many as it took.
  lemma {:induction false} AllDiscarded(maxE: nat, maxI: nat, e: Table, i: Table, g: set<Id>, o0: seq<Id>, next: nat,
                                        ms: seq<(Id, bool)>, closed: bool, allocations: seq<Allocation>,
                                        notices: seq<Notice>, e': Table, i': Table, gone: set<Id>, order: seq<Id>)
    requires BooksOk(maxE, maxI, e, i, g, o0, next, ms, closed)
             && BooksOk(maxE, maxI, e', i', gone, order, next, ms, closed)
    requires AllocationsMinted(ms, allocations) && e.Keys !! i.Keys
    requires Discarded(e, i, o0, e', i', order, allocations, |allocations|, maxE + maxI)
    requires Told(notices, Revoked(e, i, allocations[..|allocations|]))
    ensures e' == Without(e, RefsOf(allocations)) && i' == Without(i, RefsOf(allocations))
    ensures Told(notices, Revoked(e, i, allocations)) && AllTold(notices, AllOf(e, i, RefsOf(allocations)))
    ensures AllOf(e, i, RefsOf(allocations)) <= gone
    ensures Entombed(o0, order, gone, NoticeIds(notices), maxE + maxI)
  {
    assert allocations[..|allocations|] == allocations;
    BooksMint(maxE, maxI, e, i, g, o0, next, ms, closed);
    BooksFit(maxE, maxI, e, i, g, o0, next, ms, closed);
    BooksList(maxE, maxI, e', i', gone, order, next, ms, closed);
    RevokedAreEntombed(maxE, maxI, ms, e, i, o0, allocations, notices, gone, order);
  }

  lemma ToldIsEntombed(notices: seq<Notice>, below: set<Id>, id: Id)
    requires AllTold(notices, below) && id in below
    ensures id in NoticeIds(notices) && Notice(id, true) in notices
  {
    assert Notice(id, true) in notices;
    var k :| 0 <= k < |notices| && notices[k] == Notice(id, true);
    assert NoticeIds(notices)[k] == id;
  }

  lemma CurrentIsOf(e: Table, i: Table, allocations: seq<Allocation>, k: nat)
    requires k < |allocations| && Current(e, i, allocations[k])
    ensures allocations[k].id in AllOf(e, i, RefsOf(allocations))
  {
    assert allocations[k].ref in RefsOf(allocations);
  }
}

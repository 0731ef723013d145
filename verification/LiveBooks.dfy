/**
 What the tables, the owner tree, the tombstones and the batches of a live scope
 must agree on, as predicates over values, and how each elementary change keeps it:
 an entry made or removed, an owner ended, a tombstone left or forgotten, a batch
 begun, listing an allocation, closed or joined to its parent. The predicates come in
 three parts - tree, books and batches - that share no state but the tables and the
 identities minted, so that most changes touch one of them only.
 */
module LiveBooks {
  import opened LiveOwners
  import opened Wrappers

  datatype Entry = Entry(ref: nat, owner: nat, contract: string, digest: string)

  type Table = map<Id, Entry>

  datatype Allocation = Allocation(id: Id, imported: bool, ref: nat)

  datatype Batch = Batch(parent: Option<nat>, active: bool, allocations: seq<Allocation>)

  // A view of an owner state, under a batch or none.
  datatype Owner = Owner(state: nat, batch: Option<nat>)

  datatype Reference = Reference(id: Id, contract: string, digest: string)

  datatype Code =
    | ContractInvalid | ContractMismatch | ReferenceReleased | ScopeClosed | TooManyExports | TooManyImports

  datatype Outcome<T> = Done(value: T) | Refused(code: Code)

  // What an import resolves to, by identity.
  datatype Attached = Local(ref: nat) | Held(ref: nat) | Fresh(ref: nat)

  datatype Notice = Notice(id: Id, found: bool)

  // ---- Agreement of the tables and the tree.

  predicate Backed(owners: Owners, table: Table, imported: bool, pending: set<Id>, id: Id)
    requires id in table
  {
    && table[id].owner < |owners|
    && (id in pending || (id in owners[table[id].owner].owned && owners[table[id].owner].owned[id] == imported))
  }

  predicate Listed(owners: Owners, exports: Table, imports: Table, pending: set<Id>, x: nat, id: Id)
    requires x < |owners| && id in owners[x].owned
  {
    var table := if owners[x].owned[id] then imports else exports;
    id !in pending && id in table && table[id].owner == x
  }

  /** An id is in a table if and only if the entry's owner owns it; ids in `pending`
      are tabled although their owner was just emptied. */
  ghost predicate TablesAgree(owners: Owners, exports: Table, imports: Table, pending: set<Id>) {
    && exports.Keys !! imports.Keys
    && (forall id :: id in exports ==> Backed(owners, exports, false, pending, id))
    && (forall id :: id in imports ==> Backed(owners, imports, true, pending, id))
    && (forall x, id :: 0 <= x < |owners| && id in owners[x].owned ==> Listed(owners, exports, imports, pending, x, id))
  }

  // Issued by this scope, or not one of its ids.
  predicate Known(id: Id, next: nat) { id.Own? ==> id.serial < next }

  ghost predicate IdsKnown(next: nat, exports: Table, imports: Table, gone: set<Id>) {
    && (forall id :: id in exports ==> id.Own? && Known(id, next))
    && (forall id :: id in imports ==> Known(id, next))
    && (forall id :: id in gone ==> Known(id, next) && id !in exports && id !in imports)
  }

  predicate NoDuplicates<T(==)>(list: seq<T>) {
    forall i, j :: 0 <= i < j < |list| ==> list[i] != list[j]
  }

  /** The order is a duplicate-free listing of the tombstones, and bounded. */
  ghost predicate OrderLists(order: seq<Id>, gone: set<Id>, bound: nat) {
    && NoDuplicates(order) && |order| <= bound
    && forall id :: id in order <==> id in gone
  }

  lemma BuriedLists(order: seq<Id>, gone: set<Id>, bound: nat, id: Id)
    requires OrderLists(order, gone, bound) && id !in gone
    ensures OrderLists(order + [id], gone + {id}, bound + 1)
  {
  }

  lemma ForgottenLists(order: seq<Id>, gone: set<Id>, bound: nat)
    requires OrderLists(order, gone, bound + 1) && |order| > 0
    ensures OrderLists(order[1..], gone - {order[0]}, bound)
  {
    assert order == [order[0]] + order[1..];
  }

  // Every entry's identity was minted once, for its id and its table.
  ghost predicate Minted(minted: seq<(Id, bool)>, exports: Table, imports: Table) {
    && (forall id :: id in exports ==> exports[id].ref < |minted| && minted[exports[id].ref] == (id, false))
    && (forall id :: id in imports ==> imports[id].ref < |minted| && minted[imports[id].ref] == (id, true))
  }

  /** Tables and tree agree, links are exact, and only the current root counts. */
  ghost predicate TreeOk(owners: Owners, root: Option<nat>, exports: Table, imports: Table, pending: set<Id>) {
    && LinksExact(owners) && ReleasedEmpty(owners, {}) && RootOk(owners, root)
    && TablesAgree(owners, exports, imports, pending)
  }

  function Size(table: Table): (n: nat)
    ensures n == |table|
  {
    |table|
  }

  // A table within its limit. Said of any equal one, so that sizes are thought of only where they are named.
  ghost predicate Fits(table: Table, max: nat) {
    forall t: Table {:trigger Size(t)} :: t == table ==> Size(t) <= max
  }

  /** Ids, limits, tombstones and identities are in order. */
  ghost predicate BooksOk(maxExports: nat, maxImports: nat, exports: Table, imports: Table, gone: set<Id>,
                          order: seq<Id>, next: nat, minted: seq<(Id, bool)>, closed: bool) {
    && maxExports > 0 && maxImports > 0
    && IdsKnown(next, exports, imports, gone)
    && OrderLists(order, gone, maxExports + maxImports)
    && Minted(minted, exports, imports)
    && Fits(exports, maxExports) && Fits(imports, maxImports)
    && (closed ==> exports == map[] && imports == map[])
  }

  // ---- Batches.

  // One batch has closed; the others stay as they were, but for what they list.
  ghost predicate OneClosed(was: seq<Batch>, now: seq<Batch>, b: nat) {
    && b < |was| == |now| && !now[b].active
    && forall x :: 0 <= x < |was| && x != b ==> now[x].parent == was[x].parent && now[x].active == was[x].active
  }

  // Committed, a batch joins a parent that is still open.
  predicate Nests(batches: seq<Batch>, b: nat)
    requires b < |batches|
  {
    batches[b].parent.Some? && batches[b].parent.value < |batches| && batches[batches[b].parent.value].active
  }

  ghost function JoinedMore(joined: map<nat, nat>, batches: seq<Batch>, b: nat, committed: bool): map<nat, nat>
    requires b < |batches|
  {
    if committed && Nests(batches, b) then joined[b := batches[b].parent.value] else joined
  }

  // x is b, or was committed into it through its parents.
  ghost predicate LeadsTo(joined: map<nat, nat>, x: nat, b: nat)
    decreases x
  {
    x == b || (x in joined && joined[x] < x && LeadsTo(joined, joined[x], b))
  }

  ghost predicate AllocationsMinted(minted: seq<(Id, bool)>, allocations: seq<Allocation>) {
    forall i :: 0 <= i < |allocations| ==>
      allocations[i].ref < |minted| && minted[allocations[i].ref] == (allocations[i].id, allocations[i].imported)
  }

  ghost function RefsOf(allocations: seq<Allocation>): set<nat> {
    set i | 0 <= i < |allocations| :: allocations[i].ref
  }

  // What was allocated under a batch or a nested one committed into it.
  ghost function MadeUnder(made: map<nat, nat>, joined: map<nat, nat>, b: nat): set<nat> {
    set r | r in made && LeadsTo(joined, made[r], b)
  }

  ghost predicate BatchOk(batches: seq<Batch>, minted: seq<(Id, bool)>, made: map<nat, nat>, joined: map<nat, nat>,
                          b: nat)
    requires b < |batches|
  {
    && (batches[b].parent.Some? ==> batches[b].parent.value < b)
    && (batches[b].active ==> b !in joined && AllocationsMinted(minted, batches[b].allocations)
                              && RefsOf(batches[b].allocations) == MadeUnder(made, joined, b))
    && (!batches[b].active ==> batches[b].allocations == [] && batches[b].parent.None?)
  }

  /** An active batch lists exactly the allocations made under its view and under the
      nested views committed into it. */
  ghost predicate BatchesOk(batches: seq<Batch>, minted: seq<(Id, bool)>, made: map<nat, nat>, joined: map<nat, nat>,
                            begun: seq<nat>) {
    && |begun| == |batches|
    && (forall b, c :: 0 <= b <= c < |begun| ==> begun[b] <= begun[c] <= |minted|)
    && (forall r :: r in made ==> made[r] < |batches| && begun[made[r]] <= r < |minted|)
    && (forall b :: b in joined ==> b < |batches| && joined[b] < b)
    && forall b :: 0 <= b < |batches| ==> BatchOk(batches, minted, made, joined, b)
  }

  // No batch opens, closes or changes its parent; what is listed may grow.
  predicate SameBatches(a: seq<Batch>, b: seq<Batch>) {
    |a| == |b| && forall x :: 0 <= x < |a| ==> a[x].parent == b[x].parent && a[x].active == b[x].active
  }

  // What is listed for a view: its batch while that is active.
  function BatchOf(batches: seq<Batch>, view: Owner): Option<nat> {
    if view.batch.Some? && view.batch.value < |batches| && batches[view.batch.value].active then view.batch else None
  }

  // Which batch an identity was made under, once one more was made.
  function MadeMore(made: map<nat, nat>, ref: nat, batch: Option<nat>): map<nat, nat> {
    if batch.Some? then made[ref := batch.value] else made
  }

  // The youngest of a list of tombstones, as many as may be kept.
  function Kept(order: seq<Id>, bound: nat): seq<Id> {
    if |order| <= bound then order else order[|order| - bound..]
  }

  // A table without the entries of certain identities.
  ghost function Without(table: Table, refs: set<nat>): Table {
    map id | id in table && table[id].ref !in refs :: table[id]
  }

  ghost function OwnedBelow(owners: Owners, o: nat): set<Id>
    requires Acyclic(owners)
  {
    set x, id | 0 <= x < |owners| && Descends(owners, x, o) && id in owners[x].owned :: id
  }

  // ---- Digests.

  predicate ValidDigest(digest: string) {
    digest == "" ||
    (|digest| == 64 && forall i :: 0 <= i < 64 ==> '0' <= digest[i] <= '9' || 'a' <= digest[i] <= 'f')
  }

  predicate DigestMismatch(left: string, right: string) { left != "" && right != "" && left != right }

  function KnownDigest(received: string, expected: string): string { if received != "" then received else expected }

  // ---- Batches and the history.

  lemma {:induction false} LeadsDown(joined: map<nat, nat>, x: nat, b: nat)
    requires LeadsTo(joined, x, b)
    ensures b <= x
    decreases x
  {
    if x != b { LeadsDown(joined, joined[x], b); }
  }

  lemma MintedAside(batches: seq<Batch>, ms: seq<(Id, bool)>, ms': seq<(Id, bool)>, made: map<nat, nat>,
                    joined: map<nat, nat>, begun: seq<nat>)
    requires BatchesOk(batches, ms, made, joined, begun) && ms <= ms'
    ensures BatchesOk(batches, ms', made, joined, begun)
  {
    forall b | 0 <= b < |batches| ensures BatchOk(batches, ms', made, joined, b) {
      assert BatchOk(batches, ms, made, joined, b);
    }
  }

  lemma ListedUnderBatch(bs: seq<Batch>, bs': seq<Batch>, ms: seq<(Id, bool)>, ms': seq<(Id, bool)>,
                         made: map<nat, nat>, made': map<nat, nat>, joined: map<nat, nat>, begun: seq<nat>, b: nat,
                         a: Allocation)
    requires BatchesOk(bs, ms, made, joined, begun) && b < |bs| && bs[b].active
    requires ms' == ms + [(a.id, a.imported)] && a.ref == |ms| && made' == made[a.ref := b]
    requires bs' == bs[b := bs[b].(allocations := bs[b].allocations + [a])]
    ensures BatchesOk(bs', ms', made', joined, begun)
  {
    assert BatchOk(bs, ms, made, joined, b);
    forall c | 0 <= c < |bs'| ensures BatchOk(bs', ms', made', joined, c) {
      assert BatchOk(bs, ms, made, joined, c);
      MadeUnderAdds(made, made', joined, a.ref, b, c);
      if c == b {
        var old_, new_ := bs[b].allocations, bs'[b].allocations;
        assert forall i :: 0 <= i < |old_| ==> new_[i] == old_[i];
        assert new_[|old_|] == a;
        forall r ensures r in RefsOf(new_) <==> r in RefsOf(old_) || r == a.ref {
          if r in RefsOf(old_) { var i :| 0 <= i < |old_| && old_[i].ref == r; assert new_[i].ref == r; }
        }
      }
    }
    assert begun[b] <= |ms|;
  }

  lemma MadeUnderAdds(made: map<nat, nat>, made': map<nat, nat>, joined: map<nat, nat>, ref: nat, b: nat, c: nat)
    requires ref !in made && made' == made[ref := b] && b !in joined
    ensures MadeUnder(made', joined, c) == MadeUnder(made, joined, c) + if b == c then {ref} else {}
  {
  }

  lemma AddedBacked(was: Owners, now: Owners, e: Table, i: Table, which: bool, o: nat, id: Id, imported: bool,
                    entry: Entry)
    requires TablesAgree(was, e, i, {}) && SameShape(was, now) && o < |was|
    requires id !in e && id !in i && entry.owner == o
    requires forall x :: 0 <= x < |now| ==>
             now[x].owned == if x == o then was[x].owned[id := imported] else was[x].owned
    ensures var table := Entered(if which then i else e, which == imported, id, entry);
            forall k :: k in table ==> Backed(now, table, which, {}, k)
  {
    var before := if which then i else e;
    var table := Entered(before, which == imported, id, entry);
    assert forall k :: k in before ==> Backed(was, before, which, {}, k);
    forall k | k in table ensures Backed(now, table, which, {}, k) {
      if k != id { assert Backed(was, before, which, {}, k); }
    }
  }

  lemma AddedListed(was: Owners, now: Owners, e: Table, i: Table, o: nat, id: Id, imported: bool, entry: Entry)
    requires TablesAgree(was, e, i, {}) && SameShape(was, now) && o < |was|
    requires id !in e && id !in i && entry.owner == o
    requires forall x :: 0 <= x < |now| ==>
             now[x].owned == if x == o then was[x].owned[id := imported] else was[x].owned
    ensures forall x, k :: 0 <= x < |now| && k in now[x].owned ==>
              Listed(now, Entered(e, !imported, id, entry), Entered(i, imported, id, entry), {}, x, k)
  {
    forall x, k | 0 <= x < |now| && k in now[x].owned
      ensures Listed(now, Entered(e, !imported, id, entry), Entered(i, imported, id, entry), {}, x, k)
    {
      if k in was[x].owned { assert Listed(was, e, i, {}, x, k); }
    }
  }

  lemma {:induction false} AddedAgrees(was: Owners, now: Owners, e: Table, i: Table, o: nat, id: Id, imported: bool,
                                       entry: Entry)
    requires TablesAgree(was, e, i, {}) && SameShape(was, now) && o < |was|
    requires id !in e && id !in i && entry.owner == o
    requires forall x :: 0 <= x < |now| ==>
             now[x].owned == if x == o then was[x].owned[id := imported] else was[x].owned
    ensures TablesAgree(now, Entered(e, !imported, id, entry), Entered(i, imported, id, entry), {})
  {
    var e', i' := Entered(e, !imported, id, entry), Entered(i, imported, id, entry);
    AddedBacked(was, now, e, i, false, o, id, imported, entry);
    AddedBacked(was, now, e, i, true, o, id, imported, entry);
    AddedListed(was, now, e, i, o, id, imported, entry);
  }

  lemma SameRoot(was: Owners, now: Owners, root: Option<nat>)
    requires RootOk(was, root) && SameShape(was, now)
    requires forall x :: 0 <= x < |now| ==> (was[x].released ==> now[x].released)
    ensures RootOk(now, root) && Grown(was, now)
  {
  }

  lemma AddedReleasedEmpty(was: Owners, now: Owners, o: nat)
    requires LinksExact(was) && ReleasedEmpty(was, {}) && SameShape(was, now) && o < |was| && !Ended(was, o)
    requires forall x :: 0 <= x < |now| ==>
               now[x].released == was[x].released && (!Descends(was, o, x) ==> now[x].children == was[x].children)
               && (x != o ==> now[x].owned == was[x].owned)
    ensures ReleasedEmpty(now, {})
  {
    forall x | 0 <= x < |now| && now[x].released ensures Empty(now, x) {
      if Descends(was, o, x) { EndedBelow(was, o, x); }
      assert Empty(was, x);
    }
  }

  lemma OneLarger(table: Table, id: Id, entry: Entry)
    requires id !in table
    ensures |table[id := entry]| == |table| + 1
  {
    assert table[id := entry].Keys == table.Keys + {id};
    assert |table[id := entry].Keys| == |table.Keys| + 1;
  }

  function Entered(table: Table, here: bool, id: Id, entry: Entry): Table {
    if here then table[id := entry] else table
  }

  lemma EnteredBooks(maxE: nat, maxI: nat, e: Table, i: Table, gone: set<Id>, order: seq<Id>, next: nat,
                     ms: seq<(Id, bool)>, id: Id, imported: bool, entry: Entry)
    requires BooksOk(maxE, maxI, e, i, gone, order, next, ms, false) && Known(id, next) && (!imported ==> id.Own?)
    requires id !in e && id !in i && id !in gone && entry.ref == |ms|
    requires if imported then |i| < maxI else |e| < maxE
    ensures BooksOk(maxE, maxI, Entered(e, !imported, id, entry), Entered(i, imported, id, entry), gone, order, next,
            ms + [(id, imported)], false)
  {
    OneLarger(e, id, entry);
    OneLarger(i, id, entry);
  }

  lemma IssuedBooks(maxE: nat, maxI: nat, e: Table, i: Table, gone: set<Id>, order: seq<Id>, next: nat,
                    ms: seq<(Id, bool)>, closed: bool)
    requires BooksOk(maxE, maxI, e, i, gone, order, next, ms, closed)
    ensures BooksOk(maxE, maxI, e, i, gone, order, next + 1, ms, closed)
    ensures Own(next) !in e && Own(next) !in i && Own(next) !in gone
  {
  }

  lemma Smaller(table: Table, id: Id)
    ensures |table - {id}| <= |table|
  {
    var less := table - {id};
    assert less.Keys == table.Keys - {id};
    if id in table {
      assert table.Keys == less.Keys + {id};
    } else {
      assert table.Keys == less.Keys;
    }
    assert |less.Keys| <= |table.Keys|;
  }

  lemma FitsSmaller(table: Table, less: Table, max: nat)
    requires Fits(table, max) && |less| <= |table|
    ensures Fits(less, max)
  {
    assert Size(table) <= max;
  }

  lemma FittingSize(table: Table, max: nat)
    requires Fits(table, max)
    ensures |table| <= max
  {
    assert Size(table) <= max;
  }

  lemma BooksShrink(next: nat, minted: seq<(Id, bool)>, e: Table, i: Table, gone: set<Id>, g: set<Id>, id: Id)
    requires IdsKnown(next, e, i, gone) && Minted(minted, e, i) && Known(id, next) && g <= gone + {id}
    ensures IdsKnown(next, e - {id}, i - {id}, g) && Minted(minted, e - {id}, i - {id})
  {
    var e', i' := e - {id}, i - {id};
    assert forall k :: k in e' ==> k in e && e'[k] == e[k] && k != id;
    assert forall k :: k in i' ==> k in i && i'[k] == i[k] && k != id;
  }

  // An id gone from both tables, and the tombstones there are now.
  lemma RememberedBooks(maxE: nat, maxI: nat, e: Table, i: Table, gone: set<Id>, order: seq<Id>, next: nat,
                        ms: seq<(Id, bool)>, g: set<Id>, kept: seq<Id>, id: Id)
    requires BooksOk(maxE, maxI, e, i, gone, order, next, ms, false) && Known(id, next)
    requires OrderLists(kept, g, maxE + maxI) && g <= gone + {id}
    ensures BooksOk(maxE, maxI, e - {id}, i - {id}, g, kept, next, ms, false)
  {
    Smaller(e, id);
    Smaller(i, id);
    FitsSmaller(e, e - {id}, maxE);
    FitsSmaller(i, i - {id}, maxI);
    BooksShrink(next, ms, e, i, gone, g, id);
  }

  lemma AddedKeepsLinks(was: Owners, now: Owners, parent: Option<nat>)
    requires LinksExact(was) && ReleasedEmpty(was, {}) && (parent.Some? ==> parent.value < |was|)
    requires now == was + [OwnerState(parent, {}, map[], false)]
    ensures LinksExact(now) && ReleasedEmpty(now, {})
  {
    forall c | 0 <= c < |now| ensures LinkExact(now, c) {
      if c < |was| {
        assert LinkExact(was, c);
      }
    }
    forall q, c | 0 <= q < |now| && c in now[q].children ensures IsParent(now, q, c) {
      assert IsParent(was, q, c);
    }
    forall x | 0 <= x < |now| && now[x].released ensures Empty(now, x) {
      assert Empty(was, x);
    }
  }

  lemma AddedKeepsTables(was: Owners, now: Owners, exports: Table, imports: Table, pending: set<Id>)
    requires TablesAgree(was, exports, imports, pending)
    requires |now| == |was| + 1 && now[..|was|] == was && now[|was|].owned == map[]
    ensures TablesAgree(now, exports, imports, pending)
  {
    assert forall x :: 0 <= x < |was| ==> now[x] == now[..|was|][x];
    forall id | id in exports ensures Backed(now, exports, false, pending, id) {
      assert Backed(was, exports, false, pending, id);
    }
    forall id | id in imports ensures Backed(now, imports, true, pending, id) {
      assert Backed(was, imports, true, pending, id);
    }
    forall x, id | 0 <= x < |now| && id in now[x].owned ensures Listed(now, exports, imports, pending, x, id) {
      assert x < |was|;
      assert Listed(was, exports, imports, pending, x, id);
    }
  }

  lemma NotOwnedAnywhere(owners: Owners, exports: Table, imports: Table, pending: set<Id>, id: Id)
    requires TablesAgree(owners, exports, imports, pending) && id !in exports && id !in imports
    ensures forall x :: 0 <= x < |owners| ==> id !in owners[x].owned && owners[x].owned - {id} == owners[x].owned
    ensures TablesAgree(owners, exports, imports, pending - {id})
  {
    forall x | 0 <= x < |owners| ensures id !in owners[x].owned {
    }
    ForgottenAgrees(owners, owners, exports, imports, exports, imports, pending, id);
  }

  // One owner, if any, gives up an id; links may go, nothing else moves.
  ghost predicate Forgotten(was: Owners, now: Owners, owner: Option<nat>, id: Id) {
    SameShape(was, now) && forall x :: 0 <= x < |now| ==>
      && now[x].children <= was[x].children && now[x].released == was[x].released
      && now[x].owned == if owner == Some(x) then was[x].owned - {id} else was[x].owned
  }

  lemma {:induction false} ForgottenAgrees(was: Owners, now: Owners, e: Table, i: Table, e': Table, i': Table,
                                           pending: set<Id>, id: Id)
    requires TablesAgree(was, e, i, pending) && SameShape(was, now)
    requires e' == e - {id} && i' == i - {id}
    requires forall x :: 0 <= x < |now| ==>
               now[x].owned == if (id in e && e[id].owner == x) || (id in i && i[id].owner == x)
                 then was[x].owned - {id} else was[x].owned
    ensures TablesAgree(now, e', i', pending - {id})
    ensures forall x :: 0 <= x < |now| ==> now[x].owned == was[x].owned - {id}
  {
    forall x | 0 <= x < |now| ensures now[x].owned == was[x].owned - {id} {
      if id in was[x].owned { assert Listed(was, e, i, pending, x, id); }
      else { assert was[x].owned - {id} == was[x].owned; }
    }
    forall k | k in e' ensures Backed(now, e', false, pending - {id}, k) {
      assert Backed(was, e, false, pending, k);
    }
    forall k | k in i' ensures Backed(now, i', true, pending - {id}, k) {
      assert Backed(was, i, true, pending, k);
    }
    forall x, k | 0 <= x < |now| && k in now[x].owned ensures Listed(now, e', i', pending - {id}, x, k) {
      assert Listed(was, e, i, pending, x, k);
    }
  }

  lemma ShrunkReleasedEmpty(was: Owners, now: Owners)
    requires ReleasedEmpty(was, {}) && SameShape(was, now)
    requires forall x :: 0 <= x < |now| ==>
               now[x].children <= was[x].children && now[x].owned.Keys <= was[x].owned.Keys
                 && now[x].released == was[x].released
    ensures ReleasedEmpty(now, {})
  {
    forall x | 0 <= x < |now| && now[x].released ensures Empty(now, x) {
      assert Empty(was, x);
    }
  }

  // What ending o did to x.
  ghost predicate EndedState(was: Owners, now: Owners, o: nat, x: nat)
    requires x < |was| && x < |now| && Acyclic(was)
  {
    && now[x].owned == (if Descends(was, x, o) then map[] else was[x].owned)
    && (was[x].released ==> now[x].released)
    && (now[x].released ==> was[x].released || Descends(was, x, o))
    && now[x].children <= was[x].children
  }

  // Some descendants of o have been emptied and their ids collected.
  ghost predicate Progress(was: Owners, now: Owners, o: nat, ids: seq<Id>) {
    && SameShape(was, now) && Acyclic(was) && o < |was| && OwnedOnce(was)
    && now[o].released && now[o].owned == was[o].owned
    && (forall x :: 0 <= x < |was| ==>
          && (now[x].owned == was[x].owned || (now[x].owned == map[] && Descends(was, x, o)))
          && (was[x].released ==> now[x].released)
          && (now[x].released ==> was[x].released || Descends(was, x, o))
          && now[x].children <= was[x].children)
    && NoDuplicates(ids)
    && (forall id :: id in ids <==> exists x :: 0 <= x < |was| && id in was[x].owned && id !in now[x].owned)
  }

  lemma ReleaseKeepsLinks(was: Owners, now: Owners, o: nat)
    requires LinksExact(was) && o < |was| && now == was[o := was[o].(released := true)]
    ensures LinksExact(now) && SameShape(was, now)
  {
    forall c | 0 <= c < |now| ensures LinkExact(now, c) { assert LinkExact(was, c); }
    forall q, c | 0 <= q < |now| && c in now[q].children ensures IsParent(now, q, c) {
      assert IsParent(was, q, c);
    }
  }

  lemma EmptiedKeepsLinks(was: Owners, now: Owners, o: nat)
    requires LinksExact(was) && o < |was| && was[o].children == {}
    requires now == was[o := was[o].(owned := map[], children := {})]
    ensures LinksExactBut(now, o, true)
  {
    forall c | 0 <= c < |now| && c != o ensures LinkExact(now, c) { assert LinkExact(was, c); }
    assert LinkExact(was, o);
    forall q, c | 0 <= q < |now| && c in now[q].children ensures IsParent(now, q, c) {
      assert IsParent(was, q, c);
    }
  }

  lemma EndedChildIsUnlinked(before: Owners, now: Owners, o: nat, c: nat)
    requires LinksExact(before) && LinksExact(now) && SameShape(before, now) && o < |now| && c < |now|
    requires c in before[o].children
    requires forall x :: 0 <= x < |now| ==> EndedState(before, now, c, x)
    ensures c !in now[o].children && now[o].children < before[o].children && now[o].owned == before[o].owned
  {
    assert IsParent(before, o, c) && LinkExact(now, c);
    assert EndedState(before, now, c, o) && EndedState(before, now, c, c);
    if Descends(before, o, c) { DescendsIsAbove(before, o, c); }
    forall x | 0 <= x < |now| && Descends(now, x, c) ensures now[x].owned == map[] {
      SameDescends(before, now, x, c);
      assert EndedState(before, now, c, x);
    }
    if !Empty(now, c) {
      var x := OwningBelow(now, c);
      assert false;
    }
  }

  lemma ProgressGrows(was: Owners, before: Owners, now: Owners, o: nat, c: nat, ids: seq<Id>, more: seq<Id>)
    requires Progress(was, before, o, ids) && SameShape(before, now) && Acyclic(before) && c < |was|
    requires was[c].parent == Some(o) && now[o].owned == before[o].owned
    requires forall x :: 0 <= x < |now| ==> EndedState(before, now, c, x)
    requires NoDuplicates(more) && forall id :: id in more <==> id in OwnedBelow(before, c)
    ensures Progress(was, now, o, ids + more)
  {
    assert EndedState(before, now, c, o);
    forall x | 0 <= x < |was|
      ensures now[x].owned == was[x].owned || (now[x].owned == map[] && Descends(was, x, o))
      ensures was[x].released ==> now[x].released
      ensures now[x].released ==> was[x].released || Descends(was, x, o)
      ensures now[x].children <= was[x].children
      ensures Descends(before, x, c) ==> Descends(was, x, o)
    {
      assert EndedState(before, now, c, x);
      SameDescends(was, before, x, c);
      if Descends(was, x, c) {
        assert Descends(was, c, o);
        DescendsTransitive(was, x, c, o);
      }
    }
    forall id ensures id in ids + more <==> exists x :: 0 <= x < |was| && id in was[x].owned && id !in now[x].owned {
      if id in more {
        var x :| 0 <= x < |before| && Descends(before, x, c) && id in before[x].owned;
        assert EndedState(before, now, c, x);
        assert id in was[x].owned && id !in now[x].owned;
      }
      if id in ids {
        var x :| 0 <= x < |was| && id in was[x].owned && id !in before[x].owned;
        assert EndedState(before, now, c, x);
        assert id in was[x].owned && id !in now[x].owned;
      }
      if x :| 0 <= x < |was| && id in was[x].owned && id !in now[x].owned {
        assert EndedState(before, now, c, x);
        if id in before[x].owned {
          assert id in OwnedBelow(before, c);
        }
      }
    }
    forall i, j | 0 <= i < |ids| && 0 <= j < |more| ensures ids[i] != more[j] {
      assert ids[i] in ids && more[j] in more;
      var x :| 0 <= x < |was| && ids[i] in was[x].owned && ids[i] !in before[x].owned;
      var y :| 0 <= y < |before| && Descends(before, y, c) && more[j] in before[y].owned;
      assert more[j] in was[y].owned;
    }
  }

  // With no linked child left, nothing below o owns anything.
  lemma OnlyOwnIsLeft(owners: Owners, o: nat)
    requires LinksExact(owners) && o < |owners| && owners[o].children == {}
    ensures forall x :: 0 <= x < |owners| && x != o && Descends(owners, x, o) ==> Empty(owners, x)
  {
    forall x | 0 <= x < |owners| && x != o && Descends(owners, x, o) ensures Empty(owners, x) {
      if !Empty(owners, x) { OwningKeepsAncestors(owners, x, o); }
    }
  }

  lemma {:induction false} Collected(was: Owners, before: Owners, now: Owners, o: nat, ids: seq<Id>, own: seq<Id>)
    requires Progress(was, before, o, ids) && Acyclic(before) && SameShape(before, now)
    requires forall x :: 0 <= x < |before| && x != o && Descends(before, x, o) ==> Empty(before, x)
    requires forall x :: 0 <= x < |now| ==>
               now[x].owned == (if x == o then map[] else before[x].owned) && now[x].released == before[x].released
               && now[x].children <= before[x].children
    requires NoDuplicates(own) && forall id :: id in own <==> id in before[o].owned
    ensures forall x :: 0 <= x < |now| ==> EndedState(was, now, o, x)
    ensures OwnedOnce(now)
    ensures NoDuplicates(ids + own) && forall id :: id in ids + own <==> id in OwnedBelow(was, o)
  {
    forall x | 0 <= x < |now| ensures EndedState(was, now, o, x) {
      SameDescends(was, before, x, o);
    }
    forall id ensures id in ids + own <==> id in OwnedBelow(was, o) {
      if id in ids {
        var x :| 0 <= x < |was| && id in was[x].owned && id !in before[x].owned;
      }
      if id in OwnedBelow(was, o) {
        var x :| 0 <= x < |was| && Descends(was, x, o) && id in was[x].owned;
        SameDescends(was, before, x, o);
        if x != o { assert id !in before[x].owned; }
      }
    }
    forall i, j | 0 <= i < |ids| && 0 <= j < |own| ensures ids[i] != own[j] {
      assert ids[i] in ids && own[j] in own;
      var x :| 0 <= x < |was| && ids[i] in was[x].owned && ids[i] !in before[x].owned;
    }
  }

  lemma PrunedReleasedEmpty(before: Owners, emptied: Owners, now: Owners, o: nat, inProgress: set<nat>)
    requires o < |before| && ReleasedEmpty(before, inProgress + {o})
    requires emptied == before[o := before[o].(owned := map[], children := {})]
    requires SameBut(emptied, now) && forall x :: 0 <= x < |now| ==> now[x].children <= emptied[x].children
    ensures ReleasedEmpty(now, inProgress)
  {
    forall x | 0 <= x < |now| && x !in inProgress && now[x].released ensures Empty(now, x) {
      if x != o { assert Empty(before, x); }
    }
  }

  // ---- Digests of an attachment.

  predicate Agrees(entry: Entry, r: Reference, contract: string, digest: string) {
    entry.contract == contract && !DigestMismatch(entry.digest, r.digest) && !DigestMismatch(entry.digest, digest)
  }

  // The reference is for the contract, and for its declaration where both sides specify one.
  predicate Carries(r: Reference, contract: string, digest: string) {
    r.contract == contract && !DigestMismatch(r.digest, digest)
  }

  // A specified digest is never replaced.
  function Learned(entry: Entry, r: Reference, digest: string): (e: Entry)
    ensures entry.digest != "" ==> e == entry
  {
    if entry.digest == "" then entry.(digest := KnownDigest(r.digest, digest)) else entry
  }

  lemma LearnedKeepsTree(owners: Owners, root: Option<nat>, e: Table, i: Table, id: Id, digest: string)
    requires TreeOk(owners, root, e, i, {}) && id in i
    ensures TreeOk(owners, root, e, i[id := i[id].(digest := digest)], {})
  {
    var i' := i[id := i[id].(digest := digest)];
    forall k | k in i' ensures Backed(owners, i', true, {}, k) { assert Backed(owners, i, true, {}, k); }
    forall x, k | 0 <= x < |owners| && k in owners[x].owned ensures Listed(owners, e, i', {}, x, k) {
      assert Listed(owners, e, i, {}, x, k);
    }
  }

  lemma LearnedKeepsBooks(maxE: nat, maxI: nat, e: Table, i: Table, gone: set<Id>, order: seq<Id>, next: nat,
                          ms: seq<(Id, bool)>, closed: bool, id: Id, digest: string)
    requires BooksOk(maxE, maxI, e, i, gone, order, next, ms, closed) && id in i
    ensures BooksOk(maxE, maxI, e, i[id := i[id].(digest := digest)], gone, order, next, ms, closed)
  {
    var learned := i[id := i[id].(digest := digest)];
    assert learned.Keys == i.Keys && |learned| == |learned.Keys|;
    FitsSmaller(i, learned, maxI);
  }

  // ---- Endings.

  // A table, and a set of pending ids, without the ids already taken.
  ghost function Minus(table: Table, taken: seq<Id>): Table {
    map id | id in table && id !in taken :: table[id]
  }

  ghost function Left(pending: set<Id>, taken: seq<Id>): set<Id> {
    set id | id in pending && id !in taken
  }

  lemma NoneTaken(e: Table, i: Table, pending: set<Id>)
    ensures Minus(e, []) == e && Minus(i, []) == i && Left(pending, []) == pending
  {
  }

  lemma NextTaken(e: Table, i: Table, pending: set<Id>, ids: seq<Id>, k: nat)
    requires k < |ids| && NoDuplicates(ids)
    ensures Minus(e, ids[..k + 1]) == Minus(e, ids[..k]) - {ids[k]}
    ensures Minus(i, ids[..k + 1]) == Minus(i, ids[..k]) - {ids[k]}
    ensures Left(pending, ids[..k + 1]) == Left(pending, ids[..k]) - {ids[k]}
    ensures ids[k] in e ==> ids[k] in Minus(e, ids[..k])
    ensures ids[k] in i ==> ids[k] in Minus(i, ids[..k])
  {
    assert ids[..k + 1] == ids[..k] + [ids[k]];
  }

  lemma AllTaken(pending: set<Id>, ids: seq<Id>)
    requires forall id :: id in ids <==> id in pending
    ensures Left(pending, ids) == {}
  {
  }

  lemma MinusIsDifference(table: Table, ids: seq<Id>, below: set<Id>)
    requires forall id :: id in ids <==> id in below
    ensures Minus(table, ids) == table - below
  {
  }

  // One notice for each id, in order, each of a binding that was found.
  ghost predicate Told(notices: seq<Notice>, ids: seq<Id>) {
    |notices| == |ids| && forall j :: 0 <= j < |ids| ==> notices[j] == Notice(ids[j], true)
  }

  lemma ToldNext(notices: seq<Notice>, ids: seq<Id>, k: nat)
    requires k < |ids| && Told(notices, ids[..k])
    ensures Told(notices + [Notice(ids[k], true)], ids[..k + 1])
  {
  }

  lemma NoticesAreOfIds(notices: seq<Notice>, ids: seq<Id>, below: set<Id>)
    requires Told(notices, ids) && NoDuplicates(ids) && forall id :: id in ids <==> id in below
    ensures NoDuplicates(notices) && forall n :: n in notices <==> n.found && n.id in below
  {
    forall n ensures n in notices <==> n.found && n.id in below {
      if n.found && n.id in below {
        assert n.id in ids;
        var j :| 0 <= j < |ids| && ids[j] == n.id;
        assert notices[j] == n;
      }
      if n in notices {
        var j :| 0 <= j < |notices| && notices[j] == n;
        assert ids[j] in ids;
      }
    }
  }

  lemma OneOwnerEach(owners: Owners, e: Table, i: Table)
    requires TablesAgree(owners, e, i, {})
    ensures OwnedOnce(owners)
  {
    forall x, y, id | 0 <= x < |owners| && 0 <= y < |owners| && id in owners[x].owned && id in owners[y].owned
      ensures x == y
    {
      assert Listed(owners, e, i, {}, x, id) && Listed(owners, e, i, {}, y, id);
    }
  }

  lemma EndedTree(was: Owners, now: Owners, root: Option<nat>, e: Table, i: Table, o: nat)
    requires TreeOk(was, root, e, i, {}) && OwnedOnce(was) && o < |was|
    requires LinksExact(now) && ReleasedEmpty(now, {}) && SameShape(was, now)
    requires forall x :: 0 <= x < |now| ==> EndedState(was, now, o, x)
    ensures TreeOk(now, root, e, i, OwnedBelow(was, o))
  {
    var below := OwnedBelow(was, o);
    forall x | 0 <= x < |now| ensures was[x].released ==> now[x].released { assert EndedState(was, now, o, x); }
    SameRoot(was, now, root);
    forall id | id in e ensures Backed(now, e, false, below, id) {
      assert Backed(was, e, false, {}, id) && EndedState(was, now, o, e[id].owner);
    }
    forall id | id in i ensures Backed(now, i, true, below, id) {
      assert Backed(was, i, true, {}, id) && EndedState(was, now, o, i[id].owner);
    }
    forall x, id | 0 <= x < |now| && id in now[x].owned ensures Listed(now, e, i, below, x, id) {
      assert EndedState(was, now, o, x) && Listed(was, e, i, {}, x, id);
    }
  }

  lemma BelowIsTabled(owners: Owners, e: Table, i: Table, o: nat, id: Id)
    requires Acyclic(owners) && TablesAgree(owners, e, i, {}) && id in OwnedBelow(owners, o)
    ensures id in e || id in i
  {
    var x :| 0 <= x < |owners| && Descends(owners, x, o) && id in owners[x].owned;
    assert Listed(owners, e, i, {}, x, id);
  }

  lemma EndedStays(was: Owners, ended: Owners, before: Owners, now: Owners, o: nat, id: Id)
    requires Acyclic(was) && OwnedOnce(was) && id in OwnedBelow(was, o)
    requires SameShape(was, ended) && SameBut(ended, before) && SameShape(before, now)
    requires forall x :: 0 <= x < |ended| ==> EndedState(was, ended, o, x)
    requires forall x :: 0 <= x < |now| ==>
             now[x].released == before[x].released && now[x].owned == before[x].owned - {id}
    ensures SameBut(ended, now)
  {
    var y :| 0 <= y < |was| && Descends(was, y, o) && id in was[y].owned;
    forall x | 0 <= x < |was| ensures now[x].owned == ended[x].owned {
      assert EndedState(was, ended, o, x);
      assert ended[x].owned - {id} == ended[x].owned;
    }
  }

  lemma ReleasedInAll(was: Owners, ended: Owners, now: Owners, o: nat)
    requires Acyclic(was) && Acyclic(now) && SameShape(was, ended) && SameBut(ended, now) && o < |was|
             && ended[o].released
    requires forall x :: 0 <= x < |ended| ==> EndedState(was, ended, o, x)
    ensures Grown(was, now)
    ensures forall x :: 0 <= x < |now| ==>
              now[x].owned == (if Descends(was, x, o) then map[] else was[x].owned) &&
              (Descends(was, x, o) ==> Ended(now, x)) &&
              (now[x].released ==> was[x].released || Descends(was, x, o))
  {
    forall x | 0 <= x < |was|
      ensures EndedState(was, ended, o, x) && (Descends(was, x, o) ==> Ended(now, x))
              && (was[x].released ==> now[x].released)
    {
      SameDescends(was, now, x, o);
      if Descends(was, x, o) { EndedBelow(now, x, o); }
    }
  }

  lemma ClosedOwnsNothing(owners: Owners, e: Table, i: Table)
    requires TablesAgree(owners, e, i, {}) && e == map[] && i == map[]
    ensures forall x :: 0 <= x < |owners| ==> owners[x].owned == map[]
  {
    forall x | 0 <= x < |owners| ensures owners[x].owned == map[] {
      if id :| id in owners[x].owned { assert false; }
    }
  }

  // After the current root has ended nobody owns anything.
  lemma ClosedTree(was: Owners, now: Owners, root: Option<nat>)
    requires LinksExact(was) && ReleasedEmpty(was, {}) && RootOk(was, root)
    requires LinksExact(now) && ReleasedEmpty(now, {}) && SameShape(was, now)
    requires if root.None? then now == was else forall x :: 0 <= x < |now| ==> EndedState(was, now, root.value, x)
    ensures TreeOk(now, root, map[], map[], {})
    ensures forall x :: 0 <= x < |now| ==> now[x].owned == map[]
  {
    forall x | 0 <= x < |now| ensures now[x].owned == map[] && (was[x].released ==> now[x].released) {
      if root.Some? { assert EndedState(was, now, root.value, x); }
      if !Empty(was, x) { OwningHangsFromRoot(was, root, x); }
    }
    SameRoot(was, now, root);
  }

  lemma ClosedBooks(maxE: nat, maxI: nat, e: Table, i: Table, gone: set<Id>, order: seq<Id>, next: nat,
                    ms: seq<(Id, bool)>)
    requires BooksOk(maxE, maxI, e, i, gone, order, next, ms, false)
    ensures BooksOk(maxE, maxI, map[], map[], gone, order, next, ms, true)
  {
  }

  // ---- Batches opening and closing.

  lemma {:induction false} JoinLeads(joined: map<nat, nat>, b: nat, p: nat, x: nat, c: nat)
    requires b !in joined && p !in joined && p < b && c != b
    ensures LeadsTo(joined[b := p], x, c) <==> LeadsTo(joined, x, c) || (c == p && LeadsTo(joined, x, b))
    decreases x
  {
    if x != c && x != b && x in joined && joined[x] < x {
      JoinLeads(joined, b, p, joined[x], c);
    }
  }

  lemma BatchListsItsOwn(batches: seq<Batch>, ms: seq<(Id, bool)>, made: map<nat, nat>, joined: map<nat, nat>,
                         begun: seq<nat>, b: nat)
    requires BatchesOk(batches, ms, made, joined, begun) && b < |batches| && batches[b].active
    ensures AllocationsMinted(ms, batches[b].allocations)
            && RefsOf(batches[b].allocations) == MadeUnder(made, joined, b)
    ensures batches[b].parent.Some? ==> batches[b].parent.value < b
  {
    assert BatchOk(batches, ms, made, joined, b);
  }

  lemma BegunBatch(batches: seq<Batch>, ms: seq<(Id, bool)>, made: map<nat, nat>, joined: map<nat, nat>,
                   begun: seq<nat>, parent: Option<nat>)
    requires BatchesOk(batches, ms, made, joined, begun) && (parent.Some? ==> parent.value < |batches|)
    ensures BatchesOk(batches + [Batch(parent, true, [])], ms, made, joined, begun + [|ms|])
    ensures MadeUnder(made, joined, |batches|) == {}
  {
    var bs, n := batches + [Batch(parent, true, [])], |batches|;
    forall r ensures r !in MadeUnder(made, joined, n) {
      if r in made && LeadsTo(joined, made[r], n) { LeadsDown(joined, made[r], n); }
    }
    forall b | 0 <= b < |bs| ensures BatchOk(bs, ms, made, joined, b) {
      if b < n { assert BatchOk(batches, ms, made, joined, b); }
    }
  }

  lemma DroppedBatch(batches: seq<Batch>, ms: seq<(Id, bool)>, made: map<nat, nat>, joined: map<nat, nat>,
                     begun: seq<nat>, b: nat)
    requires BatchesOk(batches, ms, made, joined, begun) && b < |batches|
    ensures BatchesOk(batches[b := Batch(None, false, [])], ms, made, joined, begun)
  {
    var bs := batches[b := Batch(None, false, [])];
    forall c | 0 <= c < |bs| ensures BatchOk(bs, ms, made, joined, c) {
      assert BatchOk(batches, ms, made, joined, c);
    }
  }

  lemma JoinedBatch(batches: seq<Batch>, ms: seq<(Id, bool)>, made: map<nat, nat>, joined: map<nat, nat>,
                    begun: seq<nat>, b: nat, p: nat)
    requires BatchesOk(batches, ms, made, joined, begun) && b < |batches| && batches[b].active
    requires batches[b].parent == Some(p) && p < |batches| && batches[p].active
    ensures BatchesOk(batches[p := batches[p].(allocations := batches[p].allocations + batches[b].allocations)]
                        [b := Batch(None, false, [])],
                      ms, made, joined[b := p], begun)
  {
    assert BatchOk(batches, ms, made, joined, b) && BatchOk(batches, ms, made, joined, p);
    var all := batches[p].allocations + batches[b].allocations;
    var bs := batches[p := batches[p].(allocations := all)][b := Batch(None, false, [])];
    var joined' := joined[b := p];
    forall c | 0 <= c < |bs| ensures BatchOk(bs, ms, made, joined', c) {
      assert BatchOk(batches, ms, made, joined, c);
      if c != b {
        forall r ensures r in MadeUnder(made, joined', c) <==>
                         r in MadeUnder(made, joined, c) || (c == p && r in MadeUnder(made, joined, b)) {
          if r in made { JoinLeads(joined, b, p, made[r], c); }
        }
        if c == p { RefsConcat(batches[p].allocations, batches[b].allocations); }
      }
    }
  }

  lemma RefsConcat(a: seq<Allocation>, b: seq<Allocation>)
    ensures RefsOf(a + b) == RefsOf(a) + RefsOf(b)
  {
    forall r | r in RefsOf(a) + RefsOf(b) ensures r in RefsOf(a + b) {
      if r in RefsOf(a) {
        var i :| 0 <= i < |a| && a[i].ref == r;
        assert (a + b)[i].ref == r;
      } else {
        var i :| 0 <= i < |b| && b[i].ref == r;
        assert (a + b)[|a| + i].ref == r;
      }
    }
  }

  /** Nothing that was made before a batch began is ever listed under it. */
  lemma MadeSinceBegun(batches: seq<Batch>, ms: seq<(Id, bool)>, made: map<nat, nat>, joined: map<nat, nat>,
                       begun: seq<nat>, b: nat, r: nat)
    requires BatchesOk(batches, ms, made, joined, begun) && b < |batches| && r in MadeUnder(made, joined, b)
    ensures begun[b] <= r
  {
    LeadsDown(joined, made[r], b);
  }

  // ---- Discarding.

  lemma NoneDiscarded(e: Table, i: Table)
    ensures Without(e, RefsOf([])) == e && Without(i, RefsOf([])) == i
  {
  }

  lemma BooksMint(maxE: nat, maxI: nat, e: Table, i: Table, gone: set<Id>, order: seq<Id>, next: nat,
                  ms: seq<(Id, bool)>, closed: bool)
    requires BooksOk(maxE, maxI, e, i, gone, order, next, ms, closed)
    ensures Minted(ms, e, i)
  {
  }

  lemma OneMoreRef(allocations: seq<Allocation>, k: nat)
    requires k < |allocations|
    ensures RefsOf(allocations[..k + 1]) == RefsOf(allocations[..k]) + {allocations[k].ref}
  {
    assert allocations[..k + 1] == allocations[..k] + [allocations[k]];
    RefsConcat(allocations[..k], [allocations[k]]);
    assert [allocations[k]][0].ref in RefsOf([allocations[k]]);
  }

  // The allocation itself, not merely its reusable id, is still in its table.
  predicate Current(e: Table, i: Table, a: Allocation) {
    if a.imported then a.id in i && i[a.id].ref == a.ref else a.id in e && e[a.id].ref == a.ref
  }

  lemma NextDiscarded(ms: seq<(Id, bool)>, e0: Table, i0: Table, e: Table, i: Table, allocations: seq<Allocation>,
                      k: nat)
    requires Minted(ms, e, i) && AllocationsMinted(ms, allocations) && k < |allocations| && e.Keys !! i.Keys
    requires e == Without(e0, RefsOf(allocations[..k])) && i == Without(i0, RefsOf(allocations[..k]))
    ensures var current, id := Current(e, i, allocations[k]), allocations[k].id;
            Without(e0, RefsOf(allocations[..k + 1])) == (if current then e - {id} else e) &&
            Without(i0, RefsOf(allocations[..k + 1])) == (if current then i - {id} else i)
  {
    OneMoreRef(allocations, k);
  }

  lemma GrownTransitive(a: Owners, b: Owners, c: Owners)
    requires Grown(a, b) && Grown(b, c)
    ensures Grown(a, c)
  {
  }
}

/**
 The live layer over one connection: tables, owner tree, tombstones and nested
 transactional batches. A method is one critical section of the scope's mutex, or part of one.
 Bindings are compared by identity, the serial `ref` each was made with. The other
 side is trusted not to name an id of this scope's nonce that was not yet issued.
 */
module LiveScope {
  import opened LiveOwners
  import opened LiveBooks
  import opened LiveTombstones
  import opened Wrappers

  // The keys of a map, in some order.
  method ListKeys(owned: map<Id, bool>) returns (ids: seq<Id>)
    ensures NoDuplicates(ids) && forall id :: id in ids <==> id in owned
  {
    ids := [];
    var left := owned.Keys;
    while left != {}
      invariant NoDuplicates(ids) && left <= owned.Keys
      invariant forall id :: id in ids <==> id in owned && id !in left
    {
      var id :| id in left;
      ids := ids + [id];
      left := left - {id};
    }
  }

  class Scope {
    const maxExports: nat
    const maxImports: nat
    var root: Option<nat>
    var next: nat
    var closed: bool
    var exports: Table
    var imports: Table
    var gone: set<Id>
    var order: seq<Id>
    var owners: Owners
    var batches: seq<Batch>
    var serial: nat
    // History: what each identity was minted for, the batch it was made under, the
    // batches committed into their parents, and the serial each batch began at.
    ghost var minted: seq<(Id, bool)>
    ghost var made: map<nat, nat>
    ghost var joined: map<nat, nat>
    ghost var begun: seq<nat>

    ghost predicate TreeValid(pending: set<Id>)
      reads this`owners, this`root, this`exports, this`imports
    {
      TreeOk(owners, root, exports, imports, pending)
    }

    ghost predicate BooksValid()
      reads this`exports, this`imports, this`gone, this`order, this`next, this`closed, this`serial, this`minted
    {
      serial == |minted| && BooksOk(maxExports, maxImports, exports, imports, gone, order, next, minted, closed)
    }

    ghost predicate BatchesValid()
      reads this`batches, this`minted, this`made, this`joined, this`begun
    {
      BatchesOk(batches, minted, made, joined, begun)
    }

    ghost predicate ValidExcept(pending: set<Id>)
      reads this
    {
      TreeValid(pending) && BooksValid() && BatchesValid()
    }

    ghost predicate Valid()
      reads this
    {
      ValidExcept({})
    }

    predicate ViewOk(o: Owner)
      reads this
    {
      o.state < |owners| && (o.batch.Some? ==> o.batch.value < |batches|)
    }

    constructor (maxExports: nat, maxImports: nat)
      requires maxExports > 0 && maxImports > 0
      ensures Valid() && exports == map[] && imports == map[] && !closed && order == []
    {
      this.maxExports, this.maxImports := maxExports, maxImports;
      root, next, closed, exports, imports, gone, order := None, 0, false, map[], map[], {}, [];
      owners, batches, serial := [], [], 0;
      minted, made, joined, begun := [], map[], map[], [];
    }

    // ---- The tree.

    // Unlink o and its ancestors while they are empty.
    method Prune(o: nat)
      requires o < |owners| && LinksExactBut(owners, o, true)
      modifies this`owners
      ensures LinksExact(owners) && SameBut(old(owners), owners)
      ensures forall x :: 0 <= x < |owners| ==> owners[x].children <= old(owners[x].children)
    {
      var child: nat := o;
      while owners[child].parent.Some? && owners[child].owned == map[] && owners[child].children == {}
        invariant child < |owners| && LinksExactBut(owners, child, true)
        invariant SameBut(old(owners), owners)
        invariant forall x :: 0 <= x < |owners| ==> owners[x].children <= old(owners[x].children)
        decreases child
      {
        var p := owners[child].parent.value;
        ghost var before := owners;
        owners := owners[p := owners[p].(children := owners[p].children - {child})];
        UnlinkKeepsLinks(before, owners, child, p);
        child := p;
      }
      assert LinkExact(owners, child);
    }

    method Forget(o: nat, id: Id)
      requires o < |owners| && LinksExact(owners)
      modifies this`owners
      ensures LinksExact(owners) && SameShape(old(owners), owners)
      ensures forall x :: 0 <= x < |owners| ==>
                owners[x].children <= old(owners[x].children) && owners[x].released == old(owners[x].released) &&
                owners[x].owned == if x == o then old(owners[x].owned) - {id} else old(owners[x].owned)
    {
      ghost var before := owners;
      owners := owners[o := owners[o].(owned := owners[o].owned - {id})];
      forall c | 0 <= c < |owners| && c != o ensures LinkExact(owners, c) {
        assert LinkExact(before, c);
      }
      assert LinkExact(before, o);
      assert LinksName(owners) by {
        forall q, c | 0 <= q < |owners| && c in owners[q].children ensures IsParent(owners, q, c) {
          assert IsParent(before, q, c);
        }
      }
      Prune(o);
    }

    // Own an id and link the owner and its ancestors.
    method Record(o: nat, id: Id, imported: bool)
      requires o < |owners| && LinksExact(owners)
      modifies this`owners
      ensures LinksExact(owners) && SameShape(old(owners), owners)
      ensures forall x :: 0 <= x < |owners| ==>
                owners[x].released == old(owners[x].released) &&
                (!Descends(old(owners), o, x) ==> owners[x].children == old(owners[x].children)) &&
                owners[x].owned == if x == o then old(owners[x].owned)[id := imported] else old(owners[x].owned)
    {
      ghost var before := owners;
      owners := owners[o := owners[o].(owned := owners[o].owned[id := imported])];
      assert id in owners[o].owned;
      forall c | 0 <= c < |owners| && c != o ensures LinkExact(owners, c) {
        assert LinkExact(before, c);
      }
      assert LinksName(owners) by {
        forall q, c | 0 <= q < |owners| && c in owners[q].children ensures IsParent(owners, q, c) {
          assert IsParent(before, q, c);
        }
      }
      var child: nat := o;
      while owners[child].parent.Some?
        invariant child < |owners| && LinksExactBut(owners, child, false) && Descends(before, o, child)
        invariant SameShape(before, owners) && !Empty(owners, child)
        invariant forall x :: 0 <= x < |owners| ==>
                owners[x].released == before[x].released &&
                (!Descends(before, o, x) ==> owners[x].children == before[x].children) &&
                owners[x].owned == if x == o then before[x].owned[id := imported] else before[x].owned
        decreases child
      {
        var p := owners[child].parent.value;
        ghost var was := owners;
        owners := owners[p := owners[p].(children := owners[p].children + {child})];
        LinkKeepsLinks(was, owners, child, p);
        DescendsToParent(before, o, child, p);
        child := p;
      }
      assert LinkExact(owners, child);
    }

    /** Ends o and everything below it, children first, and collects what they owned. */
    method EndState(o: nat, ghost inProgress: set<nat>) returns (ids: seq<Id>)
      requires o < |owners| && LinksExact(owners) && OwnedOnce(owners)
      requires ReleasedEmpty(owners, inProgress) && forall p :: p in inProgress ==> p < o
      modifies this`owners
      ensures LinksExact(owners) && SameShape(old(owners), owners) && ReleasedEmpty(owners, inProgress)
      ensures OwnedOnce(owners) && owners[o].released && Grown(old(owners), owners)
      ensures forall x :: 0 <= x < |owners| ==> EndedState(old(owners), owners, o, x)
      ensures NoDuplicates(ids) && forall id :: id in ids <==> id in OwnedBelow(old(owners), o)
      decreases |owners| - o
    {
      ghost var was := owners;
      if owners[o].released {
        assert Empty(owners, o);
        forall x | 0 <= x < |owners|
          ensures EndedState(was, owners, o, x) && (Descends(was, x, o) ==> was[x].owned == map[])
        {
          if Descends(was, x, o) && was[x].owned != map[] { OwningKeepsAncestors(was, x, o); }
        }
        return [];
      }
      owners := owners[o := owners[o].(released := true)];
      ReleaseKeepsLinks(was, owners, o);
      ids := [];
      assert Progress(was, owners, o, ids);
      while owners[o].children != {}
        invariant o < |owners| && LinksExact(owners) && ReleasedEmpty(owners, inProgress + {o})
        invariant Progress(was, owners, o, ids)
        decreases owners[o].children
      {
        ghost var before := owners;
        var c :| c in owners[o].children;
        assert IsParent(owners, o, c) && LinkExact(owners, c);
        var more := EndState(c, inProgress + {o});
        EndedChildIsUnlinked(before, owners, o, c);
        ProgressGrows(was, before, owners, o, c, ids, more);
        ids := ids + more;
      }
      ghost var before := owners;
      OnlyOwnIsLeft(owners, o);
      var own := ListKeys(owners[o].owned);
      owners := owners[o := owners[o].(owned := map[], children := {})];
      EmptiedKeepsLinks(before, owners, o);
      ghost var emptied := owners;
      Prune(o);
      Collected(was, before, owners, o, ids, own);
      ids := ids + own;
      PrunedReleasedEmpty(before, emptied, owners, o, inProgress);
    }

    // ---- Owners.

    /** The scope's root lifetime; a fresh one once the last was released. */
    method RootOwner() returns (o: Owner)
      requires TreeValid({})
      modifies this`owners, this`root
      ensures TreeValid({}) && Grown(old(owners), owners)
      ensures o.state < |owners| && root == Some(o.state) && o.batch.None? && !Ended(owners, o.state)
      ensures old(root).Some? && !old(owners)[old(root).value].released ==> owners == old(owners) && root == old(root)
    {
      if root.None? || owners[root.value].released {
        AddState(None);
        root := Some(|owners| - 1);
      }
      return Owner(root.value, None);
    }

    /** A nested lifetime keeps the view's batch. */
    method Child(o: Owner) returns (c: Owner)
      requires TreeValid({}) && ViewOk(o)
      modifies this`owners
      ensures TreeValid({}) && Grown(old(owners), owners) && ViewOk(c) && c.batch == o.batch
      ensures Descends(owners, c.state, o.state) && (Ended(owners, c.state) <==> Ended(owners, o.state))
    {
      AddState(Some(o.state));
      c := Owner(|owners| - 1, o.batch);
      assert Descends(owners, o.state, o.state);
    }

    method AddState(parent: Option<nat>)
      requires LinksExact(owners) && ReleasedEmpty(owners, {}) && (parent.Some? ==> parent.value < |owners|)
      modifies this`owners
      ensures owners == old(owners) + [OwnerState(parent, {}, map[], false)]
      ensures LinksExact(owners) && ReleasedEmpty(owners, {})
      ensures TablesAgree(old(owners), exports, imports, {}) ==> TablesAgree(owners, exports, imports, {})
    {
      ghost var was := owners;
      owners := owners + [OwnerState(parent, {}, map[], false)];
      AddedKeepsLinks(was, owners, parent);
      if TablesAgree(was, exports, imports, {}) {
        AddedKeepsTables(was, owners, exports, imports, {});
      }
    }

    // ---- Release of one binding.

    // Drop an id from the tables and from its owner.
    method Untable(id: Id, ghost pending: set<Id>) returns (found: bool)
      requires TreeValid(pending)
      modifies this`exports, this`imports, this`owners
      ensures TreeValid(pending - {id}) && SameShape(old(owners), owners)
      ensures found <==> id in old(exports) || id in old(imports)
      ensures exports == old(exports) - {id} && imports == old(imports) - {id}
      ensures forall x :: 0 <= x < |owners| ==>
                owners[x].released == old(owners[x].released) && owners[x].owned == old(owners[x].owned) - {id}
    {
      ghost var was, e, i := owners, exports, imports;
      assert id in exports ==> Backed(owners, exports, false, pending, id);
      assert id in imports ==> Backed(owners, imports, true, pending, id);
      var exported := DropExport(id);
      var imported := DropImport(id);
      found := exported || imported;
      ForgottenAgrees(was, owners, e, i, exports, imports, pending, id);
      ShrunkReleasedEmpty(was, owners);
    }

    method DropExport(id: Id) returns (found: bool)
      requires LinksExact(owners) && (id in exports ==> exports[id].owner < |owners|)
      modifies this`exports, this`owners
      ensures LinksExact(owners) && (found <==> id in old(exports)) && exports == old(exports) - {id}
      ensures Forgotten(old(owners), owners, if id in old(exports) then Some(old(exports)[id].owner) else None, id)
    {
      found := id in exports;
      if found {
        var own := exports[id];
        exports := exports - {id};
        Forget(own.owner, id);
      }
    }

    method DropImport(id: Id) returns (found: bool)
      requires LinksExact(owners) && (id in imports ==> imports[id].owner < |owners|)
      modifies this`imports, this`owners
      ensures LinksExact(owners) && (found <==> id in old(imports)) && imports == old(imports) - {id}
      ensures Forgotten(old(owners), owners, if id in old(imports) then Some(old(imports)[id].owner) else None, id)
    {
      found := id in imports;
      if found {
        var held := imports[id];
        imports := imports - {id};
        Forget(held.owner, id);
      }
    }

    /** Removes every trace of an id but its tombstone. Calls nobody; the caller tells. */
    method TakeRelease(id: Id, ghost pending: set<Id>) returns (notice: Option<Notice>)
      requires TreeValid(pending) && BooksValid() && Known(id, next)
      modifies this`exports, this`imports, this`owners, this`gone, this`order
      ensures TreeValid(pending - {id}) && BooksValid() && SameShape(old(owners), owners) && Grown(old(owners), owners)
      ensures exports == old(exports) - {id} && imports == old(imports) - {id}
      ensures !closed && (id in old(exports) || id in old(imports)) ==> notice == Some(Notice(id, true)) && id in gone
      ensures closed ==> notice.None? && order == old(order)
      ensures !closed ==> notice == if id in old(exports) || id in old(imports) || id !in old(gone)
                                    then Some(Notice(id, id in old(exports) || id in old(imports))) else None
      ensures !closed && id in old(gone) ==> order == old(order)
      ensures !closed && id !in old(gone) ==> Buried(old(order), order, [id], maxExports + maxImports)
      ensures forall x :: 0 <= x < |owners| ==>
                owners[x].released == old(owners[x].released) && owners[x].owned == old(owners[x].owned) - {id}
    {
      if closed {
        NotOwnedAnywhere(owners, exports, imports, pending, id);
        assert exports == exports - {id} && imports == imports - {id};
        return None;
      }
      var found := Untable(id, pending);
      notice := Remember(id, found, old(exports), old(imports));
    }

    method Remember(id: Id, found: bool, ghost e: Table, ghost i: Table) returns (notice: Option<Notice>)
      requires BooksOk(maxExports, maxImports, e, i, gone, order, next, minted, false) && !closed && serial == |minted|
      requires exports == e - {id} && imports == i - {id} && Known(id, next)
      modifies this`gone, this`order
      ensures BooksValid() && (found ==> notice == Some(Notice(id, true)) && id in gone)
      ensures notice == if found || id !in old(gone) then Some(Notice(id, found)) else None
      ensures id in old(gone) ==> order == old(order)
      ensures id !in old(gone) ==> Buried(old(order), order, [id], maxExports + maxImports)
    {
      ghost var g, o := gone, order;
      notice := if id in gone && !found then None else Some(Notice(id, found));
      if id !in gone {
        Bury(id);
        BuriedIsKept(o, order, [id], maxExports + maxImports);
      }
      RememberedBooks(maxExports, maxImports, e, i, g, o, next, minted, gone, order, id);
    }

    // Remember a released id, forgetting the oldest past the bound.
    method Bury(id: Id)
      requires maxExports > 0 && maxImports > 0
      requires OrderLists(order, gone, maxExports + maxImports) && id !in gone
      modifies this`gone, this`order
      ensures OrderLists(order, gone, maxExports + maxImports) && id in gone && gone <= old(gone) + {id}
      ensures order == Kept(old(order) + [id], maxExports + maxImports)
    {
      BuriedLists(order, gone, maxExports + maxImports, id);
      gone, order := gone + {id}, order + [id];
      ghost var all := order;
      while |order| > maxExports + maxImports
        invariant OrderLists(order, gone, maxExports + maxImports + 1) && gone <= old(gone) + {id}
        invariant order == all || order == Kept(all, maxExports + maxImports)
        decreases |order|
      {
        ForgottenLists(order, gone, maxExports + maxImports);
        gone, order := gone - {order[0]}, order[1..];
      }
      assert order[|order| - 1] == id && order[|order| - 1] in order;
    }

    // ---- Allocation.

    // Mints an identity and, under an active batch, lists it there.
    method Allocate(o: Owner, id: Id, imported: bool) returns (ref: nat)
      requires BatchesValid() && serial == |minted| && ViewOk(o)
      modifies this`serial, this`minted, this`made, this`batches
      ensures BatchesValid() && SameBatches(old(batches), batches)
      ensures ref == old(serial) && serial == ref + 1 && minted == old(minted) + [(id, imported)]
      ensures made == MadeMore(old(made), ref, BatchOf(old(batches), o))
    {
      ref := serial;
      serial := serial + 1;
      ghost var bs, ms, md := batches, minted, made;
      minted := minted + [(id, imported)];
      var batch := BatchOf(batches, o);
      if batch.Some? {
        var b := batch.value;
        batches := batches[b := batches[b].(allocations := batches[b].allocations + [Allocation(id, imported, ref)])];
        made := made[ref := b];
        ListedUnderBatch(bs, batches, ms, minted, md, made, joined, begun, b, Allocation(id, imported, ref));
      } else {
        MintedAside(bs, ms, minted, md, joined, begun);
      }
    }

    // The checks of an export, in their order.
    function ExportRefusal(o: Owner, contract: string, digest: string, callable: bool): (r: Option<Code>)
      requires o.state < |owners| && Acyclic(owners)
      reads this
      ensures r == Some(ContractInvalid) <==> !(contract != "" && ValidDigest(digest) && callable)
      ensures r == Some(ScopeClosed) ==> closed
      ensures r == Some(ReferenceReleased) ==> !closed && Ended(owners, o.state)
      ensures r == Some(TooManyExports) ==> !closed && !Ended(owners, o.state) && |exports| >= maxExports
      ensures r != Some(ContractMismatch) && r != Some(TooManyImports)
      ensures r.None? <==> contract != "" && ValidDigest(digest) && callable && !closed && !Ended(owners, o.state)
                           && |exports| < maxExports
    {
      if contract == "" || !ValidDigest(digest) || !callable then Some(ContractInvalid)
      else if closed then Some(ScopeClosed)
      else if Ended(owners, o.state) then Some(ReferenceReleased)
      else if |exports| >= maxExports then Some(TooManyExports)
      else None
    }

    /** Makes a binding with a fresh id, owned by the view's owner state, or leaves
        everything as it was. */
    method Export(o: Owner, contract: string, digest: string, callable: bool) returns (r: Outcome<Id>)
      requires Valid() && ViewOk(o)
      modifies this`next, this`serial, this`minted, this`made, this`batches, this`exports, this`imports, this`owners
      ensures Valid() && Grown(old(owners), owners) && imports == old(imports) && SameBatches(old(batches), batches)
      ensures r == match old(ExportRefusal(o, contract, digest, callable))
                   case Some(code) => Refused(code)
                   case None => Done(Own(old(next)))
      ensures r.Done? ==> r.value !in old(exports) && next == old(next) + 1
                          && exports == old(exports)[r.value := Entry(old(serial), o.state, contract, digest)]
                          && Owns(o.state, r.value, false)
      ensures r.Done? ==>
              minted == old(minted) + [(r.value, false)]
              && made == MadeMore(old(made), old(serial), BatchOf(old(batches), o))
      ensures r.Refused? ==> exports == old(exports) && owners == old(owners) && next == old(next)
                             && minted == old(minted) && made == old(made) && batches == old(batches)
    {
      assert Acyclic(owners);
      var refusal := ExportRefusal(o, contract, digest, callable);
      if refusal.Some? {
        r := Refused(refusal.value);
      } else {
        var id := Issue();
        var ref := Enter(o, id, false, contract, digest);
        r := Done(id);
      }
    }

    method Issue() returns (id: Id)
      requires BooksValid()
      modifies this`next
      ensures BooksValid() && id == Own(old(next)) && next == old(next) + 1
      ensures id !in exports && id !in imports && id !in gone
    {
      id := Id.Own(next);
      next := next + 1;
      IssuedBooks(maxExports, maxImports, exports, imports, gone, order, next - 1, minted, closed);
    }

    // A new entry for an id neither table nor the tombstones hold.
    method Enter(o: Owner, id: Id, imported: bool, contract: string, digest: string) returns (ref: nat)
      requires Valid() && ViewOk(o) && !closed && !Ended(owners, o.state)
      requires Known(id, next) && (!imported ==> id.Own?) && id !in exports && id !in imports && id !in gone
      requires if imported then |imports| < maxImports else |exports| < maxExports
      modifies this`serial, this`minted, this`made, this`batches, this`exports, this`imports, this`owners
      ensures Valid() && SameShape(old(owners), owners) && Grown(old(owners), owners) && ref == old(serial)
      ensures exports == Entered(old(exports), !imported, id, Entry(ref, o.state, contract, digest))
      ensures imports == Entered(old(imports), imported, id, Entry(ref, o.state, contract, digest))
      ensures Owns(o.state, id, imported) && SameBatches(old(batches), batches)
              && minted == old(minted) + [(id, imported)]
      ensures made == MadeMore(old(made), ref, BatchOf(old(batches), o))
    {
      assert Acyclic(owners);
      ref := Mint(o, id, imported, contract, digest);
      EnterTable(id, imported, Entry(ref, o.state, contract, digest));
    }

    // The identity of an entry about to be made; with it in a table the books stay right.
    method Mint(o: Owner, id: Id, imported: bool, contract: string, digest: string) returns (ref: nat)
      requires BooksValid() && BatchesValid() && ViewOk(o) && !closed
      requires Known(id, next) && (!imported ==> id.Own?) && id !in exports && id !in imports && id !in gone
      requires if imported then |imports| < maxImports else |exports| < maxExports
      modifies this`serial, this`minted, this`made, this`batches
      ensures BatchesValid() && SameBatches(old(batches), batches) && ref == old(serial) && serial == |minted|
      ensures minted == old(minted) + [(id, imported)]
      ensures var entry := Entry(ref, o.state, contract, digest);
              BooksOk(maxExports, maxImports, Entered(exports, !imported, id, entry),
                Entered(imports, imported, id, entry),
                      gone, order, next, minted, closed)
      ensures made == MadeMore(old(made), ref, BatchOf(old(batches), o))
    {
      EnteredBooks(maxExports, maxImports, exports, imports, gone, order, next, minted, id, imported,
                   Entry(serial, o.state, contract, digest));
      ref := Allocate(o, id, imported);
    }

    method EnterTable(id: Id, imported: bool, entry: Entry)
      requires TreeValid({}) && entry.owner < |owners| && !Ended(owners, entry.owner) && id !in exports
               && id !in imports
      modifies this`exports, this`imports, this`owners
      ensures TreeValid({}) && SameShape(old(owners), owners) && Grown(old(owners), owners)
      ensures exports == Entered(old(exports), !imported, id, entry)
              && imports == Entered(old(imports), imported, id, entry)
      ensures Owns(entry.owner, id, imported)
    {
      ghost var was, e, i := owners, exports, imports;
      exports, imports := Entered(exports, !imported, id, entry), Entered(imports, imported, id, entry);
      Record(entry.owner, id, imported);
      AddedAgrees(was, owners, e, i, entry.owner, id, imported, entry);
      AddedReleasedEmpty(was, owners, entry.owner);
      SameRoot(was, owners, root);
    }

    predicate Owns(o: nat, id: Id, imported: bool)
      reads this
    {
      o < |owners| && id in owners[o].owned && owners[o].owned[id] == imported
    }

    // The checks of an import, in their order, and what an accepted one resolves to.
    function Resolve(o: Owner, r: Reference, contract: string, digest: string): (out: Outcome<Attached>)
      requires o.state < |owners| && Acyclic(owners)
      reads this
      ensures out == Refused(ContractInvalid) <==> !(contract != "" && ValidDigest(digest))
      ensures out == Refused(ScopeClosed) ==> closed && Carries(r, contract, digest)
      ensures out == Refused(ReferenceReleased) ==> !closed && (Ended(owners, o.state) || r.id in gone)
      ensures out == Refused(TooManyImports) ==>
              !closed && r.id !in exports && r.id !in imports && |imports| >= maxImports
      ensures out == Refused(ContractMismatch) ==>
                || !Carries(r, contract, digest)
                || (r.id in exports && !Agrees(exports[r.id], r, contract, digest))
                || (r.id in imports && !Agrees(imports[r.id], r, contract, digest))
      ensures out != Refused(TooManyExports)
      ensures out.Done? <==> contract != "" && ValidDigest(digest) && Carries(r, contract, digest) && !closed
                             && !Ended(owners, o.state) && r.id !in gone
                             && if r.id in exports then Agrees(exports[r.id], r, contract, digest)
                                else if r.id in imports then Agrees(imports[r.id], r, contract, digest)
                                else |imports| < maxImports
    {
      if contract == "" || !ValidDigest(digest) then Refused(ContractInvalid)
      else if r.contract != contract || DigestMismatch(r.digest, digest) then Refused(ContractMismatch)
      else if closed then Refused(ScopeClosed)
      else if Ended(owners, o.state) || r.id in gone then Refused(ReferenceReleased)
      else if r.id in exports then
        if Agrees(exports[r.id], r, contract, digest) then Done(Local(exports[r.id].ref)) else Refused(ContractMismatch)
      else if r.id in imports then
        if Agrees(imports[r.id], r, contract, digest) then Done(Held(imports[r.id].ref)) else Refused(ContractMismatch)
      else if |imports| >= maxImports then Refused(TooManyImports)
      else Done(Fresh(serial))
    }

    /** Attaches to a binding. Only a fresh attachment is owned by the view; an existing
        one is borrowed, and at most learns a digest it did not specify. */
    method Import(o: Owner, r: Reference, contract: string, digest: string) returns (out: Outcome<Attached>)
      requires Valid() && ViewOk(o) && Known(r.id, next)
      modifies this`serial, this`minted, this`made, this`batches, this`exports, this`imports, this`owners
      ensures Valid() && Grown(old(owners), owners) && exports == old(exports) && SameBatches(old(batches), batches)
      ensures out == old(Resolve(o, r, contract, digest))
      ensures out.Done? && out.value.Fresh? ==>
                imports == old(imports)[r.id := Entry(old(serial), o.state, contract, KnownDigest(r.digest, digest))]
                  && Owns(o.state, r.id, true)
      ensures out.Done? && out.value.Fresh? ==>
                minted == old(minted) + [(r.id, true)]
                  && made == MadeMore(old(made), old(serial), BatchOf(old(batches), o))
      ensures !(out.Done? && out.value.Fresh?) ==>
                owners == old(owners) && minted == old(minted) && made == old(made) && batches == old(batches)
      ensures out.Done? && out.value.Held? ==>
              r.id in old(imports) && imports == old(imports)[r.id := Learned(old(imports)[r.id], r, digest)]
      ensures out.Refused? || out.value.Local? ==> imports == old(imports)
    {
      assert Acyclic(owners);
      out := Resolve(o, r, contract, digest);
      match out {
        case Done(Fresh(_)) =>
          var ref := Enter(o, r.id, true, contract, KnownDigest(r.digest, digest));
        case Done(Held(_)) => Learn(r, digest);
        case _ =>
      }
    }

    // A held attachment takes a digest it did not specify from the reference or the caller.
    method Learn(r: Reference, digest: string)
      requires TreeValid({}) && BooksValid() && r.id in imports
      modifies this`imports
      ensures TreeValid({}) && BooksValid() && imports == old(imports)[r.id := Learned(old(imports)[r.id], r, digest)]
    {
      ghost var was := imports;
      imports := imports[r.id := Learned(imports[r.id], r, digest)];
      LearnedKeepsTree(owners, root, exports, was, r.id, imports[r.id].digest);
      LearnedKeepsBooks(maxExports, maxImports, exports, was, gone, order, next, minted, closed, r.id,
        imports[r.id].digest);
    }

    // ---- Endings.

    /** Releases one binding, exported or imported, wherever the word came from. */
    method ReleaseId(id: Id) returns (notice: Option<Notice>)
      requires TreeValid({}) && BooksValid() && Known(id, next)
      modifies this`exports, this`imports, this`owners, this`gone, this`order
      ensures TreeValid({}) && BooksValid() && Grown(old(owners), owners)
      ensures exports == old(exports) - {id} && imports == old(imports) - {id}
      ensures !closed && (id in old(exports) || id in old(imports)) ==> notice == Some(Notice(id, true)) && id in gone
      ensures notice == if closed || (id in old(gone) && id !in old(exports) && id !in old(imports)) then None
                        else Some(Notice(id, id in old(exports) || id in old(imports)))
      ensures closed || id in old(gone) ==> order == old(order)
      ensures !closed && id !in old(gone) ==> Buried(old(order), order, [id], maxExports + maxImports)
      ensures forall other :: other in gone <==> other in order
    {
      TabledIsOpen(maxExports, maxImports, exports, imports, gone, order, next, minted, closed);
      ghost var none: set<Id> := {};
      assert none - {id} == none;
      notice := TakeRelease(id, none);
      TabledIsOpen(maxExports, maxImports, exports, imports, gone, order, next, minted, closed);
    }

    /** Releasing an owner revokes exactly the bindings owned at or below it, each told
        once, and leaves every other binding and owner alone. */
    method ReleaseOwner(o: Owner) returns (notices: seq<Notice>)
      requires TreeValid({}) && BooksValid() && ViewOk(o)
      modifies this`exports, this`imports, this`owners, this`gone, this`order
      ensures TreeValid({}) && BooksValid() && Grown(old(owners), owners) && Acyclic(old(owners)) && Acyclic(owners)
      ensures exports == old(exports) - OwnedBelow(old(owners), o.state)
      ensures imports == old(imports) - OwnedBelow(old(owners), o.state)
      ensures ReleasedBelow(old(owners), owners, o.state)
      ensures AllTold(notices, OwnedBelow(old(owners), o.state))
      ensures OwnedBelow(old(owners), o.state) <= gone
      ensures Entombed(old(order), order, gone, NoticeIds(notices), maxExports + maxImports)
    {
      ghost var o0, below := order, OwnedBelow(owners, o.state);
      BelowFits(maxExports, maxImports, owners, root, exports, imports, gone, order, next, minted, closed, o.state);
      notices := EndAndTake(o);
      ToldAreEntombed(o0, order, gone, notices, below, maxExports + maxImports);
    }

    method EndAndTake(o: Owner) returns (notices: seq<Notice>)
      requires TreeValid({}) && BooksValid() && ViewOk(o)
      modifies this`exports, this`imports, this`owners, this`gone, this`order
      ensures TreeValid({}) && BooksValid() && Grown(old(owners), owners) && Acyclic(old(owners)) && Acyclic(owners)
      ensures exports == old(exports) - OwnedBelow(old(owners), o.state)
      ensures imports == old(imports) - OwnedBelow(old(owners), o.state)
      ensures ReleasedBelow(old(owners), owners, o.state)
      ensures AllTold(notices, OwnedBelow(old(owners), o.state))
      ensures Buried(old(order), order, NoticeIds(notices), maxExports + maxImports) && Lists(order, gone)
    {
      ghost var was, e, i := owners, exports, imports;
      OneOwnerEach(owners, exports, imports);
      var ids := EndState(o.state, {});
      EndedTree(was, owners, root, e, i, o.state);
      ghost var ended := owners;
      notices := TakeAll(ids, was, o.state);
      AllTakenBelow(e, i, ids, OwnedBelow(was, o.state), notices);
      ReleasedInAll(was, ended, owners, o.state);
      BooksList(maxExports, maxImports, exports, imports, gone, order, next, minted, closed);
    }

    // Releases in turn the ids an ended owner state has handed over.
    method TakeAll(ids: seq<Id>, ghost was: Owners, ghost o: nat) returns (notices: seq<Notice>)
      requires BooksValid() && Acyclic(was) && OwnedOnce(was) && TablesAgree(was, exports, imports, {})
      requires TreeValid(OwnedBelow(was, o)) && SameShape(was, owners)
      requires NoDuplicates(ids) && forall id :: id in ids <==> id in OwnedBelow(was, o)
      requires forall x :: 0 <= x < |owners| ==> EndedState(was, owners, o, x)
      modifies this`exports, this`imports, this`owners, this`gone, this`order
      ensures TreeValid({}) && BooksValid() && SameBut(old(owners), owners)
      ensures exports == Minus(old(exports), ids) && imports == Minus(old(imports), ids)
      ensures Told(notices, ids) && Buried(old(order), order, ids, maxExports + maxImports)
    {
      ghost var ended, e, i, o0 := owners, exports, imports, order;
      StartBuried(maxExports, maxImports, exports, imports, gone, order, next, minted, closed);
      notices := [];
      NoneTaken(e, i, OwnedBelow(was, o));
      assert ids[..0] == [];
      for k := 0 to |ids|
        invariant TreeValid(Left(OwnedBelow(was, o), ids[..k])) && BooksValid()
        invariant exports == Minus(e, ids[..k]) && imports == Minus(i, ids[..k]) && SameBut(ended, owners)
        invariant Told(notices, ids[..k]) && Buried(o0, order, ids[..k], maxExports + maxImports)
      {
        BelowIsTabled(was, e, i, o, ids[k]);
        ghost var before := owners;
        var notice := TakeNext(ids, k, e, i, OwnedBelow(was, o), o0);
        ToldNext(notices, ids, k);
        EndedStays(was, ended, before, owners, o, ids[k]);
        notices := notices + [notice];
      }
      assert ids[..|ids|] == ids;
      AllTaken(OwnedBelow(was, o), ids);
    }

    // A release of what is tabled.
    method TakeTabled(id: Id, ghost pending: set<Id>, ghost o0: seq<Id>, ghost ids: seq<Id>) returns (notice: Notice)
      requires TreeValid(pending) && BooksValid() && (id in exports || id in imports)
      requires Buried(o0, order, ids, maxExports + maxImports)
      modifies this`exports, this`imports, this`owners, this`gone, this`order
      ensures TreeValid(pending - {id}) && BooksValid() && SameShape(old(owners), owners) && Grown(old(owners), owners)
      ensures exports == old(exports) - {id} && imports == old(imports) - {id} && notice == Notice(id, true)
      ensures Buried(o0, order, ids + [id], maxExports + maxImports)
      ensures forall x :: 0 <= x < |owners| ==>
                owners[x].released == old(owners[x].released) && owners[x].owned == old(owners[x].owned) - {id}
    {
      TabledHasNoTombstone(maxExports, maxImports, exports, imports, gone, order, next, minted, closed, id);
      BuriedThen(o0, order, ids, id, maxExports + maxImports);
      var taken := TakeRelease(id, pending);
      notice := taken.value;
    }

    method TakeNext(ids: seq<Id>, k: nat, ghost e: Table, ghost i: Table, ghost below: set<Id>, ghost o0: seq<Id>)
      returns (notice: Notice)
      requires k < |ids| && NoDuplicates(ids) && TreeValid(Left(below, ids[..k])) && BooksValid()
      requires exports == Minus(e, ids[..k]) && imports == Minus(i, ids[..k]) && (ids[k] in e || ids[k] in i)
      requires Buried(o0, order, ids[..k], maxExports + maxImports)
      modifies this`exports, this`imports, this`owners, this`gone, this`order
      ensures TreeValid(Left(below, ids[..k + 1])) && BooksValid() && SameShape(old(owners), owners)
      ensures exports == Minus(e, ids[..k + 1]) && imports == Minus(i, ids[..k + 1]) && notice == Notice(ids[k], true)
      ensures Buried(o0, order, ids[..k + 1], maxExports + maxImports)
      ensures forall x :: 0 <= x < |owners| ==>
                owners[x].released == old(owners[x].released) && owners[x].owned == old(owners[x].owned) - {ids[k]}
    {
      NextTaken(e, i, below, ids, k);
      assert ids[..k] + [ids[k]] == ids[..k + 1];
      notice := TakeTabled(ids[k], Left(below, ids[..k]), o0, ids[..k]);
    }

    /** Ends the scope: the tables empty, no owner below the root can allocate again. */
    method End()
      requires TreeValid({}) && BooksValid()
      modifies this`closed, this`exports, this`imports, this`owners
      ensures TreeValid({}) && BooksValid() && Grown(old(owners), owners) && |owners| == |old(owners)|
      ensures closed && exports == map[] && imports == map[] && forall x :: 0 <= x < |owners| ==>
              owners[x].owned == map[]
      ensures !old(closed) && root.Some? ==> forall x :: 0 <= x < |owners| && Descends(owners, x, root.value) ==>
              Ended(owners, x)
      ensures old(closed) ==> owners == old(owners)
    {
      if closed {
        ClosedOwnsNothing(owners, exports, imports);
      } else {
        EndOpen();
      }
    }

    method EndOpen()
      requires TreeValid({}) && BooksValid() && !closed
      modifies this`closed, this`exports, this`imports, this`owners
      ensures TreeValid({}) && BooksValid() && Grown(old(owners), owners) && |owners| == |old(owners)|
      ensures closed && exports == map[] && imports == map[] && forall x :: 0 <= x < |owners| ==>
              owners[x].owned == map[]
      ensures root.Some? ==> forall x :: 0 <= x < |owners| && Descends(owners, x, root.value) ==> Ended(owners, x)
    {
      ghost var was := owners;
      OneOwnerEach(owners, exports, imports);
      if root.Some? {
        var ids := EndState(root.value, {});
      }
      ClosedTree(was, owners, root);
      if root.Some? { AllEndedBelow(owners, root.value); }
      ClosedBooks(maxExports, maxImports, exports, imports, gone, order, next, minted);
      closed, exports, imports := true, map[], map[];
    }

    // ---- Transactions.

    /** Opens a batch over an owner, nested in the view's batch while that is active. */
    method Begin(o: Owner) returns (r: Outcome<Owner>)
      requires TreeValid({}) && BatchesValid() && serial == |minted| && ViewOk(o)
      modifies this`batches, this`begun
      ensures BatchesValid()
      ensures r.Refused? <==> closed || Ended(owners, o.state)
      ensures r.Refused? ==>
              batches == old(batches) && begun == old(begun) && r.code == if closed then ScopeClosed
              else ReferenceReleased
      ensures r.Done? ==> r.value == Owner(o.state, Some(|old(batches)|)) && begun == old(begun) + [serial]
                          && batches == old(batches) + [Batch(BatchOf(old(batches), o), true, [])]
                          && MadeUnder(made, joined, |old(batches)|) == {}
    {
      assert Acyclic(owners);
      if closed { return Refused(ScopeClosed); }
      if Ended(owners, o.state) { return Refused(ReferenceReleased); }
      var parent := if o.batch.Some? && batches[o.batch.value].active then o.batch else None;
      BegunBatch(batches, minted, made, joined, begun, parent);
      batches, begun := batches + [Batch(parent, true, [])], begun + [serial];
      return Done(Owner(o.state, Some(|batches| - 1)));
    }

    /** Revokes those listed allocations that are still current, in their order, and says whom to
        tell. Everything else, an id's later allocation included, stays. */
    method Discard(allocations: seq<Allocation>) returns (notices: seq<Notice>)
      requires TreeValid({}) && BooksValid() && AllocationsMinted(minted, allocations)
      modifies this`exports, this`imports, this`owners, this`gone, this`order
      ensures TreeValid({}) && BooksValid() && Grown(old(owners), owners) && |owners| == |old(owners)|
      ensures exports == Without(old(exports), RefsOf(allocations))
              && imports == Without(old(imports), RefsOf(allocations))
      ensures Told(notices, Revoked(old(exports), old(imports), allocations))
      ensures Entombed(old(order), order, gone, NoticeIds(notices), maxExports + maxImports)
      ensures AllTold(notices, AllOf(old(exports), old(imports), RefsOf(allocations)))
      ensures AllOf(old(exports), old(imports), RefsOf(allocations)) <= gone
    {
      ghost var e, i, g, o0 := exports, imports, gone, order;
      StartBuried(maxExports, maxImports, exports, imports, gone, order, next, minted, closed);
      StartDiscarded(exports, imports, order, allocations, maxExports + maxImports);
      TablesApart(owners, root, exports, imports);
      notices := [];
      assert allocations[..0] == [];
      for k := 0 to |allocations|
        invariant TreeValid({}) && BooksValid() && Grown(old(owners), owners) && |owners| == |old(owners)|
        invariant Discarded(e, i, o0, exports, imports, order, allocations, k, maxExports + maxImports)
        invariant Told(notices, Revoked(e, i, allocations[..k]))
      {
        ghost var before := owners;
        var more := DiscardNext(allocations, k, e, i, o0);
        ToldConcat(notices, Revoked(e, i, allocations[..k]), more);
        notices := notices + more;
        GrownTransitive(old(owners), before, owners);
      }
      AllDiscarded(maxExports, maxImports, e, i, g, o0, next, minted, closed, allocations, notices, exports, imports,
        gone,
                   order);
    }

    method DiscardNext(allocations: seq<Allocation>, k: nat, ghost e: Table, ghost i: Table, ghost o0: seq<Id>)
      returns (notices: seq<Notice>)
      requires TreeValid({}) && BooksValid() && AllocationsMinted(minted, allocations) && k < |allocations|
      requires Discarded(e, i, o0, exports, imports, order, allocations, k, maxExports + maxImports)
      modifies this`exports, this`imports, this`owners, this`gone, this`order
      ensures TreeValid({}) && BooksValid() && Grown(old(owners), owners) && |owners| == |old(owners)|
      ensures Discarded(e, i, o0, exports, imports, order, allocations, k + 1, maxExports + maxImports)
      ensures NextTold(e, i, allocations, k, notices)
    {
      DiscardFacts(maxExports, maxImports, owners, root, exports, imports, gone, order, next, minted, closed);
      NextDiscard(minted, exports, imports, order, e, i, o0, allocations, k, maxExports + maxImports);
      notices := [];
      if Current(exports, imports, allocations[k]) {
        var notice := DiscardCurrent(allocations, k, e, i, o0);
        notices := [notice];
      }
    }

    method DiscardCurrent(allocations: seq<Allocation>, k: nat, ghost e: Table, ghost i: Table, ghost o0: seq<Id>)
      returns (notice: Notice)
      requires TreeValid({}) && BooksValid() && k < |allocations|
      requires allocations[k].id in exports || allocations[k].id in imports
      requires Taken(e, i, exports - {allocations[k].id}, imports - {allocations[k].id}, allocations, k,
               allocations[k].id)
      requires Buried(o0, order, Revoked(e, i, allocations[..k]), maxExports + maxImports)
      modifies this`exports, this`imports, this`owners, this`gone, this`order
      ensures TreeValid({}) && BooksValid() && Grown(old(owners), owners) && |owners| == |old(owners)|
      ensures Discarded(e, i, o0, exports, imports, order, allocations, k + 1, maxExports + maxImports)
      ensures notice == Notice(allocations[k].id, true)
    {
      ghost var none: set<Id> := {};
      assert none - {allocations[k].id} == none;
      notice := TakeTabled(allocations[k].id, none, o0, Revoked(e, i, allocations[..k]));
      TakenIsDiscarded(e, i, o0, exports, imports, order, allocations, k, maxExports + maxImports, allocations[k].id);
    }

    /** Closes a view's batch and gives back its allocations: exactly what was made under the view,
        or under nested views committed into it. Committed, they join a still active parent. */
    method Close(view: Owner, committed: bool) returns (allocations: seq<Allocation>)
      requires BatchesValid() && ViewOk(view) && view.batch.Some? && batches[view.batch.value].active
      modifies this`batches, this`joined
      ensures BatchesValid() && OneClosed(old(batches), batches, view.batch.value)
      ensures AllocationsMinted(minted, allocations)
              && RefsOf(allocations) == MadeUnder(made, old(joined), view.batch.value)
      ensures joined == JoinedMore(old(joined), old(batches), view.batch.value, committed)
    {
      var b := view.batch.value;
      allocations := batches[b].allocations;
      BatchListsItsOwn(batches, minted, made, joined, begun, b);
      if committed && Nests(batches, b) {
        var p := batches[b].parent.value;
        JoinedBatch(batches, minted, made, joined, begun, b, p);
        batches := batches[p := batches[p].(allocations := batches[p].allocations + allocations)]
                           [b := Batch(None, false, [])];
        joined := joined[b := p];
      } else {
        DroppedBatch(batches, minted, made, joined, begun, b);
        batches := batches[b := Batch(None, false, [])];
      }
    }
  }
}

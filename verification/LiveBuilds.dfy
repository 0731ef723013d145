/**
 Building a value that holds live references: a batch opened over an owner, whatever calls
 are made meanwhile - by the build itself, by nested builds, by others, by the other side -
 and the batch closed again.
 */
module LiveBuilds {
  import opened LiveOwners
  import opened LiveBooks
  import opened LiveHistory
  import opened LiveTombstones
  import opened LiveScope
  import opened Wrappers

  // One critical section of the scope.
  datatype Call =
    | Root
    | Child(o: Owner)
    | Export(o: Owner, contract: string, digest: string, callable: bool)
    | Import(o: Owner, reference: Reference, contract: string, digest: string)
    | Release(id: Id)
    | ReleaseOwner(o: Owner)
    | Begin(o: Owner)
    | Close(o: Owner, committed: bool)
    | Discard(allocations: seq<Allocation>)
    | End

  ghost function At(scope: Scope): Moment
    reads scope
  {
    Moment(scope.exports, scope.imports, scope.minted, scope.made, scope.joined, scope.batches, scope.begun)
  }

  method Make(scope: Scope, o: Owner, contract: string, digest: string, callable: bool)
    requires scope.Valid() && scope.ViewOk(o)
    modifies scope
    ensures scope.Valid() && Evolves(old(At(scope)), At(scope)) && SameBatches(old(scope.batches), scope.batches)
    ensures |old(scope.owners)| <= |scope.owners|
  {
    ghost var was := At(scope);
    var r := scope.Export(o, contract, digest, callable);
    if r.Done? {
      MakingEvolves(was, At(scope), r.value, false, Entry(|was.minted|, o.state, contract, digest),
        BatchOf(was.batches, o));
    } else {
      LosingEvolves(was, At(scope));
    }
  }

  method Take(scope: Scope, o: Owner, reference: Reference, contract: string, digest: string)
    requires scope.Valid() && scope.ViewOk(o) && Known(reference.id, scope.next)
    modifies scope
    ensures scope.Valid() && Evolves(old(At(scope)), At(scope)) && SameBatches(old(scope.batches), scope.batches)
    ensures |old(scope.owners)| <= |scope.owners|
  {
    ghost var was := At(scope);
    var r := scope.Import(o, reference, contract, digest);
    if r.Done? && r.value.Fresh? {
      ghost var entry := Entry(|was.minted|, o.state, contract, KnownDigest(reference.digest, digest));
      AttachingEvolves(was, At(scope), reference.id, entry, BatchOf(was.batches, o));
    } else if r.Done? && r.value.Held? {
      LearningEvolves(was, At(scope), reference.id, Learned(was.imports[reference.id], reference, digest));
    } else {
      LosingEvolves(was, At(scope));
    }
  }

  method Own(scope: Scope, parent: Option<Owner>)
    requires scope.Valid() && (parent.Some? ==> scope.ViewOk(parent.value))
    modifies scope
    ensures scope.Valid() && At(scope) == old(At(scope)) && |old(scope.owners)| <= |scope.owners|
  {
    if parent.None? {
      var root := scope.RootOwner();
    } else {
      var child := scope.Child(parent.value);
    }
  }

  method Drop(scope: Scope, id: Id)
    requires scope.Valid() && Known(id, scope.next)
    modifies scope
    ensures scope.Valid() && Evolves(old(At(scope)), At(scope)) && scope.batches == old(scope.batches)
    ensures |old(scope.owners)| <= |scope.owners|
  {
    ghost var was := At(scope);
    var notice := scope.ReleaseId(id);
    LosingEvolves(was, At(scope));
  }

  method DropAll(scope: Scope, o: Owner)
    requires scope.Valid() && scope.ViewOk(o)
    modifies scope
    ensures scope.Valid() && Evolves(old(At(scope)), At(scope)) && scope.batches == old(scope.batches)
    ensures |old(scope.owners)| <= |scope.owners|
  {
    ghost var was := At(scope);
    var notices := scope.ReleaseOwner(o);
    LosingEvolves(was, At(scope));
  }

  method Shut(scope: Scope)
    requires scope.Valid()
    modifies scope
    ensures scope.Valid() && Evolves(old(At(scope)), At(scope)) && scope.batches == old(scope.batches)
    ensures |old(scope.owners)| <= |scope.owners|
  {
    ghost var was := At(scope);
    scope.End();
    LosingEvolves(was, At(scope));
  }

  method Start(scope: Scope, o: Owner) returns (view: Outcome<Owner>)
    requires scope.Valid() && scope.ViewOk(o)
    modifies scope
    ensures scope.Valid() && Evolves(old(At(scope)), At(scope)) && scope.owners == old(scope.owners)
    ensures forall mine: set<nat> :: Keeps(old(At(scope)), At(scope), mine)
    ensures view.Refused? ==> At(scope) == old(At(scope))
    ensures view.Done? ==>
              var b := |old(scope.batches)|;
              && view.value == Owner(o.state, Some(b)) && Open(At(scope), b, BatchOf(old(scope.batches), o))
              && |scope.begun| > b && scope.begun[b] == |old(scope.minted)|
              && scope.exports == old(scope.exports) && scope.imports == old(scope.imports)
  {
    ghost var was := At(scope);
    view := scope.Begin(o);
    if view.Done? { BeginningEvolves(was, At(scope), BatchOf(was.batches, o)); } else { LosingEvolves(was, At(scope)); }
    assert |was.begun| == |was.batches|;
  }

  method Bracket(scope: Scope, call: Call, mine: set<nat>)
    requires scope.Valid() && (call.Begin? || call.Close?)
    modifies scope
    ensures scope.Valid() && Leads(old(At(scope)), At(scope), mine)
    ensures |old(scope.owners)| <= |scope.owners|
  {
    match call {
      case Begin(o) => if scope.ViewOk(o) { var view := Start(scope, o); }
      case Close(o, committed) =>
        if scope.ViewOk(o) && o.batch.Some? && o.batch.value !in mine && scope.batches[o.batch.value].active {
          var allocations := Leave(scope, o, committed);
        }
    }
  }

  // Closes a batch; what was made under it is still there.
  method Leave(scope: Scope, view: Owner, committed: bool) returns (allocations: seq<Allocation>)
    requires scope.Valid() && scope.ViewOk(view) && view.batch.Some? && scope.batches[view.batch.value].active
    modifies scope
    ensures scope.Valid() && Evolves(old(At(scope)), At(scope)) && |old(scope.owners)| <= |scope.owners|
    ensures forall mine: set<nat> :: view.batch.value !in mine ==> Keeps(old(At(scope)), At(scope), mine)
    ensures AllocationsMinted(scope.minted, allocations)
            && RefsOf(allocations) == Under(old(At(scope)), view.batch.value)
    ensures Closed(old(At(scope)), At(scope), view.batch.value, committed)
    ensures scope.exports == old(scope.exports) && scope.imports == old(scope.imports)
    ensures OneClosed(old(scope.batches), scope.batches, view.batch.value)
  {
    ghost var was := At(scope);
    allocations := scope.Close(view, committed);
    ClosingEvolves(was, At(scope), view.batch.value, committed);
  }

  // Discards what is listed, if it was all made here.
  method Revoke(scope: Scope, allocations: seq<Allocation>)
    requires scope.Valid() && AllocationsMinted(scope.minted, allocations)
    modifies scope
    ensures scope.Valid() && Evolves(old(At(scope)), At(scope)) && |old(scope.owners)| <= |scope.owners|
    ensures scope.batches == old(scope.batches)
    ensures scope.exports == Without(old(scope.exports), RefsOf(allocations))
            && scope.imports == Without(old(scope.imports), RefsOf(allocations))
  {
    ghost var was := At(scope);
    var notices := scope.Discard(allocations);
    LosingEvolves(was, At(scope));
  }

  // A discard by others. What is listed and no longer current would not be looked at.
  method RevokeCurrent(scope: Scope, allocations: seq<Allocation>)
    requires scope.Valid()
    modifies scope
    ensures scope.Valid() && Evolves(old(At(scope)), At(scope)) && scope.batches == old(scope.batches)
    ensures |old(scope.owners)| <= |scope.owners|
  {
    ghost var was := At(scope);
    if forall i :: 0 <= i < |allocations| ==> Current(scope.exports, scope.imports, allocations[i]) {
      CurrentIsMinted(scope.minted, scope.exports, scope.imports, allocations);
      Revoke(scope, allocations);
    } else {
      LosingEvolves(was, At(scope));
    }
  }

  // Makes a call, if its arguments are there to be named; the batches in `mine` are not closed by others.
  method Perform(scope: Scope, call: Call, mine: set<nat>)
    requires scope.Valid()
    modifies scope
    ensures scope.Valid() && Leads(old(At(scope)), At(scope), mine)
    ensures |old(scope.owners)| <= |scope.owners|
  {
    match call {
      case Export(o, contract, digest, callable) =>
        if scope.ViewOk(o) { Make(scope, o, contract, digest, callable); }
      case Import(o, reference, contract, digest) =>
        if scope.ViewOk(o) && Known(reference.id, scope.next) { Take(scope, o, reference, contract, digest); }
      case Begin(_) => Bracket(scope, call, mine);
      case Close(_, _) => Bracket(scope, call, mine);
      case Discard(allocations) => RevokeCurrent(scope, allocations);
      case Root => Own(scope, None);
      case Child(o) => if scope.ViewOk(o) { Own(scope, Some(o)); }
      case Release(id) => if Known(id, scope.next) { Drop(scope, id); }
      case ReleaseOwner(o) => if scope.ViewOk(o) { DropAll(scope, o); }
      case End => Shut(scope);
    }
  }

  // The calls of a list, in order.
  method PerformAll(scope: Scope, calls: seq<Call>, mine: set<nat>)
    requires scope.Valid()
    modifies scope
    ensures scope.Valid() && Leads(old(At(scope)), At(scope), mine)
    ensures |old(scope.owners)| <= |scope.owners|
  {
    ghost var was := At(scope);
    for i := 0 to |calls|
      invariant scope.Valid() && Leads(was, At(scope), mine) && |old(scope.owners)| <= |scope.owners|
    {
      ghost var before := At(scope);
      Perform(scope, calls[i], mine);
      LeadsOn(was, before, At(scope), mine);
    }
  }

  // Makes the calls of a build that began at `was`.
  method Work(scope: Scope, view: Owner, calls: seq<Call>, mine: set<nat>, ghost was: Moment, ghost parent: Option<nat>)
    requires scope.Valid() && scope.ViewOk(view) && view.batch.Some? && view.batch.value !in mine
    requires Leads(was, At(scope), mine)
    requires Open(At(scope), view.batch.value, parent) && scope.begun[view.batch.value] == |was.minted|
    modifies scope
    ensures scope.Valid() && Leads(was, At(scope), mine) && |old(scope.owners)| <= |scope.owners|
    ensures Open(At(scope), view.batch.value, parent) && scope.begun[view.batch.value] == |was.minted|
  {
    ghost var started := At(scope);
    PerformAll(scope, calls, mine + {view.batch.value});
    LeadsOn(was, started, At(scope), mine);
  }

  // Closes the batch of a build that failed and discards what was made under it, whatever calls
  // come between the two.
  method Fail(scope: Scope, view: Owner, between: seq<Call>, ghost was: Moment, ghost parent: Option<nat>,
              mine: set<nat>)
    returns (allocations: seq<Allocation>, ghost left: Moment)
    requires scope.Valid() && scope.ViewOk(view) && view.batch.Some? && view.batch.value !in mine
    requires Leads(was, At(scope), mine)
    requires Open(At(scope), view.batch.value, parent) && scope.begun[view.batch.value] == |was.minted|
    modifies scope
    ensures scope.Valid() && Leads(was, At(scope), mine) && |old(scope.owners)| <= |scope.owners|
    ensures Evolves(old(At(scope)), left) && Evolves(left, At(scope))
    ensures AllocationsMinted(scope.minted, allocations)
            && RefsOf(allocations) == Under(old(At(scope)), view.batch.value)
    ensures Under(left, view.batch.value) == Under(old(At(scope)), view.batch.value)
    ensures RolledBack(was, left, At(scope), Under(left, view.batch.value))
  {
    ghost var built := At(scope);
    allocations := Leave(scope, view, false);
    ghost var closed := At(scope);
    LeadsOn(was, built, closed, mine);
    PerformAll(scope, between, mine);
    left := At(scope);
    LeadsOn(was, closed, left, mine);
    EvolvesTransitive(built, closed, left);
    MintedStays(closed.minted, left.minted, allocations);
    Revoke(scope, allocations);
    LeadsOn(was, left, At(scope), mine);
    DiscardingConcludes(was, built, closed, left, At(scope), view.batch.value);
  }

  // Closes the batch of a build that is committed.
  method Commit(scope: Scope, view: Owner, ghost was: Moment, ghost parent: Option<nat>, ghost mine: set<nat>)
    returns (allocations: seq<Allocation>)
    requires scope.Valid() && scope.ViewOk(view) && view.batch.Some? && view.batch.value !in mine
    requires Leads(was, At(scope), mine)
    requires Open(At(scope), view.batch.value, parent) && scope.begun[view.batch.value] == |was.minted|
    modifies scope
    ensures scope.Valid() && Leads(was, At(scope), mine) && |old(scope.owners)| <= |scope.owners|
    ensures Evolves(old(At(scope)), At(scope))
    ensures AllocationsMinted(scope.minted, allocations)
            && RefsOf(allocations) == Under(old(At(scope)), view.batch.value)
    ensures Committed(old(At(scope)), At(scope), view.batch.value, parent)
  {
    ghost var built := At(scope);
    allocations := Leave(scope, view, true);
    ClosingCommits(built, At(scope), view.batch.value, parent);
    LeadsOn(was, built, At(scope), mine);
  }

  // Closes the batch of a build that began at `was`.
  method Conclude(scope: Scope, view: Owner, between: seq<Call>, committed: bool, ghost was: Moment,
                  ghost parent: Option<nat>, mine: set<nat>)
    returns (allocations: seq<Allocation>, ghost left: Moment)
    requires scope.Valid() && scope.ViewOk(view) && view.batch.Some? && view.batch.value !in mine
    requires Leads(was, At(scope), mine)
    requires Open(At(scope), view.batch.value, parent) && scope.begun[view.batch.value] == |was.minted|
    modifies scope
    ensures scope.Valid() && Evolves(old(At(scope)), At(scope)) && Leads(was, At(scope), mine)
    ensures |old(scope.owners)| <= |scope.owners|
    ensures AllocationsMinted(scope.minted, allocations)
            && RefsOf(allocations) == Under(old(At(scope)), view.batch.value)
    ensures Concluded(was, old(At(scope)), left, At(scope), view.batch.value, parent, committed)
  {
    ghost var built := At(scope);
    left := built;
    UnderIsSince(built, view.batch.value, |was.minted|);
    if committed {
      allocations := Commit(scope, view, was, parent, mine);
    } else {
      allocations, left := Fail(scope, view, between, was, parent, mine);
      EvolvesTransitive(built, left, At(scope));
    }
  }

  /** Builds a value under a view of its own while any calls are made; `mine` are the batches
      of builds it is part of. A failed build leaves exactly the entries there were before,
      less those released meanwhile, plus those made outside its view, whatever calls come between
      closing its batch and discarding what was made under it. */
  method BuildValue(scope: Scope, o: Owner, calls: seq<Call>, between: seq<Call>, committed: bool, mine: set<nat>)
    returns (view: Outcome<Owner>, allocations: seq<Allocation>, ghost built: Moment, ghost left: Moment)
    requires scope.Valid() && scope.ViewOk(o) && forall b :: b in mine ==> b < |scope.batches|
    modifies scope
    ensures scope.Valid() && Leads(old(At(scope)), At(scope), mine) && |old(scope.owners)| <= |scope.owners|
    ensures view.Refused? ==> At(scope) == old(At(scope)) && allocations == []
    ensures view.Done? ==>
              var b := |old(scope.batches)|;
              && view.value == Owner(o.state, Some(b)) && Evolves(old(At(scope)), built) && Evolves(built, At(scope))
              && Keeps(old(At(scope)), built, mine)
              && AllocationsMinted(scope.minted, allocations) && RefsOf(allocations) == Under(built, b)
              && Concluded(old(At(scope)), built, left, At(scope), b, BatchOf(old(scope.batches), o), committed)
  {
    ghost var was := At(scope);
    allocations, built, left := [], was, was;
    view := Start(scope, o);
    if view.Done? {
      Work(scope, view.value, calls, mine, was, BatchOf(was.batches, o));
      built := At(scope);
      allocations, left := Conclude(scope, view.value, between, committed, was, BatchOf(was.batches, o), mine);
    }
  }

  /** Builds a value and publishes it. With proof that it was not published, exactly the build's
      still current allocations go; otherwise they stay. */
  method PublishValue(scope: Scope, o: Owner, calls: seq<Call>, publishing: seq<Call>, unpublished: bool)
    returns (view: Outcome<Owner>, ghost built: Moment, ghost published: Moment)
    requires scope.Valid() && scope.ViewOk(o)
    modifies scope
    ensures scope.Valid()
    ensures view.Refused? ==> At(scope) == old(At(scope))
    ensures view.Done? ==>
              var b := |old(scope.batches)|;
              && Evolves(old(At(scope)), built) && Evolves(built, published)
              && (if unpublished then RolledBack(old(At(scope)), published, At(scope), Under(built, b))
                  else At(scope) == published)
  {
    ghost var was := At(scope);
    published := was;
    var allocations;
    ghost var left;
    view, allocations, built, left := BuildValue(scope, o, calls, [], true, {});
    if view.Done? {
      ghost var committed := At(scope);
      PerformAll(scope, publishing, {});
      published := At(scope);
      EvolvesTransitive(built, committed, published);
      EvolvesTransitive(was, built, published);
      if unpublished {
        MintedStays(committed.minted, published.minted, allocations);
        var notices := scope.Discard(allocations);
        LostIsRolledBack(was, published, At(scope), RefsOf(allocations));
      }
    }
  }

  // The calls of a build, a committed nested build among them.
  method WorkNested(scope: Scope, view: Owner, first: seq<Call>, inner: seq<Call>, last: seq<Call>)
    returns (nested: Outcome<Owner>, ghost within: set<nat>, ghost inside: Moment)
    requires scope.Valid() && scope.ViewOk(view) && view.batch.Some? && scope.batches[view.batch.value].active
    modifies scope
    ensures scope.Valid() && Leads(old(At(scope)), At(scope), {view.batch.value})
            && |old(scope.owners)| <= |scope.owners|
    ensures within <= Under(At(scope), view.batch.value)
    ensures nested.Done? ==> nested.value.batch.Some? && within == Under(inside, nested.value.batch.value)
  {
    ghost var was := At(scope);
    var b := view.batch.value;
    PerformAll(scope, first, {b});
    ghost var before := At(scope);
    var allocations;
    ghost var left;
    nested, allocations, inside, left := BuildValue(scope, view, inner, [], true, {b});
    within := if nested.Done? then RefsOf(allocations) else {};
    ghost var joined := At(scope);
    LeadsOn(was, before, joined, {b});
    assert within <= Under(joined, b);
    PerformAll(scope, last, {b});
    LeadsOn(was, joined, At(scope), {b});
    UnderStays(joined, At(scope), b);
  }

  /** When an outer build fails, what a nested build had committed goes with it. */
  method FailedOuterBuild(scope: Scope, o: Owner, first: seq<Call>, inner: seq<Call>, last: seq<Call>,
                          between: seq<Call>)
    returns (view: Outcome<Owner>, nested: Outcome<Owner>, ghost within: set<nat>, ghost inside: Moment,
             ghost left: Moment)
    requires scope.Valid() && scope.ViewOk(o)
    modifies scope
    ensures scope.Valid()
    ensures view.Done? ==> RolledBack(old(At(scope)), left, At(scope), Under(left, |old(scope.batches)|))
    ensures view.Done? && nested.Done? ==> nested.value.batch.Some? && within == Under(inside, nested.value.batch.value)
    ensures view.Done? ==> within <= Under(left, |old(scope.batches)|) && NoneOf(At(scope), within)
  {
    ghost var was := At(scope);
    left, inside, within := was, was, {};
    view := Start(scope, o);
    nested := view;
    if view.Done? {
      ghost var started := At(scope);
      nested, within, inside := WorkNested(scope, view.value, first, inner, last);
      EvolvesTransitive(was, started, At(scope));
      var allocations;
      allocations, left := Fail(scope, view.value, between, was, BatchOf(was.batches, o), {});
      RollingBackTakesAll(was, left, At(scope), Under(left, view.value.batch.value), within);
    }
  }

  // An export under a batch with nothing under it yet.
  method ExportFirst(scope: Scope, view: Owner, contract: string, digest: string, callable: bool)
    returns (r: Outcome<Id>)
    requires scope.Valid() && scope.ViewOk(view) && view.batch.Some? && scope.batches[view.batch.value].active
    requires Under(At(scope), view.batch.value) == {}
    modifies scope
    ensures scope.Valid() && scope.ViewOk(view) && scope.batches[view.batch.value].active
    ensures Undoes(old(At(scope)), At(scope), view.batch.value)
    ensures r.Done? ==> r.value in scope.exports && r.value !in old(scope.exports)
  {
    ghost var was, b := At(scope), view.batch.value;
    r := scope.Export(view, contract, digest, callable);
    if r.Done? {
      MadeUndoes(was, At(scope), b, r.value, false, Entry(|was.minted|, view.state, contract, digest));
    } else {
      RefusedUndoes(was, b);
    }
  }

  // A build that fails with no call in between.
  method FailAtOnce(scope: Scope, view: Owner)
    requires scope.Valid() && scope.ViewOk(view) && view.batch.Some? && scope.batches[view.batch.value].active
    modifies scope
    ensures scope.Valid()
    ensures scope.exports == Without(old(scope.exports), Under(old(At(scope)), view.batch.value))
    ensures scope.imports == Without(old(scope.imports), Under(old(At(scope)), view.batch.value))
  {
    var allocations := Leave(scope, view, false);
    Revoke(scope, allocations);
  }

  /** A build that exports one value and fails leaves the tables as they were. */
  method ExportAndFail(scope: Scope, o: Owner, contract: string, digest: string, callable: bool)
    returns (view: Outcome<Owner>, r: Outcome<Id>)
    requires scope.Valid() && scope.ViewOk(o)
    modifies scope
    ensures scope.Valid() && scope.exports == old(scope.exports) && scope.imports == old(scope.imports)
    ensures view.Done? && r.Done? ==> r.value !in scope.exports
  {
    view := scope.Begin(o);
    r := Refused(ScopeClosed);
    if view.Done? {
      r := ExportFirst(scope, view.value, contract, digest, callable);
      FailAtOnce(scope, view.value);
    }
  }

  // ---- What was released stays refused.

  /** Once an owner is released, what it or an owner below it held cannot be attached again, by
      whomever and for whatever contract and digests agree with the reference. */
  method ReleaseThenImport(scope: Scope, o: Owner, other: Owner, reference: Reference, contract: string, digest: string)
    returns (notices: seq<Notice>, out: Outcome<Attached>)
    requires scope.Valid() && scope.ViewOk(o) && scope.ViewOk(other) && !scope.closed
    requires reference.id in OwnedBelow(scope.owners, o.state) && Known(reference.id, scope.next)
    requires contract != "" && ValidDigest(digest) && Carries(reference, contract, digest)
    modifies scope
    ensures scope.Valid() && out == Refused(ReferenceReleased) && Notice(reference.id, true) in notices
  {
    ghost var below := OwnedBelow(scope.owners, o.state);
    notices := scope.ReleaseOwner(o);
    ToldIsEntombed(notices, below, reference.id);
    out := scope.Import(other, reference, contract, digest);
  }

  // Discards, and leaves a tombstone of one that was current.
  method Bury(scope: Scope, allocations: seq<Allocation>, k: nat)
    requires scope.TreeValid({}) && scope.BooksValid() && AllocationsMinted(scope.minted, allocations)
    requires k < |allocations| && Current(scope.exports, scope.imports, allocations[k])
    modifies scope`exports, scope`imports, scope`owners, scope`gone, scope`order
    ensures scope.TreeValid({}) && scope.BooksValid() && |scope.owners| == |old(scope.owners)|
    ensures allocations[k].id in scope.gone
  {
    CurrentIsOf(scope.exports, scope.imports, allocations, k);
    var notices := scope.Discard(allocations);
  }

  /** Once discarded, an allocation cannot be attached again either. */
  method DiscardThenImport(scope: Scope, allocations: seq<Allocation>, k: nat, other: Owner, reference: Reference,
                           contract: string, digest: string)
    returns (out: Outcome<Attached>)
    requires scope.Valid() && AllocationsMinted(scope.minted, allocations) && scope.ViewOk(other) && !scope.closed
    requires k < |allocations| && Current(scope.exports, scope.imports, allocations[k])
    requires reference.id == allocations[k].id && Known(reference.id, scope.next)
    requires contract != "" && ValidDigest(digest) && Carries(reference, contract, digest)
    modifies scope
    ensures scope.Valid() && out == Refused(ReferenceReleased)
  {
    Bury(scope, allocations, k);
    out := scope.Import(other, reference, contract, digest);
  }
}

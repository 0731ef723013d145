/**
 How the tables and batches of a live scope may change over time, and what a build that
 was rolled back has left of them.
 */
module LiveHistory {
  import opened LiveOwners
  import opened LiveBooks
  import opened Wrappers

  // What a scope holds at one time, with the history of its identities and batches.
  datatype Moment = Moment(
    exports: Table, imports: Table, minted: seq<(Id, bool)>, made: map<nat, nat>,
    joined: map<nat, nat>, batches: seq<Batch>, begun: seq<nat>)

  // The same binding, which may have learned a digest it did not specify.
  predicate SameBinding(a: Entry, b: Entry) {
    a.ref == b.ref && a.owner == b.owner && a.contract == b.contract && (a.digest != "" ==> b.digest == a.digest)
  }

  // Of the bindings made before some identity, none has come back or changed hands.
  ghost predicate Lasting(a: Table, b: Table, before: nat) {
    forall id :: id in b && b[id].ref < before ==> id in a && SameBinding(a[id], b[id])
  }

  ghost predicate MadeAlike(a: map<nat, nat>, b: map<nat, nat>, before: nat) {
    forall r :: 0 <= r < before ==> (r in b <==> r in a) && (r in a ==> b[r] == a[r])
  }

  ghost predicate JoinedStay(a: map<nat, nat>, b: map<nat, nat>) {
    forall x :: x in a ==> x in b && b[x] == a[x]
  }

  // Batches only close, and keep their parent while they are open.
  ghost predicate OnlyClose(a: seq<Batch>, b: seq<Batch>) {
    |a| <= |b| && forall x :: 0 <= x < |a| && b[x].active ==> a[x].active && a[x].parent == b[x].parent
  }

  // What is under a batch that has closed is all there will be.
  ghost predicate ClosedKeep(a: Moment, b: Moment) {
    forall x :: 0 <= x < |a.batches| && !a.batches[x].active ==> Under(b, x) == Under(a, x)
  }

  /** What may come of a moment: bindings end or are newly made, batches begin, close and
      join, and no history is rewritten. */
  ghost predicate Evolves(a: Moment, b: Moment) {
    && a.minted <= b.minted && a.begun <= b.begun
    && Lasting(a.exports, b.exports, |a.minted|) && Lasting(a.imports, b.imports, |a.minted|)
    && MadeAlike(a.made, b.made, |a.minted|) && JoinedStay(a.joined, b.joined) && OnlyClose(a.batches, b.batches)
    && ClosedKeep(a, b)
  }

  lemma EvolvesTransitive(a: Moment, b: Moment, c: Moment)
    requires Evolves(a, b) && Evolves(b, c)
    ensures Evolves(a, c)
  {
    assert forall id :: id in c.exports && c.exports[id].ref < |a.minted| ==>
           id in b.exports && SameBinding(b.exports[id], c.exports[id]);
    assert forall id :: id in c.imports && c.imports[id].ref < |a.minted| ==>
           id in b.imports && SameBinding(b.imports[id], c.imports[id]);
  }

  // The given batches, where open, stay open under their parents.
  ghost predicate Keeps(a: Moment, b: Moment, mine: set<nat>) {
    forall x :: x in mine && x < |a.batches| && a.batches[x].active ==> Open(b, x, a.batches[x].parent)
  }

  lemma KeepsTransitive(a: Moment, b: Moment, c: Moment, mine: set<nat>)
    requires Keeps(a, b, mine) && Keeps(b, c, mine)
    ensures Keeps(a, c, mine)
  {
    assert forall x :: x in mine && x < |a.batches| && a.batches[x].active ==> Open(b, x, a.batches[x].parent);
  }

  ghost predicate Leads(a: Moment, b: Moment, mine: set<nat>) { Evolves(a, b) && Keeps(a, b, mine) }

  lemma LeadsOn(a: Moment, b: Moment, c: Moment, mine: set<nat>)
    requires Leads(a, b, mine) && Leads(b, c, mine)
    ensures Leads(a, c, mine)
  {
    EvolvesTransitive(a, b, c);
    KeepsTransitive(a, b, c, mine);
  }

  // A table with fewer entries.
  ghost predicate Fewer(a: Table, b: Table) { forall id :: id in b ==> id in a && b[id] == a[id] }

  lemma LosingEvolves(a: Moment, b: Moment)
    requires Fewer(a.exports, b.exports) && Fewer(a.imports, b.imports)
    requires b == a.(exports := b.exports, imports := b.imports)
    ensures Evolves(a, b)
  {
  }

  lemma MakingEvolves(a: Moment, b: Moment, id: Id, imported: bool, entry: Entry, batch: Option<nat>)
    requires b.minted == a.minted + [(id, imported)] && entry.ref == |a.minted|
    requires b.exports == Entered(a.exports, !imported, id, entry)
             && b.imports == Entered(a.imports, imported, id, entry)
    requires b.made == MadeMore(a.made, |a.minted|, batch) && SameBatches(a.batches, b.batches)
    requires b.joined == a.joined && b.begun == a.begun
    requires BatchesOk(a.batches, a.minted, a.made, a.joined, a.begun)
    requires batch.Some? ==> batch.value < |a.batches| && a.batches[batch.value].active
    ensures Evolves(a, b)
  {
    if batch.Some? {
      assert BatchOk(a.batches, a.minted, a.made, a.joined, batch.value);
      forall x | 0 <= x < |a.batches| && !a.batches[x].active ensures Under(b, x) == Under(a, x) {
        MadeUnderAdds(a.made, b.made, a.joined, |a.minted|, batch.value, x);
      }
    }
  }

  lemma AttachingEvolves(a: Moment, b: Moment, id: Id, entry: Entry, batch: Option<nat>)
    requires b.minted == a.minted + [(id, true)] && entry.ref == |a.minted|
    requires b.exports == a.exports && b.imports == a.imports[id := entry]
    requires b.made == MadeMore(a.made, |a.minted|, batch) && SameBatches(a.batches, b.batches)
    requires b.joined == a.joined && b.begun == a.begun
    requires BatchesOk(a.batches, a.minted, a.made, a.joined, a.begun)
    requires batch.Some? ==> batch.value < |a.batches| && a.batches[batch.value].active
    ensures Evolves(a, b)
  {
    MakingEvolves(a, b, id, true, entry, batch);
  }

  lemma LearningEvolves(a: Moment, b: Moment, id: Id, entry: Entry)
    requires id in a.imports && SameBinding(a.imports[id], entry) && b == a.(imports := a.imports[id := entry])
    ensures Evolves(a, b)
  {
  }

  // A batch is open, under a given parent.
  ghost predicate Open(m: Moment, b: nat, parent: Option<nat>) {
    b < |m.batches| && m.batches[b].active && m.batches[b].parent == parent
  }

  ghost function Under(m: Moment, b: nat): set<nat> { MadeUnder(m.made, m.joined, b) }

  // What is left of a table: what it held before a build and has not been released since,
  // and what has been made since but not by the build.
  ghost predicate LeftOf(before: Table, built: Table, now: Table, since: nat, refs: set<nat>) {
    && (forall id :: id in built && built[id].ref < since ==>
       id in before && SameBinding(before[id], built[id]) && id in now)
    && (forall id :: id in built && built[id].ref >= since ==> (id in now <==> built[id].ref !in refs))
    && (forall id :: id in now ==> id in built && now[id] == built[id])
  }

  /** A rolled-back build leaves exactly the entries there were before it, less those
      released meanwhile, plus those made outside its view. */
  ghost predicate RolledBack(before: Moment, built: Moment, now: Moment, refs: set<nat>) {
    && (forall r :: r in refs ==> |before.minted| <= r < |built.minted|)
    && LeftOf(before.exports, built.exports, now.exports, |before.minted|, refs)
    && LeftOf(before.imports, built.imports, now.imports, |before.minted|, refs)
  }

  lemma LostIsRolledBack(before: Moment, built: Moment, now: Moment, refs: set<nat>)
    requires Evolves(before, built) && forall r :: r in refs ==> |before.minted| <= r < |built.minted|
    requires now.exports == Without(built.exports, refs) && now.imports == Without(built.imports, refs)
    ensures RolledBack(before, built, now, refs)
  {
  }

  // Everything under a batch has been made since it began.
  lemma UnderIsSince(m: Moment, b: nat, since: nat)
    requires BatchesOk(m.batches, m.minted, m.made, m.joined, m.begun) && b < |m.batches| && m.begun[b] == since
    ensures forall r :: r in Under(m, b) ==> since <= r < |m.minted|
  {
    forall r | r in Under(m, b) ensures since <= r < |m.minted| {
      MadeSinceBegun(m.batches, m.minted, m.made, m.joined, m.begun, b, r);
    }
  }

  // Joining a batch adds what is under it to its parent, and changes no other.
  lemma JoiningAdds(m: Moment, b: nat, p: nat, c: nat)
    requires BatchesOk(m.batches, m.minted, m.made, m.joined, m.begun)
    requires Open(m, b, Some(p)) && p < |m.batches| && m.batches[p].active && c != b
    ensures MadeUnder(m.made, m.joined[b := p], c) == Under(m, c) + if c == p then Under(m, b) else {}
  {
    assert BatchOk(m.batches, m.minted, m.made, m.joined, b) && BatchOk(m.batches, m.minted, m.made, m.joined, p);
    forall r | r in m.made ensures LeadsTo(m.joined[b := p], m.made[r], c) <==>
                                   LeadsTo(m.joined, m.made[r], c) || (c == p && LeadsTo(m.joined, m.made[r], b)) {
      JoinLeads(m.joined, b, p, m.made[r], c);
    }
  }

  lemma {:induction false} LeadsStay(a: map<nat, nat>, b: map<nat, nat>, x: nat, c: nat)
    requires JoinedStay(a, b) && LeadsTo(a, x, c)
    ensures LeadsTo(b, x, c)
    decreases x
  {
    if x != c { LeadsStay(a, b, a[x], c); }
  }

  /** What is under a batch, by itself or through builds committed into it, stays under it. */
  lemma UnderStays(a: Moment, b: Moment, batch: nat)
    requires Evolves(a, b) && BatchesOk(a.batches, a.minted, a.made, a.joined, a.begun)
    ensures Under(a, batch) <= Under(b, batch)
  {
    forall r | r in Under(a, batch) ensures r in Under(b, batch) {
      LeadsStay(a.joined, b.joined, a.made[r], batch);
    }
  }

  lemma BeginningEvolves(a: Moment, b: Moment, parent: Option<nat>)
    requires b == a.(batches := a.batches + [Batch(parent, true, [])], begun := a.begun + [|a.minted|])
    ensures Evolves(a, b) && forall mine: set<nat> :: Keeps(a, b, mine)
  {
  }

  // What closing a batch does to the histories: it joins a parent still open, if committed.
  ghost predicate Closed(built: Moment, now: Moment, b: nat, committed: bool)
    requires b < |built.batches|
  {
    && now.made == built.made && now.minted == built.minted
    && now.joined == JoinedMore(built.joined, built.batches, b, committed)
  }

  // Closing a batch: the others stay, and it may join a parent still open.
  lemma ClosingEvolves(a: Moment, b: Moment, closed: nat, committed: bool)
    requires BatchesOk(a.batches, a.minted, a.made, a.joined, a.begun) && closed < |a.batches|
    requires a.batches[closed].active && OneClosed(a.batches, b.batches, closed)
    requires b.exports == a.exports && b.imports == a.imports && b.begun == a.begun && Closed(a, b, closed, committed)
    ensures Evolves(a, b) && forall mine: set<nat> :: closed !in mine ==> Keeps(a, b, mine)
  {
    assert BatchOk(a.batches, a.minted, a.made, a.joined, closed);
    if committed && Nests(a.batches, closed) {
      var parent := a.batches[closed].parent;
      forall x | 0 <= x < |a.batches| && !a.batches[x].active ensures Under(b, x) == Under(a, x) {
        JoiningAdds(a, closed, parent.value, x);
      }
    }
  }

  /** What a committed build has come to once its batch is closed: its entries stay, and are from
      now on under the batch it was begun in, if that is still open. */
  ghost predicate Committed(built: Moment, now: Moment, b: nat, parent: Option<nat>) {
    && now.exports == built.exports && now.imports == built.imports
    && (parent.Some? && parent.value < |built.batches| && built.batches[parent.value].active ==>
          Under(now, parent.value) == Under(built, parent.value) + Under(built, b))
  }

  lemma ClosingCommits(built: Moment, now: Moment, b: nat, parent: Option<nat>)
    requires BatchesOk(built.batches, built.minted, built.made, built.joined, built.begun)
    requires Open(built, b, parent) && Closed(built, now, b, true)
    requires now.exports == built.exports && now.imports == built.imports
    ensures Committed(built, now, b, parent)
  {
    if Nests(built.batches, b) {
      assert BatchOk(built.batches, built.minted, built.made, built.joined, b);
      JoiningAdds(built, b, parent.value, parent.value);
    }
  }

  /** A build that began at some moment has failed: its batch closed when it was built, and was left
      at another moment, whatever was called since. Discarding what was made under it then rolls
      it back, and that is still all that was made under it. */
  lemma DiscardingConcludes(was: Moment, built: Moment, closed: Moment, left: Moment, now: Moment, b: nat)
    requires Evolves(was, built) && BatchesOk(built.batches, built.minted, built.made, built.joined, built.begun)
    requires b < |built.batches| && built.begun[b] == |was.minted| && Closed(built, closed, b, false)
    requires Evolves(built, closed) && b < |closed.batches| && !closed.batches[b].active && Evolves(closed, left)
    requires now.exports == Without(left.exports, Under(built, b))
             && now.imports == Without(left.imports, Under(built, b))
    ensures Under(left, b) == Under(built, b) && RolledBack(was, left, now, Under(left, b))
  {
    UnderIsSince(built, b, |was.minted|);
    EvolvesTransitive(was, built, closed);
    EvolvesTransitive(was, closed, left);
    LostIsRolledBack(was, left, now, Under(built, b));
  }

  /** What a build comes to. Failed, it is rolled back from where it was left. Committed, its entries
      stay. What was made under it, as it was built, has been made since it began. */
  ghost predicate Concluded(was: Moment, built: Moment, left: Moment, now: Moment, b: nat, parent: Option<nat>,
                            committed: bool) {
    && (forall r :: r in Under(built, b) ==> |was.minted| <= r < |built.minted|)
    && if committed then Committed(built, now, b, parent)
       else Evolves(built, left) && Under(left, b) == Under(built, b) && RolledBack(was, left, now, Under(left, b))
  }

  // What is current was made here.
  lemma CurrentIsMinted(ms: seq<(Id, bool)>, e: Table, i: Table, allocations: seq<Allocation>)
    requires Minted(ms, e, i) && forall k :: 0 <= k < |allocations| ==> Current(e, i, allocations[k])
    ensures AllocationsMinted(ms, allocations)
  {
  }

  lemma MintedStays(a: seq<(Id, bool)>, b: seq<(Id, bool)>, allocations: seq<Allocation>)
    requires a <= b && AllocationsMinted(a, allocations)
    ensures AllocationsMinted(b, allocations)
  {
  }

  // Nothing with one of these identities is tabled.
  ghost predicate NoneOf(m: Moment, refs: set<nat>) {
    && (forall id :: id in m.exports ==> m.exports[id].ref !in refs)
    && forall id :: id in m.imports ==> m.imports[id].ref !in refs
  }

  lemma RollingBackTakesAll(was: Moment, left: Moment, now: Moment, refs: set<nat>, some: set<nat>)
    requires RolledBack(was, left, now, refs) && some <= refs
    ensures NoneOf(now, some)
  {
  }

  // One binding made under a batch with nothing under it yet is all there is under it.
  lemma OnlyOneUnder(m: Moment, b: nat, id: Id, imported: bool, entry: Entry)
    requires BatchesOk(m.batches, m.minted, m.made, m.joined, m.begun) && b < |m.batches| && m.batches[b].active
    requires Under(m, b) == {} && entry.ref == |m.minted| && id !in m.exports && id !in m.imports
    requires Minted(m.minted, m.exports, m.imports)
    ensures var made := m.made[|m.minted| := b];
            && MadeUnder(made, m.joined, b) == {|m.minted|}
            && Without(Entered(m.exports, !imported, id, entry), {|m.minted|}) == m.exports
            && Without(Entered(m.imports, imported, id, entry), {|m.minted|}) == m.imports
  {
    assert BatchOk(m.batches, m.minted, m.made, m.joined, b);
    MadeUnderAdds(m.made, m.made[|m.minted| := b], m.joined, |m.minted|, b, b);
  }

  // Rolling back an export under such a batch, or one that was refused, gives back the tables.
  ghost predicate Undoes(was: Moment, now: Moment, b: nat) {
    Without(now.exports, Under(now, b)) == was.exports && Without(now.imports, Under(now, b)) == was.imports
  }

  lemma RefusedUndoes(m: Moment, b: nat)
    requires Under(m, b) == {}
    ensures Undoes(m, m, b)
  {
  }

  lemma MadeUndoes(was: Moment, now: Moment, b: nat, id: Id, imported: bool, entry: Entry)
    requires BatchesOk(was.batches, was.minted, was.made, was.joined, was.begun) && b < |was.batches|
             && was.batches[b].active
    requires Under(was, b) == {} && entry.ref == |was.minted| && id !in was.exports && id !in was.imports
    requires Minted(was.minted, was.exports, was.imports)
    requires now.made == MadeMore(was.made, |was.minted|, Some(b)) && now.joined == was.joined
    requires now.exports == Entered(was.exports, !imported, id, entry)
             && now.imports == Entered(was.imports, imported, id, entry)
    ensures Undoes(was, now, b)
  {
    OnlyOneUnder(was, b, id, imported, entry);
  }
}

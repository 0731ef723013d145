/**
 A mount's receive attachments, in every interleaving.
 */
module MountAttachments {
  // One step is one critical section of the mount's mutex, or one callback made outside it:
  // Receive, Close, child endings and detaching in any order. A child may answer, end or
  // reenter at any point between two steps.

  import opened Wrappers

  // Where an attachment's own Receive call stands.
  datatype Phase =
    | Asking(child: nat)    // about to look whether the attachment is still active
    | InChild(child: nat)   // the child's Receive is running
    | Removing(child: nat)  // the child failed or came too late
    | Returned              // the caller holds the detach function
    | Failed

  // How an attachment came to an end.
  datatype Ending = Open | Detached | LastChild | MountClosed

  // One child's disposer: held by the attachment, owed once taken to be invoked, and
  // how often it has been obtained and invoked so far.
  datatype Slot = Slot(ended: bool, held: bool, owed: nat, obtained: nat, invoked: nat)

  datatype Attachment = Attachment(
    active: bool, remaining: int, slots: seq<Slot>, phase: Phase,
    listens: bool, telling: nat, told: nat, ending: Ending)

  datatype State = State(closed: bool, current: Option<nat>, attachments: seq<Attachment>)

  datatype Step =
    | Receive(children: nat, listens: bool)
    | Look(id: nat)
    | ChildReturns(id: nat, gives: bool, failed: bool)
    | Remove(id: nat)
    | ChildEnded(id: nat, child: nat)
    | Dispose(id: nat, child: nat)
    | Tell(id: nat)
    | Close

  function Init(): State { State(false, None, []) }

  predicate Enabled(s: State, step: Step) {
    match step
    case Receive(_, _) => !s.closed && s.current.None?
    case Look(a) => a < |s.attachments| && s.attachments[a].phase.Asking?
    case ChildReturns(a, _, _) => a < |s.attachments| && s.attachments[a].phase.InChild?
      && s.attachments[a].phase.child < |s.attachments[a].slots|
    case Remove(a) => a < |s.attachments| && MayRemove(s.attachments[a])
    case ChildEnded(a, i) => a < |s.attachments| && i < |s.attachments[a].slots|
    case Dispose(a, i) => a < |s.attachments| && i < |s.attachments[a].slots| && s.attachments[a].slots[i].owed > 0
    case Tell(a) => a < |s.attachments| && s.attachments[a].telling > 0
    case Close => !s.closed && (s.current.Some? ==> s.current.value < |s.attachments|)
  }

  // The caller may detach at any time; a failed Receive first disposes of what came late.
  predicate MayRemove(t: Attachment) {
    t.phase.Returned? || (t.phase.Removing? && (t.phase.child < |t.slots| ==> t.slots[t.phase.child].owed == 0))
  }

  // Hands a held disposer over to be invoked.
  function Take(slot: Slot): Slot {
    if slot.held then slot.(held := false, owed := slot.owed + 1) else slot
  }

  // releaseLocked: the attachment is retired and gives up what it holds.
  function Released(t: Attachment, ending: Ending): Attachment {
    t.(active := false, ending := ending, slots := seq(|t.slots|, i requires 0 <= i < |t.slots| => Take(t.slots[i])),
       telling := t.telling + if t.listens && !ending.Detached? then 1 else 0)
  }

  // An attachment that is no longer active is no longer the current one.
  function With(s: State, a: nat, t: Attachment): State
    requires a < |s.attachments|
  {
    s.(attachments := s.attachments[a := t], current := if s.current == Some(a) && !t.active then None else s.current)
  }

  // The child's disposer is kept if the attachment still wants it, else owed at once.
  function Returning(t: Attachment, gives: bool, failed: bool): Attachment
    requires t.phase.InChild? && t.phase.child < |t.slots|
  {
    var i := t.phase.child;
    var slot := t.slots[i];
    var got := slot.(obtained := slot.obtained + if gives then 1 else 0);
    if !failed && t.active && !slot.ended then
      t.(slots := t.slots[i := got.(held := gives)], phase := Asking(i + 1))
    else
      t.(slots := t.slots[i := got.(owed := got.owed + if gives then 1 else 0)], phase := Removing(i))
  }

  // A child has ended: the last one to do so retires the attachment.
  function ChildGone(t: Attachment, i: nat): Attachment
    requires i < |t.slots|
  {
    if !t.active || t.slots[i].ended then t
    else
      var slot := t.slots[i].(ended := true);
      if t.remaining == 1 then Released(t.(slots := t.slots[i := slot], remaining := 0), LastChild)
      else t.(slots := t.slots[i := Take(slot)], remaining := t.remaining - 1)
  }

  function Disposed(t: Attachment, i: nat): Attachment
    requires i < |t.slots| && t.slots[i].owed > 0
  {
    t.(slots := t.slots[i := t.slots[i].(owed := t.slots[i].owed - 1, invoked := t.slots[i].invoked + 1)])
  }

  // The detach function, or the removal a failed Receive ends with.
  function Removed(t: Attachment): Attachment {
    var r := if t.active then Released(t, Detached) else t;
    if t.phase.Removing? then r.(phase := Failed) else r
  }

  function Looked(t: Attachment): Attachment
    requires t.phase.Asking?
  {
    t.(phase := if !t.active then Failed else if t.phase.child == |t.slots| then Returned else InChild(t.phase.child))
  }

  function Apply(s: State, step: Step): State
    requires Enabled(s, step)
  {
    match step
    case Receive(n, listens) => State(s.closed, Some(|s.attachments|), s.attachments + [Fresh(n, listens)])
    case Look(a) => With(s, a, Looked(s.attachments[a]))
    case ChildReturns(a, gives, failed) => With(s, a, Returning(s.attachments[a], gives, failed))
    case Remove(a) => With(s, a, Removed(s.attachments[a]))
    case ChildEnded(a, i) => With(s, a, ChildGone(s.attachments[a], i))
    case Dispose(a, i) => With(s, a, Disposed(s.attachments[a], i))
    case Tell(a) =>
      With(s, a, s.attachments[a].(telling := s.attachments[a].telling - 1, told := s.attachments[a].told + 1))
    case Close =>
      if s.current.None? then s.(closed := true)
      else With(s, s.current.value, Released(s.attachments[s.current.value], MountClosed)).(closed := true)
  }

  function Fresh(n: nat, listens: bool): Attachment {
    Attachment(true, n, seq(n, i => Slot(false, false, 0, 0, 0)), Asking(0), listens, 0, 0, Open)
  }

  // ---- What every step keeps.

  // Every disposer obtained is in exactly one place, and an ended child's is not held.
  predicate SlotOk(slot: Slot, active: bool, reached: bool) {
    && slot.obtained <= 1 && (if slot.held then 1 else 0) + slot.owed + slot.invoked == slot.obtained
    && (slot.held ==> active && !slot.ended) && (!reached ==> slot.obtained == 0)
  }

  // The children whose Receive may have returned.
  function Reached(t: Attachment): nat {
    match t.phase
    case Asking(i) => i
    case InChild(i) => i
    case _ => |t.slots|
  }

  function Live(slots: seq<Slot>): nat {
    if slots == [] then 0 else Live(slots[..|slots| - 1]) + if slots[|slots| - 1].ended then 0 else 1
  }

  predicate Tells(ending: Ending) { ending.LastChild? || ending.MountClosed? }

  ghost predicate AttachmentOk(t: Attachment) {
    && (forall i :: 0 <= i < |t.slots| ==> SlotOk(t.slots[i], t.active, i < Reached(t)))
    && (t.phase.Asking? ==> t.phase.child <= |t.slots|)
       && (t.phase.InChild? || t.phase.Removing? ==> t.phase.child < |t.slots|)
    && (t.active <==> t.ending.Open?)
       && (t.active ==> t.remaining == Live(t.slots) && (t.slots != [] ==> t.remaining > 0))
    && t.telling + t.told == if t.listens && Tells(t.ending) then 1 else 0
  }

  ghost predicate Inv(s: State) {
    && (s.current.Some? ==> s.current.value < |s.attachments| && !s.closed)
    && forall a :: 0 <= a < |s.attachments| ==>
         AttachmentOk(s.attachments[a]) && (s.attachments[a].active <==> s.current == Some(a))
  }

  lemma {:induction false} LiveAfter(slots: seq<Slot>, i: nat, slot: Slot)
    requires i < |slots|
    ensures Live(slots[i := slot]) == Live(slots) + (if slots[i].ended then 1 else 0) - (if slot.ended then 1 else 0)
    ensures Live(slots) >= if slots[i].ended then 0 else 1
  {
    var n := |slots| - 1;
    if i < n {
      LiveAfter(slots[..n], i, slot);
      assert slots[i := slot][..n] == slots[..n][i := slot];
    } else {
      assert slots[i := slot][..n] == slots[..n];
    }
  }

  lemma {:induction false} AllLive(n: nat)
    ensures Live(seq(n, i => Slot(false, false, 0, 0, 0))) == n
  {
    var slots := seq(n, i => Slot(false, false, 0, 0, 0));
    if n > 0 {
      AllLive(n - 1);
      assert slots[..n - 1] == seq(n - 1, i => Slot(false, false, 0, 0, 0));
    }
  }

  lemma ReleaseKeeps(t: Attachment, ending: Ending)
    requires AttachmentOk(t) && t.active && !ending.Open?
    ensures AttachmentOk(Released(t, ending))
  {
  }

  lemma ReturningKeeps(t: Attachment, gives: bool, failed: bool)
    requires AttachmentOk(t) && t.phase.InChild?
    ensures AttachmentOk(Returning(t, gives, failed)) && Returning(t, gives, failed).active == t.active
  {
    var r := Returning(t, gives, failed);
    LiveAfter(t.slots, t.phase.child, r.slots[t.phase.child]);
    forall i | 0 <= i < |r.slots| ensures SlotOk(r.slots[i], r.active, i < Reached(r)) {
      assert SlotOk(t.slots[i], t.active, i < Reached(t));
    }
  }

  lemma ChildGoneKeeps(t: Attachment, i: nat)
    requires AttachmentOk(t) && i < |t.slots|
    ensures AttachmentOk(ChildGone(t, i)) && (ChildGone(t, i).active ==> t.active)
  {
    var r := ChildGone(t, i);
    LiveAfter(t.slots, i, t.slots[i].(ended := true));
    LiveAfter(t.slots, i, Take(t.slots[i].(ended := true)));
    forall j | 0 <= j < |r.slots| ensures SlotOk(r.slots[j], r.active, j < Reached(r)) {
      assert SlotOk(t.slots[j], t.active, j < Reached(t));
    }
  }

  lemma DisposedKeeps(t: Attachment, i: nat)
    requires AttachmentOk(t) && i < |t.slots| && t.slots[i].owed > 0
    ensures AttachmentOk(Disposed(t, i)) && Disposed(t, i).active == t.active
  {
    var r := Disposed(t, i);
    LiveAfter(t.slots, i, r.slots[i]);
    forall j | 0 <= j < |r.slots| ensures SlotOk(r.slots[j], r.active, j < Reached(r)) {
      assert SlotOk(t.slots[j], t.active, j < Reached(t));
    }
  }

  lemma WithKeeps(s: State, a: nat, t: Attachment)
    requires Inv(s) && a < |s.attachments| && AttachmentOk(t) && (t.active ==> s.attachments[a].active)
    ensures Inv(With(s, a, t))
  {
  }

  lemma ReceiveKeeps(s: State, n: nat, listens: bool)
    requires Inv(s) && Enabled(s, Receive(n, listens))
    ensures Inv(Apply(s, Receive(n, listens)))
  {
    AllLive(n);
    assert AttachmentOk(Fresh(n, listens));
  }

  lemma CloseKeeps(s: State)
    requires Inv(s) && Enabled(s, Close)
    ensures Inv(Apply(s, Close))
  {
    if s.current.Some? {
      ReleaseKeeps(s.attachments[s.current.value], MountClosed);
      WithKeeps(s, s.current.value, Released(s.attachments[s.current.value], MountClosed));
    }
  }

  lemma RemoveKeeps(s: State, a: nat)
    requires Inv(s) && Enabled(s, Remove(a))
    ensures Inv(Apply(s, Remove(a)))
  {
    if s.attachments[a].active { ReleaseKeeps(s.attachments[a], Detached); }
    WithKeeps(s, a, Removed(s.attachments[a]));
  }

  lemma ReturnKeeps(s: State, a: nat, gives: bool, failed: bool)
    requires Inv(s) && Enabled(s, ChildReturns(a, gives, failed))
    ensures Inv(Apply(s, ChildReturns(a, gives, failed)))
  {
    ReturningKeeps(s.attachments[a], gives, failed);
    WithKeeps(s, a, Returning(s.attachments[a], gives, failed));
  }

  lemma StepKeepsInv(s: State, step: Step)
    requires Inv(s) && Enabled(s, step)
    ensures Inv(Apply(s, step))
  {
    match step
    case Receive(n, listens) => ReceiveKeeps(s, n, listens);
    case Look(a) => WithKeeps(s, a, Looked(s.attachments[a]));
    case ChildReturns(a, gives, failed) => ReturnKeeps(s, a, gives, failed);
    case Remove(a) => RemoveKeeps(s, a);
    case ChildEnded(a, i) =>
      ChildGoneKeeps(s.attachments[a], i);
      WithKeeps(s, a, ChildGone(s.attachments[a], i));
    case Dispose(a, i) =>
      DisposedKeeps(s.attachments[a], i);
      WithKeeps(s, a, Disposed(s.attachments[a], i));
    case Tell(a) =>
      WithKeeps(s, a, s.attachments[a].(telling := s.attachments[a].telling - 1, told := s.attachments[a].told + 1));
    case Close => CloseKeeps(s);
  }

  // The state after a schedule, if every step of it can be taken.
  function After(schedule: seq<Step>): Option<State> {
    if schedule == [] then Some(Init())
    else
      var before := After(schedule[..|schedule| - 1]);
      var step := schedule[|schedule| - 1];
      if before.None? || !Enabled(before.value, step) then None else Some(Apply(before.value, step))
  }

  lemma {:induction false} EveryScheduleKeepsInv(schedule: seq<Step>)
    requires After(schedule).Some?
    ensures Inv(After(schedule).value)
  {
    if schedule != [] {
      EveryScheduleKeepsInv(schedule[..|schedule| - 1]);
      StepKeepsInv(After(schedule[..|schedule| - 1]).value, schedule[|schedule| - 1]);
    }
  }

  // Nothing of an ended attachment is still under way.
  predicate Settled(t: Attachment) {
    && !t.active && (t.phase.Returned? || t.phase.Failed?) && t.telling == 0
    && forall i :: 0 <= i < |t.slots| ==> t.slots[i].owed == 0
  }

  /** Whatever the interleaving: no disposer is invoked twice, nor held by an attachment
      that has ended; once that has settled, each one obtained has been invoked. */
  lemma {:induction false} EachDisposerIsInvokedOnce(schedule: seq<Step>, a: nat, i: nat)
    requires After(schedule).Some? && a < |After(schedule).value.attachments|
             && i < |After(schedule).value.attachments[a].slots|
    ensures var t := After(schedule).value.attachments[a]; var slot := t.slots[i];
            && slot.invoked <= slot.obtained <= 1
            && (slot.held ==> t.active && !slot.ended && slot.invoked == 0)
            && (Settled(t) ==> slot.invoked == slot.obtained)
  {
    EveryScheduleKeepsInv(schedule);
    var t := After(schedule).value.attachments[a];
    assert SlotOk(t.slots[i], t.active, i < Reached(t));
  }

  /** An attachment is told Closed at most once: never while active or after detaching, and
      once settled exactly if the mount closed or its last child ended. */
  lemma {:induction false} ClosedIsToldOnce(schedule: seq<Step>, a: nat)
    requires After(schedule).Some? && a < |After(schedule).value.attachments|
    ensures var t := After(schedule).value.attachments[a];
            && t.told <= 1 && (t.active || t.ending.Detached? || !t.listens ==> t.told == 0)
            && (Settled(t) && t.listens ==> (t.told == 1 <==> Tells(t.ending)))
  {
    EveryScheduleKeepsInv(schedule);
    assert AttachmentOk(After(schedule).value.attachments[a]);
  }

  /** A mount has at most one active attachment, none once closed, and one whose children
      have all ended is not active. */
  lemma {:induction false} OneActiveAttachment(schedule: seq<Step>, a: nat, b: nat)
    requires After(schedule).Some? && a < |After(schedule).value.attachments| && b < |After(schedule).value.attachments|
    ensures var s := After(schedule).value;
            && (s.attachments[a].active && s.attachments[b].active ==> a == b)
            && (s.closed ==> !s.attachments[a].active)
            && (s.attachments[a].slots != [] && Live(s.attachments[a].slots) == 0 ==> !s.attachments[a].active)
  {
    EveryScheduleKeepsInv(schedule);
    var s := After(schedule).value;
    assert AttachmentOk(s.attachments[a]) && AttachmentOk(s.attachments[b]);
  }
}

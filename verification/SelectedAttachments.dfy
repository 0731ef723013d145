/**
 A selected endpoint's attachments, each owning one prefix route of a shared dispatcher.
 */
module SelectedAttachments {
  // One step is one critical section of the endpoint's mutex, or one callback made outside it:
  // Receive, Close, the dispatcher's closing and detaching in any order.

  import opened Wrappers

  datatype Phase = Registering | Returned | Failed

  // `detach` says the attachment knows its route's disposer; it keeps it once removed.
  datatype Attachment = Attachment(
    phase: Phase, detach: bool, owed: nat, obtained: nat, invoked: nat, listens: bool, telling: nat, told: nat)

  // `closing`: attachments a Close has yet to remove.
  datatype State = State(closed: bool, attachment: Option<nat>, closing: set<nat>, attachments: seq<Attachment>)

  datatype Step =
    | Receive(listens: bool)
    | RegisterReturns(id: nat, failed: bool)
    | Remove(id: nat, tell: bool)  // detached by the caller, or the dispatcher closed
    | Close
    | Dispose(id: nat)
    | Tell(id: nat)

  function Init(): State { State(false, None, {}, []) }

  predicate Enabled(s: State, step: Step) {
    match step
    case Receive(_) => !s.closed && s.attachment.None?
    case RegisterReturns(a, _) => a < |s.attachments| && s.attachments[a].phase.Registering?
    case Remove(a, tell) => a < |s.attachments| && (tell || s.attachments[a].phase.Returned?)
    case Close => true
    case Dispose(a) => a < |s.attachments| && s.attachments[a].owed > 0
    case Tell(a) => a < |s.attachments| && s.attachments[a].telling > 0
  }

  function With(s: State, a: nat, t: Attachment): State
    requires a < |s.attachments|
  {
    s.(attachments := s.attachments[a := t])
  }

  function Returning(s: State, a: nat, failed: bool): State
    requires a < |s.attachments|
  {
    var t, active := s.attachments[a], s.attachment == Some(a);
    if failed then With(s, a, t.(phase := Failed)).(attachment := if active then None else s.attachment)
    else if active then With(s, a, t.(phase := Returned, detach := true, obtained := t.obtained + 1))
    else With(s, a, t.(phase := Failed, obtained := t.obtained + 1, owed := t.owed + 1))
  }

  function Removed(s: State, a: nat, tell: bool): State
    requires a < |s.attachments|
  {
    var t, r := s.attachments[a], s.(closing := if tell then s.closing - {a} else s.closing);
    if s.attachment != Some(a) then r
    else With(r, a,
      t.(owed := t.owed + (if t.detach then 1 else 0), telling := t.telling + if tell && t.listens then 1 else 0))
         .(attachment := None)
  }

  function Apply(s: State, step: Step): State
    requires Enabled(s, step)
  {
    match step
    case Receive(listens) =>
      s.(attachment := Some(|s.attachments|),
        attachments := s.attachments + [Attachment(Registering, false, 0, 0, 0, listens, 0, 0)])
    case RegisterReturns(a, failed) => Returning(s, a, failed)
    case Remove(a, tell) => Removed(s, a, tell)
    case Close => s.(closed := true, closing := s.closing + if s.attachment.Some? then {s.attachment.value} else {})
    case Dispose(a) =>
      With(s, a, s.attachments[a].(owed := s.attachments[a].owed - 1, invoked := s.attachments[a].invoked + 1))
    case Tell(a) =>
      With(s, a, s.attachments[a].(telling := s.attachments[a].telling - 1, told := s.attachments[a].told + 1))
  }

  // The disposer is held exactly while the attachment knows it and is the current one.
  predicate AttachmentOk(t: Attachment, current: bool) {
    && (if current && t.detach then 1 else 0) + t.owed + t.invoked == t.obtained <= 1
    && (t.detach ==> t.phase.Returned?) && (t.phase.Registering? ==> t.obtained == 0)
    && (current && t.phase.Returned? ==> t.detach) && (current ==> !t.phase.Failed?)
    && t.telling + t.told <= 1 && (current || !t.listens ==> t.telling + t.told == 0)
  }

  ghost predicate Inv(s: State) {
    && (s.attachment.Some? ==> s.attachment.value < |s.attachments| && (s.closed ==> s.attachment.value in s.closing))
    && forall a :: 0 <= a < |s.attachments| ==> AttachmentOk(s.attachments[a], s.attachment == Some(a))
  }

  lemma {:induction false} ReturningKeeps(s: State, a: nat, failed: bool)
    requires Inv(s) && Enabled(s, RegisterReturns(a, failed))
    ensures Inv(Returning(s, a, failed))
  {
    var r := Returning(s, a, failed);
    forall b | 0 <= b < |r.attachments| ensures AttachmentOk(r.attachments[b], r.attachment == Some(b)) {
      assert AttachmentOk(s.attachments[b], s.attachment == Some(b));
    }
  }

  lemma RemovedKeeps(s: State, a: nat, tell: bool)
    requires Inv(s) && a < |s.attachments|
    ensures Inv(Removed(s, a, tell))
  {
    var r := Removed(s, a, tell);
    forall b | 0 <= b < |r.attachments| ensures AttachmentOk(r.attachments[b], r.attachment == Some(b)) {
      assert AttachmentOk(s.attachments[b], s.attachment == Some(b));
    }
  }

  lemma StepKeepsInv(s: State, step: Step)
    requires Inv(s) && Enabled(s, step)
    ensures Inv(Apply(s, step))
  {
    match step
    case RegisterReturns(a, failed) => ReturningKeeps(s, a, failed);
    case Remove(a, tell) => RemovedKeeps(s, a, tell);
    case _ =>
      var r := Apply(s, step);
      forall a | 0 <= a < |s.attachments| ensures AttachmentOk(r.attachments[a], r.attachment == Some(a)) {
        assert AttachmentOk(s.attachments[a], s.attachment == Some(a));
      }
  }

  function After(schedule: seq<Step>): Option<State> {
    if schedule == [] then Some(Init())
    else
      var before := After(schedule[..|schedule| - 1]);
      var step := schedule[|schedule| - 1];
      if before.None? || !Enabled(before.value, step) then None else Some(Apply(before.value, step))
  }

  lemma {:induction false} EveryScheduleKeepsInv(schedule: seq<Step>)
    requires After(schedule).Some?
    ensures Inv(After(schedule).value)
  {
    if schedule != [] {
      EveryScheduleKeepsInv(schedule[..|schedule| - 1]);
      StepKeepsInv(After(schedule[..|schedule| - 1]).value, schedule[|schedule| - 1]);
    }
  }

  /** Whatever the interleaving: no route's disposer is invoked twice; once an attachment
      has ended and settled, the one obtained for it has been invoked; its receiver is told
      Closed at most once, and not before it ended; a Close leaves none once it is done. */
  lemma {:induction false} EachDisposerIsInvokedOnce(schedule: seq<Step>, a: nat)
    requires After(schedule).Some? && a < |After(schedule).value.attachments|
    ensures var s := After(schedule).value; var t := s.attachments[a];
            && t.invoked <= t.obtained <= 1 && t.told <= 1
            && (s.attachment == Some(a) ==> t.told == 0 && t.invoked == 0)
            && (s.attachment != Some(a) && t.owed == 0 ==> t.invoked == t.obtained)
            && (s.closed && a !in s.closing ==> s.attachment != Some(a))
  {
    EveryScheduleKeepsInv(schedule);
    var s := After(schedule).value;
    assert AttachmentOk(s.attachments[a], s.attachment == Some(a));
  }

  // ---- What becomes of an attachment, by the schedule alone.

  // Its registration returned without failing while the attachment was the current one.
  predicate ReturnedInTime(schedule: seq<Step>, a: nat)
    requires After(schedule).Some?
  {
    schedule != []
    && var init := schedule[..|schedule| - 1];
       ReturnedInTime(init, a)
       || (schedule[|schedule| - 1] == RegisterReturns(a, false) && After(init).value.attachment == Some(a))
  }

  // A closing, its own or the dispatcher's, removed the attachment while it was current.
  predicate ClosedOnIt(schedule: seq<Step>, a: nat)
    requires After(schedule).Some?
  {
    schedule != []
    && var init := schedule[..|schedule| - 1];
       ClosedOnIt(init, a) || (schedule[|schedule| - 1] == Remove(a, true) && After(init).value.attachment == Some(a))
  }

  ghost predicate Fates(s: State, a: nat, schedule: seq<Step>, inTime: bool, closed: bool)
    requires a < |s.attachments|
  {
    var t := s.attachments[a];
    && (t.phase.Registering? <==> RegisterReturns(a, false) !in schedule && RegisterReturns(a, true) !in schedule)
    && (t.phase.Returned? <==> inTime) && (t.obtained == 1 <==> RegisterReturns(a, false) in schedule)
    && (s.attachment == Some(a) <==>
         Remove(a, true) !in schedule && Remove(a, false) !in schedule && RegisterReturns(a, true) !in schedule)
    && (t.telling + t.told == 1 <==> t.listens && closed)
  }

  lemma {:induction false} StepFates(s: State, step: Step, a: nat, schedule: seq<Step>, inTime: bool, closed: bool)
    requires Inv(s) && Enabled(s, step) && a < |s.attachments| && Fates(s, a, schedule, inTime, closed)
    ensures Fates(Apply(s, step), a, schedule + [step],
              inTime || (step == RegisterReturns(a, false) && s.attachment == Some(a)),
              closed || (step == Remove(a, true) && s.attachment == Some(a)))
  {
    assert AttachmentOk(s.attachments[a], s.attachment == Some(a));
    match step
    case RegisterReturns(b, failed) =>
    case Remove(b, tell) =>
    case _ =>
  }

  // Whom a step is about, there already is.
  lemma StepIsOfKnown(s: State, step: Step, a: nat)
    requires Enabled(s, step) && a >= |s.attachments|
    ensures !(step.Remove? && step.id == a) && !(step.RegisterReturns? && step.id == a)
    ensures a < |Apply(s, step).attachments| ==> step.Receive?
  {
  }

  lemma GrowsOnly(s: State, step: Step)
    requires Enabled(s, step)
    ensures |Apply(s, step).attachments| >= |s.attachments|
  {
  }

  // No step names an attachment before it is there.
  ghost predicate Unnamed(schedule: seq<Step>, a: nat) {
    forall flag :: Remove(a, flag) !in schedule && RegisterReturns(a, flag) !in schedule
  }

  lemma {:induction false} UnheardOf(schedule: seq<Step>, a: nat)
    requires After(schedule).Some? && a >= |After(schedule).value.attachments|
    ensures Unnamed(schedule, a) && !ReturnedInTime(schedule, a) && !ClosedOnIt(schedule, a)
  {
    if schedule != [] {
      var init, step := schedule[..|schedule| - 1], schedule[|schedule| - 1];
      GrowsOnly(After(init).value, step);
      UnheardOf(init, a);
      StepIsOfKnown(After(init).value, step, a);
      assert schedule == init + [step];
    }
  }

  lemma FreshFates(s: State, step: Step, a: nat, schedule: seq<Step>)
    requires Inv(s) && Enabled(s, step) && |s.attachments| <= a < |Apply(s, step).attachments| && Unnamed(schedule, a)
    ensures Fates(Apply(s, step), a, schedule + [step], false, false)
  {
    StepIsOfKnown(s, step, a);
  }

  lemma {:induction false} EveryScheduleFates(schedule: seq<Step>, a: nat)
    requires After(schedule).Some? && a < |After(schedule).value.attachments|
    ensures Fates(After(schedule).value, a, schedule, ReturnedInTime(schedule, a), ClosedOnIt(schedule, a))
  {
    var init, step := schedule[..|schedule| - 1], schedule[|schedule| - 1];
    var s := After(init).value;
    assert schedule == init + [step];
    EveryScheduleKeepsInv(init);
    if a < |s.attachments| {
      EveryScheduleFates(init, a);
      StepFates(s, step, a, init, ReturnedInTime(init, a), ClosedOnIt(init, a));
    } else {
      UnheardOf(init, a);
      StepIsOfKnown(s, step, a);
      FreshFates(s, step, a, init);
    }
  }

  /** Whatever the interleaving: Receive returns exactly if its registration did, without
      failing, while the attachment was current. Every route registered for it has its disposer
      obtained; it is held until the attachment is removed or its registration fails, and no
      longer. The receiver is told Closed exactly if a closing removed the current attachment. */
  lemma {:induction false} ReceiveHoldsUntilRemoved(schedule: seq<Step>, a: nat)
    requires After(schedule).Some? && a < |After(schedule).value.attachments|
    ensures var s := After(schedule).value; var t := s.attachments[a];
            var given, failed := RegisterReturns(a, false) in schedule, RegisterReturns(a, true) in schedule;
            var removed := Remove(a, true) in schedule || Remove(a, false) in schedule;
            && (t.phase.Registering? <==> !given && !failed)
            && (t.phase.Returned? <==> ReturnedInTime(schedule, a))
            && (t.obtained == 1 <==> given)
            && (s.attachment == Some(a) <==> !removed && !failed)
            && (s.attachment == Some(a) && t.detach <==> given && !removed && !failed)
            && (t.telling + t.told == 1 <==> t.listens && ClosedOnIt(schedule, a))
  {
    EveryScheduleKeepsInv(schedule);
    EveryScheduleFates(schedule, a);
    var s := After(schedule).value;
    assert AttachmentOk(s.attachments[a], s.attachment == Some(a));
  }
}

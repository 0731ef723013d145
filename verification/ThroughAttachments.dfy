/**
 A through endpoint's receive attachments, in every interleaving.
 */
module ThroughAttachments {
  // One step is one critical section of the endpoint's mutex, or one callback made outside it:
  // Receive, Close, the origin's ending and detaching in any order.

  import opened Wrappers

  // Where an attachment's own Receive call stands.
  datatype Phase = InOrigin | Returned | Failed

  // The disposer obtained for an attachment is compared by the attachment's number.
  datatype Attachment = Attachment(phase: Phase, owed: nat, obtained: nat, invoked: nat, listens: bool, telling: nat,
    told: nat)

  datatype State = State(closed: bool, receiver: Option<nat>, detach: Option<nat>, attachments: seq<Attachment>)

  datatype Step =
    | Receive(listens: bool)
    | OriginReturns(id: nat, failed: bool)
    | Release(id: nat)
    | End(attached: Option<nat>)  // the origin ended an attachment, or none: Close
    | Dispose(id: nat)
    | Tell(id: nat)

  function Init(): State { State(false, None, None, []) }

  // Receiver and disposer belong to attachments there are.
  predicate Indexed(s: State) {
    (s.receiver.Some? ==> s.receiver.value < |s.attachments|) && (s.detach.Some? ==> s.detach.value < |s.attachments|)
  }

  predicate Enabled(s: State, step: Step) {
    Indexed(s) && match step
    case Receive(_) => !s.closed && s.receiver.None?
    case OriginReturns(a, _) => a < |s.attachments| && s.attachments[a].phase.InOrigin?
    case Release(a) => a < |s.attachments| && s.attachments[a].phase.Returned?
    case End(x) => !s.closed && (x.Some? ==> x.value < |s.attachments|)
    case Dispose(a) => a < |s.attachments| && s.attachments[a].owed > 0
    case Tell(a) => a < |s.attachments| && s.attachments[a].telling > 0
  }

  function With(s: State, a: nat, t: Attachment): State
    requires a < |s.attachments|
  {
    s.(attachments := s.attachments[a := t])
  }

  // Clears the receiver, handing the held disposer over to be invoked.
  function Cleared(s: State): State
    requires Indexed(s)
  {
    (if s.detach.None? then s
      else With(s, s.detach.value, s.attachments[s.detach.value].(owed := s.attachments[s.detach.value].owed + 1)))
    .(receiver := None, detach := None)
  }

  function Returning(s: State, a: nat, failed: bool): State
    requires a < |s.attachments|
  {
    var t, current := s.attachments[a], s.receiver == Some(a);
    if failed then With(s, a, t.(phase := Failed)).(receiver := if current then None else s.receiver)
    else if current then With(s, a, t.(phase := Returned, obtained := t.obtained + 1)).(detach := Some(a))
    else With(s, a, t.(phase := Failed, obtained := t.obtained + 1, owed := t.owed + 1))
  }

  // The current receiver is told unless another attachment's origin ended.
  function Ended(s: State, x: Option<nat>): State
    requires Indexed(s)
  {
    var r := Cleared(s).(closed := true);
    if s.receiver.Some? && (x.None? || x == s.receiver) && s.attachments[s.receiver.value].listens
    then With(r, s.receiver.value,
      r.attachments[s.receiver.value].(telling := r.attachments[s.receiver.value].telling + 1))
    else r
  }

  function Apply(s: State, step: Step): State
    requires Enabled(s, step)
  {
    match step
    case Receive(listens) =>
      s.(receiver := Some(|s.attachments|),
        attachments := s.attachments + [Attachment(InOrigin, 0, 0, 0, listens, 0, 0)])
    case OriginReturns(a, failed) => Returning(s, a, failed)
    case Release(a) => if s.receiver == Some(a) then Cleared(s) else s
    case End(x) => Ended(s, x)
    case Dispose(a) =>
      With(s, a, s.attachments[a].(owed := s.attachments[a].owed - 1, invoked := s.attachments[a].invoked + 1))
    case Tell(a) =>
      With(s, a, s.attachments[a].(telling := s.attachments[a].telling - 1, told := s.attachments[a].told + 1))
  }

  // The disposer is in exactly one place, and held only for the current receiver.
  predicate AttachmentOk(t: Attachment, current: bool, held: bool) {
    && (if held then 1 else 0) + t.owed + t.invoked == t.obtained <= 1
    && (held <==> current && t.phase.Returned?) && (t.phase.InOrigin? ==> t.obtained == 0)
       && (current ==> !t.phase.Failed?)
    && t.telling + t.told <= 1 && (current || !t.listens ==> t.telling + t.told == 0)
  }

  ghost predicate Inv(s: State) {
    && (s.receiver.Some? ==> s.receiver.value < |s.attachments| && !s.closed)
       && (s.detach.Some? ==> s.detach == s.receiver)
    && forall a :: 0 <= a < |s.attachments| ==>
       AttachmentOk(s.attachments[a], s.receiver == Some(a), s.detach == Some(a))
  }

  lemma ReturningKeeps(s: State, a: nat, failed: bool)
    requires Inv(s) && Enabled(s, OriginReturns(a, failed))
    ensures Inv(Returning(s, a, failed))
  {
    var r := Returning(s, a, failed);
    forall b | 0 <= b < |r.attachments|
      ensures AttachmentOk(r.attachments[b], r.receiver == Some(b), r.detach == Some(b))
    {
      assert AttachmentOk(s.attachments[b], s.receiver == Some(b), s.detach == Some(b));
    }
  }

  lemma EndedKeeps(s: State, x: Option<nat>)
    requires Inv(s) && Enabled(s, End(x))
    ensures Inv(Ended(s, x))
  {
    var r := Ended(s, x);
    forall b | 0 <= b < |r.attachments|
      ensures AttachmentOk(r.attachments[b], r.receiver == Some(b), r.detach == Some(b))
    {
      assert AttachmentOk(s.attachments[b], s.receiver == Some(b), s.detach == Some(b));
    }
  }

  lemma StepKeepsInv(s: State, step: Step)
    requires Inv(s) && Enabled(s, step)
    ensures Inv(Apply(s, step))
  {
    match step
    case OriginReturns(a, failed) => ReturningKeeps(s, a, failed);
    case End(x) => EndedKeeps(s, x);
    case _ =>
      var r := Apply(s, step);
      forall a | 0 <= a < |s.attachments|
        ensures AttachmentOk(r.attachments[a], r.receiver == Some(a), r.detach == Some(a))
      {
        assert AttachmentOk(s.attachments[a], s.receiver == Some(a), s.detach == Some(a));
      }
  }

  function After(schedule: seq<Step>): Option<State> {
    if schedule == [] then Some(Init())
    else
      var before := After(schedule[..|schedule| - 1]);
      var step := schedule[|schedule| - 1];
      if before.None? || !Enabled(before.value, step) then None else Some(Apply(before.value, step))
  }

  lemma {:induction false} EveryScheduleKeepsInv(schedule: seq<Step>)
    requires After(schedule).Some?
    ensures Inv(After(schedule).value)
  {
    if schedule != [] {
      EveryScheduleKeepsInv(schedule[..|schedule| - 1]);
      StepKeepsInv(After(schedule[..|schedule| - 1]).value, schedule[|schedule| - 1]);
    }
  }

  /** Whatever the interleaving: no disposer is invoked twice, none is held but the current
      receiver's, and once an attachment has ended and settled the one obtained for it has
      been invoked; its receiver is told Closed at most once, and not before it ended. */
  lemma {:induction false} EachDisposerIsInvokedOnce(schedule: seq<Step>, a: nat)
    requires After(schedule).Some? && a < |After(schedule).value.attachments|
    ensures var s := After(schedule).value; var t := s.attachments[a];
            && t.invoked <= t.obtained <= 1 && t.told <= 1
            && (s.closed ==> s.receiver.None? && s.detach.None?)
            && (s.receiver == Some(a) ==> t.told == 0 && t.invoked == 0)
            && (s.receiver != Some(a) ==> s.detach != Some(a))
            && (s.receiver != Some(a) && t.owed == 0 ==> t.invoked == t.obtained)
  {
    EveryScheduleKeepsInv(schedule);
    var s := After(schedule).value;
    assert AttachmentOk(s.attachments[a], s.receiver == Some(a), s.detach == Some(a));
  }

  /** Ending the wire tells the current receiver unless it was another attachment's origin
      that ended; then the current receiver is detached without a word. */
  lemma EndingTellsItsOwn(s: State, x: Option<nat>)
    requires Inv(s) && Enabled(s, End(x)) && s.receiver.Some?
    ensures var r := Apply(s, End(x)); var c := s.receiver.value;
            && r.closed && r.receiver.None? && r.attachments[c].told == 0
            && (r.attachments[c].telling == 1 <==> s.attachments[c].listens && (x.None? || x == Some(c)))
            && r.attachments[c].owed == r.attachments[c].obtained
  {
    assert AttachmentOk(s.attachments[s.receiver.value], true, s.detach == s.receiver);
    assert s.detach.Some? ==> s.detach == s.receiver;
  }

  // ---- What becomes of an attachment, by the schedule alone.

  // The origin's Receive returned without failing while the attachment was the current one.
  predicate ReturnedInTime(schedule: seq<Step>, a: nat)
    requires After(schedule).Some?
  {
    schedule != []
    && var init := schedule[..|schedule| - 1];
       ReturnedInTime(init, a)
       || (schedule[|schedule| - 1] == OriginReturns(a, false) && After(init).value.receiver == Some(a))
  }

  // The wire ended while the attachment was current, by Close or by its own origin.
  predicate EndedOnIt(schedule: seq<Step>, a: nat)
    requires After(schedule).Some?
  {
    schedule != []
    && var init, step := schedule[..|schedule| - 1], schedule[|schedule| - 1];
       EndedOnIt(init, a)
       || (step.End? && After(init).value.receiver == Some(a) && (step.attached.None? || step.attached == Some(a)))
  }

  ghost predicate Ending(schedule: seq<Step>) { exists x :: End(x) in schedule }

  ghost predicate Fates(s: State, a: nat, schedule: seq<Step>, inTime: bool, ended: bool)
    requires a < |s.attachments|
  {
    var t := s.attachments[a];
    && (t.phase.InOrigin? <==> OriginReturns(a, false) !in schedule && OriginReturns(a, true) !in schedule)
    && (t.phase.Returned? <==> inTime) && (t.obtained == 1 <==> OriginReturns(a, false) in schedule)
    && (s.receiver == Some(a) <==>
         !s.closed && Release(a) !in schedule && OriginReturns(a, true) !in schedule)
    && (t.telling + t.told == 1 <==> t.listens && ended)
  }

  lemma {:induction false} StepFates(s: State, step: Step, a: nat, schedule: seq<Step>, inTime: bool, ended: bool)
    requires Inv(s) && Enabled(s, step) && a < |s.attachments| && Fates(s, a, schedule, inTime, ended)
    ensures Fates(Apply(s, step), a, schedule + [step],
              inTime || (step == OriginReturns(a, false) && s.receiver == Some(a)),
              ended || (step.End? && s.receiver == Some(a) && (step.attached.None? || step.attached == Some(a))))
  {
    assert AttachmentOk(s.attachments[a], s.receiver == Some(a), s.detach == Some(a));
    match step
    case OriginReturns(b, failed) =>
    case End(x) =>
    case _ =>
  }

  lemma {:induction false} ClosedIffEnding(schedule: seq<Step>)
    requires After(schedule).Some?
    ensures After(schedule).value.closed <==> Ending(schedule)
  {
    if schedule != [] {
      var init, step := schedule[..|schedule| - 1], schedule[|schedule| - 1];
      ClosedIffEnding(init);
      assert schedule == init + [step];
      assert step.End? ==> End(step.attached) in schedule;
    }
  }

  // Whom a step is about, there already is.
  lemma StepIsOfKnown(s: State, step: Step, a: nat)
    requires Enabled(s, step) && a >= |s.attachments|
    ensures step != Release(a) && !(step.OriginReturns? && step.id == a) && s.receiver != Some(a)
    ensures a < |Apply(s, step).attachments| ==> step.Receive?
  {
  }

  lemma GrowsOnly(s: State, step: Step)
    requires Enabled(s, step)
    ensures |Apply(s, step).attachments| >= |s.attachments|
  {
  }

  lemma {:induction false} UnheardOf(schedule: seq<Step>, a: nat)
    requires After(schedule).Some? && a >= |After(schedule).value.attachments|
    ensures Release(a) !in schedule && OriginReturns(a, false) !in schedule && OriginReturns(a, true) !in schedule
    ensures !ReturnedInTime(schedule, a) && !EndedOnIt(schedule, a)
  {
    if schedule != [] {
      var init, step := schedule[..|schedule| - 1], schedule[|schedule| - 1];
      GrowsOnly(After(init).value, step);
      UnheardOf(init, a);
      StepIsOfKnown(After(init).value, step, a);
      assert schedule == init + [step];
    }
  }

  lemma FreshFates(s: State, step: Step, a: nat, schedule: seq<Step>)
    requires Inv(s) && Enabled(s, step) && |s.attachments| <= a < |Apply(s, step).attachments|
    requires Release(a) !in schedule && OriginReturns(a, false) !in schedule && OriginReturns(a, true) !in schedule
    ensures Fates(Apply(s, step), a, schedule + [step], false, false)
  {
    StepIsOfKnown(s, step, a);
  }

  lemma {:induction false} EveryScheduleFates(schedule: seq<Step>, a: nat)
    requires After(schedule).Some? && a < |After(schedule).value.attachments|
    ensures Fates(After(schedule).value, a, schedule, ReturnedInTime(schedule, a), EndedOnIt(schedule, a))
  {
    var init, step := schedule[..|schedule| - 1], schedule[|schedule| - 1];
    var s := After(init).value;
    assert schedule == init + [step];
    EveryScheduleKeepsInv(init);
    if a < |s.attachments| {
      EveryScheduleFates(init, a);
      StepFates(s, step, a, init, ReturnedInTime(init, a), EndedOnIt(init, a));
    } else {
      UnheardOf(init, a);
      StepIsOfKnown(s, step, a);
      FreshFates(s, step, a, init);
    }
  }

  /** Whatever the interleaving: Receive returns exactly if the origin's did, without failing,
      while the attachment was current. Every disposer the origin gave is obtained; it is held
      until the attachment is released, its Receive fails or the wire ends, and no longer. The
      receiver is told Closed exactly if the wire ended on it. */
  lemma {:induction false} ReceiveHoldsUntilEnded(schedule: seq<Step>, a: nat)
    requires After(schedule).Some? && a < |After(schedule).value.attachments|
    ensures var s := After(schedule).value; var t := s.attachments[a];
            var given, failed := OriginReturns(a, false) in schedule, OriginReturns(a, true) in schedule;
            && (t.phase.InOrigin? <==> !given && !failed)
            && (t.phase.Returned? <==> ReturnedInTime(schedule, a))
            && (t.obtained == 1 <==> given)
            && (s.receiver == Some(a) <==> Release(a) !in schedule && !failed && !Ending(schedule))
            && (s.detach == Some(a) <==> given && Release(a) !in schedule && !failed && !Ending(schedule))
            && (t.telling + t.told == 1 <==> t.listens && EndedOnIt(schedule, a))
  {
    EveryScheduleKeepsInv(schedule);
    EveryScheduleFates(schedule, a);
    ClosedIffEnding(schedule);
    var s := After(schedule).value;
    assert AttachmentOk(s.attachments[a], s.receiver == Some(a), s.detach == Some(a));
  }
}

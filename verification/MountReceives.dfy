/**
 What a mount's Receive asks of its children, over every schedule: each child once and in
 order, and what is held of their answers.
 */
module MountReceives {
  import opened MountAttachments
  import opened Wrappers

  // One child's answer, and whether the attachment still wanted it when its Receive returned.
  datatype Answer = Answer(child: nat, gives: bool, failed: bool, wanted: bool)

  predicate Kept(answer: Answer) { answer.wanted && !answer.failed }

  // The child whose Receive a step calls for an attachment, if any.
  function NowAsked(s: State, step: Step, a: nat): seq<nat>
    requires Enabled(s, step)
  {
    if step == Look(a) && Apply(s, step).attachments[a].phase.InChild?
    then [Apply(s, step).attachments[a].phase.child]
    else []
  }

  // The answer a step brings it.
  function NowAnswered(s: State, step: Step, a: nat): seq<Answer>
    requires Enabled(s, step)
  {
    if step.ChildReturns? && step.id == a then [AnswerOf(s.attachments[a], step.gives, step.failed)] else []
  }

  // The children an attachment's Receive has called, as it called them.
  function Asked(schedule: seq<Step>, a: nat): seq<nat>
    requires After(schedule).Some?
  {
    if schedule == [] then []
    else
      var init := schedule[..|schedule| - 1];
      Asked(init, a) + NowAsked(After(init).value, schedule[|schedule| - 1], a)
  }

  // What they answered, as they returned.
  function Answers(schedule: seq<Step>, a: nat): seq<Answer>
    requires After(schedule).Some?
  {
    if schedule == [] then []
    else
      var init := schedule[..|schedule| - 1];
      Answers(init, a) + NowAnswered(After(init).value, schedule[|schedule| - 1], a)
  }

  function AnswerOf(t: Attachment, gives: bool, failed: bool): Answer
    requires t.phase.InChild? && t.phase.child < |t.slots|
  {
    Answer(t.phase.child, gives, failed, t.active && !t.slots[t.phase.child].ended)
  }

  function UpTo(n: nat): (r: seq<nat>)
    ensures |r| == n && forall i :: 0 <= i < n ==> r[i] == i
  {
    seq(n, i => i)
  }

  // ---- What an attachment is, given what has been asked and answered.

  // How many children have answered, if Receive has not failed.
  predicate CountOk(t: Attachment, answers: seq<Answer>) {
    match t.phase
    case Asking(i) => |answers| == i
    case InChild(i) => |answers| == i
    case Removing(i) => |answers| == i + 1
    case Returned => |answers| == |t.slots|
    case Failed => |answers| <= |t.slots|
  }

  predicate GivenUp(answers: seq<Answer>) { answers != [] && !Kept(answers[|answers| - 1]) }

  ghost predicate AnswersOk(t: Attachment, answers: seq<Answer>) {
    && (forall k :: 0 <= k < |answers| ==> answers[k].child == k && (k < |answers| - 1 ==> Kept(answers[k])))
    && (if t.phase.Removing? then GivenUp(answers) else t.phase.Failed? || !GivenUp(answers))
    && (t.phase.Failed? ==> !t.active && (GivenUp(answers) || Tells(t.ending)))
    && (t.ending.Detached? ==> t.phase.Returned? || t.phase.Failed?)
  }

  // The child's disposer was obtained if it gave one, and is held while it is wanted.
  predicate Holds(slot: Slot, i: nat, active: bool, answers: seq<Answer>) {
    && slot.obtained == (if i < |answers| && answers[i].gives then 1 else 0)
    && (active ==> (slot.held <==> i < |answers| && answers[i].gives && Kept(answers[i]) && !slot.ended))
  }

  ghost predicate Traced(t: Attachment, asked: seq<nat>, answers: seq<Answer>) {
    && CountOk(t, answers) && AnswersOk(t, answers)
    && asked == UpTo(|answers| + if t.phase.InChild? then 1 else 0)
    && forall i :: 0 <= i < |t.slots| ==> Holds(t.slots[i], i, t.active, answers)
  }

  lemma LookTraced(t: Attachment, asked: seq<nat>, answers: seq<Answer>)
    requires AttachmentOk(t) && Traced(t, asked, answers) && t.phase.Asking?
    ensures Traced(Looked(t), if Looked(t).phase.InChild? then asked + [t.phase.child] else asked, answers)
  {
    assert UpTo(t.phase.child) + [t.phase.child] == UpTo(t.phase.child + 1);
  }

  lemma ReturnTraced(t: Attachment, asked: seq<nat>, answers: seq<Answer>, gives: bool, failed: bool)
    requires AttachmentOk(t) && Traced(t, asked, answers) && t.phase.InChild?
    ensures Traced(Returning(t, gives, failed), asked, answers + [AnswerOf(t, gives, failed)])
  {
    var r, more := Returning(t, gives, failed), answers + [AnswerOf(t, gives, failed)];
    forall i | 0 <= i < |r.slots| ensures Holds(r.slots[i], i, r.active, more) {
      assert Holds(t.slots[i], i, t.active, answers) && SlotOk(t.slots[i], t.active, i < Reached(t));
    }
  }

  lemma ReleasedTraced(t: Attachment, asked: seq<nat>, answers: seq<Answer>, ending: Ending)
    requires Traced(t, asked, answers) && t.active && (ending.Detached? ==> t.phase.Returned?)
    ensures Traced(Released(t, ending), asked, answers)
  {
    var r := Released(t, ending);
    forall i | 0 <= i < |r.slots| ensures Holds(r.slots[i], i, r.active, answers) {
      assert Holds(t.slots[i], i, t.active, answers);
    }
  }

  lemma RemovedTraced(t: Attachment, asked: seq<nat>, answers: seq<Answer>)
    requires AttachmentOk(t) && Traced(t, asked, answers) && MayRemove(t)
    ensures Traced(Removed(t), asked, answers)
  {
    var r := Removed(t);
    forall i | 0 <= i < |r.slots| ensures Holds(r.slots[i], i, r.active, answers) {
      assert Holds(t.slots[i], i, t.active, answers);
    }
  }

  lemma GoneTraced(t: Attachment, asked: seq<nat>, answers: seq<Answer>, j: nat)
    requires AttachmentOk(t) && Traced(t, asked, answers) && j < |t.slots|
    ensures Traced(ChildGone(t, j), asked, answers)
  {
    var r := ChildGone(t, j);
    forall i | 0 <= i < |r.slots| ensures Holds(r.slots[i], i, r.active, answers) {
      assert Holds(t.slots[i], i, t.active, answers);
    }
  }

  lemma DisposedTraced(t: Attachment, asked: seq<nat>, answers: seq<Answer>, j: nat)
    requires Traced(t, asked, answers) && j < |t.slots| && t.slots[j].owed > 0
    ensures Traced(Disposed(t, j), asked, answers)
  {
    var r := Disposed(t, j);
    forall i | 0 <= i < |r.slots| ensures Holds(r.slots[i], i, r.active, answers) {
      assert Holds(t.slots[i], i, t.active, answers);
    }
  }

  // What one step makes of one attachment, of what it asked, and of what was answered.
  lemma {:induction false} StepTraced(s: State, step: Step, a: nat, asked: seq<nat>, answers: seq<Answer>)
    requires Inv(s) && Enabled(s, step) && a < |s.attachments| && Traced(s.attachments[a], asked, answers)
    ensures Traced(Apply(s, step).attachments[a], asked + NowAsked(s, step, a), answers + NowAnswered(s, step, a))
  {
    var t := s.attachments[a];
    assert AttachmentOk(t);
    if step.Look? && step.id == a {
      LookTraced(t, asked, answers);
      assert asked + [] == asked && answers + [] == answers;
    } else if step.ChildReturns? && step.id == a {
      ReturnTraced(t, asked, answers, step.gives, step.failed);
      assert asked + [] == asked;
    } else {
      assert asked + [] == asked && answers + [] == answers;
      QuietStepTraced(s, step, a, asked, answers);
    }
  }

  lemma {:induction false} QuietStepTraced(s: State, step: Step, a: nat, asked: seq<nat>, answers: seq<Answer>)
    requires Inv(s) && Enabled(s, step) && a < |s.attachments| && Traced(s.attachments[a], asked, answers)
    requires step != Look(a) && !(step.ChildReturns? && step.id == a)
    ensures Traced(Apply(s, step).attachments[a], asked, answers)
  {
    var t := s.attachments[a];
    assert AttachmentOk(t);
    match step
    case Remove(b) => if a == b { RemovedTraced(t, asked, answers); }
    case ChildEnded(b, i) => if a == b { GoneTraced(t, asked, answers, i); }
    case Dispose(b, i) => if a == b { DisposedTraced(t, asked, answers, i); }
    case Close => if s.current == Some(a) { ReleasedTraced(t, asked, answers, MountClosed); }
    case _ =>
  }

  lemma {:induction false} NothingAskedBefore(schedule: seq<Step>, a: nat)
    requires After(schedule).Some? && a >= |After(schedule).value.attachments|
    ensures Asked(schedule, a) == [] && Answers(schedule, a) == []
  {
    if schedule != [] {
      NoneIsForgotten(After(schedule[..|schedule| - 1]).value, schedule[|schedule| - 1]);
      NothingAskedBefore(schedule[..|schedule| - 1], a);
    }
  }

  lemma {:induction false} FreshTraced(s: State, step: Step, a: nat)
    requires Enabled(s, step) && |s.attachments| <= a < |Apply(s, step).attachments|
    ensures Traced(Apply(s, step).attachments[a], [], []) && NowAsked(s, step, a) == [] && NowAnswered(s, step, a) == []
  {
    match step
    case Receive(n, listens) =>
    case _ =>
  }

  lemma {:induction false} EveryScheduleIsTraced(schedule: seq<Step>, a: nat)
    requires After(schedule).Some? && a < |After(schedule).value.attachments|
    ensures Traced(After(schedule).value.attachments[a], Asked(schedule, a), Answers(schedule, a))
  {
    var init, step := schedule[..|schedule| - 1], schedule[|schedule| - 1];
    EveryScheduleKeepsInv(init);
    var s := After(init).value;
    if a < |s.attachments| {
      EveryScheduleIsTraced(init, a);
      StepTraced(s, step, a, Asked(init, a), Answers(init, a));
    } else {
      NothingAskedBefore(init, a);
      FreshTraced(s, step, a);
      assert Asked(schedule, a) == [] && Answers(schedule, a) == [];
    }
  }

  // ---- What ends an attachment.

  // Whether an attachment is active, and which of its children have ended, by the schedule.
  ghost predicate EndsOk(t: Attachment, schedule: seq<Step>, a: nat) {
    && (t.active ==> Remove(a) !in schedule && Close !in schedule)
    && (t.ending.Detached? ==> Remove(a) in schedule) && (t.ending.MountClosed? ==> Close in schedule)
    && (t.ending.LastChild? ==> t.slots != [] && forall i :: 0 <= i < |t.slots| ==> t.slots[i].ended)
    && forall i :: 0 <= i < |t.slots| ==>
         (t.slots[i].ended ==> ChildEnded(a, i) in schedule)
           && (t.active && ChildEnded(a, i) in schedule ==> t.slots[i].ended)
  }

  lemma {:induction false} NoneLiveIffAllEnded(slots: seq<Slot>)
    ensures Live(slots) == 0 <==> forall i :: 0 <= i < |slots| ==> slots[i].ended
  {
    if slots != [] {
      NoneLiveIffAllEnded(slots[..|slots| - 1]);
      assert slots == slots[..|slots| - 1] + [slots[|slots| - 1]];
    }
  }

  lemma {:induction false} GoneEnds(t: Attachment, i: nat, schedule: seq<Step>, a: nat)
    requires AttachmentOk(t) && EndsOk(t, schedule, a) && i < |t.slots|
    ensures EndsOk(ChildGone(t, i), schedule + [ChildEnded(a, i)], a)
  {
    var r := ChildGone(t, i);
    if t.active && r.ending.LastChild? {
      var slots := t.slots[i := t.slots[i].(ended := true)];
      LiveAfter(t.slots, i, slots[i]);
      NoneLiveIffAllEnded(slots);
      assert forall j :: 0 <= j < |slots| ==> r.slots[j].ended == slots[j].ended;
    }
  }

  // A step that ends no child: the attachment is removed, or closed with its mount, or goes on.
  lemma QuietEnds(t: Attachment, r: Attachment, schedule: seq<Step>, step: Step, a: nat)
    requires EndsOk(t, schedule, a) && !step.ChildEnded?
    requires |r.slots| == |t.slots| && forall i :: 0 <= i < |t.slots| ==> r.slots[i].ended == t.slots[i].ended
    requires if step == Remove(a) && t.active then r.ending.Detached? && !r.active
             else if step == Close && t.active then r.ending.MountClosed? && !r.active
             else r.ending == t.ending && r.active == t.active
    ensures EndsOk(r, schedule + [step], a)
  {
    assert forall i :: ChildEnded(a, i) in schedule + [step] <==> ChildEnded(a, i) in schedule;
  }

  lemma {:induction false} StepEnds(s: State, step: Step, a: nat, schedule: seq<Step>)
    requires Inv(s) && Enabled(s, step) && a < |s.attachments| && EndsOk(s.attachments[a], schedule, a)
    ensures EndsOk(Apply(s, step).attachments[a], schedule + [step], a)
  {
    var t := s.attachments[a];
    if step.ChildEnded? && step.id == a {
      assert AttachmentOk(t);
      GoneEnds(t, step.child, schedule, a);
    } else if step.ChildEnded? {
      assert forall i :: ChildEnded(a, i) in schedule + [step] <==> ChildEnded(a, i) in schedule;
    } else {
      QuietEnds(t, Apply(s, step).attachments[a], schedule, step, a);
    }
  }

  lemma {:induction false} NoneIsForgotten(s: State, step: Step)
    requires Enabled(s, step)
    ensures |Apply(s, step).attachments| >= |s.attachments|
  {
  }

  lemma {:induction false} UnheardOf(schedule: seq<Step>, a: nat)
    requires After(schedule).Some? && a >= |After(schedule).value.attachments|
    ensures Remove(a) !in schedule && forall i: nat :: ChildEnded(a, i) !in schedule
  {
    if schedule != [] {
      var init, step := schedule[..|schedule| - 1], schedule[|schedule| - 1];
      NoneIsForgotten(After(init).value, step);
      UnheardOf(init, a);
      assert schedule == init + [step];
    }
  }

  lemma {:induction false} ClosedIffClosing(schedule: seq<Step>)
    requires After(schedule).Some?
    ensures After(schedule).value.closed <==> Close in schedule
  {
    if schedule != [] { ClosedIffClosing(schedule[..|schedule| - 1]); }
  }

  lemma {:induction false} EveryScheduleEnds(schedule: seq<Step>, a: nat)
    requires After(schedule).Some? && a < |After(schedule).value.attachments|
    ensures EndsOk(After(schedule).value.attachments[a], schedule, a)
  {
    var init, step := schedule[..|schedule| - 1], schedule[|schedule| - 1];
    assert schedule == init + [step];
    EveryScheduleKeepsInv(init);
    if a < |After(init).value.attachments| {
      EveryScheduleEnds(init, a);
      StepEnds(After(init).value, step, a, init);
    } else {
      UnheardOf(init, a);
      ClosedIffClosing(init);
    }
  }

  // ---- Over every schedule.

  /** A mount's Receive calls its children one after another, each once at most. It returns only
      once each has been called and has answered without failing, while the attachment was active
      and that child had not ended. It fails only if the last child to answer failed, or answered
      too late, or the attachment had ended by itself. */
  lemma {:induction false} ReceiveAsksEachChildOnce(schedule: seq<Step>, a: nat)
    requires After(schedule).Some? && a < |After(schedule).value.attachments|
    ensures var t := After(schedule).value.attachments[a];
            var asked, answers := Asked(schedule, a), Answers(schedule, a);
            && |answers| <= |asked| <= |t.slots| && asked == UpTo(|asked|)
            && (forall k :: 0 <= k < |answers| ==> answers[k].child == k)
            && (forall k :: 0 <= k < |answers| - 1 ==> Kept(answers[k]))
            && (t.phase.Returned? ==> |answers| == |t.slots| && !GivenUp(answers))
            && (t.phase.Failed? ==> GivenUp(answers) || Tells(t.ending))
  {
    EveryScheduleKeepsInv(schedule);
    assert AttachmentOk(After(schedule).value.attachments[a]);
    EveryScheduleIsTraced(schedule, a);
  }

  /** Every disposer a child gave has been obtained; while the attachment is active it is held
      exactly if the child's answer was kept and the child has not ended since. */
  lemma {:induction false} DisposersAreHeldWhileWanted(schedule: seq<Step>, a: nat, i: nat)
    requires After(schedule).Some? && a < |After(schedule).value.attachments|
             && i < |After(schedule).value.attachments[a].slots|
    ensures var t := After(schedule).value.attachments[a]; var answers := Answers(schedule, a);
            && (t.slots[i].obtained == 1 <==> i < |answers| && answers[i].gives)
            && (t.active ==>
                  (t.slots[i].held <==>
                    i < |answers| && answers[i].gives && Kept(answers[i]) && ChildEnded(a, i) !in schedule))
  {
    EveryScheduleIsTraced(schedule, a);
    EveryScheduleEnds(schedule, a);
    assert Holds(After(schedule).value.attachments[a].slots[i], i, After(schedule).value.attachments[a].active,
        Answers(schedule, a));
  }

  /** An attachment is active until it is removed, the mount closes, or the last of its children
      ends, whichever comes first; no longer and no shorter. */
  lemma {:induction false} ActiveUntilEnded(schedule: seq<Step>, a: nat)
    requires After(schedule).Some? && a < |After(schedule).value.attachments|
    ensures var t := After(schedule).value.attachments[a];
            t.active <==>
            Remove(a) !in schedule && Close !in schedule
            && (t.slots == [] || exists i: nat :: i < |t.slots| && ChildEnded(a, i) !in schedule)
  {
    EveryScheduleKeepsInv(schedule);
    EveryScheduleEnds(schedule, a);
    var t := After(schedule).value.attachments[a];
    assert AttachmentOk(t);
    if t.active { NoneLiveIffAllEnded(t.slots); }
  }

  // The attachment ended otherwise than by being removed.
  predicate EndedByItself(schedule: seq<Step>, a: nat)
    requires After(schedule).Some?
  {
    schedule != []
    && var init := schedule[..|schedule| - 1];
       EndedByItself(init, a)
       || (schedule[|schedule| - 1] != Remove(a) && IsActive(After(init).value, a)
          && !IsActive(After(schedule).value, a))
  }

  predicate IsActive(s: State, a: nat) { a < |s.attachments| && s.attachments[a].active }

  lemma {:induction false} StepTells(s: State, step: Step, a: nat)
    requires Inv(s) && Enabled(s, step) && a < |s.attachments|
    ensures var t := s.attachments[a];
            a < |Apply(s, step).attachments|
            && var r := Apply(s, step).attachments[a];
               Tells(r.ending) <==> Tells(t.ending) || (step != Remove(a) && t.active && !r.active)
  {
    assert AttachmentOk(s.attachments[a]);
  }

  lemma {:induction false} TellsIffEndedByItself(schedule: seq<Step>, a: nat)
    requires After(schedule).Some?
    ensures EndedByItself(schedule, a) <==>
            a < |After(schedule).value.attachments| && Tells(After(schedule).value.attachments[a].ending)
  {
    if schedule != [] {
      var init, step := schedule[..|schedule| - 1], schedule[|schedule| - 1];
      EveryScheduleKeepsInv(init);
      TellsIffEndedByItself(init, a);
      if a < |After(init).value.attachments| {
        StepTells(After(init).value, step, a);
      } else if a < |After(schedule).value.attachments| {
        FreshTraced(After(init).value, step, a);
      }
    }
  }

  /** A listening receiver is told Closed exactly if its attachment ended otherwise than by
      being removed. */
  lemma {:induction false} ToldIffEndedByItself(schedule: seq<Step>, a: nat)
    requires After(schedule).Some? && a < |After(schedule).value.attachments|
    ensures var t := After(schedule).value.attachments[a];
            t.telling + t.told == if t.listens && EndedByItself(schedule, a) then 1 else 0
  {
    EveryScheduleKeepsInv(schedule);
    assert AttachmentOk(After(schedule).value.attachments[a]);
    TellsIffEndedByItself(schedule, a);
  }

  // A Receive of so many children, each answering in turn.
  function Asking(a: nat, n: nat): seq<Step> {
    if n == 0 then [] else Asking(a, n - 1) + [Look(a), ChildReturns(a, true, false)]
  }

  // The attachment is asking its next child, and holds what it was given.
  ghost predicate HasAsked(s: Option<State>, a: nat, n: nat, i: nat) {
    && s.Some? && a < |s.value.attachments| && s.value.attachments[a].active && |s.value.attachments[a].slots| == n
    && s.value.attachments[a].phase == Phase.Asking(i)
    && forall k :: 0 <= k < n ==>
       !s.value.attachments[a].slots[k].ended && s.value.attachments[a].slots[k].held == (k < i)
  }

  // One child is called and gives a disposer.
  lemma AsksNext(s: State, a: nat, n: nat, i: nat)
    requires HasAsked(Some(s), a, n, i) && i < n
    ensures Enabled(s, Look(a)) && Enabled(Apply(s, Look(a)), ChildReturns(a, true, false))
    ensures HasAsked(Some(Apply(Apply(s, Look(a)), ChildReturns(a, true, false))), a, n, i + 1)
  {
  }

  lemma {:induction false} AsksOn(schedule: seq<Step>, a: nat, n: nat, i: nat)
    requires HasAsked(After(schedule), a, n, 0) && i <= n
    ensures HasAsked(After(schedule + Asking(a, i)), a, n, i)
  {
    if i == 0 {
      assert schedule + Asking(a, 0) == schedule;
    } else {
      AsksOn(schedule, a, n, i - 1);
      var before, step := schedule + Asking(a, i - 1), ChildReturns(a, true, false);
      AsksNext(After(before).value, a, n, i - 1);
      Extends(before, Look(a));
      Extends(before + [Look(a)], step);
      assert schedule + Asking(a, i) == before + [Look(a)] + [step];
    }
  }

  lemma Extends(schedule: seq<Step>, step: Step)
    requires After(schedule).Some? && Enabled(After(schedule).value, step)
    ensures After(schedule + [step]) == Some(Apply(After(schedule).value, step))
  {
    assert (schedule + [step])[..|schedule|] == schedule;
  }

  /** Nothing stands in a Receive's way: on an open mount without an attachment, children that
      answer in turn leave it attached to all of them. */
  lemma {:induction false} ReceiveAttaches(schedule: seq<Step>, n: nat, listens: bool)
    requires After(schedule).Some? && !After(schedule).value.closed && After(schedule).value.current.None?
    ensures var a := |After(schedule).value.attachments|;
            var s := After(schedule + [Receive(n, listens)] + Asking(a, n) + [Look(a)]);
            && s.Some? && a < |s.value.attachments| && |s.value.attachments[a].slots| == n
            && s.value.attachments[a].active && s.value.attachments[a].phase.Returned?
            && forall k :: 0 <= k < n ==> s.value.attachments[a].slots[k].held
  {
    var a := |After(schedule).value.attachments|;
    Extends(schedule, Receive(n, listens));
    AsksOn(schedule + [Receive(n, listens)], a, n, n);
    Extends(schedule + [Receive(n, listens)] + Asking(a, n), Look(a));
  }
}

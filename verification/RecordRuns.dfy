/**
 What holds of a recorded wire in every reachable state, and over whole runs.
 */
module RecordRuns {
  import opened RecordProtocol
  import opened Wrappers

  /** Whatever the interleaving, overflow and close included, a follower is sent
      exactly (after, after + k] for some k, each record as the log holds it. */
  lemma FollowersAreSentAContiguousRun(c: Config, schedule: seq<Step>, id: nat)
    requires ValidConfig(c) && After(c, schedule).Some? && id in After(c, schedule).value.followers
    ensures var s := After(c, schedule).value; var f := s.followers[id];
            IsRun(s.log, f.after, f.sent)
  {
    EveryScheduleKeepsInv(c, schedule);
    assert FollowerIsOk(After(c, schedule).value, id);
  }

  // Nothing is owed to anyone between two appends.
  predicate BetweenAppends(p: Phase) {
    p.Idle? || p.Taken? || p.Checked?
  }

  /** An unstopped follower with its replay done, nothing queued and nothing in hand
      has been sent exactly (after, head] whenever the recorder is between appends. */
  lemma IdleFollowersAreCaughtUp(c: Config, schedule: seq<Step>, id: nat)
    requires ValidConfig(c) && After(c, schedule).Some? && id in After(c, schedule).value.followers
    requires var s := After(c, schedule).value; var f := s.followers[id];
             BetweenAppends(s.phase) && !f.stopped && f.worker.Live? && f.live == [] && f.hand.Nothing?
    ensures var s := After(c, schedule).value; var f := s.followers[id];
            s.head == |s.log| && IsRun(s.log, f.after, f.sent) && f.after + |f.sent| == s.head
  {
    EveryScheduleKeepsInv(c, schedule);
    assert FollowerIsOk(After(c, schedule).value, id);
  }

  /** A working follower is behind the head by exactly the one entry it is owed; while
      the recorder has yet to end it for a full hand-off, that entry is missing. */
  lemma OnlyAnOwedEntryIsMissing(c: Config, schedule: seq<Step>, id: nat)
    requires ValidConfig(c) && After(c, schedule).Some? && id in After(c, schedule).value.followers
    requires var f := After(c, schedule).value.followers[id]; !f.stopped && !f.worker.Finished?
    ensures var s := After(c, schedule).value; var f := s.followers[id];
            (f.Position() == s.head <==> !Owed(s.phase, id)) && (Owed(s.phase, id) ==> f.Position() == s.head - 1)
  {
    EveryScheduleKeepsInv(c, schedule);
    assert FollowerIsOk(After(c, schedule).value, id);
  }

  // ---- A follower is nothing to the rest: erased from a schedule, the rest goes as it did.

  // The state as if the follower had never been.
  function Without(s: State, id: nat): State {
    s.(registered := s.registered - {id}, followers := s.followers - {id},
       phase := match s.phase
                case Offering(entry, todo, full) => Offering(entry, todo - {id}, full - {id})
                case Overflowing(entry, full) => Overflowing(entry, full - {id})
                case _ => s.phase)
  }

  // The steps left of one: where the follower was attached, its request is refused; what it
  // was offered, its ending and its own steps are gone.
  function ErasedStep(step: Step, id: nat): seq<Step> {
    match step
    case Recorder(action) =>
      if action == Attach(id) then [Recorder(RefuseFollow)]
      else if action == Offer(id) || action == EndOverflowed(id) then [] else [step]
    case Act(other, _) => if other == id then [] else [step]
    case Unregister(other) => if other == id then [] else [step]
    case DrainFollower(other) => if other == id then [] else [step]
    case _ => [step]
  }

  function Erased(schedule: seq<Step>, id: nat): seq<Step> {
    if schedule == [] then [] else Erased(schedule[..|schedule| - 1], id) + ErasedStep(schedule[|schedule| - 1], id)
  }

  // A step that names the follower is unseen by the rest; any other is the same for it.
  lemma {:induction false} ErasedStepRuns(s: State, step: Step, id: nat)
    requires Enabled(s, step)
    ensures var steps := ErasedStep(step, id);
            if steps == [] then Without(Apply(s, step), id) == Without(s, id)
            else Enabled(Without(s, id), steps[0]) && Without(Apply(s, step), id) == Apply(Without(s, id), steps[0])
  {
    match step
    case Recorder(action) => ErasedActionRuns(s, action, id);
    case Act(other, act) =>
      assert other != id ==> (s.followers[other := ApplyAct(s.log, s.followers[other], act)]) - {id} ==
                             (s.followers - {id})[other := ApplyAct(s.log, s.followers[other], act)];
    case Unregister(other) =>
      assert s.registered - {other} - {id} == if other == id then s.registered - {id}
             else s.registered - {id} - {other};
    case DrainFollower(other) =>
      assert other != id ==> s.followers[other := s.followers[other].(live := [])] - {id} ==
                             (s.followers - {id})[other := s.followers[other].(live := [])];
    case _ =>
  }

  lemma {:induction false} ErasedActionRuns(s: State, action: RecorderAction, id: nat)
    requires RecorderEnabled(s, action)
    ensures var steps := ErasedStep(Recorder(action), id); var t := ApplyRecorder(s, action);
            if steps == [] then Without(t, id) == Without(s, id)
            else Enabled(Without(s, id), steps[0]) && Without(t, id) == Apply(Without(s, id), steps[0])
  {
    match action
    case Attach(other) => ErasedAttachRuns(s, other, id);
    case Offer(other) => ErasedOfferRuns(s, other, id);
    case EndOverflowed(other) => ErasedEndingRuns(s, other, id);
    case Lock => assert forall none: set<nat> :: none == {} ==> none - {id} == none;
    case _ =>
  }

  lemma {:induction false} ErasedAttachRuns(s: State, other: nat, id: nat)
    requires RecorderEnabled(s, Attach(other))
    ensures var t, u := ApplyRecorder(s, Attach(other)), Without(s, id);
            if other == id then RecorderEnabled(u, RefuseFollow) && Without(t, id) == ApplyRecorder(u, RefuseFollow)
            else RecorderEnabled(u, Attach(other)) && Without(t, id) == ApplyRecorder(u, Attach(other))
  {
    var f := Follower(s.phase.command.after, s.head, Replay(s.phase.command.after + 1), Nothing, [], false, false, []);
    assert s.followers[other := f] - {id} == if other == id then s.followers - {id}
           else (s.followers - {id})[other := f];
    assert (s.registered + {other}) - {id} == if other == id then s.registered - {id}
           else (s.registered - {id}) + {other};
  }

  lemma {:induction false} ErasedOfferRuns(s: State, other: nat, id: nat)
    requires RecorderEnabled(s, Offer(other))
    ensures var t, u := ApplyRecorder(s, Offer(other)), Without(s, id);
            if other == id then Without(t, id) == u
            else RecorderEnabled(u, Offer(other)) && Without(t, id) == ApplyRecorder(u, Offer(other))
  {
    var f, p := s.followers[other], s.phase;
    assert p.todo - {other} - {id} == if other == id then p.todo - {id} else p.todo - {id} - {other};
    assert (p.full + {other}) - {id} == if other == id then p.full - {id} else (p.full - {id}) + {other};
    var offered := f.(live := f.live + [p.entry]);
    assert s.followers[other := offered] - {id} == if other == id then s.followers - {id}
           else (s.followers - {id})[other := offered];
  }

  lemma {:induction false} ErasedEndingRuns(s: State, other: nat, id: nat)
    requires RecorderEnabled(s, EndOverflowed(other))
    ensures var t, u := ApplyRecorder(s, EndOverflowed(other)), Without(s, id);
            if other == id then Without(t, id) == u
            else RecorderEnabled(u, EndOverflowed(other)) && Without(t, id) == ApplyRecorder(u, EndOverflowed(other))
  {
    var stopped := ApplyAct(s.log, s.followers[other], Stop);
    assert s.phase.full - {other} - {id} == if other == id then s.phase.full - {id} else s.phase.full - {id} - {other};
    assert s.followers[other := stopped] - {id} == if other == id then s.followers - {id}
           else (s.followers - {id})[other := stopped];
  }

  lemma {:induction false} AfterOne(c: Config, schedule: seq<Step>, step: Step)
    requires After(c, schedule).Some? && Enabled(After(c, schedule).value, step)
    ensures After(c, schedule + [step]) == Some(Apply(After(c, schedule).value, step))
  {
    assert (schedule + [step])[..|schedule|] == schedule;
  }

  /** Whatever becomes of a follower, overflow included, the rest goes as if its request had been
      refused: the schedule without it can be taken, and ends with the same log, target and
      heads and the same other followers. */
  lemma {:induction false} OverflowIsIsolated(c: Config, schedule: seq<Step>, id: nat)
    requires After(c, schedule).Some?
    ensures After(c, Erased(schedule, id)).Some?
    ensures var s, t := After(c, schedule).value, After(c, Erased(schedule, id)).value;
            && t == Without(s, id)
            && t.log == s.log && t.forwarded == s.forwarded && t.head == s.head && t.heads == s.heads
               && t.closed == s.closed
            && t.followers.Keys == s.followers.Keys - {id}
            && forall other :: other in s.followers && other != id ==> t.followers[other] == s.followers[other]
    decreases |schedule|
  {
    if schedule == [] {
      assert Without(Init(c), id) == Init(c);
    } else {
      var init, step := schedule[..|schedule| - 1], schedule[|schedule| - 1];
      OverflowIsIsolated(c, init, id);
      ErasedStepRuns(After(c, init).value, step, id);
      if ErasedStep(step, id) == [] {
        assert Erased(schedule, id) == Erased(init, id);
      } else {
        AfterOne(c, Erased(init, id), ErasedStep(step, id)[0]);
        assert ErasedStep(step, id) == [ErasedStep(step, id)[0]];
      }
    }
  }

  /** The log is the initial log followed by admitted Sends in admission order; the
      target has received the contiguous run of it that starts after the initial head,
      so neither it nor a follower ever sees what has not been appended. */
  lemma TheLogComesFirst(c: Config, schedule: seq<Step>)
    requires ValidConfig(c) && After(c, schedule).Some?
    ensures var s := After(c, schedule).value;
            && Stored(c.initial, s.log, s.admitted)
            && IsRun(s.log, |c.initial|, s.forwarded)
            && forall id, i :: id in s.followers && 0 <= i < |s.followers[id].sent| ==>
                 1 <= s.followers[id].sent[i].sequence <= |s.log|
                 && s.followers[id].sent[i].payload == s.log[s.followers[id].sent[i].sequence - 1]
  {
    EveryScheduleKeepsInv(c, schedule);
    var s := After(c, schedule).value;
    forall id, i | id in s.followers && 0 <= i < |s.followers[id].sent|
      ensures 1 <= s.followers[id].sent[i].sequence <= |s.log|
              && s.followers[id].sent[i].payload == s.log[s.followers[id].sent[i].sequence - 1]
    {
      assert FollowerIsOk(s, id);
      SentIsStored(s.log, s.followers[id], i);
    }
  }

  lemma SentIsStored(log: seq<Payload>, f: Follower, i: nat)
    requires IsRun(log, f.after, f.sent) && i < |f.sent|
    ensures f.sent[i] == WireRecord(f.after + 1 + i, log[f.after + i])
  {
  }

  /** An answered Head equals the initial head plus the Sends admitted before it was. */
  lemma HeadsAreFences(c: Config, schedule: seq<Step>, i: nat)
    requires ValidConfig(c) && After(c, schedule).Some? && i < |After(c, schedule).value.heads|
    ensures var (before, head) := After(c, schedule).value.heads[i]; head == |c.initial| + before
  {
    EveryScheduleKeepsInv(c, schedule);
  }

  // What a follower may still come to have been sent without another check of its context.
  function Committed(f: Follower): nat { |f.sent| + if f.hand.Cleared? then 1 else 0 }

  function Run(s: State, schedule: seq<Step>): Option<State>
    decreases |schedule|
  {
    if schedule == [] then Some(s)
    else if Enabled(s, schedule[0]) then Run(Apply(s, schedule[0]), schedule[1..])
    else None
  }

  // g is what f may become.
  predicate Later(f: Follower, g: Follower) {
    && f.sent <= g.sent && f.after == g.after
    && (Ended(f) ==> Ended(g) && Committed(g) <= Committed(f))
  }

  lemma RecorderOnlyAdds(s: State, action: RecorderAction, id: nat)
    requires FollowersOk(s) && RecorderEnabled(s, action) && id in s.followers
    ensures var t := ApplyRecorder(s, action);
            id in t.followers && s.log <= t.log && s.forwarded <= t.forwarded && Later(s.followers[id], t.followers[id])
  {
  }

  lemma ActOnlyAdds(log: seq<Payload>, f: Follower, act: FollowerAction)
    requires ActEnabled(log, f, act)
    ensures Later(f, ApplyAct(log, f, act))
  {
  }

  lemma {:induction false} StepOnlyAdds(s: State, step: Step, id: nat)
    requires FollowersOk(s) && Enabled(s, step) && id in s.followers
    ensures var t := Apply(s, step);
            id in t.followers && s.log <= t.log && s.forwarded <= t.forwarded && Later(s.followers[id], t.followers[id])
  {
    if step.Recorder? {
      RecorderOnlyAdds(s, step.action, id);
    } else if step.Act? && step.id == id {
      ActOnlyAdds(s.log, s.followers[id], step.act);
    }
  }

  /** Histories only grow, and a follower that has ended sends nothing beyond the one
      entry its worker had already cleared. */
  lemma {:induction false} EndingIsFinal(s: State, schedule: seq<Step>, id: nat)
    requires Inv(s) && id in s.followers && Run(s, schedule).Some?
    ensures var t := Run(s, schedule).value;
            id in t.followers && s.log <= t.log && s.forwarded <= t.forwarded && Later(s.followers[id], t.followers[id])
    decreases |schedule|
  {
    if schedule != [] {
      StepKeepsInv(s, schedule[0]);
      StepOnlyAdds(s, schedule[0], id);
      EndingIsFinal(Apply(s, schedule[0]), schedule[1..], id);
    }
  }
}

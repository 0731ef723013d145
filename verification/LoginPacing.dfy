/**
 When a poll comes too soon: the poll a login record carries, and the last one let through.
 */
module LoginPacing {
  import opened LoginProtocol
  import opened LoginGrants
  import LoginLives
  import opened Wrappers

  function PollOf(r: Record): Option<nat> { if r.polled then Some(r.lastPoll) else None }

  // The poll the record in the store carries. A Collect that is stored leaves its own; an Answer
  // carries on the one it read, whatever was stored in between; a Begin leaves none.
  function Poll(schedule: seq<Step>): Option<nat>
    requires After(schedule).Some?
    decreases |schedule|
  {
    if schedule == [] then None
    else
      var init, step := schedule[..|schedule| - 1], schedule[|schedule| - 1];
      if !step.Write? || After(schedule).value.slot == After(init).value.slot then Poll(init)
      else
        match Started(init, step.caller)
        case None => None
        case Some(j) =>
          AfterPrefix(init, j);
          if init[j].Collect? then Some(init[j].now) else if init[j].Answer? then Poll(init[..j]) else None
  }

  lemma {:induction false} AfterPrefix(schedule: seq<Step>, j: nat)
    requires After(schedule).Some? && j <= |schedule|
    ensures After(schedule[..j]).Some?
    decreases |schedule|
  {
    if j < |schedule| {
      AfterPrefix(schedule[..|schedule| - 1], j);
      assert schedule[..|schedule| - 1][..j] == schedule[..j];
    } else {
      assert schedule[..j] == schedule;
    }
  }

  // What a write leaves in the store, if it changes it.
  lemma WriteLeaves(s: State, c: nat)
    requires Enabled(s, Write(c))
    ensures var t := Apply(s, Write(c));
            t.slot != s.slot ==>
              && t.slot.Some?
              && match s.calls[c]
                 case Beginning(_, _, _) => PollOf(t.slot.value) == None
                 case Answering(_, r, _) => PollOf(t.slot.value) == PollOf(r)
                 case Collecting(now, _) => PollOf(t.slot.value) == Some(now)
                 case Recollecting(_, _) => false
  {
  }

  lemma OnlyWritesPace(s: State, step: Step)
    requires Enabled(s, step) && !step.Write?
    ensures var t := Apply(s, step); t.slot.Some? ==> t.slot == s.slot
  {
  }

  // The record in the store carries that poll.
  lemma {:induction false} PollIsCarried(schedule: seq<Step>)
    requires After(schedule).Some?
    ensures After(schedule).value.slot.Some? ==> PollOf(After(schedule).value.slot.value) == Poll(schedule)
    decreases |schedule|
  {
    if schedule != [] {
      var init, step := schedule[..|schedule| - 1], schedule[|schedule| - 1];
      var s := After(init).value;
      PollIsCarried(init);
      if step.Write? {
        WriteLeaves(s, step.caller);
        EveryCallIsOf(init);
        assert CallIsOf(init, step.caller, s.calls[step.caller]);
        var j := Started(init, step.caller).value;
        AfterPrefix(init, j);
        PollIsCarried(init[..j]);
      } else {
        OnlyWritesPace(s, step);
      }
    }
  }

  /** A poll is answered SlowDown exactly if it is verified, of a record that is there, and less
      than five seconds after the poll the record carries; nothing else is. */
  lemma {:induction false} TooSoonIff(schedule: seq<Step>, step: Step)
    requires After(schedule).Some? && Enabled(After(schedule).value, step)
    ensures var s := After(schedule).value; var t := Apply(s, step);
            && s.outcomes <= t.outcomes
            && (SlowDown in t.outcomes[|s.outcomes|..] <==>
                  && step.Collect? && step.verified && Live(s, step.now)
                  && Poll(schedule).Some? && step.now < Poll(schedule).value + COLLECT_INTERVAL)
  {
    PollIsCarried(schedule);
  }

  // The step a poll came with: verified, and let through.
  ghost predicate PolledAt(schedule: seq<Step>, poll: nat, c: nat, j: nat) {
    && j < |schedule| && schedule[j] == Collect(c, poll, true)
    && After(schedule[..j + 1]).Some? && c in After(schedule[..j + 1]).value.calls
  }

  lemma PolledStays(schedule: seq<Step>, more: seq<Step>, poll: nat, c: nat, j: nat)
    requires schedule <= more && PolledAt(schedule, poll, c, j)
    ensures PolledAt(more, poll, c, j)
  {
    assert more[..j + 1] == schedule[..j + 1];
  }

  // A stored write leaves what its call says.
  lemma WritePolls(init: seq<Step>, step: Step)
    requires After(init).Some? && Enabled(After(init).value, step) && step.Write?
    requires After(init + [step]).Some? && After(init + [step]).value.slot != After(init).value.slot
    ensures var j := Started(init, step.caller);
            && j.Some? && After(init[..j.value]).Some?
            && match init[j.value]
               case Collect(c, now, verified) =>
                 && c == step.caller && Poll(init + [step]) == Some(now) && PolledAt(init, now, c, j.value)
               case Answer(_, _, _, _, _) => Poll(init + [step]) == Poll(init[..j.value])
               case _ => Poll(init + [step]) == None
  {
    var c := step.caller;
    EveryCallIsOf(init);
    assert CallIsOf(init, c, After(init).value.calls[c]);
    AfterPrefix(init, Started(init, c).value);
    UnderWay(init, c);
    assert (init + [step])[..|init|] == init;
  }

  /** The poll a record carries is one that was verified and let through. */
  lemma {:induction false} PollIsVerified(schedule: seq<Step>) returns (c: nat, j: nat)
    requires After(schedule).Some? && Poll(schedule).Some?
    ensures PolledAt(schedule, Poll(schedule).value, c, j)
    decreases |schedule|
  {
    var init, step := schedule[..|schedule| - 1], schedule[|schedule| - 1];
    assert schedule == init + [step];
    if !step.Write? || After(schedule).value.slot == After(init).value.slot {
      c, j := PollIsVerified(init);
      PolledStays(init, schedule, Poll(init).value, c, j);
    } else {
      WritePolls(init, step);
      c, j := step.caller, Started(init, step.caller).value;
      if init[j].Answer? {
        var before := init[..j];
        c, j := PollIsVerified(before);
        PolledStays(before, schedule, Poll(before).value, c, j);
      } else {
        PolledStays(init, schedule, init[j].now, c, j);
      }
    }
  }

  // A call under way has been so since it began.
  ghost predicate UnderWayAt(schedule: seq<Step>, c: nat, j: nat) {
    j < |schedule| && After(schedule[..j + 1]).Some? && c in After(schedule[..j + 1]).value.calls
  }

  lemma UnderWayStays(schedule: seq<Step>, step: Step, c: nat, j: nat)
    requires UnderWayAt(schedule, c, j)
    ensures UnderWayAt(schedule + [step], c, j)
  {
    assert (schedule + [step])[..j + 1] == schedule[..j + 1];
  }

  lemma {:induction false} UnderWay(schedule: seq<Step>, c: nat)
    requires After(schedule).Some? && c in After(schedule).value.calls
    ensures Started(schedule, c).Some? && UnderWayAt(schedule, c, Started(schedule, c).value)
  {
    var init, step := schedule[..|schedule| - 1], schedule[|schedule| - 1];
    assert schedule == init + [step];
    StartedGrows(init, step, c);
    if Starts(step, c) {
      assert schedule[..|init| + 1] == schedule;
    } else {
      CallReadsAgain(init, step, c);
      UnderWay(init, c);
      UnderWayStays(init, step, c, Started(init, c).value);
    }
  }

  // ---- The last poll let through, where calls do not overlap.

  // The last poll of the present login that was verified and let through.
  function LastPoll(schedule: seq<Step>): Option<nat>
    requires After(schedule).Some?
  {
    if schedule == [] then None
    else
      var init, step, now := schedule[..|schedule| - 1], schedule[|schedule| - 1], After(schedule).value;
      if step.Collect? && step.caller in now.calls then Some(step.now)
      else if |now.history| > |After(init).value.history| && now.history[|now.history| - 1].stage.Pending? then None
      else LastPoll(init)
  }

  // No call reads the store while another is between its read and its write.
  ghost predicate Apart(schedule: seq<Step>) {
    forall k, c :: 0 <= k < |schedule| && Starts(schedule[k], c) && After(schedule[..k]).Some? ==>
      After(schedule[..k]).value.calls == map[]
  }

  // The one call under way read what still stands.
  ghost predicate Undisturbed(s: State, last: Option<nat>) {
    && (forall c, d :: c in s.calls && d in s.calls ==> c == d)
    && (s.slot.Some? && (forall c :: c in s.calls ==> s.calls[c].Beginning?) ==> PollOf(s.slot.value) == last)
    && forall c :: c in s.calls && s.slot.Some? ==>
         match s.calls[c]
         case Beginning(_, _, _) => true
         case Answering(_, r, _) => s.slot == Some(r) && PollOf(r) == last
         case Collecting(now, r) => s.slot == Some(r) && last == Some(now)
         case Recollecting(_, _) => false
  }

  lemma {:induction false} WriteUndisturbed(s: State, c: nat, last: Option<nat>)
    requires Inv(s) && Enabled(s, Write(c)) && Undisturbed(s, last)
    ensures var t := Apply(s, Write(c));
            Undisturbed(t, if |t.history| > |s.history| && t.history[|t.history| - 1].stage.Pending? then None
              else last)
  {
    var t := Apply(s, Write(c));
    assert CallOk(s.history, s.calls[c]);
    match s.calls[c]
    case Beginning(_, _, expected) => assert c !in t.calls;
    case Answering(_, r, _) => assert c !in t.calls;
    case Collecting(_, r) =>
      if s.slot.Some? { assert c !in t.calls; }
    case _ =>
  }

  lemma {:induction false} StartUndisturbed(s: State, step: Step, c: nat, last: Option<nat>)
    requires Inv(s) && Enabled(s, step) && Undisturbed(s, last) && Starts(step, c) && s.calls == map[]
    ensures var t := Apply(s, step);
            && t.history == s.history
            && Undisturbed(t, if step.Collect? && c in t.calls then Some(step.now) else last)
  {
  }

  lemma {:induction false} RestUndisturbed(s: State, step: Step, last: Option<nat>)
    requires Inv(s) && Enabled(s, step) && Undisturbed(s, last) && (step.Reread? || step.Sweep?)
    ensures Apply(s, step).history == s.history && Undisturbed(Apply(s, step), last)
  {
    var t := Apply(s, step);
    assert forall c :: c in t.calls ==> c in s.calls && t.calls[c] == s.calls[c];
  }

  lemma {:induction false} ApartIsUndisturbed(schedule: seq<Step>)
    requires After(schedule).Some? && Apart(schedule)
    ensures Undisturbed(After(schedule).value, LastPoll(schedule))
  {
    if schedule != [] {
      var init, step := schedule[..|schedule| - 1], schedule[|schedule| - 1];
      var s := After(init).value;
      EveryScheduleKeepsInv(init);
      assert Apart(init) by { forall k | 0 <= k < |init| ensures schedule[..k] == init[..k] {} }
      ApartIsUndisturbed(init);
      match step
      case Write(c) => WriteUndisturbed(s, c, LastPoll(init));
      case Reread(_) => RestUndisturbed(s, step, LastPoll(init));
      case Sweep(_) => RestUndisturbed(s, step, LastPoll(init));
      case _ =>
        assert Starts(schedule[|init|], step.caller);
        StartUndisturbed(s, step, step.caller, LastPoll(init));
    }
  }

  /** Where calls do not overlap, a verified poll is answered SlowDown exactly if it comes less
      than five seconds after the last one of the present login that was verified and let
      through; a poll that was answered SlowDown does not count. */
  lemma {:induction false} PollsAreSpaced(schedule: seq<Step>, c: nat, now: nat)
    requires After(schedule).Some? && Apart(schedule) && After(schedule).value.calls == map[]
             && Live(After(schedule).value, now)
    ensures var s := After(schedule).value; var t := Apply(s, Collect(c, now, true)); var last := LastPoll(schedule);
            if last.Some? && now < last.value + COLLECT_INTERVAL
            then t == s.(outcomes := s.outcomes + [SlowDown])
            else t == s.(calls := map[c := Collecting(now, s.slot.value)])
  {
    ApartIsUndisturbed(schedule);
  }

  // An answer read before a poll and stored after it: the poll is forgotten.
  function Overlapping(): seq<Step> {
    [Begin(0, 0, 1), Write(0), Answer(0, 0, 1, 7, true), Collect(1, 0, true), Write(1), Write(0)]
  }

  lemma OverlappingReads()
    ensures LoginLives.Reaches(Overlapping()[..4], Some(Record(1, Pending, 1, 300, 0, 0, false, 0)),
              map[0 := Answering(0, Record(1, Pending, 1, 300, 0, 0, false, 0), 7),
                  1 := Collecting(0, Record(1, Pending, 1, 300, 0, 0, false, 0))])
    ensures LastPoll(Overlapping()[..4]) == Some(0)
  {
    var begun: seq<Step> := [Begin(0, 0, 1), Write(0)];
    assert LoginLives.Reaches([], None, map[]);
    LoginLives.Opens([], None, map[], 0, 0, 1);
    assert [] + begun == begun;
    LoginLives.Extend(begun, Answer(0, 0, 1, 7, true), Collect(1, 0, true));
    assert Overlapping()[..4] == begun + [Answer(0, 0, 1, 7, true), Collect(1, 0, true)];
  }

  lemma OverlappingRuns()
    ensures var s := After(Overlapping());
            s.Some? && s.value.slot == Some(Record(2, Answered, 1, 300, 300, 7, false, 0)) && s.value.calls == map[]
    ensures LastPoll(Overlapping()) == Some(0)
  {
    var read := Overlapping()[..4];
    OverlappingReads();
    EveryScheduleKeepsInv(read);
    LoginLives.Extend(read, Write(1), Write(0));
    assert read + [Write(1), Write(0)] == Overlapping();
    assert Overlapping()[..5] == read + [Write(1)] && (read + [Write(1)])[..4] == read;
  }

  /** Where they do, a poll can be let through in the very second of the one before it. */
  lemma PollCanBeForgotten()
    ensures var s := After(Overlapping());
            && s.Some? && LastPoll(Overlapping()) == Some(0) && Poll(Overlapping()) == None
            && Enabled(s.value, Collect(1, 0, true)) && 1 in Apply(s.value, Collect(1, 0, true)).calls
  {
    OverlappingRuns();
    PollIsCarried(Overlapping());
  }
}

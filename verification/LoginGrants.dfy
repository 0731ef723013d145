/**
 What entitles a caller: over every schedule, who is handed an answer, who wrote what the
 store has held, and what a refusal leaves as it was.
 */
module LoginGrants {
  import opened LoginProtocol
  import LoginLives
  import opened Wrappers

  // ---- The step a call under way began with.

  predicate Starts(step: Step, c: nat) {
    match step
    case Begin(d, _, _) => c == d
    case Answer(d, _, _, _, _) => c == d
    case Collect(d, _, _) => c == d
    case _ => false
  }

  // When a caller last asked for something.
  function Started(schedule: seq<Step>, c: nat): (r: Option<nat>)
    ensures r.Some? ==> r.value < |schedule| && Starts(schedule[r.value], c)
  {
    if schedule == [] then None
    else if Starts(schedule[|schedule| - 1], c) then Some(|schedule| - 1)
    else Started(schedule[..|schedule| - 1], c)
  }

  // The record in the store before a step.
  ghost predicate Stood(schedule: seq<Step>, j: nat, r: Record)
    requires j <= |schedule|
  {
    After(schedule[..j]).Some? && After(schedule[..j]).value.slot == Some(r)
  }

  // A call is what its caller last asked for, was admitted or verified, and of what stood then.
  ghost predicate CallIsOf(schedule: seq<Step>, c: nat, call: Call) {
    Started(schedule, c).Some?
    && var j := Started(schedule, c).value;
       match call
       case Beginning(now, request, _) => schedule[j] == Begin(c, now, request)
       case Answering(now, r, answer) => schedule[j] == Answer(c, now, r.version, answer, true) && Stood(schedule, j, r)
       case Collecting(now, r) => schedule[j] == Collect(c, now, true) && Stood(schedule, j, r)
       case Recollecting(now, r) => schedule[j] == Collect(c, now, true) && Stood(schedule, j, r)
  }

  ghost predicate CallsAreOf(schedule: seq<Step>, calls: map<nat, Call>) {
    forall c :: c in calls ==> CallIsOf(schedule, c, calls[c])
  }

  lemma StoodStill(schedule: seq<Step>, step: Step, j: nat, r: Record)
    requires j <= |schedule| && Stood(schedule, j, r)
    ensures Stood(schedule + [step], j, r)
  {
    assert (schedule + [step])[..j] == schedule[..j];
  }

  lemma StartedGrows(schedule: seq<Step>, step: Step, c: nat)
    ensures Started(schedule + [step], c) == if Starts(step, c) then Some(|schedule|) else Started(schedule, c)
  {
    assert (schedule + [step])[..|schedule|] == schedule;
  }

  lemma CallGoesOn(schedule: seq<Step>, step: Step, c: nat, call: Call)
    requires CallIsOf(schedule, c, call) && !Starts(step, c)
    ensures CallIsOf(schedule + [step], c, call)
  {
    StartedGrows(schedule, step, c);
    if !call.Beginning? { StoodStill(schedule, step, Started(schedule, c).value, call.read); }
  }

  // A call just begun.
  lemma CallBegins(schedule: seq<Step>, step: Step, c: nat)
    requires After(schedule).Some? && Enabled(After(schedule).value, step) && Starts(step, c)
    ensures var t := Apply(After(schedule).value, step); c in t.calls ==> CallIsOf(schedule + [step], c, t.calls[c])
  {
    StartedGrows(schedule, step, c);
    assert (schedule + [step])[..|schedule|] == schedule;
  }

  // A call that lost its write goes on with what it read.
  lemma CallReadsAgain(schedule: seq<Step>, step: Step, c: nat)
    requires After(schedule).Some? && Enabled(After(schedule).value, step) && !Starts(step, c)
    ensures var s := After(schedule).value; var t := Apply(s, step);
            c in t.calls ==>
              && c in s.calls
              && (t.calls[c] == s.calls[c]
                  || (s.calls[c].Collecting? && t.calls[c] == Recollecting(s.calls[c].now, s.calls[c].read)))
  {
  }

  lemma {:induction false} StepCallsAreOf(schedule: seq<Step>, step: Step)
    requires After(schedule).Some? && Enabled(After(schedule).value, step)
    requires CallsAreOf(schedule, After(schedule).value.calls)
    ensures CallsAreOf(schedule + [step], Apply(After(schedule).value, step).calls)
  {
    var s := After(schedule).value;
    var t := Apply(s, step);
    forall c | c in t.calls ensures CallIsOf(schedule + [step], c, t.calls[c]) {
      if Starts(step, c) {
        CallBegins(schedule, step, c);
      } else {
        CallReadsAgain(schedule, step, c);
        CallGoesOn(schedule, step, c, s.calls[c]);
      }
    }
  }

  lemma {:induction false} EveryCallIsOf(schedule: seq<Step>)
    requires After(schedule).Some?
    ensures CallsAreOf(schedule, After(schedule).value.calls)
  {
    if schedule != [] {
      var init, step := schedule[..|schedule| - 1], schedule[|schedule| - 1];
      EveryCallIsOf(init);
      StepCallsAreOf(init, step);
      assert schedule == init + [step];
    }
  }

  // ---- Who is handed an answer.

  // The k-th outcome is what a caller's step i was answered, having asked at step j with proof.
  ghost predicate VerifiedAt(schedule: seq<Step>, k: nat, c: nat, j: nat, i: nat)
    requires After(schedule).Some? && k < |After(schedule).value.outcomes| && After(schedule).value.outcomes[k].Handed?
  {
    var o := After(schedule).value.outcomes[k];
    && j < i < |schedule| && schedule[j] == Collect(c, o.asked, true)
    && (schedule[i] == Write(c) || schedule[i] == Reread(c)) && Started(schedule[..i], c) == Some(j)
    && After(schedule[..i]).Some? && |After(schedule[..i]).value.outcomes| == k
    && After(schedule[..j]).Some? && After(schedule[..j]).value.slot.Some?
    && Core(After(schedule[..j]).value.slot.value) == o.read
  }

  lemma {:induction false} HandsToItsCaller(s: State, step: Step)
    requires Enabled(s, step)
    ensures var t := Apply(s, step);
            && s.outcomes <= t.outcomes && |t.outcomes| <= |s.outcomes| + 1
            && (|t.outcomes| > |s.outcomes| && t.outcomes[|s.outcomes|].Handed? ==>
                  (step.Write? || step.Reread?) && step.caller in s.calls
                  && (s.calls[step.caller].Collecting? || s.calls[step.caller].Recollecting?)
                  && t.outcomes[|s.outcomes|].asked == s.calls[step.caller].now
                  && t.outcomes[|s.outcomes|].read == Core(s.calls[step.caller].read))
  {
  }

  /** Whoever is handed an answer asked for it in a Collect whose proof was verified, against
      the record it names as read, and has asked for nothing since. */
  lemma {:induction false} HandedOnlyIfVerified(schedule: seq<Step>, k: nat) returns (c: nat, j: nat, i: nat)
    requires After(schedule).Some? && k < |After(schedule).value.outcomes| && After(schedule).value.outcomes[k].Handed?
    ensures VerifiedAt(schedule, k, c, j, i)
  {
    var init, step := schedule[..|schedule| - 1], schedule[|schedule| - 1];
    var s := After(init).value;
    HandsToItsCaller(s, step);
    if k < |s.outcomes| {
      c, j, i := HandedOnlyIfVerified(init, k);
      assert schedule[..i] == init[..i] && schedule[..j] == init[..j];
    } else {
      EveryCallIsOf(init);
      c, i := step.caller, |init|;
      assert CallIsOf(init, c, s.calls[c]);
      j := Started(init, c).value;
      assert schedule[..j] == init[..j] && schedule[..i] == init;
    }
  }

  // ---- Who wrote what the store has held.

  // What entitles a step to a version: the login asked for, the answer admitted to the version
  // before it, or the proof verified against that.
  predicate Entitles(step: Step, c: nat, r: Record) {
    match r.stage
    case Pending => step.Begin? && step == Begin(c, step.now, r.request) && r.expiresAt == step.now + LOGIN_EXPIRES_IN
    case Answered =>
      && step.Answer? && r.version > 0 && step == Answer(c, step.now, r.version - 1, r.answer, true)
      && r.retainedTo == step.now + ANSWER_RETENTION
    case Collected => step.Collect? && step == Collect(c, step.now, true)
  }

  // The v-th version was written at step i by the caller who asked for it at step j.
  ghost predicate WrittenAt(schedule: seq<Step>, v: nat, c: nat, j: nat, i: nat)
    requires After(schedule).Some? && v < |After(schedule).value.history|
  {
    var h := After(schedule).value.history;
    && j < i < |schedule| && schedule[i] == Write(c) && Started(schedule[..i], c) == Some(j)
    && h[v].version == v + 1 && Entitles(schedule[j], c, h[v])
    && After(schedule[..i]).Some? && After(schedule[..i]).value.history == h[..v]
    && (!h[v].stage.Pending? ==>
          && v > 0 && After(schedule[..j]).Some? && After(schedule[..j]).value.slot.Some?
          && Core(After(schedule[..j]).value.slot.value) == h[v - 1])
  }

  // The version a step adds, if any, is what its caller's call entitles it to.
  lemma {:induction false} WritesForItsCaller(s: State, step: Step)
    requires Inv(s) && Enabled(s, step)
    ensures var t := Apply(s, step);
            && s.history <= t.history && |t.history| <= |s.history| + 1
            && (|t.history| > |s.history| ==>
                  var r := t.history[|s.history|];
                  && step.Write? && step.caller in s.calls && r.version == |s.history| + 1
                  && match s.calls[step.caller]
                     case Beginning(now, request, _) =>
                       r.stage.Pending? && r.request == request && r.expiresAt == now + LOGIN_EXPIRES_IN
                     case Answering(now, read, answer) =>
                       && r.stage.Answered? && r.answer == answer && r.retainedTo == now + ANSWER_RETENTION
                       && read.version == |s.history| && Known(s.history, read)
                     case Collecting(now, read) =>
                       r.stage.Collected? && read.version == |s.history| && Known(s.history, read)
                     case Recollecting(_, _) => false)
  {
    if step.Write? {
      assert CallOk(s.history, s.calls[step.caller]);
    }
  }

  lemma {:induction false} JustWritten(schedule: seq<Step>, step: Step) returns (j: nat)
    requires After(schedule).Some? && Enabled(After(schedule).value, step) && Inv(After(schedule).value)
    requires After(schedule + [step]) == Some(Apply(After(schedule).value, step))
    requires |After(schedule + [step]).value.history| > |After(schedule).value.history|
    ensures step.Write? && WrittenAt(schedule + [step], |After(schedule).value.history|, step.caller, j, |schedule|)
  {
    var s := After(schedule).value;
    WritesForItsCaller(s, step);
    EveryCallIsOf(schedule);
    assert CallIsOf(schedule, step.caller, s.calls[step.caller]);
    j := Started(schedule, step.caller).value;
    assert (schedule + [step])[..j] == schedule[..j] && (schedule + [step])[..|schedule|] == schedule;
  }

  lemma {:induction false} WrittenStays(schedule: seq<Step>, step: Step, v: nat, c: nat, j: nat, i: nat)
    requires After(schedule).Some? && After(schedule + [step]).Some? && v < |After(schedule).value.history|
    requires After(schedule).value.history <= After(schedule + [step]).value.history
    requires WrittenAt(schedule, v, c, j, i)
    ensures WrittenAt(schedule + [step], v, c, j, i)
  {
    var longer := schedule + [step];
    assert longer[..i] == schedule[..i] && longer[..j] == schedule[..j];
    assert After(longer).value.history[..v] == After(schedule).value.history[..v];
  }

  /** Every version the store has held was written for a caller who was entitled to it: a pending
      one for the Begin that asked for it, an answered one for an Answer that was admitted and
      named the version before it, a collected one for a Collect that was verified against that. */
  lemma {:induction false} WrittenOnlyIfEntitled(schedule: seq<Step>, v: nat) returns (c: nat, j: nat, i: nat)
    requires After(schedule).Some? && v < |After(schedule).value.history|
    ensures WrittenAt(schedule, v, c, j, i)
  {
    var init, step := schedule[..|schedule| - 1], schedule[|schedule| - 1];
    assert schedule == init + [step];
    EveryScheduleKeepsInv(init);
    WritesForItsCaller(After(init).value, step);
    if v < |After(init).value.history| {
      c, j, i := WrittenOnlyIfEntitled(init, v);
      WrittenStays(init, step, v, c, j, i);
    } else {
      j := JustWritten(init, step);
      c, i := step.caller, |init|;
    }
  }

  // ---- What a refusal leaves as it was.

  predicate Refused(step: Step) {
    match step
    case Answer(_, _, _, _, admitted) => !admitted
    case Collect(_, _, verified) => !verified
    case _ => false
  }

  // The schedule with every refused Answer and Collect left out.
  function Without(schedule: seq<Step>): seq<Step> {
    if schedule == [] then []
    else Without(schedule[..|schedule| - 1])
         + if Refused(schedule[|schedule| - 1]) then [] else [schedule[|schedule| - 1]]
  }

  // What the other calls were answered.
  function OthersTold(schedule: seq<Step>): seq<Outcome>
    requires After(schedule).Some?
  {
    if schedule == [] then []
    else
      var init := schedule[..|schedule| - 1];
      var before, now := After(init).value.outcomes, After(schedule).value.outcomes;
      OthersTold(init)
      + if Refused(schedule[|schedule| - 1]) || |now| <= |before| then [] else now[|before|..]
  }

  // A refused proof is answered with nothing of the record but that it is there.
  lemma RefusalIsBare(s: State, step: Step)
    requires Enabled(s, step) && Refused(step)
    ensures var t := Apply(s, step);
            && t == s.(outcomes := t.outcomes) && |t.outcomes| == |s.outcomes| + 1
            && (step.Collect? ==>
                  t.outcomes[|s.outcomes|] == if Live(s, step.now) then InvalidGrant else ExpiredToken)
            && t.outcomes[|s.outcomes|] in {InvalidGrant, ExpiredToken, InvalidRequest}
  {
    var t := Apply(s, step);
    assert t.calls == s.calls;
  }

  // What a step does, and what it answers, does not turn on what was answered before.
  ghost predicate Idle(s: State, step: Step, outcomes: seq<Outcome>)
    requires Enabled(s, step)
  {
    var u := s.(outcomes := outcomes);
    var t := Apply(s, step);
    && Enabled(u, step) && s.outcomes <= t.outcomes
    && Apply(u, step) == t.(outcomes := outcomes + t.outcomes[|s.outcomes|..])
  }

  lemma CollectIsIdle(s: State, step: Step, outcomes: seq<Outcome>)
    requires Enabled(s, step) && step.Write? && s.calls[step.caller].Collecting?
    ensures Idle(s, step, outcomes)
  {
  }

  lemma WriteIsIdle(s: State, step: Step, outcomes: seq<Outcome>)
    requires Enabled(s, step) && step.Write?
    ensures Idle(s, step, outcomes)
  {
    if s.calls[step.caller].Collecting? { CollectIsIdle(s, step, outcomes); }
  }

  lemma AskingIsIdle(s: State, step: Step, outcomes: seq<Outcome>)
    requires Enabled(s, step) && (step.Begin? || step.Answer? || step.Collect?)
    ensures Idle(s, step, outcomes)
  {
  }

  lemma OutcomesAreIdle(s: State, step: Step, outcomes: seq<Outcome>)
    requires Enabled(s, step)
    ensures Idle(s, step, outcomes)
  {
    match step
    case Write(_) => WriteIsIdle(s, step, outcomes);
    case Reread(_) =>
    case Sweep(_) =>
    case _ => AskingIsIdle(s, step, outcomes);
  }

  /** Leaving out every refused Answer and Collect leaves a schedule that can be taken, to the
      same record, the same history and the same calls, with the others answered the same. */
  lemma {:induction false} RefusalsLeaveNoTrace(schedule: seq<Step>)
    requires After(schedule).Some?
    ensures After(Without(schedule)) == Some(After(schedule).value.(outcomes := OthersTold(schedule)))
  {
    if schedule != [] {
      var init, step := schedule[..|schedule| - 1], schedule[|schedule| - 1];
      var s := After(init).value;
      RefusalsLeaveNoTrace(init);
      if Refused(step) {
        RefusalIsBare(s, step);
        assert Without(schedule) == Without(init);
        assert OthersTold(schedule) == OthersTold(init);
      } else {
        OutcomesAreIdle(s, step, OthersTold(init));
        assert Without(schedule)[..|Without(init)|] == Without(init);
      }
    }
  }

  // ---- What a verified Collect is answered.

  // A collector who lost its write lost it to a later version.
  ghost predicate Overtaken(s: State) {
    forall c :: c in s.calls && s.calls[c].Recollecting? && s.slot.Some? ==> s.calls[c].read.version < |s.history|
  }

  lemma {:induction false} StepOvertaken(s: State, step: Step)
    requires Inv(s) && Enabled(s, step) && Overtaken(s)
    ensures Overtaken(Apply(s, step))
  {
    var t := Apply(s, step);
    forall c | c in t.calls && t.calls[c].Recollecting? && t.slot.Some?
      ensures t.calls[c].read.version < |t.history|
    {
      LoginLives.HistoryOnlyGrows(s, step);
      if c in s.calls { assert CallOk(s.history, s.calls[c]); }
    }
  }

  lemma {:induction false} EveryScheduleOvertaken(schedule: seq<Step>)
    requires After(schedule).Some?
    ensures Overtaken(After(schedule).value)
  {
    if schedule != [] {
      EveryScheduleKeepsInv(schedule[..|schedule| - 1]);
      EveryScheduleOvertaken(schedule[..|schedule| - 1]);
      StepOvertaken(After(schedule[..|schedule| - 1]).value, schedule[|schedule| - 1]);
    }
  }

  /** While the record is of the login a collector read, its call ends: on a pending login it is
      told to wait; on an answered one it is handed the answer, at once or on reading again, by
      whoever's write the record was collected. */
  lemma {:induction false} CollectorsShareTheAnswer(schedule: seq<Step>, c: nat, step: Step)
    requires After(schedule).Some? && Enabled(After(schedule).value, step) && (step == Write(c) || step == Reread(c))
    requires var s := After(schedule).value;
             && (s.calls[c].Collecting? || s.calls[c].Recollecting?)
             && s.slot.Some? && Life(s.slot.value) == Life(s.calls[c].read)
    ensures var s := After(schedule).value; var t := Apply(s, step); var r := s.calls[c].read;
            if c in t.calls
            then step.Write? && !r.stage.Pending? && t.calls[c] == Recollecting(s.calls[c].now, r)
              && t.outcomes == s.outcomes
            else
              && |t.outcomes| == |s.outcomes| + 1
              && var o := t.outcomes[|s.outcomes|];
                 if r.stage.Pending? then o == AuthorizationPending else o.Handed? && o.answer == r.answer
  {
    var s := After(schedule).value;
    EveryScheduleKeepsInv(schedule);
    EveryScheduleOvertaken(schedule);
    assert CallOk(s.history, s.calls[c]);
    if step.Reread? {
      LoginLives.BackToBirth(s.history, |s.history| - 1);
      LoginLives.BackToBirth(s.history, s.calls[c].read.version - 1);
    }
  }

  // ---- Nothing stands in a login's way.

  lemma AnswerIsHanded(schedule: seq<Step>, r: Record, c: nat, asked: nat)
    requires LoginLives.Reaches(schedule, Some(r), map[]) && r.stage.Answered? && r.version > 0
             && !r.polled && asked < r.retainedTo
    ensures var s := After(schedule + [Collect(c, asked, true), Write(c)]);
            && s.Some? && s.value.outcomes != []
            && s.value.outcomes[|s.value.outcomes| - 1] == Handed(asked, Core(r), r.version + 1, r.answer)
  {
    LoginLives.Extend(schedule, Collect(c, asked, true), Write(c));
  }

  // One login begun, answered and collected.
  function Uncontended(c: nat, now: nat, v: nat, answered: nat, asked: nat, request: int, answer: int): seq<Step> {
    [Begin(c, now, request), Write(c)]
      + ([Answer(c, answered, v + 1, answer, true), Write(c)] + [Collect(c, asked, true), Write(c)])
  }

  lemma VersionIsCounted(s: State)
    requires Inv(s) && !s.swept
    ensures |s.history| == if s.slot.None? then 0 else s.slot.value.version
    ensures s.slot.Some? ==> s.slot.value.version > 0
  {
  }

  lemma LoginIsBegun(schedule: seq<Step>, slot: Option<Record>, c: nat, now: nat, v: nat, request: int)
    requires LoginLives.Reaches(schedule, slot, map[])
    requires v == (if slot.None? then 0 else slot.value.version) && (slot.Some? ==> Gone(slot.value, now) && v > 0)
    ensures LoginLives.Reaches(schedule + [Begin(c, now, request), Write(c)],
              Some(Record(v + 1, Pending, request, now + LOGIN_EXPIRES_IN, 0, 0, false, 0)), map[])
  {
    LoginLives.Opens(schedule, slot, map[], c, now, request);
  }

  lemma {:induction false} LoginIsAnswered(
    schedule: seq<Step>, c: nat, now: nat, answered: nat, request: int, answer: int)
    requires After(schedule).Some? && Inv(After(schedule).value) && !After(schedule).value.swept
             && After(schedule).value.calls == map[] && !Live(After(schedule).value, now)
    requires answered < now + LOGIN_EXPIRES_IN
    ensures var v := |After(schedule).value.history|;
            LoginLives.Reaches(schedule + [Begin(c, now, request), Write(c)]
              + [Answer(c, answered, v + 1, answer, true), Write(c)],
              Some(Record(v + 2, Answered, request, now + LOGIN_EXPIRES_IN, answered + ANSWER_RETENTION, answer, false,
                0)),
              map[])
  {
    var v := |After(schedule).value.history|;
    VersionIsCounted(After(schedule).value);
    LoginIsBegun(schedule, After(schedule).value.slot, c, now, v, request);
    LoginLives.Answers(schedule + [Begin(c, now, request), Write(c)],
      Record(v + 1, Pending, request, now + LOGIN_EXPIRES_IN, 0, 0, false, 0), map[], c, answered, answer);
  }

  /** A login begun where none is, answered before it expires and collected while the answer is
      retained, is handed that answer. */
  lemma {:induction false} UncontendedLoginIsHanded(
    schedule: seq<Step>, c: nat, now: nat, answered: nat, asked: nat, request: int, answer: int)
    requires After(schedule).Some? && !After(schedule).value.swept && After(schedule).value.calls == map[]
             && !Live(After(schedule).value, now)
    requires answered < now + LOGIN_EXPIRES_IN && asked < answered + ANSWER_RETENTION
    ensures var v := |After(schedule).value.history|;
            var s := After(schedule + Uncontended(c, now, v, answered, asked, request, answer));
            && s.Some? && s.value.outcomes != []
            && var o := s.value.outcomes[|s.value.outcomes| - 1];
               o.Handed? && o.asked == asked && o.answer == answer && o.version == v + 3 && o.read.request == request
  {
    EveryScheduleKeepsInv(schedule);
    LoginIsAnswered(schedule, c, now, answered, request, answer);
    var v := |After(schedule).value.history|;
    var done := schedule + [Begin(c, now, request), Write(c)] + [Answer(c, answered, v + 1, answer, true), Write(c)];
    AnswerIsHanded(done,
      Record(v + 2, Answered, request, now + LOGIN_EXPIRES_IN, answered + ANSWER_RETENTION, answer, false, 0), c,
        asked);
    assert done + [Collect(c, asked, true), Write(c)] ==
           schedule + Uncontended(c, now, v, answered, asked, request, answer);
  }
}

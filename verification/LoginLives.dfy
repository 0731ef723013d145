/**
 What holds of a login record over every schedule: the lives it leads, one per login begun
 over it, and which life an answer handed out is of.
 */
module LoginLives {
  import opened LoginProtocol
  import opened Wrappers

  /** Versions only move forward, by one at a time, and what a version held is never changed. */
  lemma HistoryOnlyGrows(s: State, step: Step)
    requires Inv(s) && Enabled(s, step)
    ensures var t := Apply(s, step); s.history <= t.history && |t.history| <= |s.history| + 1
    ensures var t := Apply(s, step);
            s.slot.Some? && t.slot.Some? ==>
              Core(t.slot.value) == Core(s.slot.value) || t.slot.value.version == s.slot.value.version + 1
  {
  }

  /** Within a life the version says the stage: pending where it began, then answered, then
      collected; nothing else about the request moves, and there is one answer at most. */
  lemma {:induction false} OneAnswerPerLife(schedule: seq<Step>, i: nat, j: nat)
    requires After(schedule).Some? && i < |After(schedule).value.history| && j < |After(schedule).value.history|
    ensures var h := After(schedule).value.history;
            && 1 <= Life(h[i]) <= h[i].version == i + 1
            && h[Life(h[i]) - 1].stage.Pending? && h[Life(h[i]) - 1].request == h[i].request
            && (Life(h[i]) == Life(h[j]) && !h[i].stage.Pending? && !h[j].stage.Pending? ==> h[i].answer == h[j].answer)
            && (Life(h[i]) == Life(h[j]) && h[i].stage == h[j].stage ==> i == j)
  {
    EveryScheduleKeepsInv(schedule);
    var h := After(schedule).value.history;
    BackToBirth(h, i);
    BackToBirth(h, j);
  }

  lemma BackToBirth(h: seq<Record>, i: nat)
    requires Linked(h) && i < |h|
    ensures 1 <= Life(h[i]) <= h[i].version == i + 1
    ensures h[Life(h[i]) - 1].stage.Pending? && h[Life(h[i]) - 1].request == h[i].request
    ensures !h[i].stage.Pending? ==> h[Life(h[i])].answer == h[i].answer
  {
    assert Follows(h, i);
    if i > 0 { assert Follows(h, i - 1); }
    if i > 1 { assert Follows(h, i - 2); }
  }

  // A Begin answers with the version it wrote, and only what a Begin wrote is pending.
  ghost predicate BeginsAreTold(s: State) {
    forall v: nat :: Began(v) in s.outcomes <==> 1 <= v <= |s.history| && s.history[v - 1].stage.Pending?
  }

  lemma MovedIsTold(s: State, r: Record, c: nat, outcome: Outcome)
    requires BeginsAreTold(s) && r.version == |s.history| + 1
    requires if r.stage.Pending? then outcome == Began(r.version) else !outcome.Began?
    ensures BeginsAreTold(Reply(Store(s, r), c, outcome))
  {
    var t := Reply(Store(s, r), c, outcome);
    forall v: nat ensures Began(v) in t.outcomes <==> 1 <= v <= |t.history| && t.history[v - 1].stage.Pending? {
      assert Began(v) in t.outcomes <==> Began(v) in s.outcomes || Began(v) == outcome;
    }
  }

  lemma {:induction false} StepKeepsTold(s: State, step: Step)
    requires Inv(s) && BeginsAreTold(s) && Enabled(s, step)
    ensures BeginsAreTold(Apply(s, step))
  {
    if step.Write? {
      match s.calls[step.caller]
      case Beginning(now, request, expected) =>
        if Matches(s, expected) {
          var r := Record(expected + 1, Pending, request, now + LOGIN_EXPIRES_IN, 0, 0, false, 0);
          MovedIsTold(s, r, step.caller, Began(expected + 1));
        }
      case Answering(now, r, answer) =>
        if Matches(s, r.version) {
          var next := r.(version := r.version + 1, stage := Answered, answer := answer,
            retainedTo := now + ANSWER_RETENTION);
          MovedIsTold(s, next, step.caller, Admitted(r.version + 1));
        }
      case Collecting(now, r) => CollectKeepsTold(s, step.caller, now, r);
    }
  }

  lemma {:induction false} CollectKeepsTold(s: State, c: nat, now: nat, r: Record)
    requires Inv(s) && BeginsAreTold(s) && c in s.calls && s.calls[c] == Collecting(now, r)
    ensures BeginsAreTold(ApplyWrite(s, c))
  {
    if r.stage.Answered? && Matches(s, r.version) {
      var next := r.(polled := true, lastPoll := now, version := r.version + 1, stage := Collected);
      MovedIsTold(s, next, c, Handed(now, Core(r), r.version + 1, r.answer));
    }
  }

  lemma {:induction false} EveryBeginIsTold(schedule: seq<Step>)
    requires After(schedule).Some?
    ensures BeginsAreTold(After(schedule).value)
  {
    if schedule != [] {
      var init := schedule[..|schedule| - 1];
      EveryScheduleKeepsInv(init);
      EveryBeginIsTold(init);
      StepKeepsTold(After(init).value, schedule[|schedule| - 1]);
    }
  }

  // Between two versions of different lives a life begins, and a life begins at one version.
  lemma {:induction false} LivesDifferIffOneBegins(h: seq<Record>, i: nat, j: nat)
    requires Linked(h) && i <= j < |h|
    ensures Life(h[i]) == Life(h[j]) <==> forall k :: i < k <= j ==> !h[k].stage.Pending?
    decreases j
  {
    assert Follows(h, j);
    BackToBirth(h, i);
    if i < j {
      assert Follows(h, j - 1);
      LivesDifferIffOneBegins(h, i, j - 1);
      BackToBirth(h, j - 1);
      if !h[j].stage.Pending? { assert Life(h[j]) == Life(h[j - 1]); }
    }
  }

  // No Begin was answered with a version past the one read, up to the one answered from.
  ghost predicate NoneBegan(s: State, o: Outcome)
    requires o.Handed?
  {
    forall v: nat :: o.read.version < v <= o.version ==> Began(v) !in s.outcomes
  }

  lemma {:induction false} NoneBeganIffOneLife(s: State, o: Outcome)
    requires Linked(s.history) && BeginsAreTold(s) && o.Handed? && OutcomeOk(s.history, o)
    ensures Life(s.history[o.version - 1]) == Life(o.read) <==> NoneBegan(s, o)
  {
    var i, j := o.read.version - 1, o.version - 1;
    LivesDifferIffOneBegins(s.history, i, j);
    if NoneBegan(s, o) {
      forall n | i < n <= j ensures !s.history[n].stage.Pending? { assert Began(n + 1) !in s.outcomes; }
    }
  }

  // What a life hands out is what it was answered with.
  lemma {:induction false} OneLifeOneAnswer(h: seq<Record>, o: Outcome)
    requires Linked(h) && o.Handed? && OutcomeOk(h, o)
    ensures var taken := h[o.version - 1];
            && (Life(taken) == Life(o.read) ==> o.answer == o.read.answer && taken.request == o.read.request)
            && (o.read.stage.Collected? ==> Life(taken) == Life(o.read))
  {
    BackToBirth(h, o.version - 1);
    BackToBirth(h, o.read.version - 1);
  }

  lemma {:induction false} EveryOutcomeIsOk(schedule: seq<Step>, k: nat)
    requires After(schedule).Some? && k < |After(schedule).value.outcomes|
    ensures Linked(After(schedule).value.history) && BeginsAreTold(After(schedule).value)
    ensures OutcomeOk(After(schedule).value.history, After(schedule).value.outcomes[k])
  {
    EveryScheduleKeepsInv(schedule);
    EveryBeginIsTold(schedule);
  }

  /** An answer handed out is that of a life that was collected. It is of the life first read
      if and only if no Begin was answered with a version past the one read, up to the one
      the answer was taken from; it then is the answer read. Only a second read can find
      another. */
  lemma {:induction false} CollectIsOfItsLifeIff(schedule: seq<Step>, k: nat)
    requires After(schedule).Some? && k < |After(schedule).value.outcomes| && After(schedule).value.outcomes[k].Handed?
    ensures 1 <= After(schedule).value.outcomes[k].version <= |After(schedule).value.history|
    ensures var s := After(schedule).value; var o := s.outcomes[k]; var taken := s.history[o.version - 1];
            && taken.stage.Collected? && taken.answer == o.answer
            && (Life(taken) == Life(o.read) <==> NoneBegan(s, o))
            && (Life(taken) == Life(o.read) ==> o.answer == o.read.answer && taken.request == o.read.request)
            && (o.read.stage.Collected? ==> Life(taken) == Life(o.read))
  {
    EveryOutcomeIsOk(schedule, k);
    var s := After(schedule).value;
    NoneBeganIffOneLife(s, s.outcomes[k]);
    OneLifeOneAnswer(s.history, s.outcomes[k]);
  }

  // ---- What a caller can know beforehand: when logins were asked for.

  // Whatever a life was begun over, and whatever a Begin under way read, was gone by `last`.
  ghost predicate BegunBy(s: State, last: nat) {
    && (forall i :: 1 <= i < |s.history| && s.history[i].stage.Pending? ==> Gone(s.history[i - 1], last))
    && forall c :: c in s.calls && s.calls[c].Beginning? && 1 <= s.calls[c].expected <= |s.history| ==>
         Gone(s.history[s.calls[c].expected - 1], last)
  }

  lemma {:induction false} MovedIsBegunBy(s: State, r: Record, c: nat, outcome: Outcome, last: nat)
    requires Inv(s) && BegunBy(s, last) && r.version == |s.history| + 1
    requires r.stage.Pending? && s.history != [] ==> Gone(s.history[|s.history| - 1], last)
    ensures BegunBy(Reply(Store(s, r), c, outcome), last)
  {
    var t := Reply(Store(s, r), c, outcome);
    forall o | o in t.calls && t.calls[o].Beginning? && 1 <= t.calls[o].expected <= |t.history|
      ensures Gone(t.history[t.calls[o].expected - 1], last)
    {
      assert CallOk(s.history, s.calls[o]);
    }
  }

  lemma {:induction false} WriteKeepsBegunBy(s: State, c: nat, last: nat)
    requires Inv(s) && BegunBy(s, last) && Enabled(s, Write(c))
    ensures BegunBy(ApplyWrite(s, c), last)
  {
    assert CallOk(s.history, s.calls[c]);
    match s.calls[c]
    case Beginning(now, request, expected) =>
      if Matches(s, expected) {
        MovedIsBegunBy(s, Record(expected + 1, Pending, request, now + LOGIN_EXPIRES_IN, 0, 0, false, 0), c,
          Began(expected + 1), last);
      }
    case Answering(now, r, answer) =>
      if Matches(s, r.version) {
        var next := r.(version := r.version + 1, stage := Answered, answer := answer,
          retainedTo := now + ANSWER_RETENTION);
        MovedIsBegunBy(s, next, c, Admitted(r.version + 1), last);
      }
    case Collecting(now, r) => CollectKeepsBegunBy(s, c, now, r, last);
  }

  lemma {:induction false} CollectKeepsBegunBy(s: State, c: nat, now: nat, r: Record, last: nat)
    requires Inv(s) && BegunBy(s, last) && c in s.calls && s.calls[c] == Collecting(now, r)
    ensures BegunBy(ApplyWrite(s, c), last)
  {
    assert CallOk(s.history, s.calls[c]);
    if r.stage.Answered? && Matches(s, r.version) {
      var next := r.(polled := true, lastPoll := now, version := r.version + 1, stage := Collected);
      MovedIsBegunBy(s, next, c, Handed(now, Core(r), r.version + 1, r.answer), last);
    }
  }

  lemma BeginKeepsBegunBy(s: State, c: nat, now: nat, request: int, last: nat)
    requires Inv(s) && BegunBy(s, last) && now <= last
    ensures BegunBy(ApplyBegin(s, c, now, request), last)
  {
  }

  lemma {:induction false} StepKeepsBegunBy(s: State, step: Step, last: nat)
    requires Inv(s) && BegunBy(s, last) && Enabled(s, step) && (step.Begin? ==> step.now <= last)
    ensures BegunBy(Apply(s, step), last)
  {
    if step.Begin? {
      BeginKeepsBegunBy(s, step.caller, step.now, step.request, last);
    } else if step.Write? {
      WriteKeepsBegunBy(s, step.caller, last);
    } else {
      var t := Apply(s, step);
      assert t.history == s.history;
      assert forall c :: c in t.calls && t.calls[c].Beginning? ==> c in s.calls && s.calls[c] == t.calls[c];
    }
  }

  // Every login over the record was asked for by then.
  ghost predicate AskedBy(schedule: seq<Step>, last: nat) {
    forall i :: 0 <= i < |schedule| && schedule[i].Begin? ==> schedule[i].now <= last
  }

  lemma {:induction false} EveryLifeIsBegunBy(schedule: seq<Step>, last: nat)
    requires After(schedule).Some? && AskedBy(schedule, last)
    ensures BegunBy(After(schedule).value, last)
  {
    if schedule != [] {
      var init := schedule[..|schedule| - 1];
      EveryScheduleKeepsInv(init);
      assert AskedBy(init, last) by { forall i | 0 <= i < |init| ensures init[i] == schedule[i] {} }
      EveryLifeIsBegunBy(init, last);
      StepKeepsBegunBy(After(init).value, schedule[|schedule| - 1], last);
    }
  }

  // While an answered record is retained, nothing begins over it or over what it leads to.
  lemma {:induction false} NoneBeginsWhileRetained(h: seq<Record>, i: nat, j: nat, last: nat)
    requires Linked(h) && i <= j < |h| && !h[i].stage.Pending? && last < h[i].retainedTo
    requires forall k :: 1 <= k < |h| && h[k].stage.Pending? ==> Gone(h[k - 1], last)
    ensures Life(h[j]) == Life(h[i]) && !h[j].stage.Pending? && h[j].retainedTo == h[i].retainedTo
    decreases j
  {
    if i < j {
      NoneBeginsWhileRetained(h, i, j - 1, last);
      assert Follows(h, j) && Follows(h, j - 1);
    }
  }

  /** If every login over the record was asked for before the retention of what the collector
      read had ended, by the clock of whoever asked, the answer is the one it read. */
  lemma {:induction false} CollectIsOfItsLifeWhileRetained(schedule: seq<Step>, k: nat)
    requires After(schedule).Some? && k < |After(schedule).value.outcomes| && After(schedule).value.outcomes[k].Handed?
    requires forall i :: 0 <= i < |schedule| && schedule[i].Begin? ==>
               schedule[i].now < After(schedule).value.outcomes[k].read.retainedTo
    ensures var s := After(schedule).value; var o := s.outcomes[k];
            o.answer == o.read.answer && 1 <= o.version <= |s.history| && Life(s.history[o.version - 1]) == Life(o.read)
  {
    EveryOutcomeIsOk(schedule, k);
    var s := After(schedule).value;
    var o := s.outcomes[k];
    var last := o.read.retainedTo - 1;
    EveryLifeIsBegunBy(schedule, last);
    NoneBeginsWhileRetained(s.history, o.read.version - 1, o.version - 1, last);
    OneLifeOneAnswer(s.history, o);
  }

  /** Nothing is answered once it has expired, and nothing handed out that was asked for once
      the retention of what was read had ended. */
  lemma {:induction false} AnswersAreTimely(schedule: seq<Step>, i: nat, k: nat)
    requires After(schedule).Some? && i < |After(schedule).value.history| && k < |After(schedule).value.outcomes|
    ensures var r := After(schedule).value.history[i];
            !r.stage.Pending? ==> r.retainedTo - ANSWER_RETENTION < r.expiresAt
    ensures var o := After(schedule).value.outcomes[k]; o.Handed? ==> o.asked < o.read.retainedTo
  {
    EveryScheduleKeepsInv(schedule);
    assert Follows(After(schedule).value.history, i);
    assert OutcomeOk(After(schedule).value.history, After(schedule).value.outcomes[k]);
  }

  // Two more steps of a schedule.
  lemma {:induction false} Extend(schedule: seq<Step>, a: Step, b: Step)
    requires After(schedule).Some? && Enabled(After(schedule).value, a) && Enabled(Apply(After(schedule).value, a), b)
    ensures After(schedule + [a, b]) == Some(Apply(Apply(After(schedule).value, a), b))
  {
    assert (schedule + [a])[..|schedule|] == schedule;
    assert (schedule + [a, b])[..|schedule| + 1] == schedule + [a];
  }

  // The schedule can be taken and leaves the record and the calls under way as given.
  ghost predicate Reaches(schedule: seq<Step>, slot: Option<Record>, calls: map<nat, Call>) {
    && After(schedule).Some? && !After(schedule).value.swept
    && After(schedule).value.slot == slot && After(schedule).value.calls == calls
  }

  lemma Opens(schedule: seq<Step>, slot: Option<Record>, calls: map<nat, Call>, c: nat, now: nat, request: int)
    requires Reaches(schedule, slot, calls) && c !in calls
             && (slot.Some? ==> Gone(slot.value, now) && slot.value.version > 0)
    ensures Reaches(schedule + [Begin(c, now, request), Write(c)],
                    Some(Record((if slot.None? then 0 else slot.value.version) + 1, Pending, request,
                      now + LOGIN_EXPIRES_IN, 0, 0, false, 0)), calls)
  {
    Extend(schedule, Begin(c, now, request), Write(c));
  }

  lemma Answers(schedule: seq<Step>, r: Record, calls: map<nat, Call>, c: nat, now: nat, answer: int)
    requires Reaches(schedule, Some(r), calls) && c !in calls && r.stage.Pending? && !Gone(r, now) && r.version > 0
    ensures Reaches(schedule + [Answer(c, now, r.version, answer, true), Write(c)],
                    Some(r.(version := r.version + 1, stage := Answered, answer := answer,
                      retainedTo := now + ANSWER_RETENTION)), calls)
  {
    Extend(schedule, Answer(c, now, r.version, answer, true), Write(c));
  }

  // One login, begun and answered.
  function Login(c: nat, now: nat, version: nat, request: int, answer: int): seq<Step> {
    [Begin(c, now, request), Write(c)] + [Answer(c, now, version, answer, true), Write(c)]
  }

  lemma LoginRuns(schedule: seq<Step>, slot: Option<Record>, calls: map<nat, Call>, c: nat, now: nat, version: nat,
                  request: int, answer: int)
    requires Reaches(schedule, slot, calls) && c !in calls
             && (slot.Some? ==> Gone(slot.value, now) && slot.value.version > 0)
    requires version == (if slot.None? then 0 else slot.value.version) + 1
    ensures Reaches(schedule + Login(c, now, version, request, answer),
                    Some(Record(version + 1, Answered, request, now + LOGIN_EXPIRES_IN, now + ANSWER_RETENTION, answer,
                      false, 0)), calls)
  {
    Opens(schedule, slot, calls, c, now, request);
    var begun := schedule + [Begin(c, now, request), Write(c)];
    Answers(begun, Record(version, Pending, request, now + LOGIN_EXPIRES_IN, 0, 0, false, 0), calls, c, now, answer);
    assert begun + [Answer(c, now, version, answer, true), Write(c)] ==
           schedule + Login(c, now, version, request, answer);
  }

  // A first login answered and read by a collector who has yet to write; its retention
  // over, a second begun over it, answered and collected.
  function Straddling(): seq<Step> {
    Login(0, 0, 1, 1, 7) + [Collect(0, 0, true)] + Login(1, 300, 3, 2, 9) + [Collect(1, 300, true), Write(1)]
  }

  const FirstAnswered := Record(2, Answered, 1, 300, 300, 7, false, 0)
  const SecondAnswered := Record(4, Answered, 2, 600, 600, 9, false, 0)

  lemma FirstRuns()
    ensures Reaches(Login(0, 0, 1, 1, 7) + [Collect(0, 0, true)], Some(FirstAnswered),
            map[0 := Collecting(0, FirstAnswered)])
  {
    assert Reaches([], None, map[]);
    LoginRuns([], None, map[], 0, 0, 1, 1, 7);
    assert [] + Login(0, 0, 1, 1, 7) == Login(0, 0, 1, 1, 7);
    Reads(Login(0, 0, 1, 1, 7), FirstAnswered);
  }

  lemma SecondRuns()
    ensures Reaches(Login(0, 0, 1, 1, 7) + [Collect(0, 0, true)] + Login(1, 300, 3, 2, 9),
                    Some(SecondAnswered), map[0 := Collecting(0, FirstAnswered)])
  {
    FirstRuns();
    var read := Login(0, 0, 1, 1, 7) + [Collect(0, 0, true)];
    LoginRuns(read, Some(FirstAnswered), map[0 := Collecting(0, FirstAnswered)], 1, 300, 3, 2, 9);
  }

  lemma StraddlingRuns()
    ensures Reaches(Straddling(), Some(Record(5, Collected, 2, 600, 600, 9, true, 300)),
                    map[0 := Collecting(0, FirstAnswered)])
  {
    SecondRuns();
    Extend(Login(0, 0, 1, 1, 7) + [Collect(0, 0, true)] + Login(1, 300, 3, 2, 9), Collect(1, 300, true), Write(1));
  }

  lemma {:induction false} Reads(schedule: seq<Step>, r: Record)
    requires Reaches(schedule, Some(r), map[]) && !Gone(r, 0) && !r.polled
    ensures Reaches(schedule + [Collect(0, 0, true)], Some(r), map[0 := Collecting(0, r)])
  {
    assert (schedule + [Collect(0, 0, true)])[..|schedule|] == schedule;
  }

  /** A collector verified for one login can be handed the answer of the next: its write
      lost to a login begun over the record, its second read takes what is there. */
  lemma CollectCanStraddleTwoLives()
    ensures var s := After(Straddling() + [Write(0), Reread(0)]);
            && s.Some? && s.value.outcomes != []
            && var o := s.value.outcomes[|s.value.outcomes| - 1];
               o.Handed? && o.read.request == 1 && o.read.answer == 7 && o.answer == 9
  {
    StraddlingRuns();
    Extend(Straddling(), Write(0), Reread(0));
  }
}

/**
 One login record over a compare-and-set store: Begin, Answer and Collect, interleaved at
 their reads and writes of the store by any number of callers, with sweeps in between.
 Clocks are parameters and need not agree. Proof and grant checks are given as answers.
 An id is not begun again once it has been swept.
 */
module LoginProtocol {
  import opened Wrappers

  const LOGIN_EXPIRES_IN := 300
  const ANSWER_RETENTION := 300
  const COLLECT_INTERVAL := 5

  datatype Stage = Pending | Answered | Collected

  // `request` stands for the nonce, browser, terms and validity a login was begun with.
  datatype Record = Record(
    version: nat, stage: Stage, request: int, expiresAt: nat, retainedTo: nat, answer: int,
    polled: bool, lastPoll: nat)

  predicate Gone(r: Record, now: nat) {
    match r.stage
    case Pending => now >= r.expiresAt
    case _ => now >= r.retainedTo
  }

  // The record without the pacing, which moves no version.
  function Core(r: Record): Record { r.(polled := false, lastPoll := 0) }

  // A call between its read of the store and its write.
  datatype Call =
    | Beginning(now: nat, request: int, expected: nat)
    | Answering(now: nat, read: Record, answer: int)
    | Collecting(now: nat, read: Record)
    | Recollecting(now: nat, read: Record)  // the write was lost; about to read again

  // What calls answered. An answer handed out names when it was asked for, the record first
  // read, and the version of the one it was taken from.
  datatype Outcome =
    | InvalidRequest
    | InvalidGrant
    | ExpiredToken
    | AuthorizationPending
    | SlowDown
    | Began(version: nat)
    | Admitted(version: nat)
    | Handed(asked: nat, read: Record, version: nat, answer: int)

  // `history` lists, by version, every record the store has held.
  datatype State = State(slot: Option<Record>, swept: bool, history: seq<Record>, calls: map<nat, Call>,
    outcomes: seq<Outcome>)

  datatype Step =
    | Begin(caller: nat, now: nat, request: int)
    | Answer(caller: nat, now: nat, version: nat, answer: int, admitted: bool)
    | Collect(caller: nat, now: nat, verified: bool)
    | Write(caller: nat)
    | Reread(caller: nat)
    | Sweep(now: nat)

  function Init(): State { State(None, false, [], map[], []) }

  predicate Enabled(s: State, step: Step) {
    match step
    case Begin(c, _, _) => c !in s.calls
    case Answer(c, _, _, _, _) => c !in s.calls
    case Collect(c, _, _) => c !in s.calls
    case Write(c) => c in s.calls && !s.calls[c].Recollecting?
      && !(s.swept && s.calls[c].Beginning? && s.calls[c].expected == 0)
    case Reread(c) => c in s.calls && s.calls[c].Recollecting?
    case Sweep(_) => true
  }

  function Live(s: State, now: nat): bool { s.slot.Some? && !Gone(s.slot.value, now) }

  function Reply(s: State, c: nat, outcome: Outcome): State {
    s.(calls := s.calls - {c}, outcomes := s.outcomes + [outcome])
  }

  // Store.Put: zero expects the record absent.
  predicate Matches(s: State, expected: nat) {
    if expected == 0 then s.slot.None? else s.slot.Some? && s.slot.value.version == expected
  }

  // A write that moves the version, or one that only paces.
  function Store(s: State, r: Record): State {
    s.(slot := Some(r), history := if r.version > |s.history| then s.history + [Core(r)] else s.history)
  }

  function ApplyBegin(s: State, c: nat, now: nat, request: int): State {
    if Live(s, now) then Reply(s, c, InvalidRequest)
    else s.(calls := s.calls[c := Beginning(now, request, if s.slot.None? then 0 else s.slot.value.version)])
  }

  function ApplyAnswer(s: State, c: nat, now: nat, version: nat, answer: int, admitted: bool): State {
    if !Live(s, now) then Reply(s, c, ExpiredToken)
    else if !s.slot.value.stage.Pending? || s.slot.value.version != version then Reply(s, c, InvalidRequest)
    else if !admitted then Reply(s, c, InvalidGrant)
    else s.(calls := s.calls[c := Answering(now, s.slot.value, answer)])
  }

  function ApplyCollect(s: State, c: nat, now: nat, verified: bool): State {
    if !Live(s, now) then Reply(s, c, ExpiredToken)
    else if !verified then Reply(s, c, InvalidGrant)
    else if s.slot.value.polled && now < s.slot.value.lastPoll + COLLECT_INTERVAL then Reply(s, c, SlowDown)
    else s.(calls := s.calls[c := Collecting(now, s.slot.value)])
  }

  function ApplyWrite(s: State, c: nat): State
    requires c in s.calls && !s.calls[c].Recollecting?
  {
    match s.calls[c]
    case Beginning(now, request, expected) =>
      if !Matches(s, expected) then Reply(s, c, InvalidRequest)
      else Reply(Store(s, Record(expected + 1, Pending, request, now + LOGIN_EXPIRES_IN, 0, 0, false, 0)), c,
        Began(expected + 1))
    case Answering(now, r, answer) =>
      if !Matches(s, r.version) then Reply(s, c, InvalidRequest)
      else Reply(Store(s,
        r.(version := r.version + 1, stage := Answered, answer := answer, retainedTo := now + ANSWER_RETENTION)),
                 c, Admitted(r.version + 1))
    case Collecting(now, r) =>
      var paced := r.(polled := true, lastPoll := now);
      match r.stage
      case Pending => Reply(if Matches(s, r.version) then Store(s, paced) else s, c, AuthorizationPending)
      case Answered =>
        if !Matches(s, r.version) then s.(calls := s.calls[c := Recollecting(now, r)])
        else Reply(Store(s, paced.(version := r.version + 1, stage := Collected)), c,
          Handed(now, Core(r), r.version + 1, r.answer))
      case Collected =>
        Reply(if Matches(s, r.version) then Store(s, paced) else s, c, Handed(now, Core(r), r.version, r.answer))
  }

  function ApplyReread(s: State, c: nat): State
    requires c in s.calls && s.calls[c].Recollecting?
  {
    if s.slot.None? || !s.slot.value.stage.Collected? then Reply(s, c, InvalidRequest)
    else Reply(s, c, Handed(s.calls[c].now, Core(s.calls[c].read), s.slot.value.version, s.slot.value.answer))
  }

  function Apply(s: State, step: Step): State
    requires Enabled(s, step)
  {
    match step
    case Begin(c, now, request) => ApplyBegin(s, c, now, request)
    case Answer(c, now, version, answer, admitted) => ApplyAnswer(s, c, now, version, answer, admitted)
    case Collect(c, now, verified) => ApplyCollect(s, c, now, verified)
    case Write(c) => ApplyWrite(s, c)
    case Reread(c) => ApplyReread(s, c)
    case Sweep(now) => if s.slot.Some? && Gone(s.slot.value, now) then s.(slot := None, swept := true) else s
  }

  // ---- Lives: a version has one record, and says how far its life has come.

  function Rank(stage: Stage): nat {
    match stage
    case Pending => 0
    case Answered => 1
    case Collected => 2
  }

  // The version the record's life began at.
  function Life(r: Record): int { r.version - Rank(r.stage) }

  // A record follows from the one a version before: it begins a life, or moves it on.
  predicate Follows(history: seq<Record>, i: nat)
    requires i < |history|
  {
    var r := history[i];
    && r.version == i + 1
    && (!r.stage.Pending? ==>
          i > 0 && Rank(history[i - 1].stage) == Rank(r.stage) - 1 && history[i - 1].request == r.request
          && history[i - 1].expiresAt == r.expiresAt && r.retainedTo < r.expiresAt + ANSWER_RETENTION
          && (r.stage.Collected? ==> history[i - 1].answer == r.answer && history[i - 1].retainedTo == r.retainedTo))
  }

  ghost predicate Linked(history: seq<Record>) { forall i :: 0 <= i < |history| ==> Follows(history, i) }

  // The record has been in the store.
  predicate Known(history: seq<Record>, r: Record) {
    1 <= r.version <= |history| && history[r.version - 1] == Core(r)
  }

  predicate CallOk(history: seq<Record>, call: Call) {
    match call
    case Beginning(_, _, expected) => expected <= |history|
    case Answering(now, r, _) => Known(history, r) && r.stage.Pending? && !Gone(r, now)
    case Collecting(now, r) => Known(history, r) && !Gone(r, now)
    case Recollecting(now, r) => Known(history, r) && r.stage.Answered? && !Gone(r, now)
  }

  // An answer is handed out as a record of the store has it: of the life first read, or,
  // read again, of one already collected.
  predicate OutcomeOk(history: seq<Record>, outcome: Outcome) {
    outcome.Handed? ==>
      && Known(history, outcome.read) && !outcome.read.stage.Pending? && outcome.asked < outcome.read.retainedTo
      && 1 <= outcome.version <= |history|
      && history[outcome.version - 1].stage.Collected? && history[outcome.version - 1].answer == outcome.answer
      && outcome.version >= outcome.read.version
         && (outcome.read.stage.Collected? ==> outcome.version == outcome.read.version)
  }

  ghost predicate Inv(s: State) {
    && Linked(s.history)
    && (s.slot.Some? ==> s.slot.value.version == |s.history| && Known(s.history, s.slot.value))
    && (s.slot.None? ==> s.swept || s.history == []) && (s.swept ==> s.slot.None?)
    && (forall c :: c in s.calls ==> CallOk(s.history, s.calls[c]))
    && forall i :: 0 <= i < |s.outcomes| ==> OutcomeOk(s.history, s.outcomes[i])
  }

  // ---- What every step keeps.

  lemma HistoryGrows(h: seq<Record>, r: Record, call: Call, outcome: Outcome)
    ensures CallOk(h, call) ==> CallOk(h + [r], call)
    ensures OutcomeOk(h, outcome) ==> OutcomeOk(h + [r], outcome)
  {
  }

  lemma LinkedGrows(h: seq<Record>, r: Record)
    requires Linked(h) && Follows(h + [r], |h|)
    ensures Linked(h + [r])
  {
    forall i | 0 <= i < |h + [r]| ensures Follows(h + [r], i) {
      if i < |h| { assert Follows(h, i); }
    }
  }

  // A write that matched the current version and moves it by one.
  lemma MovingKeepsInv(s: State, r: Record)
    requires Inv(s) && r.version == |s.history| + 1 && !s.swept && Follows(s.history + [Core(r)], |s.history|)
    ensures Inv(Store(s, r))
  {
    LinkedGrows(s.history, Core(r));
    forall c | c in s.calls ensures CallOk(s.history + [Core(r)], s.calls[c]) {
      HistoryGrows(s.history, Core(r), s.calls[c], SlowDown);
    }
    forall i | 0 <= i < |s.outcomes| ensures OutcomeOk(s.history + [Core(r)], s.outcomes[i]) {
      HistoryGrows(s.history, Core(r), Recollecting(0, r), s.outcomes[i]);
    }
  }

  lemma ReplyKeepsInv(s: State, c: nat, outcome: Outcome)
    requires Inv(s) && OutcomeOk(s.history, outcome)
    ensures Inv(Reply(s, c, outcome))
  {
  }

  lemma CallKeepsInv(s: State, c: nat, call: Call)
    requires Inv(s) && CallOk(s.history, call)
    ensures Inv(s.(calls := s.calls[c := call]))
  {
  }

  lemma PacingKeepsInv(s: State, r: Record, now: nat)
    requires Inv(s) && Known(s.history, r) && Matches(s, r.version)
    ensures var t := Store(s, r.(polled := true, lastPoll := now)); Inv(t) && t.history == s.history
  {
  }

  lemma {:induction false} WriteKeepsInv(s: State, c: nat)
    requires Inv(s) && Enabled(s, Write(c))
    ensures Inv(ApplyWrite(s, c))
  {
    match s.calls[c]
    case Beginning(now, request, expected) =>
      if Matches(s, expected) {
        var r := Record(expected + 1, Pending, request, now + LOGIN_EXPIRES_IN, 0, 0, false, 0);
        MovingKeepsInv(s, r);
        ReplyKeepsInv(Store(s, r), c, Began(expected + 1));
      }
    case Answering(now, r, answer) =>
      if Matches(s, r.version) {
        var next := r.(version := r.version + 1, stage := Answered, answer := answer,
          retainedTo := now + ANSWER_RETENTION);
        MovingKeepsInv(s, next);
        ReplyKeepsInv(Store(s, next), c, Admitted(r.version + 1));
      }
    case Collecting(now, r) => CollectKeepsInv(s, c, now, r);
  }

  lemma CollectKeepsInv(s: State, c: nat, now: nat, r: Record)
    requires Inv(s) && c in s.calls && s.calls[c] == Collecting(now, r)
    ensures Inv(ApplyWrite(s, c))
  {
    match r.stage
    case Pending =>
      if Matches(s, r.version) { PacingKeepsInv(s, r, now); }
    case Answered =>
      if Matches(s, r.version) {
        var next := r.(polled := true, lastPoll := now, version := r.version + 1, stage := Collected);
        assert Follows(s.history, r.version - 1);
        MovingKeepsInv(s, next);
        ReplyKeepsInv(Store(s, next), c, Handed(now, Core(r), r.version + 1, r.answer));
      } else {
        CallKeepsInv(s, c, Recollecting(now, r));
      }
    case Collected =>
      if Matches(s, r.version) { PacingKeepsInv(s, r, now); }
  }

  lemma {:induction false} StepKeepsInv(s: State, step: Step)
    requires Inv(s) && Enabled(s, step)
    ensures Inv(Apply(s, step))
  {
    match step
    case Begin(c, now, request) =>
      if !Live(s, now) {
        CallKeepsInv(s, c, Beginning(now, request, if s.slot.None? then 0 else s.slot.value.version));
      }
    case Answer(c, now, version, answer, admitted) =>
    case Collect(c, now, verified) =>
    case Write(c) => WriteKeepsInv(s, c);
    case Reread(c) => if s.slot.Some? && s.slot.value.stage.Collected? {
      ReplyKeepsInv(s, c, Handed(s.calls[c].now, Core(s.calls[c].read), s.slot.value.version, s.slot.value.answer));
    }
    case Sweep(now) =>
  }

  // The state after a schedule, if every step of it can be taken.
  function After(schedule: seq<Step>): Option<State> {
    if schedule == [] then Some(Init())
    else
      var before := After(schedule[..|schedule| - 1]);
      var step := schedule[|schedule| - 1];
      if before.None? || !Enabled(before.value, step) then None else Some(Apply(before.value, step))
  }

  lemma {:induction false} EveryScheduleKeepsInv(schedule: seq<Step>)
    requires After(schedule).Some?
    ensures Inv(After(schedule).value)
  {
    if schedule != [] {
      var init, step := schedule[..|schedule| - 1], schedule[|schedule| - 1];
      EveryScheduleKeepsInv(init);
      StepKeepsInv(After(init).value, step);
    }
  }
}

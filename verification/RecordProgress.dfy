/**
 That a recorded wire gets on: what overflow takes, and how followers and recorder catch up.
 */
module RecordProgress {
  import opened RecordProtocol
  import opened RecordRuns
  import opened Wrappers

  // ---- Overflow.

  // The follower was offered the entry with no room left for it.
  ghost predicate OfferedInFull(c: Config, schedule: seq<Step>, j: nat, id: nat, entry: WireRecord) {
    && j < |schedule| && schedule[j] == Recorder(Offer(id)) && After(c, schedule[..j]).Some?
    && var s := After(c, schedule[..j]).value;
       && s.phase.Offering? && s.phase.entry == entry && id in s.followers
       && !s.followers[id].stopped && |s.followers[id].live| == c.capacity
  }

  predicate Overflowed(p: Phase, id: nat) { (p.Offering? || p.Overflowing?) && id in p.full }

  // What is to be ended was so before, for the same entry, or was just offered it in full.
  lemma OverflowComesInFull(s: State, step: Step, id: nat)
    requires Inv(s) && Enabled(s, step) && Overflowed(Apply(s, step).phase, id)
    ensures var entry := Apply(s, step).phase.entry;
            || (Overflowed(s.phase, id) && s.phase.entry == entry)
            || (step == Recorder(Offer(id)) && s.phase.Offering? && s.phase.entry == entry && id in s.followers
                && !s.followers[id].stopped && |s.followers[id].live| == s.config.capacity)
  {
    assert step.Recorder?  || Apply(s, step).phase == s.phase;
    if step == Recorder(Offer(id)) { assert FollowerIsOk(s, id); }
  }

  lemma OfferedStays(c: Config, schedule: seq<Step>, step: Step, j: nat, id: nat, entry: WireRecord)
    requires OfferedInFull(c, schedule, j, id, entry)
    ensures OfferedInFull(c, schedule + [step], j, id, entry)
  {
    assert (schedule + [step])[..j] == schedule[..j];
  }

  lemma OfferedJustNow(c: Config, schedule: seq<Step>, step: Step, id: nat, entry: WireRecord)
    requires After(c, schedule).Some? && step == Recorder(Offer(id))
    requires var s := After(c, schedule).value;
             && s.phase.Offering? && s.phase.entry == entry && id in s.followers
             && !s.followers[id].stopped && |s.followers[id].live| == c.capacity
    ensures OfferedInFull(c, schedule + [step], |schedule|, id, entry)
  {
    assert (schedule + [step])[..|schedule|] == schedule;
  }

  /** A follower about to be ended for overflow was offered that very entry, unstopped, with its
      hand-off at capacity. */
  lemma {:induction false} OverflowOnlyInFull(c: Config, schedule: seq<Step>, id: nat) returns (j: nat)
    requires ValidConfig(c) && After(c, schedule).Some? && Overflowed(After(c, schedule).value.phase, id)
    ensures OfferedInFull(c, schedule, j, id, After(c, schedule).value.phase.entry)
    decreases |schedule|
  {
    var init, step := schedule[..|schedule| - 1], schedule[|schedule| - 1];
    var s, entry := After(c, init).value, After(c, schedule).value.phase.entry;
    assert schedule == init + [step];
    EveryScheduleKeepsInv(c, init);
    OverflowComesInFull(s, step, id);
    if Overflowed(s.phase, id) && s.phase.entry == entry {
      j := OverflowOnlyInFull(c, init, id);
      OfferedStays(c, init, step, j, id, entry);
    } else {
      j := |init|;
      OfferedJustNow(c, init, step, id, entry);
    }
  }

  /** Offered an entry, a follower that is not stopped is handed it if there is room, and is else
      to be ended; whoever is stopped is left alone. */
  lemma OfferHandsOver(c: Config, schedule: seq<Step>, id: nat)
    requires ValidConfig(c) && After(c, schedule).Some? && Enabled(After(c, schedule).value, Recorder(Offer(id)))
    ensures var s := After(c, schedule).value; var t := Apply(s, Recorder(Offer(id)));
            var f, g := s.followers[id], t.followers[id];
            && t.phase.Offering? && id !in t.phase.todo && t.log == s.log && t.forwarded == s.forwarded
            && (!f.stopped && |f.live| < c.capacity <==>
               g == f.(live := f.live + [s.phase.entry]) && id !in t.phase.full)
            && (!f.stopped && |f.live| == c.capacity <==> id in t.phase.full)
            && (f.stopped || |f.live| == c.capacity ==> g == f)
  {
    EveryScheduleKeepsInv(c, schedule);
    assert FollowerIsOk(After(c, schedule).value, id);
  }

  // ---- A follower catches up.

  // Only those whose context ended stop working.
  predicate Willing(f: Follower) { f.worker.Finished? ==> Ended(f) }

  ghost predicate AllWilling(s: State) { forall id :: id in s.followers ==> Willing(s.followers[id]) }

  lemma {:induction false} StepKeepsWilling(s: State, step: Step)
    requires AllWilling(s) && Enabled(s, step)
    ensures AllWilling(Apply(s, step))
  {
  }

  lemma {:induction false} EveryFollowerIsWilling(c: Config, schedule: seq<Step>)
    requires After(c, schedule).Some?
    ensures AllWilling(After(c, schedule).value)
    decreases |schedule|
  {
    if schedule != [] {
      EveryFollowerIsWilling(c, schedule[..|schedule| - 1]);
      StepKeepsWilling(After(c, schedule[..|schedule| - 1]).value, schedule[|schedule| - 1]);
    }
  }

  // What a worker does of itself when nothing fails: no end, no failed read, no refused send.
  predicate Unfailing(act: FollowerAction) {
    act.ReadNext? || act.ReplayDone? || act.Receive? || act.Clear? || act == SendOut(false)
  }

  function ActRun(log: seq<Payload>, f: Follower, acts: seq<FollowerAction>): Option<Follower>
    decreases |acts|
  {
    if acts == [] then Some(f)
    else if ActEnabled(log, f, acts[0]) then ActRun(log, ApplyAct(log, f, acts[0]), acts[1..])
    else None
  }

  ghost predicate CaughtUp(f: Follower, head: nat) {
    f.worker.Live? && !Ended(f) && f.live == [] && f.hand.Nothing? && f.after + |f.sent| == head
  }

  function NextAct(f: Follower): FollowerAction {
    if f.hand.Cleared? then SendOut(false)
    else if f.hand.Fetched? then Clear
    else if f.worker.Replay? then (if f.worker.next <= f.head then ReadNext else ReplayDone)
    else Receive
  }

  // How far there is to go.
  function ToGo(f: Follower, head: nat): int {
    4 * (head - f.after - |f.sent|) + (if f.worker.Live? then 0 else 1) - if f.hand.Nothing? then 0
      else if f.hand.Fetched? then 1 else 2
  }

  lemma {:induction false} CatchesUp(log: seq<Payload>, head: nat, capacity: nat, f: Follower)
    returns (acts: seq<FollowerAction>)
    requires FollowerOk(log, head, false, true, capacity, f) && !Ended(f) && !f.worker.Finished?
    ensures forall i :: 0 <= i < |acts| ==> Unfailing(acts[i])
    ensures ActRun(log, f, acts).Some? && CaughtUp(ActRun(log, f, acts).value, head)
    decreases ToGo(f, head)
  {
    if f.worker.Live? && f.hand.Nothing? && f.live == [] {
      acts := [];
    } else {
      var act := NextAct(f);
      assert ActEnabled(log, f, act);
      var g := ApplyAct(log, f, act);
      ActKeepsFollower(log, head, false, true, capacity, f, act);
      assert !Ended(g) && !g.worker.Finished?;
      assert 0 <= ToGo(g, head) < ToGo(f, head);
      var rest := CatchesUp(log, head, capacity, g);
      acts := [act] + rest;
    }
  }

  // The worker's own steps, and where they take it.
  function ActsOf(id: nat, acts: seq<FollowerAction>): seq<Step> {
    seq(|acts|, i requires 0 <= i < |acts| => Act(id, acts[i]))
  }

  lemma {:induction false} ActsRun(s: State, id: nat, acts: seq<FollowerAction>)
    requires id in s.followers && ActRun(s.log, s.followers[id], acts).Some?
    ensures Run(s, ActsOf(id, acts)) ==
            Some(s.(followers := s.followers[id := ActRun(s.log, s.followers[id], acts).value]))
    decreases |acts|
  {
    if acts == [] {
      assert s.followers[id := s.followers[id]] == s.followers;
    } else {
      var t := Apply(s, Act(id, acts[0]));
      ActsRun(t, id, acts[1..]);
      assert ActsOf(id, acts)[0] == Act(id, acts[0]) && ActsOf(id, acts)[1..] == ActsOf(id, acts[1..]);
      var g := ActRun(s.log, s.followers[id], acts).value;
      assert t.followers[id := g] == s.followers[id := g];
    }
  }

  /** Between appends, by its own steps alone and none of them failing, a follower whose context
      has not ended comes to be live with nothing left to do, sent exactly (after, head]. */
  lemma {:induction false} FollowersCatchUp(c: Config, schedule: seq<Step>, id: nat) returns (acts: seq<FollowerAction>)
    requires ValidConfig(c) && After(c, schedule).Some?
    requires var s := After(c, schedule).value;
             BetweenAppends(s.phase) && id in s.followers && !Ended(s.followers[id])
    ensures forall i :: 0 <= i < |acts| ==> Unfailing(acts[i])
    ensures var s := After(c, schedule).value; var t := Run(s, ActsOf(id, acts));
            && t.Some? && id in t.value.followers && CaughtUp(t.value.followers[id], s.head)
            && IsRun(s.log, s.followers[id].after, t.value.followers[id].sent) && s.head == |s.log|
            && t.value.followers[id].after == s.followers[id].after
            && t.value == s.(followers := s.followers[id := t.value.followers[id]])
  {
    var s := After(c, schedule).value;
    EveryScheduleKeepsInv(c, schedule);
    EveryFollowerIsWilling(c, schedule);
    assert FollowerIsOk(s, id) && Willing(s.followers[id]);
    acts := CatchesUp(s.log, s.head, c.capacity, s.followers[id]);
    ActsRun(s, id, acts);
    ActRunKeeps(s.log, s.head, c.capacity, s.followers[id], acts);
  }

  lemma {:induction false} ActRunKeeps(log: seq<Payload>, head: nat, capacity: nat, f: Follower,
                                       acts: seq<FollowerAction>)
    requires FollowerOk(log, head, false, true, capacity, f) && ActRun(log, f, acts).Some?
    ensures var g := ActRun(log, f, acts).value; FollowerOk(log, head, false, true, capacity, g) && g.after == f.after
    decreases |acts|
  {
    if acts != [] {
      ActKeepsFollower(log, head, false, true, capacity, f, acts[0]);
      ActRunKeeps(log, head, capacity, ApplyAct(log, f, acts[0]), acts[1..]);
    }
  }

  // ---- The recorder works off what was admitted.

  // What the recorder does when nothing fails: a follow is refused only past the head.
  predicate Ordinary(s: State, action: RecorderAction) {
    match action
    case Leave => false
    case Drain => false
    case RefuseFollow => s.phase.Checked? && s.phase.command.AskFollow? && s.phase.command.after > s.head
    case AppendFails(_) => false
    case Forward(refused) => !refused
    case Fail => false
    case _ => true
  }

  ghost predicate OrdinaryRun(s: State, actions: seq<RecorderAction>)
    decreases |actions|
  {
    actions != [] ==>
      && RecorderEnabled(s, actions[0]) && Ordinary(s, actions[0])
      && OrdinaryRun(ApplyRecorder(s, actions[0]), actions[1..])
  }

  ghost function AfterRun(s: State, actions: seq<RecorderAction>): State
    requires OrdinaryRun(s, actions)
    decreases |actions|
  {
    if actions == [] then s else AfterRun(ApplyRecorder(s, actions[0]), actions[1..])
  }

  // The Heads asked for and not yet answered.
  function Asked(pending: seq<Command>): nat {
    if pending == [] then 0 else (if pending[0].AskHead? then 1 else 0) + Asked(pending[1..])
  }

  function Pending(s: State): seq<Command> { InFlight(s.phase) + s.queue }

  function Rank(p: Phase): nat {
    match p
    case Taken(_) => 6
    case Checked(_) => 5
    case Appended(_) => 4
    case Offering(_, _, _) => 3
    case Overflowing(_, _) => 2
    case Forwarding(_) => 1
    case _ => 0
  }

  function Left(p: Phase): nat {
    match p
    case Offering(_, todo, _) => |todo|
    case Overflowing(_, full) => |full|
    case _ => 0
  }

  // Open, working, with sequences left for all that was admitted.
  ghost predicate CanWork(s: State) {
    Inv(s) && !s.closed && Working(s.phase) && |s.config.initial| + |s.admitted| <= MAX_SEQUENCE
  }

  lemma {:induction false} FreshId(followers: map<nat, Follower>) returns (id: nat)
    ensures id !in followers
  {
    var bound := Bound(followers.Keys);
    id := bound;
  }

  lemma {:induction false} Bound(ids: set<nat>) returns (bound: nat)
    ensures forall id <- ids :: id < bound
    decreases |ids|
  {
    bound := 0;
    if ids != {} {
      var id :| id in ids;
      var rest := Bound(ids - {id});
      bound := rest + id + 1;
      assert forall other <- ids :: other == id || other in ids - {id};
    }
  }

  // What comes of the command in hand.
  lemma {:induction false} CommandNext(s: State) returns (action: RecorderAction)
    requires CanWork(s) && s.phase.Checked?
    ensures RecorderEnabled(s, action) && Ordinary(s, action)
    ensures s.phase.command.Send? ==> action == Append
    ensures s.phase.command.AskHead? ==> action == AnswerHead
    ensures s.phase.command.AskFollow? ==>
            if s.phase.command.after <= s.head then action.Attach? else action == RefuseFollow
  {
    match s.phase.command
    case Send(_) =>
      PendingConsume(|s.log| - |s.config.initial|, s.admitted, s.phase.command, s.queue);
      action := Append;
    case AskHead(_) => action := AnswerHead;
    case AskFollow(after, _) =>
      var id := FreshId(s.followers);
      action := if after <= s.head then Attach(id) else RefuseFollow;
  }

  // A step that comes nearer to having nothing to do.
  predicate Nearer(s: State, t: State) {
    || |t.queue| < |s.queue|
    || (|t.queue| == |s.queue| && Rank(t.phase) < Rank(s.phase))
    || (|t.queue| == |s.queue| && Rank(t.phase) == Rank(s.phase) && Left(t.phase) < Left(s.phase))
  }

  lemma OfferNext(s: State) returns (action: RecorderAction)
    requires FollowersOk(s) && s.phase.Offering?
    ensures RecorderEnabled(s, action) && Ordinary(s, action) && Nearer(s, ApplyRecorder(s, action))
  {
    if id :| id in s.phase.todo {
      action := Offer(id);
      assert |s.phase.todo - {id}| < |s.phase.todo|;
    } else { action := Unlock; }
  }

  lemma EndNext(s: State) returns (action: RecorderAction)
    requires FollowersOk(s) && s.phase.Overflowing?
    ensures RecorderEnabled(s, action) && Ordinary(s, action)
    ensures !s.closed ==> Nearer(s, ApplyRecorder(s, action))
  {
    if id :| id in s.phase.full {
      action := EndOverflowed(id);
      assert |s.phase.full - {id}| < |s.phase.full|;
    } else { action := Proceed; }
  }

  lemma {:induction false} Next(s: State) returns (action: RecorderAction)
    requires CanWork(s) && !(s.phase.Idle? && s.queue == [])
    ensures RecorderEnabled(s, action) && Ordinary(s, action) && Nearer(s, ApplyRecorder(s, action))
  {
    match s.phase
    case Idle => action := Take;
    case Taken(_) => action := Check;
    case Checked(_) => action := CommandNext(s);
    case Appended(_) => action := Lock;
    case Offering(_, _, _) => action := OfferNext(s);
    case Overflowing(_, _) => action := EndNext(s);
    case Forwarding(_) => action := Forward(false);
  }

  // What is pending stays so, but for what is answered.
  ghost predicate GoesOn(s: State, t: State) {
    && !t.closed && Working(t.phase) && t.admitted == s.admitted && t.config == s.config
    && |t.heads| + Asked(Pending(t)) == |s.heads| + Asked(Pending(s))
  }

  lemma CheckedGoesOn(s: State, action: RecorderAction)
    requires !s.closed && s.phase.Checked? && RecorderEnabled(s, action) && Ordinary(s, action)
    ensures GoesOn(s, ApplyRecorder(s, action))
  {
    assert Pending(s)[1..] == s.queue == Pending(ApplyRecorder(s, action));
  }

  lemma PendingGoesOn(s: State, action: RecorderAction)
    requires !s.closed && Working(s.phase) && RecorderEnabled(s, action) && Ordinary(s, action)
    ensures GoesOn(s, ApplyRecorder(s, action))
  {
    if s.phase.Checked? {
      CheckedGoesOn(s, action);
    } else {
      assert Pending(ApplyRecorder(s, action)) == Pending(s);
    }
  }

  // A step of ordinary work leaves the recorder open and working, and answers what it takes up.
  lemma {:induction false} WorkGoesOn(s: State, action: RecorderAction)
    requires CanWork(s) && RecorderEnabled(s, action) && Ordinary(s, action)
    ensures var t := ApplyRecorder(s, action);
            CanWork(t) && t.admitted == s.admitted && |t.heads| + Asked(Pending(t)) == |s.heads| + Asked(Pending(s))
  {
    RecorderKeepsInv(s, action);
    PendingGoesOn(s, action);
  }

  /** As long as it is open, and sequences are left, the recorder can work off all that was
      admitted without failing: then the log holds every Send admitted, the target has been sent
      them all, and every Head asked for has been answered. */
  lemma {:induction false} WorksOff(s: State) returns (actions: seq<RecorderAction>)
    requires CanWork(s)
    ensures OrdinaryRun(s, actions)
    ensures var t := AfterRun(s, actions);
            && CanWork(t) && t.phase.Idle? && t.queue == [] && t.admitted == s.admitted
            && |t.heads| == |s.heads| + Asked(Pending(s))
    decreases |s.queue|, Rank(s.phase), Left(s.phase)
  {
    if s.phase.Idle? && s.queue == [] {
      actions := [];
    } else {
      var action := Next(s);
      WorkGoesOn(s, action);
      var rest := WorksOff(ApplyRecorder(s, action));
      actions := [action] + rest;
    }
  }

  /** So from every reachable state. */
  lemma {:induction false} RecorderGetsOn(c: Config, schedule: seq<Step>) returns (actions: seq<RecorderAction>)
    requires ValidConfig(c) && After(c, schedule).Some?
    requires var s := After(c, schedule).value;
             !s.closed && Working(s.phase) && |c.initial| + |s.admitted| <= MAX_SEQUENCE
    ensures OrdinaryRun(After(c, schedule).value, actions)
    ensures var s := After(c, schedule).value; var t := AfterRun(s, actions);
            && t.phase.Idle? && t.queue == [] && !t.closed && t.admitted == s.admitted
            && t.log == c.initial + s.admitted && t.head == |t.log|
            && IsRun(t.log, |c.initial|, t.forwarded) && |t.forwarded| == |s.admitted|
            && |t.heads| == |s.heads| + Asked(Pending(s))
  {
    EveryScheduleKeepsInv(c, schedule);
    var s := After(c, schedule).value;
    actions := WorksOff(s);
    RunKeepsConfig(s, actions);
    AllIsStored(AfterRun(s, actions));
  }

  lemma {:induction false} RunKeepsConfig(s: State, actions: seq<RecorderAction>)
    requires OrdinaryRun(s, actions)
    ensures AfterRun(s, actions).config == s.config
    decreases |actions|
  {
    if actions != [] { RunKeepsConfig(ApplyRecorder(s, actions[0]), actions[1..]); }
  }

  lemma AllIsStored(t: State)
    requires Inv(t) && t.phase.Idle? && t.queue == []
    ensures t.log == t.config.initial + t.admitted && t.head == |t.log| && |t.forwarded| == |t.admitted|
  {
    var base := |t.log| - |t.config.initial|;
    assert InFlight(t.phase) + t.queue == [];
    assert t.admitted[base..] == [];
    assert t.admitted[..base] == t.admitted;
  }

  /** A follow asked for up to the head attaches a follower that has not ended, from the cursor
      asked for; so it can catch up from there. */
  lemma {:induction false} AttachedIsWorking(c: Config, schedule: seq<Step>, id: nat)
    requires ValidConfig(c) && After(c, schedule).Some? && Enabled(After(c, schedule).value, Recorder(Attach(id)))
    ensures var s := After(c, schedule).value; var t := Apply(s, Recorder(Attach(id)));
            && id !in s.followers && BetweenAppends(t.phase) && id in t.followers && id in t.registered
            && !Ended(t.followers[id]) && t.followers[id].sent == [] && t.followers[id].after == s.phase.command.after
            && t == s.(phase := Idle, registered := s.registered + {id},
               followers := s.followers[id := t.followers[id]])
            && CanCatchUp(t, id)
  {
    var s := After(c, schedule).value;
    EveryScheduleKeepsInv(c, schedule);
    EveryFollowerIsWilling(c, schedule);
    StepKeepsInv(s, Recorder(Attach(id)));
    var t := Apply(s, Recorder(Attach(id)));
    assert FollowerIsOk(t, id);
    var acts := CatchesUp(t.log, t.head, t.config.capacity, t.followers[id]);
    assert ActRun(t.log, t.followers[id], acts).Some?;
  }

  ghost predicate CanCatchUp(s: State, id: nat)
    requires id in s.followers
  {
    exists acts ::
      && ActRun(s.log, s.followers[id], acts).Some? && (forall i :: 0 <= i < |acts| ==> Unfailing(acts[i]))
      && CaughtUp(ActRun(s.log, s.followers[id], acts).value, s.head)
  }

  /** A request admitted is worked off after what was admitted before it: a Send is then last in
      the log and the last the target was sent, a Head has been answered. */
  lemma {:induction false} RequestsAreServed(c: Config, schedule: seq<Step>, request: Request)
    returns (actions: seq<RecorderAction>)
    requires ValidConfig(c) && After(c, schedule).Some? && !request.FollowOf?
    requires var s := After(c, schedule).value;
             && Enabled(s, Admit(request)) && Working(s.phase) && |c.initial| + |s.admitted| < MAX_SEQUENCE
    ensures var s := After(c, schedule).value; var t := Apply(s, Admit(request));
            && OrdinaryRun(t, actions)
            && var u := AfterRun(t, actions);
               && u.phase.Idle? && u.queue == [] && !u.closed
               && u.log == c.initial + s.admitted + (if request.SendOf? then [request.payload] else [])
               && IsRun(u.log, |c.initial|, u.forwarded) && |c.initial| + |u.forwarded| == |u.log|
               && |u.heads| == |s.heads| + Asked(Pending(s)) + if request.HeadOf? then 1 else 0
  {
    var s := After(c, schedule).value;
    var admit := Admit(request);
    assert (schedule + [admit])[..|schedule|] == schedule;
    actions := RecorderGetsOn(c, schedule + [admit]);
    var command := CommandOf(s, request);
    assert Pending(Apply(s, admit)) == Pending(s) + [command];
    AskedConcat(Pending(s), [command]);
  }

  lemma {:induction false} AskedConcat(a: seq<Command>, b: seq<Command>)
    ensures Asked(a + b) == Asked(a) + Asked(b)
  {
    if a == [] {
      assert a + b == b;
    } else {
      AskedConcat(a[1..], b);
      assert (a + b)[1..] == a[1..] + b;
    }
  }
}

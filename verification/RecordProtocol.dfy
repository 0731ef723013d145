/**
 A recorder appends every admitted Send to a log, forwards it to a target, and hands
 it to followers, which first replay the log from a cursor. Producers, recorder,
 followers and whoever closes are interleaved atomic steps: one per critical
 section, channel operation, storage call or carrier call.
 */
module RecordProtocol {
  import opened Wrappers

  const MAX_SEQUENCE: nat := 0x1F_FFFF_FFFF_FFFF

  datatype Payload = Payload(path: seq<string>, message: int)

  datatype WireRecord = WireRecord(sequence: nat, payload: Payload)

  // The counts `before` remember how many Sends had been admitted when the control
  // command was; the program does not store them.
  datatype Command =
    | Send(payload: Payload)
    | AskHead(before: nat)
    | AskFollow(after: nat, before: nat)

  // Where the recorder's worker is.
  datatype Phase =
    | Idle
    | Taken(command: Command)      // received from the queue
    | Checked(command: Command)    // and the recorder was still open
    | Appended(entry: WireRecord)  // stored, the lock not yet held
    | Offering(entry: WireRecord, todo: set<nat>, full: set<nat>) // holding the lock
    | Overflowing(entry: WireRecord, full: set<nat>)
    | Forwarding(entry: WireRecord)
    | Failing
    | Exited

  datatype Worker = Replay(next: nat) | Live | Finished

  datatype Hand = Nothing | Fetched(entry: WireRecord) | Cleared(entry: WireRecord)

  datatype Follower = Follower(
    after: nat, head: nat, worker: Worker, hand: Hand, live: seq<WireRecord>,
    stopped: bool, cancelled: bool, sent: seq<WireRecord>)
  {
    // Entries taken off the replay or the hand-off, sent or in hand.
    function Taken(): nat { |sent| + if hand.Nothing? then 0 else 1 }

    // The sequence up to which this follower has been provided for.
    function Position(): nat { if worker.Live? then after + Taken() + |live| else head + |live| }
  }

  datatype Config = Config(initial: seq<Payload>, capacity: nat)

  datatype State = State(
    config: Config, log: seq<Payload>, queue: seq<Command>, closed: bool, phase: Phase, head: nat,
    registered: set<nat>, followers: map<nat, Follower>,
    forwarded: seq<WireRecord>,          // what the target has been sent
    admitted: seq<Payload>,              // every Send that was admitted
    heads: seq<(nat, nat)>)              // answered Heads, each with its `before`

  datatype Request = SendOf(payload: Payload) | HeadOf | FollowOf(after: nat)

  datatype RecorderAction =
    | Take
    | Check
    | Leave                              // the worker notices the cancellation
    | Drain
    | AnswerHead
    | RefuseFollow                       // cancelled caller, cursor past the head, or closed
    | Attach(id: nat)
    | Append
    | AppendFails(stored: bool)          // an error, or a sequence that is not the next one
    | Lock
    | Offer(id: nat)
    | Unlock
    | EndOverflowed(id: nat)
    | Proceed
    | Forward(refused: bool)
    | Fail

  datatype FollowerAction =
    | Stop                               // the first half of Follower.end, by anyone
    | Cancel                             // the follower's own context ends
    | ReadNext
    | ReadFails
    | ReplayDone
    | Receive
    | Clear
    | SendOut(refused: bool)
    | Quit

  datatype Step =
    | Admit(request: Request)
    | EndRecorder                        // Close, or an overflowing admission
    | Recorder(action: RecorderAction)
    | Act(id: nat, act: FollowerAction)
    | Unregister(id: nat)                // the second half of Follower.end
    | DrainFollower(id: nat)

  predicate ValidConfig(c: Config) { c.capacity > 0 && |c.initial| <= MAX_SEQUENCE }

  function Init(c: Config): State {
    State(c, c.initial, [], false, Idle, |c.initial|, {}, map[], [], [], [])
  }

  // The recorder's mutex is held across steps only while it offers an entry.
  predicate LockFree(s: State) { !s.phase.Offering? }

  predicate Ended(f: Follower) { f.stopped || f.cancelled }

  predicate Enabled(s: State, step: Step) {
    match step
    case Admit(_) => LockFree(s) && !s.closed && |s.queue| < s.config.capacity
    case EndRecorder => LockFree(s)
    case Recorder(action) => RecorderEnabled(s, action)
    case Act(id, act) => id in s.followers && ActEnabled(s.log, s.followers[id], act)
    case Unregister(id) => LockFree(s) && id in s.followers && s.followers[id].stopped
    case DrainFollower(id) =>
      id in s.followers && s.followers[id].worker.Finished? && s.followers[id].stopped && id !in s.registered
  }

  predicate RecorderEnabled(s: State, action: RecorderAction) {
    match action
    case Take => s.phase.Idle? && s.queue != []
    case Check => s.phase.Taken?
    case Leave => s.phase.Idle? && s.closed
    case Drain => s.phase.Exited?
    case AnswerHead => s.phase.Checked? && s.phase.command.AskHead?
    case RefuseFollow => s.phase.Checked? && s.phase.command.AskFollow?
    case Attach(id) =>
      s.phase.Checked? && s.phase.command.AskFollow? && s.phase.command.after <= s.head && !s.closed
        && id !in s.followers
    case Append => s.phase.Checked? && s.phase.command.Send? && s.head + 1 <= MAX_SEQUENCE
    case AppendFails(_) => s.phase.Checked? && s.phase.command.Send?
    case Lock => s.phase.Appended?
    case Offer(id) => s.phase.Offering? && id in s.phase.todo && id in s.followers
    case Unlock => s.phase.Offering? && s.phase.todo == {}
    case EndOverflowed(id) => s.phase.Overflowing? && id in s.phase.full && id in s.followers
    case Proceed => s.phase.Overflowing? && s.phase.full == {}
    case Forward(_) => s.phase.Forwarding?
    case Fail => s.phase.Failing?
  }

  predicate ActEnabled(log: seq<Payload>, f: Follower, act: FollowerAction) {
    match act
    case Stop => true
    case Cancel => true
    case ReadNext => f.worker.Replay? && f.hand.Nothing? && 1 <= f.worker.next <= f.head && f.worker.next <= |log|
    case ReadFails => f.worker.Replay? && f.hand.Nothing? && f.worker.next <= f.head
    case ReplayDone => f.worker.Replay? && f.hand.Nothing? && f.worker.next > f.head
    case Receive => f.worker.Live? && f.hand.Nothing? && f.live != []
    case Clear => f.hand.Fetched? && !f.worker.Finished?
    case SendOut(_) => f.hand.Cleared? && !f.worker.Finished?
    case Quit => f.hand.Nothing? && Ended(f)
  }

  function Apply(s: State, step: Step): State
    requires Enabled(s, step)
  {
    match step
    case Admit(request) => ApplyAdmit(s, CommandOf(s, request))
    case EndRecorder => s.(closed := true)
    case Recorder(action) => ApplyRecorder(s, action)
    case Act(id, act) => s.(followers := s.followers[id := ApplyAct(s.log, s.followers[id], act)])
    case Unregister(id) => s.(registered := s.registered - {id})
    case DrainFollower(id) => s.(followers := s.followers[id := s.followers[id].(live := [])])
  }

  function CommandOf(s: State, request: Request): Command {
    match request
    case SendOf(payload) => Send(payload)
    case HeadOf => AskHead(|s.admitted|)
    case FollowOf(after) => AskFollow(after, |s.admitted|)
  }

  function ApplyAdmit(s: State, c: Command): State {
    s.(queue := s.queue + [c], admitted := if c.Send? then s.admitted + [c.payload] else s.admitted)
  }

  function ApplyRecorder(s: State, action: RecorderAction): State
    requires RecorderEnabled(s, action)
  {
    match action
    case Take => s.(queue := s.queue[1..], phase := Taken(s.queue[0]))
    case Check => s.(phase := if s.closed then Exited else Checked(s.phase.command))
    case Leave => s.(phase := Exited)
    case Drain => s.(queue := [])
    case AnswerHead => s.(phase := Idle, heads := s.heads + [(s.phase.command.before, s.head)])
    case RefuseFollow => s.(phase := Idle)
    case Attach(id) =>
      var f := Follower(s.phase.command.after, s.head, Replay(s.phase.command.after + 1), Nothing, [], false, false,
        []);
      s.(phase := Idle, registered := s.registered + {id}, followers := s.followers[id := f])
    case Append =>
      s.(log := s.log + [s.phase.command.payload], head := s.head + 1,
         phase := Appended(WireRecord(s.head + 1, s.phase.command.payload)))
    case AppendFails(stored) =>
      s.(log := if stored then s.log + [s.phase.command.payload] else s.log, phase := Failing)
    case Lock => s.(phase := Offering(s.phase.entry, s.registered, {}))
    case Offer(id) =>
      var f, p := s.followers[id], s.phase;
      if f.stopped then s.(phase := p.(todo := p.todo - {id}))
      else if |f.live| < s.config.capacity then
        s.(phase := p.(todo := p.todo - {id}), followers := s.followers[id := f.(live := f.live + [p.entry])])
      else s.(phase := p.(todo := p.todo - {id}, full := p.full + {id}))
    case Unlock => s.(phase := Overflowing(s.phase.entry, s.phase.full))
    case EndOverflowed(id) =>
      s.(phase := s.phase.(full := s.phase.full - {id}),
         followers := s.followers[id := ApplyAct(s.log, s.followers[id], Stop)])
    case Proceed => s.(phase := if s.closed then Exited else Forwarding(s.phase.entry))
    case Forward(refused) =>
      s.(forwarded := s.forwarded + [s.phase.entry], phase := if refused then Failing else Idle)
    case Fail => s.(closed := true, phase := Exited)
  }

  function ApplyAct(log: seq<Payload>, f: Follower, act: FollowerAction): Follower
    requires ActEnabled(log, f, act)
  {
    match act
    case Stop => f.(stopped := true, cancelled := true)
    case Cancel => f.(cancelled := true)
    case ReadNext =>
      f.(worker := Replay(f.worker.next + 1), hand := Fetched(WireRecord(f.worker.next, log[f.worker.next - 1])))
    case ReadFails => f.(worker := Finished, stopped := true, cancelled := true)
    case ReplayDone => f.(worker := Live)
    case Receive => f.(hand := Fetched(f.live[0]), live := f.live[1..])
    case Clear => if Ended(f) then f.(hand := Nothing, worker := Finished) else f.(hand := Cleared(f.hand.entry))
    case SendOut(refused) =>
      var sent := f.(hand := Nothing, sent := f.sent + [f.hand.entry]);
      if refused then sent.(worker := Finished, stopped := true, cancelled := true) else sent
    case Quit => f.(worker := Finished)
  }

  // The state a schedule leads to, if every step of it was possible.
  function After(c: Config, schedule: seq<Step>): Option<State> {
    if schedule == [] then Some(Init(c))
    else
      var before := After(c, schedule[..|schedule| - 1]);
      var step := schedule[|schedule| - 1];
      if before.Some? && Enabled(before.value, step) then Some(Apply(before.value, step)) else None
  }

  // ---- What every step keeps.

  /** The records are those of the log numbered from + 1 onwards, without gap or duplicate. */
  ghost predicate IsRun(log: seq<Payload>, from: nat, records: seq<WireRecord>) {
    && from + |records| <= |log|
    && forall i :: 0 <= i < |records| ==> records[i] == WireRecord(from + 1 + i, log[from + i])
  }

  // An entry appended and not yet put before this follower, or refused by its full hand-off.
  predicate Owed(p: Phase, id: nat) {
    p.Appended? || (p.Offering? && (id in p.todo || id in p.full)) || (p.Overflowing? && id in p.full)
  }

  /** What a follower was sent is a run of the log from its cursor; what it holds and what is
      queued for it continues that run; and unless stopped or finished, the run
      reaches the recorder's head, but for the one entry it may be owed. */
  ghost predicate FollowerOk(log: seq<Payload>, head: nat, owed: bool, registered: bool, capacity: nat, f: Follower) {
    && f.after <= f.head <= head <= |log|
    && f.after + f.Taken() <= |log|
    && IsRun(log, f.after, f.sent)
    && (!f.hand.Nothing? ==> f.hand.entry == WireRecord(f.after + |f.sent| + 1, log[f.after + |f.sent|]))
    && |f.live| <= capacity
    && (!f.stopped ==> registered)
    && (f.worker.Replay? ==> f.worker.next == f.after + f.Taken() + 1 <= f.head + 1)
    && (f.worker.Live? ==> f.after + f.Taken() >= f.head)
    && (!f.worker.Finished? ==> IsRun(log, f.Position() - |f.live|, f.live))
    && (!f.worker.Finished? && !f.stopped ==> f.Position() + (if owed then 1 else 0) == head)
  }

  function Sends(queue: seq<Command>): seq<Payload> {
    if queue == [] then []
    else
      var init := Sends(queue[..|queue| - 1]);
      match queue[|queue| - 1]
      case Send(payload) => init + [payload]
      case _ => init
  }

  function InFlight(p: Phase): seq<Command> {
    if p.Taken? || p.Checked? then [p.command] else []
  }

  predicate Working(p: Phase) { !p.Failing? && !p.Exited? }

  predicate Unforwarded(p: Phase) { p.Appended? || p.Offering? || p.Overflowing? || p.Forwarding? }

  // Every control command is fenced by exactly the Sends admitted before it.
  ghost predicate Fenced(base: nat, pending: seq<Command>) {
    forall i :: 0 <= i < |pending| && !pending[i].Send? ==> pending[i].before == base + |Sends(pending[..i])|
  }

  // The log is the initial log and then admitted Sends, in admission order.
  ghost predicate Stored(initial: seq<Payload>, log: seq<Payload>, admitted: seq<Payload>) {
    |initial| <= |log| <= |initial| + |admitted| && log == initial + admitted[..|log| - |initial|]
  }

  // The admitted Sends not yet stored are the pending ones.
  ghost predicate PendingOk(base: nat, admitted: seq<Payload>, pending: seq<Command>) {
    base <= |admitted| && admitted[base..] == Sends(pending) && Fenced(base, pending)
  }

  ghost predicate HeadsOk(start: nat, heads: seq<(nat, nat)>) {
    forall i :: 0 <= i < |heads| ==> heads[i].1 == start + heads[i].0
  }

  ghost predicate LogOk(s: State) {
    && var start := |s.config.initial|;
    && Stored(s.config.initial, s.log, s.admitted)
    && start <= s.head <= |s.log|
    && (Working(s.phase) ==>
          s.head == |s.log| && PendingOk(|s.log| - start, s.admitted, InFlight(s.phase) + s.queue))
    && |s.queue| <= s.config.capacity
    && HeadsOk(start, s.heads)
  }

  ghost predicate TargetOk(s: State) {
    && var start := |s.config.initial|;
    && start + |s.forwarded| <= s.head <= |s.log|
    && IsRun(s.log, start, s.forwarded)
    && (Working(s.phase) ==> start + |s.forwarded| + (if Unforwarded(s.phase) then 1 else 0) == s.head)
    && (Unforwarded(s.phase) ==> s.head > 0 && s.phase.entry == WireRecord(s.head, s.log[s.head - 1]))
  }

  ghost predicate FollowersOk(s: State) {
    && s.registered <= s.followers.Keys
    && (s.phase.Offering? ==> s.phase.todo + s.phase.full <= s.registered && s.phase.todo !! s.phase.full)
    && (s.phase.Overflowing? ==> s.phase.full <= s.followers.Keys)
    && forall id :: id in s.followers ==>
         FollowerOk(s.log, s.head, Owed(s.phase, id), id in s.registered, s.config.capacity, s.followers[id])
  }

  ghost predicate Inv(s: State) {
    ValidConfig(s.config) && LogOk(s) && TargetOk(s) && FollowersOk(s)
  }

  // ---- Lists of pending commands.

  lemma {:induction false} SendsConcat(a: seq<Command>, b: seq<Command>)
    ensures Sends(a + b) == Sends(a) + Sends(b)
  {
    if b == [] {
      assert a + b == a;
    } else {
      SendsConcat(a, b[..|b| - 1]);
      assert (a + b)[..|a + b| - 1] == a + b[..|b| - 1];
    }
  }

  lemma SendsOne(c: Command)
    ensures Sends([c]) == if c.Send? then [c.payload] else []
  {
    assert [c][..0] == [];
  }

  lemma {:induction false} FencedAppend(base: nat, pending: seq<Command>, c: Command)
    requires Fenced(base, pending)
    requires !c.Send? ==> c.before == base + |Sends(pending)|
    ensures Fenced(base, pending + [c])
    ensures Sends(pending + [c]) == Sends(pending) + if c.Send? then [c.payload] else []
  {
    SendsOne(c);
    SendsConcat(pending, [c]);
    var all := pending + [c];
    forall i | 0 <= i < |all| && !all[i].Send? ensures all[i].before == base + |Sends(all[..i])| {
      if i < |pending| {
        assert all[..i] == pending[..i] && all[i] == pending[i];
      } else {
        assert all[..i] == pending;
      }
    }
  }

  lemma FencedTail(base: nat, c: Command, rest: seq<Command>)
    requires Fenced(base, [c] + rest)
    ensures !c.Send? ==> c.before == base
    ensures Sends([c] + rest) == (if c.Send? then [c.payload] else []) + Sends(rest)
    ensures Fenced(base + if c.Send? then 1 else 0, rest)
  {
    var all := [c] + rest;
    assert all[..0] == [] && all[0] == c;
    SendsOne(c);
    SendsConcat([c], rest);
    forall i | 0 <= i < |rest| && !rest[i].Send?
      ensures rest[i].before == base + (if c.Send? then 1 else 0) + |Sends(rest[..i])|
    {
      assert all[i + 1] == rest[i] && all[..i + 1] == [c] + rest[..i];
      SendsConcat([c], rest[..i]);
    }
  }

  lemma PendingAdmit(base: nat, admitted: seq<Payload>, pending: seq<Command>, c: Command)
    requires PendingOk(base, admitted, pending) && (!c.Send? ==> c.before == |admitted|)
    ensures PendingOk(base, if c.Send? then admitted + [c.payload] else admitted, pending + [c])
  {
    FencedAppend(base, pending, c);
    if c.Send? {
      assert (admitted + [c.payload])[base..] == admitted[base..] + [c.payload];
    }
  }

  lemma PendingConsume(base: nat, admitted: seq<Payload>, c: Command, rest: seq<Command>)
    requires PendingOk(base, admitted, [c] + rest)
    ensures !c.Send? ==> c.before == base && PendingOk(base, admitted, rest)
    ensures c.Send? ==> base < |admitted| && admitted[base] == c.payload && PendingOk(base + 1, admitted, rest)
  {
    FencedTail(base, c, rest);
    if c.Send? {
      assert admitted[base..][0] == c.payload;
      assert admitted[base + 1..] == admitted[base..][1..];
    }
  }

  lemma StoredAppend(initial: seq<Payload>, log: seq<Payload>, admitted: seq<Payload>, p: Payload)
    requires Stored(initial, log, admitted)
    ensures Stored(initial, log, admitted + [p])
    ensures |log| - |initial| < |admitted| && admitted[|log| - |initial|] == p ==> Stored(initial, log + [p], admitted)
  {
    var n := |log| - |initial|;
    assert (admitted + [p])[..n] == admitted[..n];
    if n < |admitted| && admitted[n] == p {
      assert admitted[..n + 1] == admitted[..n] + [p];
    }
  }

  lemma AdmitKeepsLog(s: State, c: Command)
    requires LogOk(s) && |s.queue| < s.config.capacity
    requires !c.Send? ==> c.before == |s.admitted|
    ensures LogOk(ApplyAdmit(s, c))
  {
    if c.Send? {
      StoredAppend(s.config.initial, s.log, s.admitted, c.payload);
    }
    if Working(s.phase) {
      PendingAdmit(|s.log| - |s.config.initial|, s.admitted, InFlight(s.phase) + s.queue, c);
      assert InFlight(s.phase) + (s.queue + [c]) == InFlight(s.phase) + s.queue + [c];
    }
  }

  lemma ControlKeepsLog(s: State, t: State)
    requires LogOk(s) && s.phase.Checked? && !s.phase.command.Send? && t.phase.Idle?
    requires t.log == s.log && t.head == s.head && t.queue == s.queue && t.admitted == s.admitted
             && t.config == s.config
    requires t.heads == s.heads || t.heads == s.heads + [(s.phase.command.before, s.head)]
    ensures LogOk(t)
  {
    PendingConsume(|s.log| - |s.config.initial|, s.admitted, s.phase.command, s.queue);
    assert InFlight(t.phase) + t.queue == s.queue;
  }

  // The Send at hand is the first that is pending, and next in the log.
  lemma NextIsStored(s: State)
    requires LogOk(s) && s.phase.Checked? && s.phase.command.Send?
    ensures var log := s.log + [s.phase.command.payload];
            && Stored(s.config.initial, log, s.admitted)
            && PendingOk(|log| - |s.config.initial|, s.admitted, s.queue)
  {
    PendingConsume(|s.log| - |s.config.initial|, s.admitted, s.phase.command, s.queue);
    StoredAppend(s.config.initial, s.log, s.admitted, s.phase.command.payload);
  }

  lemma AppendKeepsLog(s: State, action: RecorderAction)
    requires LogOk(s) && RecorderEnabled(s, action) && (action.Append? || action.AppendFails?)
    ensures LogOk(ApplyRecorder(s, action))
  {
    NextIsStored(s);
    var t := ApplyRecorder(s, action);
    assert InFlight(t.phase) + t.queue == s.queue;
  }

  lemma TakeKeepsLog(s: State)
    requires LogOk(s) && RecorderEnabled(s, Take)
    ensures LogOk(ApplyRecorder(s, Take))
  {
    assert [s.queue[0]] + s.queue[1..] == [] + s.queue;
  }

  // Steps after which nothing has been admitted, stored or consumed.
  lemma QuietKeepsLog(s: State, t: State)
    requires LogOk(s) && t.log == s.log && t.head == s.head && t.admitted == s.admitted && t.heads == s.heads
             && t.config == s.config
    requires |t.queue| <= |s.queue|
    requires Working(t.phase) ==> Working(s.phase) && t.queue == s.queue && InFlight(t.phase) == InFlight(s.phase)
    ensures LogOk(t)
  {
  }

  lemma RecorderKeepsLog(s: State, action: RecorderAction)
    requires LogOk(s) && RecorderEnabled(s, action)
    ensures LogOk(ApplyRecorder(s, action))
  {
    var t := ApplyRecorder(s, action);
    match action {
      case Take => TakeKeepsLog(s);
      case AnswerHead => ControlKeepsLog(s, t);
      case RefuseFollow => ControlKeepsLog(s, t);
      case Attach(_) => ControlKeepsLog(s, t);
      case Append => AppendKeepsLog(s, action);
      case AppendFails(_) => AppendKeepsLog(s, action);
      case _ => QuietKeepsLog(s, t);
    }
  }

  // ---- The target.

  lemma AppendKeepsTarget(s: State, action: RecorderAction)
    requires LogOk(s) && TargetOk(s) && RecorderEnabled(s, action) && (action.Append? || action.AppendFails?)
    ensures TargetOk(ApplyRecorder(s, action))
  {
    var start := |s.config.initial|;
  }

  lemma ForwardKeepsTarget(s: State, refused: bool)
    requires LogOk(s) && TargetOk(s) && RecorderEnabled(s, Forward(refused))
    ensures TargetOk(ApplyRecorder(s, Forward(refused)))
  {
  }

  lemma QuietKeepsTarget(s: State, t: State)
    requires TargetOk(s) && t.log == s.log && t.forwarded == s.forwarded && t.head == s.head && t.config == s.config
    requires Working(t.phase) ==> Working(s.phase) && Unforwarded(t.phase) == Unforwarded(s.phase)
    requires Unforwarded(t.phase) ==> Unforwarded(s.phase) && t.phase.entry == s.phase.entry
    ensures TargetOk(t)
  {
  }

  lemma RecorderKeepsTarget(s: State, action: RecorderAction)
    requires LogOk(s) && TargetOk(s) && RecorderEnabled(s, action)
    ensures TargetOk(ApplyRecorder(s, action))
  {
    match action {
      case Append => AppendKeepsTarget(s, action);
      case AppendFails(_) => AppendKeepsTarget(s, action);
      case Forward(refused) => ForwardKeepsTarget(s, refused);
      case _ => QuietKeepsTarget(s, ApplyRecorder(s, action));
    }
  }

  // ---- One follower.

  lemma FollowerOkGrows(log: seq<Payload>, p: Payload, head: nat, owed: bool, registered: bool, capacity: nat,
                        f: Follower)
    requires FollowerOk(log, head, owed, registered, capacity, f)
    ensures FollowerOk(log + [p], head, owed, registered, capacity, f)
    ensures !owed && head < |log + [p]| ==> FollowerOk(log + [p], head + 1, true, registered, capacity, f)
  {
    if !f.worker.Finished? {
    }
  }

  lemma ReadKeepsFollower(log: seq<Payload>, head: nat, owed: bool, registered: bool, capacity: nat, f: Follower)
    requires FollowerOk(log, head, owed, registered, capacity, f) && ActEnabled(log, f, ReadNext)
    ensures FollowerOk(log, head, owed, registered, capacity, ApplyAct(log, f, ReadNext))
  {
  }

  lemma ReceiveKeepsFollower(log: seq<Payload>, head: nat, owed: bool, registered: bool, capacity: nat, f: Follower)
    requires FollowerOk(log, head, owed, registered, capacity, f) && ActEnabled(log, f, Receive)
    ensures FollowerOk(log, head, owed, registered, capacity, ApplyAct(log, f, Receive))
  {
  }

  lemma SendKeepsFollower(log: seq<Payload>, head: nat, owed: bool, registered: bool, capacity: nat, f: Follower,
                          refused: bool)
    requires FollowerOk(log, head, owed, registered, capacity, f) && ActEnabled(log, f, SendOut(refused))
    ensures FollowerOk(log, head, owed, registered, capacity, ApplyAct(log, f, SendOut(refused)))
  {
  }

  lemma {:induction false} ActKeepsFollower(log: seq<Payload>, head: nat, owed: bool, registered: bool, capacity: nat,
                                            f: Follower, act: FollowerAction)
    requires FollowerOk(log, head, owed, registered, capacity, f) && ActEnabled(log, f, act)
    ensures FollowerOk(log, head, owed, registered, capacity, ApplyAct(log, f, act))
  {
    match act {
      case ReadNext => ReadKeepsFollower(log, head, owed, registered, capacity, f);
      case Receive => ReceiveKeepsFollower(log, head, owed, registered, capacity, f);
      case SendOut(refused) => SendKeepsFollower(log, head, owed, registered, capacity, f, refused);
      case _ =>
    }
  }

  lemma OfferKeepsFollower(log: seq<Payload>, head: nat, capacity: nat, f: Follower, entry: WireRecord)
    requires FollowerOk(log, head, true, true, capacity, f) && |f.live| < capacity && !f.stopped
    requires 0 < head <= |log| && entry == WireRecord(head, log[head - 1])
    ensures FollowerOk(log, head, false, true, capacity, f.(live := f.live + [entry]))
  {
    if !f.worker.Finished? {
    }
  }

  ghost predicate FollowerIsOk(s: State, id: nat)
    requires id in s.followers
  {
    FollowerOk(s.log, s.head, Owed(s.phase, id), id in s.registered, s.config.capacity, s.followers[id])
  }

  lemma AppendKeepsFollowers(s: State, action: RecorderAction)
    requires Inv(s) && RecorderEnabled(s, action) && (action.Append? || action.AppendFails?)
    ensures FollowersOk(ApplyRecorder(s, action))
  {
    forall id | id in s.followers ensures FollowerIsOk(ApplyRecorder(s, action), id) {
      assert FollowerIsOk(s, id);
      FollowerOkGrows(s.log, s.phase.command.payload, s.head, false, id in s.registered, s.config.capacity,
        s.followers[id]);
    }
  }

  lemma {:induction false} OfferKeepsFollowers(s: State, id: nat)
    requires Inv(s) && RecorderEnabled(s, Offer(id))
    ensures FollowersOk(ApplyRecorder(s, Offer(id)))
  {
    var t := ApplyRecorder(s, Offer(id));
    forall x | x in t.followers ensures FollowerIsOk(t, x) {
      if x == id { OfferedIsOk(s, id); } else { assert FollowerIsOk(s, x); }
    }
  }

  lemma {:induction false} OfferedIsOk(s: State, id: nat)
    requires Inv(s) && RecorderEnabled(s, Offer(id))
    ensures FollowerIsOk(ApplyRecorder(s, Offer(id)), id)
  {
    assert FollowerIsOk(s, id);
    if !s.followers[id].stopped && |s.followers[id].live| < s.config.capacity {
      OfferKeepsFollower(s.log, s.head, s.config.capacity, s.followers[id], s.phase.entry);
    }
  }

  lemma AttachKeepsFollowers(s: State, id: nat)
    requires Inv(s) && RecorderEnabled(s, Attach(id))
    ensures FollowersOk(ApplyRecorder(s, Attach(id)))
  {
    var t := ApplyRecorder(s, Attach(id));
    forall x | x in t.followers ensures FollowerIsOk(t, x) {
      if x != id { assert FollowerIsOk(s, x); }
    }
  }

  lemma {:induction false} OverflowKeepsFollowers(s: State, id: nat)
    requires Inv(s) && RecorderEnabled(s, EndOverflowed(id))
    ensures FollowersOk(ApplyRecorder(s, EndOverflowed(id)))
  {
    var t := ApplyRecorder(s, EndOverflowed(id));
    ActKeepsFollower(s.log, s.head, true, id in s.registered, s.config.capacity, s.followers[id], Stop);
    forall x | x in t.followers ensures FollowerIsOk(t, x) {
      assert FollowerIsOk(s, x);
    }
  }

  lemma QuietKeepsFollowers(s: State, t: State)
    requires FollowersOk(s)
    requires t.followers == s.followers && t.log == s.log && t.head == s.head && t.registered == s.registered
             && t.config == s.config
    requires forall id :: id in s.registered ==> Owed(t.phase, id) == Owed(s.phase, id)
    requires t.phase.Offering? ==> t.phase.todo <= s.registered && t.phase.full == {}
    requires t.phase.Overflowing? ==> s.phase.Offering? && t.phase.full == s.phase.full
    ensures FollowersOk(t)
  {
    forall id | id in t.followers ensures FollowerIsOk(t, id) {
      assert FollowerIsOk(s, id);
    }
  }

  lemma {:induction false} RecorderKeepsFollowers(s: State, action: RecorderAction)
    requires Inv(s) && RecorderEnabled(s, action)
    ensures FollowersOk(ApplyRecorder(s, action))
  {
    match action {
      case Append => AppendKeepsFollowers(s, action);
      case AppendFails(_) => AppendKeepsFollowers(s, action);
      case Offer(id) => OfferKeepsFollowers(s, id);
      case Attach(id) => AttachKeepsFollowers(s, id);
      case EndOverflowed(id) => OverflowKeepsFollowers(s, id);
      case _ => QuietKeepsFollowers(s, ApplyRecorder(s, action));
    }
  }

  lemma {:induction false} FollowerStepKeepsFollowers(s: State, step: Step)
    requires Inv(s) && Enabled(s, step) && (step.Act? || step.Unregister? || step.DrainFollower?)
    ensures FollowersOk(Apply(s, step))
  {
    var t := Apply(s, step);
    forall id | id in t.followers ensures FollowerIsOk(t, id) {
      assert FollowerIsOk(s, id);
      if step.Act? && id == step.id {
        ActKeepsFollower(s.log, s.head, Owed(s.phase, id), id in s.registered, s.config.capacity, s.followers[id],
          step.act);
      }
    }
  }

  lemma AdmitKeepsInv(s: State, request: Request)
    requires Inv(s) && Enabled(s, Admit(request))
    ensures Inv(Apply(s, Admit(request)))
  {
    AdmitKeepsLog(s, CommandOf(s, request));
    var t := Apply(s, Admit(request));
    assert TargetOk(t);
    forall id | id in t.followers ensures FollowerIsOk(t, id) {
      assert FollowerIsOk(s, id);
    }
  }

  lemma {:induction false} RecorderKeepsInv(s: State, action: RecorderAction)
    requires Inv(s) && RecorderEnabled(s, action)
    ensures Inv(ApplyRecorder(s, action))
  {
    RecorderKeepsLog(s, action);
    RecorderKeepsTarget(s, action);
    RecorderKeepsFollowers(s, action);
    assert ApplyRecorder(s, action).config == s.config;
  }

  /** Every step keeps the invariant. */
  lemma {:induction false} StepKeepsInv(s: State, step: Step)
    requires Inv(s) && Enabled(s, step)
    ensures Inv(Apply(s, step))
  {
    if step.Admit? {
      AdmitKeepsInv(s, step.request);
    } else if step.Recorder? {
      RecorderKeepsInv(s, step.action);
    } else {
      var t := Apply(s, step);
      assert t.log == s.log && t.head == s.head && t.phase == s.phase && t.queue == s.queue;
      assert t.admitted == s.admitted && t.forwarded == s.forwarded && t.heads == s.heads && t.config == s.config;
      assert LogOk(t) && TargetOk(t);
      if !step.EndRecorder? {
        FollowerStepKeepsFollowers(s, step);
      }
    }
  }

  lemma {:induction false} EveryScheduleKeepsInv(c: Config, schedule: seq<Step>)
    requires ValidConfig(c) && After(c, schedule).Some?
    ensures Inv(After(c, schedule).value) && After(c, schedule).value.config == c
  {
    if schedule == [] {
      assert c.initial + [] == c.initial;
    } else {
      EveryScheduleKeepsInv(c, schedule[..|schedule| - 1]);
      StepKeepsInv(After(c, schedule[..|schedule| - 1]).value, schedule[|schedule| - 1]);
    }
  }
}

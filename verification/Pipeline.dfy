/**
  The outbound voice pipeline (sender.rs) as a transition system at lock granularity.

  The state is what concerns one message id: its `active` flag, its registry slot, its
  `retransmit_inflight` count, the task running its initial burst, the NACK listener while it works
  for this message, and every retransmit task spawned for it. Each action is one critical section,
  one status emission or one awaited result, so every interleaving of the tasks is a sequence of
  actions. `History` records what happened; no step reads it to decide anything.
 */
module Pipeline {
  import opened Words
  import opened Outgoing

  const LISTENER_ATTEMPTS: nat := 3
  const DRAIN_TIMEOUT: nat := 45_000_000_000
  const WAKE_GRACE: nat := 10_000_000

  datatype Config = Config(frames: seq<Bytes>, totalData: byte, linger: nat)
  {
    // what `build_message` delivers: at least one DATA chunk, and no more than 256 shards
    predicate Valid() {
      1 <= totalData <= |frames| <= 256
    }
  }

  datatype Status =
    | Sending(sent: nat)
    | BurstComplete
    | Retransmitting(chunks: seq<byte>)
    | Complete
    | GaveUp
    | Failed

  // ----- run_send

  datatype BurstPc =
    | Starting            // before reading the active entry
    | Counting            // before registry.data_count
    | Checking            // top of the frame loop
    | Enqueuing           // awaiting the TX worker for frame `next`
    | FailedActive        // `Failed` emitted, before active.remove
    | FailedRegistry      // before registry.remove
    | Lingering(until: nat)
    | DrainReading(deadline: nat)   // before reading the in-flight count
    | DrainTiming(deadline: nat)    // read a positive count, before reading the clock
    | Claiming            // left the drain loop, before active.remove
    | Completing          // claimed, before emitting `Complete`
    | Removing            // before registry.remove
    | Ended

  /** `next` is the first frame not handed over and released; `dataCount` the local `total_data`. */
  datatype Burst = Burst(pc: BurstPc, next: nat, dataCount: byte)

  // ----- nack_listener_task, while it works on a NACK for this message

  datatype Listener =
    | Idle
    | GivingUp            // give-up accepted, before emitting `GaveUp`
    | GaveUpActive        // before active.remove
    | GaveUpRegistry      // before registry.remove
    | Taking(missing: seq<byte>, attempt: nat, since: nat, rivals: nat)
    | Deferring(missing: seq<byte>, attempt: nat, since: nat, rivals: nat)
    | Arming(deadline: nat)        // defer_nack said Scheduled, before inflight_inc and the spawn
    | Announcing(plan: seq<byte>)  // took a plan, before emitting `Retransmitting`
    | Dispatching(plan: seq<byte>) // before inflight_inc and the spawn

  // ----- spawned retransmit tasks

  datatype Task =
    | Sleeping(deadline: nat)
    | Waking                           // slept, before take_deferred
    | WakeTaking(missing: seq<byte>, round: nat)
    | WakeDeferring(missing: seq<byte>, round: nat)
    | WakeRearming(deadline: nat)      // re-deferred itself, before inflight_inc and the spawn
    | WakeAnnouncing(plan: seq<byte>)
    | Shipping(todo: seq<byte>)        // awaiting a permit, or the TX worker for todo[0]
    | Releasing(todo: seq<byte>)       // an enqueue failed: clearing todo from the pending set
    | Exiting                          // before the guard's inflight_dec
    | Done
  {
    /** Chunks this task has taken from the registry and not yet released. */
    function Holds(): seq<byte> {
      match this
      case WakeAnnouncing(plan) => plan
      case Shipping(todo) => todo
      case Releasing(todo) => todo
      case _ => []
    }

    /** A wake-up that has not consumed the deferred list yet. */
    predicate IsWakeup() {
      Sleeping? || Waking? || WakeRearming?
    }

    predicate Live() {
      !Done?
    }
  }

  datatype Remover = Nobody | BySend | ByGiveUp | ByFailure

  datatype DrainExit = NotYet | ReadZero | TimedOut

  datatype History = History(
    remover: Remover,       // who removed the active entry
    lost: nat,              // terminal statuses whose sender then found the entry already gone
    drain: DrainExit,       // how run_send left its drain loop
    rounds: nat,            // NACK rounds the listener accepted
    stashed: seq<byte>,     // the list of the last defer_nack that stashed one
    stashedRound: nat,      // and the round it belongs to
    dropped: nat)           // rounds the listener gave up on after its three attempts

  datatype State = State(
    now: nat,
    ttl: nat,
    active: bool,
    entry: Slot,
    inflight: nat,
    burst: Burst,
    listener: Listener,
    tasks: seq<Task>,
    log: seq<Status>,
    hist: History)

  /** Right after `send` returned: registered, active, the burst task spawned. */
  function Init(c: Config, now: nat, ttl: nat): State
    requires c.Valid()
  {
    State(now, ttl, true, Some(InitialEntry(c.frames, c.totalData, now)), 0,
          Burst(Starting, 0, 0), Idle, [], [],
          History(Nobody, 0, NotYet, 0, [], 0, 0))
  }

  // ----- actions

  datatype EnvAction =
    | Tick(dt: nat)
    | SetTtl(seconds: nat)         // set_retain_ttl stores whole seconds, at least one
    | Prune(reading: nat)          // GC run by another message's send or finish

  datatype BurstAction =
    | Start | ReadCount | Check | Enqueued(ok: bool)
    | FailActive | FailRegistry
    | LingerOver | DrainRead | DrainTime | Claim | EmitComplete | FinalRemove

  datatype ListenerAction =
    | NackArrives(requested: seq<byte>, giveUp: bool)   // a trusted NACK for this id; active looked up
    | EmitGaveUp | GiveUpActive | GiveUpRegistry
    | ListenerTake(pacing: nat) | ListenerDefer | ListenerArm | ListenerAnnounce | ListenerDispatch

  datatype TaskAction =
    | Wake | TakeStash | WakeTake(pacing: nat) | WakeDefer | WakeRearm | WakeAnnounce
    | Shipped(ok: bool) | Release | Exit

  datatype Action =
    | Env(env: EnvAction)
    | Send(burst: BurstAction)
    | Listen(listen: ListenerAction)
    | Run(k: nat, task: TaskAction)

  // ----- steps

  ghost predicate EnvEnabled(s: State, a: EnvAction) {
    match a
    case Tick(_) => true
    case SetTtl(seconds) => seconds >= 1
    case Prune(reading) => reading <= s.now
  }

  function EnvStep(s: State, a: EnvAction): State {
    match a
    case Tick(dt) => s.(now := s.now + dt)
    case SetTtl(seconds) => s.(ttl := Seconds(seconds))
    case Prune(reading) => s.(entry := PruneSpec(s.entry, s.ttl, reading))
  }

  predicate BurstEnabled(c: Config, s: State, a: BurstAction) {
    match a
    case Start => s.burst.pc.Starting?
    case ReadCount => s.burst.pc.Counting?
    case Check => s.burst.pc.Checking?
    case Enqueued(_) => s.burst.pc.Enqueuing?
    case FailActive => s.burst.pc.FailedActive?
    case FailRegistry => s.burst.pc.FailedRegistry?
    case LingerOver => s.burst.pc.Lingering? && s.now >= s.burst.pc.until
    case DrainRead => s.burst.pc.DrainReading?
    case DrainTime => s.burst.pc.DrainTiming?
    case Claim => s.burst.pc.Claiming?
    case EmitComplete => s.burst.pc.Completing?
    case FinalRemove => s.burst.pc.Removing?
  }

  function Goto(s: State, pc: BurstPc): State {
    s.(burst := s.burst.(pc := pc))
  }

  /** `active.remove`, recording who found the entry there, or that a terminal status lost the race. */
  function RemoveActive(s: State, who: Remover): State {
    if s.active then s.(active := false, hist := s.hist.(remover := who))
    else s.(hist := s.hist.(lost := s.hist.lost + 1))
  }

  function BurstStep(c: Config, s: State, a: BurstAction): State
    requires BurstEnabled(c, s, a)
  {
    match a
    case Start => Goto(s, if s.active then Counting else Ended)
    case ReadCount =>
      s.(burst := Burst(Checking, 0, if s.entry.Some? then s.entry.value.totalData else |c.frames| % 256))
    case Check => Goto(s, if s.active then Enqueuing else Ended)
    case Enqueued(ok) =>
      if !ok then Goto(s.(log := s.log + [Failed]), FailedActive)
      else
        var b, next := s.burst, s.burst.next + 1;
        var last := next >= |c.frames|;
        s.(entry := if b.next < b.dataCount then MarkSentSpec(s.entry, b.next) else s.entry,
           log := s.log + [Sending(next)] + if last then [BurstComplete] else [],
           burst := Burst(if last then Lingering(s.now + c.linger) else Checking, next, b.dataCount))
    case FailActive => Goto(RemoveActive(s, ByFailure), FailedRegistry)
    case FailRegistry => Goto(s.(entry := None), Ended)
    case LingerOver => Goto(s, DrainReading(s.now + DRAIN_TIMEOUT))
    case DrainRead =>
      if s.inflight == 0 then Goto(s.(hist := s.hist.(drain := ReadZero)), Claiming)
      else Goto(s, DrainTiming(s.burst.pc.deadline))
    case DrainTime =>
      if s.now >= s.burst.pc.deadline then Goto(s.(hist := s.hist.(drain := TimedOut)), Claiming)
      else Goto(s, DrainReading(s.burst.pc.deadline))
    case Claim =>
      if s.active then Goto(RemoveActive(s, BySend), Completing) else Goto(s, Removing)
    case EmitComplete => Goto(s.(log := s.log + [Complete]), Removing)
    case FinalRemove => Goto(s.(entry := None), Ended)
  }

  ghost predicate ListenerEnabled(s: State, a: ListenerAction) {
    match a
    case NackArrives(requested, _) => s.listener.Idle? && StrictlyIncreasing(requested)
    case EmitGaveUp => s.listener.GivingUp?
    case GiveUpActive => s.listener.GaveUpActive?
    case GiveUpRegistry => s.listener.GaveUpRegistry?
    case ListenerTake(_) => s.listener.Taking?
    case ListenerDefer => s.listener.Deferring?
    case ListenerArm => s.listener.Arming?
    case ListenerAnnounce => s.listener.Announcing?
    case ListenerDispatch => s.listener.Dispatching?
  }

  /** Stash bookkeeping shared by the two callers of `defer_nack`. */
  function Stashing(s: State, outcome: DeferOutcome, missing: seq<byte>, round: nat): History {
    if outcome.Scheduled? || outcome.AlreadyScheduled? then s.hist.(stashed := missing, stashedRound := round)
    else s.hist
  }

  function ListenerStep(s: State, a: ListenerAction): State
    requires ListenerEnabled(s, a)
  {
    match a
    case NackArrives(requested, giveUp) =>
      if !s.active then s
      else if giveUp then s.(listener := GivingUp)
      else s.(listener := Taking(requested, 0, s.now, 0), hist := s.hist.(rounds := s.hist.rounds + 1))
    case EmitGaveUp => s.(log := s.log + [GaveUp], listener := GaveUpActive)
    case GiveUpActive => RemoveActive(s, ByGiveUp).(listener := GaveUpRegistry)
    case GiveUpRegistry => s.(entry := None, listener := Idle)
    case ListenerTake(pacing) =>
      var l := s.listener;
      var (entry, r) := TakeRetransmitSpec(s.entry, s.ttl, s.now, l.missing, pacing);
      s.(entry := entry,
         listener := match r
           case Ok(plan) => if plan == [] then Idle else Announcing(Indices(plan))
           case Err(CooldownActive) => Deferring(l.missing, l.attempt, l.since, l.rivals)
           case Err(_) => Idle)
    case ListenerDefer =>
      var l := s.listener;
      var (entry, outcome) := DeferNackSpec(s.entry, s.now, l.missing);
      var hist := Stashing(s, outcome, l.missing, s.hist.rounds);
      match outcome {
        case Scheduled(deadline) => s.(entry := entry, hist := hist, listener := Arming(deadline))
        case AlreadyScheduled => s.(entry := entry, hist := hist, listener := Idle)
        case CooldownElapsed =>
          if l.attempt + 1 < LISTENER_ATTEMPTS
          then s.(listener := Taking(l.missing, l.attempt + 1, l.since, l.rivals))
          else s.(listener := Idle, hist := s.hist.(dropped := s.hist.dropped + 1))
        case Gone => s.(listener := Idle)
      }
    case ListenerArm =>
      s.(inflight := s.inflight + 1, tasks := s.tasks + [Sleeping(s.listener.deadline)], listener := Idle)
    case ListenerAnnounce =>
      s.(log := s.log + [Retransmitting(s.listener.plan)], listener := Dispatching(s.listener.plan))
    case ListenerDispatch =>
      s.(inflight := s.inflight + 1, tasks := s.tasks + [Shipping(s.listener.plan)], listener := Idle)
  }

  predicate TaskEnabled(s: State, k: nat, a: TaskAction) {
    && k < |s.tasks|
    && match a
       case Wake => s.tasks[k].Sleeping? && s.now >= s.tasks[k].deadline + WAKE_GRACE
       case TakeStash => s.tasks[k].Waking?
       case WakeTake(_) => s.tasks[k].WakeTaking?
       case WakeDefer => s.tasks[k].WakeDeferring?
       case WakeRearm => s.tasks[k].WakeRearming?
       case WakeAnnounce => s.tasks[k].WakeAnnouncing?
       case Shipped(_) => s.tasks[k].Shipping? && s.tasks[k].todo != []
       case Release => s.tasks[k].Releasing? && s.tasks[k].todo != []
       case Exit => s.tasks[k].Exiting?
  }

  function SetTask(s: State, k: nat, t: Task): State
    requires k < |s.tasks|
  {
    s.(tasks := s.tasks[k := t])
  }

  /** A listener between its take and its defer counts the rounds others take meanwhile. */
  function Rival(l: Listener): Listener {
    match l
    case Taking(missing, attempt, since, rivals) => Taking(missing, attempt, since, rivals + 1)
    case Deferring(missing, attempt, since, rivals) => Deferring(missing, attempt, since, rivals + 1)
    case _ => l
  }

  function TaskStep(s: State, k: nat, a: TaskAction): State
    requires TaskEnabled(s, k, a)
  {
    var t := s.tasks[k];
    match a
    case Wake => SetTask(s, k, Waking)
    case TakeStash =>
      var (entry, stash) := TakeDeferredSpec(s.entry);
      SetTask(s.(entry := entry), k,
              if stash.Some? then WakeTaking(stash.value, s.hist.stashedRound) else Exiting)
    case WakeTake(pacing) =>
      var (entry, r) := TakeRetransmitSpec(s.entry, s.ttl, s.now, t.missing, pacing);
      SetTask(s.(entry := entry, listener := if r.Ok? then Rival(s.listener) else s.listener), k,
              match r
              case Ok(plan) => if plan == [] then Exiting else WakeAnnouncing(Indices(plan))
              case Err(CooldownActive) => WakeDeferring(t.missing, t.round)
              case Err(_) => Exiting)
    case WakeDefer =>
      var (entry, outcome) := DeferNackSpec(s.entry, s.now, t.missing);
      SetTask(s.(entry := entry, hist := Stashing(s, outcome, t.missing, t.round)), k,
              if outcome.Scheduled? then WakeRearming(outcome.deadline) else Exiting)
    case WakeRearm =>
      s.(inflight := s.inflight + 1, tasks := s.tasks[k := Exiting] + [Sleeping(t.deadline)])
    case WakeAnnounce =>
      SetTask(s.(log := s.log + [Retransmitting(t.plan)]), k, Shipping(t.plan))
    case Shipped(ok) =>
      if ok then
        SetTask(s.(entry := MarkSentSpec(s.entry, t.todo[0])), k,
                if |t.todo| == 1 then Exiting else Shipping(t.todo[1..]))
      else SetTask(s, k, Releasing(t.todo))
    case Release =>
      SetTask(s.(entry := MarkSentSpec(s.entry, t.todo[0])), k,
              if |t.todo| == 1 then Exiting else Releasing(t.todo[1..]))
    case Exit =>
      SetTask(s.(inflight := SaturatingSub(s.inflight, 1)), k, Done)
  }

  ghost predicate Enabled(c: Config, s: State, a: Action) {
    match a
    case Env(e) => EnvEnabled(s, e)
    case Send(b) => BurstEnabled(c, s, b)
    case Listen(l) => ListenerEnabled(s, l)
    case Run(k, t) => TaskEnabled(s, k, t)
  }

  ghost function Step(c: Config, s: State, a: Action): State
    requires Enabled(c, s, a)
  {
    match a
    case Env(e) => EnvStep(s, e)
    case Send(b) => BurstStep(c, s, b)
    case Listen(l) => ListenerStep(s, l)
    case Run(k, t) => TaskStep(s, k, t)
  }

  // ----- runs

  ghost predicate Legal(c: Config, s: State, run: seq<Action>)
    decreases |run|
  {
    run == [] || (Enabled(c, s, run[0]) && Legal(c, Step(c, s, run[0]), run[1..]))
  }

  /** The state a run of enabled actions leads to. */
  ghost function After(c: Config, s: State, run: seq<Action>): State
    requires Legal(c, s, run)
    decreases |run|
  {
    if run == [] then s else After(c, Step(c, s, run[0]), run[1..])
  }

  /** Some run of enabled actions leads from `s` to `t`. */
  ghost predicate Reaches(c: Config, s: State, t: State) {
    exists run :: Legal(c, s, run) && After(c, s, run) == t
  }

  lemma ReachesSelf(c: Config, s: State)
    ensures Reaches(c, s, s)
  {
    assert Legal(c, s, []) && After(c, s, []) == s;
  }

  lemma {:induction false} AfterAppend(c: Config, s: State, run: seq<Action>, a: Action)
    requires Legal(c, s, run) && Enabled(c, After(c, s, run), a)
    ensures Legal(c, s, run + [a]) && After(c, s, run + [a]) == Step(c, After(c, s, run), a)
    decreases |run|
  {
    if run == [] {
      assert run + [a] == [a];
    } else {
      AfterAppend(c, Step(c, s, run[0]), run[1..], a);
      assert (run + [a])[1..] == run[1..] + [a];
    }
  }

  lemma ReachesThen(c: Config, s: State, t: State, a: Action)
    requires Reaches(c, s, t) && Enabled(c, t, a)
    ensures Reaches(c, s, Step(c, t, a))
  {
    var run :| Legal(c, s, run) && After(c, s, run) == t;
    AfterAppend(c, s, run, a);
  }
}

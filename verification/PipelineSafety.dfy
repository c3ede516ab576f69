/**
  What every interleaving of the pipeline's tasks keeps.

  Eight invariants, each preserved by every action; `Always` joins them over all runs.
 */
module PipelineSafety {
  import opened Words
  import opened Outgoing
  import opened Pipeline

  // ----- sums over the task list

  /** How many tasks hold chunk `x`, counting a task once for each copy it holds. */
  function HeldBy(tasks: seq<Task>, x: byte): nat {
    if tasks == [] then 0
    else HeldBy(tasks[..|tasks| - 1], x) + multiset(tasks[|tasks| - 1].Holds())[x]
  }

  function Count(tasks: seq<Task>, p: Task -> bool): nat {
    if tasks == [] then 0
    else Count(tasks[..|tasks| - 1], p) + if p(tasks[|tasks| - 1]) then 1 else 0
  }

  lemma SumsAppend(tasks: seq<Task>, t: Task, x: byte, p: Task -> bool)
    ensures HeldBy(tasks + [t], x) == HeldBy(tasks, x) + multiset(t.Holds())[x]
    ensures Count(tasks + [t], p) == Count(tasks, p) + if p(t) then 1 else 0
  {
    assert (tasks + [t])[..|tasks|] == tasks;
  }

  lemma SumsUpdate(tasks: seq<Task>, k: nat, t: Task, x: byte, p: Task -> bool)
    requires k < |tasks|
    ensures HeldBy(tasks[k := t], x) + multiset(tasks[k].Holds())[x] == HeldBy(tasks, x) + multiset(t.Holds())[x]
    ensures Count(tasks[k := t], p) + (if p(tasks[k]) then 1 else 0) == Count(tasks, p) + if p(t) then 1 else 0
  {
    HeldByUpdate(tasks, k, t, x);
    CountUpdate(tasks, k, t, p);
  }

  lemma {:induction false} HeldByUpdate(tasks: seq<Task>, k: nat, t: Task, x: byte)
    requires k < |tasks|
    ensures HeldBy(tasks[k := t], x) + multiset(tasks[k].Holds())[x] == HeldBy(tasks, x) + multiset(t.Holds())[x]
  {
    var n, tasks' := |tasks| - 1, tasks[k := t];
    if k == n {
      assert tasks'[..n] == tasks[..n];
    } else {
      HeldByUpdate(tasks[..n], k, t, x);
      assert tasks'[..n] == tasks[..n][k := t];
      assert tasks'[n] == tasks[n];
    }
  }

  lemma {:induction false} CountUpdate(tasks: seq<Task>, k: nat, t: Task, p: Task -> bool)
    requires k < |tasks|
    ensures Count(tasks[k := t], p) + (if p(tasks[k]) then 1 else 0) == Count(tasks, p) + if p(t) then 1 else 0
  {
    var n, tasks' := |tasks| - 1, tasks[k := t];
    if k == n {
      assert tasks'[..n] == tasks[..n];
    } else {
      CountUpdate(tasks[..n], k, t, p);
      assert tasks'[..n] == tasks[..n][k := t];
      assert tasks'[n] == tasks[n];
    }
  }

  lemma {:induction false} SumsMember(tasks: seq<Task>, k: nat, x: byte, p: Task -> bool)
    requires k < |tasks|
    ensures p(tasks[k]) ==> Count(tasks, p) >= 1
    ensures multiset(tasks[k].Holds())[x] <= HeldBy(tasks, x)
  {
    if k < |tasks| - 1 {
      SumsMember(tasks[..|tasks| - 1], k, x, p);
    }
  }

  /** A task action replaces its own task, and a re-arming also adds a sleeper. */
  lemma TaskReplaced(s: State, k: nat, a: TaskAction)
    requires TaskEnabled(s, k, a)
    ensures var s' := TaskStep(s, k, a);
            k < |s'.tasks|
            && s'.tasks == s.tasks[k := s'.tasks[k]] + if a.WakeRearm? then [Sleeping(s.tasks[k].deadline)] else []
  {
  }

  /** So it changes the sums by what its own task changes, plus that sleeper. */
  lemma TaskSums(s: State, k: nat, a: TaskAction, x: byte, p: Task -> bool)
    requires TaskEnabled(s, k, a)
    ensures var s' := TaskStep(s, k, a);
            && |s'.tasks| == |s.tasks| + (if a.WakeRearm? then 1 else 0)
            && HeldBy(s'.tasks, x) + multiset(s.tasks[k].Holds())[x]
               == HeldBy(s.tasks, x) + multiset(s'.tasks[k].Holds())[x]
            && Count(s'.tasks, p) + (if p(s.tasks[k]) then 1 else 0)
               == Count(s.tasks, p) + (if p(s'.tasks[k]) then 1 else 0)
                  + (if a.WakeRearm? && p(Sleeping(s.tasks[k].deadline)) then 1 else 0)
  {
    TaskReplaced(s, k, a);
    var t' := TaskStep(s, k, a).tasks[k];
    SumsUpdate(s.tasks, k, t', x, p);
    if a.WakeRearm? {
      SumsAppend(s.tasks[k := t'], Sleeping(s.tasks[k].deadline), x, p);
    } else {
      assert s.tasks[k := t'] + [] == s.tasks[k := t'];
    }
  }

  lemma ListenerSums(s: State, a: ListenerAction, x: byte, p: Task -> bool)
    requires ListenerEnabled(s, a)
    ensures var s' := ListenerStep(s, a);
            && (a.ListenerArm? ==>
                  && HeldBy(s'.tasks, x) == HeldBy(s.tasks, x)
                  && Count(s'.tasks, p) == Count(s.tasks, p) + if p(Sleeping(s.listener.deadline)) then 1 else 0)
            && (a.ListenerDispatch? ==>
                  && HeldBy(s'.tasks, x) == HeldBy(s.tasks, x) + multiset(s.listener.plan)[x]
                  && Count(s'.tasks, p) == Count(s.tasks, p) + if p(Shipping(s.listener.plan)) then 1 else 0)
            && (!a.ListenerArm? && !a.ListenerDispatch? ==> s'.tasks == s.tasks)
  {
    if a.ListenerArm? {
      SumsAppend(s.tasks, Sleeping(s.listener.deadline), x, p);
    } else if a.ListenerDispatch? {
      SumsAppend(s.tasks, Shipping(s.listener.plan), x, p);
    }
  }

  const WAKEUP: Task -> bool := (t: Task) => t.IsWakeup()
  const ALIVE: Task -> bool := (t: Task) => t.Live()

  // ----- the invariants

  /** DATA chunks the burst still has to hand over and release. */
  function Unsent(c: Config, s: State): set<byte> {
    set x | x in Below(c.totalData) && s.burst.next <= x
  }

  function ListenerHolds(l: Listener): seq<byte> {
    match l
    case Announcing(plan) => plan
    case Dispatching(plan) => plan
    case _ => []
  }

  /** How many holders have chunk `x`: taken for sending and not released. */
  function Held(c: Config, s: State, x: byte): nat {
    (if x in Unsent(c, s) then 1 else 0) + multiset(ListenerHolds(s.listener))[x] + HeldBy(s.tasks, x)
  }

  /** The wake-ups that will still consume the deferred list. */
  function Wakeups(s: State): nat {
    Count(s.tasks, WAKEUP) + if s.listener.Arming? then 1 else 0
  }

  ghost predicate TaskShape(t: Task, now: nat) {
    match t
    case Sleeping(d) => d <= now + Seconds(30)
    case WakeRearming(d) => d <= now + Seconds(30)
    case WakeTaking(missing, _) => Distinct(missing)
    case WakeDeferring(missing, _) => Distinct(missing)
    case WakeAnnouncing(plan) => plan != []
    case Shipping(todo) => todo != []
    case Releasing(todo) => todo != []
    case _ => true
  }

  ghost predicate ListenerShape(l: Listener, now: nat) {
    match l
    case Taking(missing, _, _, _) => Distinct(missing)
    case Deferring(missing, _, _, _) => Distinct(missing)
    case Arming(d) => d <= now + Seconds(30)
    case Announcing(plan) => plan != []
    case Dispatching(plan) => plan != []
    case _ => true
  }

  /** Every frame of the burst has been handed over. */
  predicate BurstOver(pc: BurstPc) {
    pc.Lingering? || pc.DrainReading? || pc.DrainTiming? || pc.Claiming? || pc.Completing? || pc.Removing?
  }

  /** The burst's counters fit the message. */
  ghost predicate BurstShaped(c: Config, b: Burst, entry: Slot) {
    && (b.pc.Starting? || b.pc.Counting? ==> b.next == 0)
    && (b.pc.Checking? || b.pc.Enqueuing? ==> b.next < |c.frames|)
    && (BurstOver(b.pc) ==> b.next == |c.frames|)
    && (entry.Some? && (b.pc.Checking? || b.pc.Enqueuing?) ==> b.dataCount == c.totalData)
  }

  ghost predicate EntryShaped(c: Config, e: Entry, now: nat) {
    && e.totalData == c.totalData && e.frames == c.frames && e.registeredAt <= now
    && (e.deferred.Some? ==> Distinct(e.deferred.value))
    && (e.cooldownUntil.Some? ==> e.cooldownUntil.value <= now + Seconds(30))
  }

  /** Requests in circulation repeat nothing, plans are not empty, deadlines are near, and the counters fit the message. */
  ghost predicate Shape(c: Config, s: State) {
    && s.ttl >= SECOND
    && (forall k :: 0 <= k < |s.tasks| ==> TaskShape(s.tasks[k], s.now))
    && ListenerShape(s.listener, s.now)
    && BurstShaped(c, s.burst, s.entry)
    && (s.entry.Some? ==> EntryShaped(c, s.entry.value, s.now))
  }

  /** A chunk is pending exactly when it has a holder, and no chunk ever has two. */
  ghost predicate ConservedAt(c: Config, s: State, x: byte) {
    && Held(c, s, x) <= 1
    && (Held(c, s, x) > 0 ==> x < c.totalData)
    && (s.entry.Some? ==> (x in s.entry.value.pending <==> Held(c, s, x) == 1))
  }

  ghost predicate Conserved(c: Config, s: State) {
    forall x: byte :: ConservedAt(c, s, x)
  }

  /** A deferred list, its flag and its one wake-up exist together. */
  ghost predicate OneWakeup(s: State) {
    && (s.entry.Some? ==>
          && (s.entry.value.deferred.Some? <==> s.entry.value.scheduled)
          && (s.entry.value.scheduled ==> s.entry.value.deferred == Some(s.hist.stashed))
          && Wakeups(s) == if s.entry.value.scheduled then 1 else 0)
    && Wakeups(s) <= 1
  }

  /** The in-flight count is the number of retransmit tasks that have not ended. */
  ghost predicate Balanced(s: State) {
    s.inflight == Count(s.tasks, ALIVE)
  }

  datatype Tally = Tally(completes: nat, gaveUps: nat, faileds: nat)
  {
    function Terminals(): nat {
      completes + gaveUps + faileds
    }

    function Add(st: Status): Tally {
      match st
      case Complete => this.(completes := completes + 1)
      case GaveUp => this.(gaveUps := gaveUps + 1)
      case Failed => this.(faileds := faileds + 1)
      case _ => this
    }
  }

  /** How often each terminal status was emitted. */
  function TallyOf(log: seq<Status>): Tally {
    if log == [] then Tally(0, 0, 0) else TallyOf(log[..|log| - 1]).Add(log[|log| - 1])
  }

  function Bit(b: bool): nat {
    if b then 1 else 0
  }

  /**
    Terminal statuses against removals of the active entry: each removal pays for one status, a
    status whose sender lost the race is `lost`, and the rest are between emission and removal.
   */
  ghost predicate Books(t: Tally, s: State) {
    var pc, who := s.burst.pc, s.hist.remover;
    && t.completes == Bit(who.BySend? && !pc.Completing?)
    && t.completes + t.faileds <= 1
    && (t.completes + t.faileds > 0 ==> pc.FailedActive? || pc.FailedRegistry? || pc.Removing? || pc.Ended?)
    && t.gaveUps <= 1
    && (t.gaveUps > 0 ==> !s.listener.GivingUp? && (s.active ==> s.listener.GaveUpActive?))
    && t.completes + t.gaveUps + t.faileds + Bit(pc.Completing?)
       == Bit(!s.active) + s.hist.lost + Bit(s.listener.GaveUpActive?) + Bit(pc.FailedActive?)
  }

  ghost predicate Accounted(s: State) {
    Books(TallyOf(s.log), s)
  }

  /** Who removed the active entry, and what it still has to remove. */
  ghost predicate Removal(s: State) {
    var pc, who := s.burst.pc, s.hist.remover;
    && (s.active <==> who.Nobody?)
    && (who.BySend? ==> pc.Completing? || pc.Removing? || pc.Ended?)
    && (who.BySend? ==> !s.hist.drain.NotYet? && (s.entry.Some? ==> !pc.Ended?))
    && (who.ByFailure? ==> (pc.FailedRegistry? || pc.Ended?) && (s.entry.Some? ==> !pc.Ended?))
    && (who.ByGiveUp? ==> (s.entry.Some? ==> s.listener.GaveUpRegistry?))
    && (pc.Claiming? ==> !s.hist.drain.NotYet?)
    && (pc.Completing? ==> who.BySend?)
    && (pc.FailedRegistry? || pc.Removing? || pc.Ended? ==> !s.active)
    && (s.listener.GaveUpRegistry? ==> !s.active)
  }

  /** While the listener retries, every attempt after the first was caused by a round some wake-up took. */
  ghost predicate Retrying(s: State) {
    match s.listener
    case Taking(_, attempt, since, rivals) =>
      && since <= s.now && attempt < LISTENER_ATTEMPTS
      && (attempt > 0 ==>
            && rivals >= attempt - 1
            && s.now >= since + Seconds(attempt - 1)
            && (s.entry.Some? && s.entry.value.cooldownUntil.Some? && s.entry.value.cooldownUntil.value > s.now ==>
                  rivals >= attempt && s.entry.value.cooldownUntil.value >= since + Seconds(attempt)))
    case Deferring(_, attempt, since, rivals) =>
      && since <= s.now && attempt < LISTENER_ATTEMPTS && rivals >= attempt
      && (s.entry.Some? ==>
            && s.entry.value.cooldownUntil.Some?
            && s.entry.value.cooldownUntil.value >= since + Seconds(attempt))
    case _ => true
  }

  /** The listener's own round is newer than every list stashed or carried by a wake-up. */
  ghost predicate Aged(s: State) {
    var latest := if s.listener.Taking? || s.listener.Deferring? then s.hist.rounds - 1 else s.hist.rounds as int;
    && s.hist.stashedRound <= latest
    && (forall k :: 0 <= k < |s.tasks| ==>
          (s.tasks[k].WakeTaking? ==> s.tasks[k].round <= latest)
          && (s.tasks[k].WakeDeferring? ==> s.tasks[k].round <= latest))
  }

  ghost predicate Inv(c: Config, s: State) {
    && Shape(c, s) && Conserved(c, s) && OneWakeup(s) && Balanced(s)
    && Accounted(s) && Removal(s) && Retrying(s) && Aged(s)
  }

  // ----- each action keeps them

  lemma TakeShape(c: Config, s: State, missing: seq<byte>, pacing: nat)
    requires s.ttl >= SECOND && Distinct(missing)
    requires s.entry.Some? && TakeRetransmitSpec(s.entry, s.ttl, s.now, missing, pacing).1.Ok?
    ensures var (entry, r) := TakeRetransmitSpec(s.entry, s.ttl, s.now, missing, pacing);
            && entry.Some?
            && entry.value.cooldownUntil.Some? && entry.value.cooldownUntil.value <= s.now + Seconds(30)
            && Indices(r.value) != []
            && (forall x: byte :: multiset(Indices(r.value))[x]
                  == if x in entry.value.pending && x !in s.entry.value.pending then 1 else 0)
            && (forall x :: x in Indices(r.value) ==> x < s.entry.value.totalData)
  {
    TakeRetransmitCooldown(s.entry.value, s.ttl, s.now, missing, pacing);
    TakeRetransmitRound(s.entry.value, s.ttl, s.now, missing, pacing);
    var (entry, r) := TakeRetransmitSpec(s.entry, s.ttl, s.now, missing, pacing);
    var idx: seq<byte> := Indices(r.value);
    forall x: byte
      ensures multiset(idx)[x] == if x in entry.value.pending && x !in s.entry.value.pending then 1 else 0
    {
      assert multiset(entry.value.pending)[x] == multiset(s.entry.value.pending)[x] + multiset(idx)[x];
    }
  }

  lemma BurstFrame(c: Config, s: State, a: BurstAction)
    requires BurstEnabled(c, s, a)
    ensures var s' := BurstStep(c, s, a);
            && s'.tasks == s.tasks && s'.listener == s.listener && s'.now == s.now && s'.ttl == s.ttl
            && (s'.entry == s.entry || s'.entry.None? || s'.entry == MarkSentSpec(s.entry, s.burst.next % 256))
  {
  }

  lemma BurstCounters(c: Config, s: State, a: BurstAction)
    requires c.Valid() && BurstShaped(c, s.burst, s.entry) && (s.entry.Some? ==> s.entry.value.totalData == c.totalData)
    requires BurstEnabled(c, s, a)
    ensures BurstShaped(c, BurstStep(c, s, a).burst, BurstStep(c, s, a).entry)
  {
  }

  lemma BurstShape(c: Config, s: State, a: BurstAction)
    requires c.Valid() && Shape(c, s) && BurstEnabled(c, s, a)
    ensures Shape(c, BurstStep(c, s, a))
  {
    BurstFrame(c, s, a);
    BurstCounters(c, s, a);
  }

  lemma ListenerTakeShape(c: Config, s: State, pacing: nat)
    requires c.Valid() && Shape(c, s) && ListenerEnabled(s, ListenerTake(pacing))
    ensures Shape(c, ListenerStep(s, ListenerTake(pacing)))
  {
    if TakeRetransmitSpec(s.entry, s.ttl, s.now, s.listener.missing, pacing).1.Ok? {
      TakeShape(c, s, s.listener.missing, pacing);
    }
  }

  lemma ListenerShapeKept(c: Config, s: State, a: ListenerAction)
    requires c.Valid() && Shape(c, s) && ListenerEnabled(s, a)
    ensures Shape(c, ListenerStep(s, a))
  {
    if a.ListenerTake? {
      ListenerTakeShape(c, s, a.pacing);
    } else if a.NackArrives? {
      IncreasingDistinct(a.requested);
    }
  }

  lemma WakeTakeShape(c: Config, s: State, k: nat, pacing: nat)
    requires c.Valid() && Shape(c, s) && TaskEnabled(s, k, WakeTake(pacing))
    ensures Shape(c, TaskStep(s, k, WakeTake(pacing)))
  {
    assert TaskShape(s.tasks[k], s.now);
    if TakeRetransmitSpec(s.entry, s.ttl, s.now, s.tasks[k].missing, pacing).1.Ok? {
      TakeShape(c, s, s.tasks[k].missing, pacing);
    }
  }

  lemma OtherTaskFrame(s: State, k: nat, a: TaskAction)
    requires TaskEnabled(s, k, a) && !a.WakeTake?
    ensures var s' := TaskStep(s, k, a);
            && s'.burst == s.burst && s'.listener == s.listener && s'.now == s.now && s'.ttl == s.ttl
            && |s.tasks| <= |s'.tasks| <= |s.tasks| + 1
            && (forall j :: 0 <= j < |s.tasks| && j != k ==> s'.tasks[j] == s.tasks[j])
            && (|s'.tasks| > |s.tasks| ==> a.WakeRearm? && s'.tasks[|s.tasks|] == Sleeping(s.tasks[k].deadline))
            && (s'.entry.Some? ==> s.entry.Some?)
  {
  }

  /** The task itself, and the entry it may have stashed its list in or taken it from. */
  lemma OwnTaskShape(c: Config, s: State, k: nat, a: TaskAction)
    requires TaskEnabled(s, k, a) && !a.WakeTake? && TaskShape(s.tasks[k], s.now)
    requires s.entry.Some? ==> EntryShaped(c, s.entry.value, s.now)
    ensures var s' := TaskStep(s, k, a);
            && TaskShape(s'.tasks[k], s.now)
            && (s'.entry.Some? ==> EntryShaped(c, s'.entry.value, s.now))
            && (a.WakeRearm? ==> TaskShape(Sleeping(s.tasks[k].deadline), s.now))
  {
  }

  lemma OtherTaskShape(c: Config, s: State, k: nat, a: TaskAction)
    requires c.Valid() && Shape(c, s) && TaskEnabled(s, k, a) && !a.WakeTake?
    ensures Shape(c, TaskStep(s, k, a))
  {
    assert TaskShape(s.tasks[k], s.now);
    OtherTaskFrame(s, k, a);
    OwnTaskShape(c, s, k, a);
    var s' := TaskStep(s, k, a);
    forall j | 0 <= j < |s'.tasks| ensures TaskShape(s'.tasks[j], s'.now) {
      assert j < |s.tasks| ==> TaskShape(s.tasks[j], s.now);
    }
  }

  lemma ShapeKept(c: Config, s: State, a: Action)
    requires c.Valid() && Shape(c, s) && Enabled(c, s, a)
    ensures Shape(c, Step(c, s, a))
  {
    match a
    case Env(_) =>
    case Send(b) => BurstShape(c, s, b);
    case Listen(l) => ListenerShapeKept(c, s, l);
    case Run(k, t) => if t.WakeTake? { WakeTakeShape(c, s, k, t.pacing); } else { OtherTaskShape(c, s, k, t); }
  }

  lemma BalancedKept(c: Config, s: State, a: Action)
    requires Balanced(s) && Enabled(c, s, a)
    ensures Balanced(Step(c, s, a))
  {
    match a
    case Env(_) =>
    case Send(b) => assert BurstStep(c, s, b).tasks == s.tasks;
    case Listen(l) => ListenerBalanced(s, l);
    case Run(k, t) => TaskBalanced(s, k, t);
  }

  lemma ListenerBalanced(s: State, a: ListenerAction)
    requires Balanced(s) && ListenerEnabled(s, a)
    ensures Balanced(ListenerStep(s, a))
  {
    ListenerSums(s, a, 0, ALIVE);
  }

  lemma TaskBalanced(s: State, k: nat, a: TaskAction)
    requires Balanced(s) && TaskEnabled(s, k, a)
    ensures Balanced(TaskStep(s, k, a))
  {
    TaskSums(s, k, a, 0, ALIVE);
    SumsMember(s.tasks, k, 0, ALIVE);
  }

  /** Handing over a DATA frame releases its chunk; a parity frame releases nothing. */
  lemma EnqueuedConserved(c: Config, s: State, x: byte)
    requires c.Valid() && Shape(c, s) && ConservedAt(c, s, x) && BurstEnabled(c, s, Enqueued(true))
    ensures ConservedAt(c, BurstStep(c, s, Enqueued(true)), x)
  {
    var s' := BurstStep(c, s, Enqueued(true));
    assert s'.burst.next == s.burst.next + 1 && s'.listener == s.listener && s'.tasks == s.tasks;
  }

  lemma BurstConserved(c: Config, s: State, a: BurstAction, x: byte)
    requires c.Valid() && Shape(c, s) && ConservedAt(c, s, x) && BurstEnabled(c, s, a)
    ensures ConservedAt(c, BurstStep(c, s, a), x)
  {
    if a == Enqueued(true) {
      EnqueuedConserved(c, s, x);
    } else {
      var s' := BurstStep(c, s, a);
      assert s'.burst.next == s.burst.next && s'.listener == s.listener && s'.tasks == s.tasks;
      assert s'.entry == s.entry || s'.entry.None?;
    }
  }

  lemma ListenerTakeConserved(c: Config, s: State, pacing: nat, x: byte)
    requires c.Valid() && Shape(c, s) && ConservedAt(c, s, x) && ListenerEnabled(s, ListenerTake(pacing))
    ensures ConservedAt(c, ListenerStep(s, ListenerTake(pacing)), x)
  {
    var missing := s.listener.missing;
    if TakeRetransmitSpec(s.entry, s.ttl, s.now, missing, pacing).1.Ok? {
      TakeShape(c, s, missing, pacing);
      var plan := TakeRetransmitSpec(s.entry, s.ttl, s.now, missing, pacing).1.value;
      var s' := ListenerStep(s, ListenerTake(pacing));
      assert s'.listener == Announcing(Indices(plan));
      assert Held(c, s', x) == Held(c, s, x) + multiset(Indices(plan))[x];
      assert x in multiset(Indices(plan)) <==> x in Indices(plan);
    }
  }

  /** The listener actions that neither take chunks nor hand them to a task. */
  lemma ListenerFrame(s: State, a: ListenerAction)
    requires ListenerEnabled(s, a) && !a.ListenerTake? && !a.ListenerDispatch?
    ensures var s' := ListenerStep(s, a);
            && s'.burst == s.burst && ListenerHolds(s'.listener) == ListenerHolds(s.listener)
            && (s'.entry.Some? ==> s.entry.Some? && s'.entry.value.pending == s.entry.value.pending)
  {
  }

  lemma DispatchConserved(c: Config, s: State, x: byte)
    requires ConservedAt(c, s, x) && ListenerEnabled(s, ListenerDispatch)
    ensures ConservedAt(c, ListenerStep(s, ListenerDispatch), x)
  {
    ListenerSums(s, ListenerDispatch, x, ALIVE);
    var s' := ListenerStep(s, ListenerDispatch);
    assert ListenerHolds(s.listener) == s.listener.plan && ListenerHolds(s'.listener) == [];
    assert s'.entry == s.entry && s'.burst == s.burst;
  }

  lemma ListenerConserved(c: Config, s: State, a: ListenerAction, x: byte)
    requires c.Valid() && Shape(c, s) && ConservedAt(c, s, x) && ListenerEnabled(s, a)
    ensures ConservedAt(c, ListenerStep(s, a), x)
  {
    if a.ListenerTake? {
      ListenerTakeConserved(c, s, a.pacing, x);
    } else if a.ListenerDispatch? {
      DispatchConserved(c, s, x);
    } else {
      ListenerFrame(s, a);
      ListenerSums(s, a, x, ALIVE);
    }
  }

  /** Releasing the head of a task's list takes exactly that chunk out of the holders. */
  lemma ReleaseHead(todo: seq<byte>, x: byte)
    requires todo != []
    ensures multiset(todo)[x] == multiset(todo[1..])[x] + if x == todo[0] then 1 else 0
  {
    assert todo == [todo[0]] + todo[1..];
  }

  /** What one round does to the pending set, seen at one chunk with `held` holders. */
  lemma PlanTaken(before: set<byte>, after: set<byte>, plan: seq<byte>, total: byte, held: nat, x: byte)
    requires held <= 1 && (held > 0 ==> x < total) && (x in before <==> held == 1)
    requires multiset(plan)[x] == if x in after && x !in before then 1 else 0
    requires forall y :: y in plan ==> y < total
    requires before <= after
    ensures held + multiset(plan)[x] <= 1
    ensures held + multiset(plan)[x] > 0 ==> x < total
    ensures x in after <==> held + multiset(plan)[x] == 1
  {
    assert x in multiset(plan) <==> x in plan;
  }

  /** A wake-up's take that hands out a plan moves nothing but its own task, the entry and the rival count. */
  lemma WakeTakeFrame(s: State, k: nat, pacing: nat)
    requires TaskEnabled(s, k, WakeTake(pacing))
    requires TakeRetransmitSpec(s.entry, s.ttl, s.now, s.tasks[k].missing, pacing).1.Ok?
    ensures var (entry, r) := TakeRetransmitSpec(s.entry, s.ttl, s.now, s.tasks[k].missing, pacing);
            var s' := TaskStep(s, k, WakeTake(pacing));
            && s'.burst == s.burst && ListenerHolds(s'.listener) == ListenerHolds(s.listener) && s'.entry == entry
            && (r.value != [] ==> s'.tasks == s.tasks[k := WakeAnnouncing(Indices(r.value))])
            && s.entry.Some? && entry.Some? && s.entry.value.pending <= entry.value.pending
            && entry.value.totalData == s.entry.value.totalData
  {
  }

  /** The plan's chunks, none of them pending before, get their one holder. */
  lemma WakeTakePlan(c: Config, s: State, k: nat, pacing: nat, x: byte)
    requires c.Valid() && Shape(c, s) && ConservedAt(c, s, x) && TaskEnabled(s, k, WakeTake(pacing))
    requires TakeRetransmitSpec(s.entry, s.ttl, s.now, s.tasks[k].missing, pacing).1.Ok?
    ensures ConservedAt(c, TaskStep(s, k, WakeTake(pacing)), x)
  {
    assert TaskShape(s.tasks[k], s.now);
    TakeShape(c, s, s.tasks[k].missing, pacing);
    WakeTakeFrame(s, k, pacing);
    var (entry, r) := TakeRetransmitSpec(s.entry, s.ttl, s.now, s.tasks[k].missing, pacing);
    var plan: seq<byte> := Indices(r.value);
    SumsUpdate(s.tasks, k, WakeAnnouncing(plan), x, ALIVE);
    PlanTaken(s.entry.value.pending, entry.value.pending, plan, c.totalData, Held(c, s, x), x);
    HeldMoved(c, s, TaskStep(s, k, WakeTake(pacing)), x, multiset(plan)[x]);
  }

  /** Holders count what the task list holds, when nothing else moved. */
  lemma HeldMoved(c: Config, s: State, s': State, x: byte, more: nat)
    requires s'.burst == s.burst && ListenerHolds(s'.listener) == ListenerHolds(s.listener)
    requires HeldBy(s'.tasks, x) == HeldBy(s.tasks, x) + more
    ensures Held(c, s', x) == Held(c, s, x) + more
  {
    assert Unsent(c, s') == Unsent(c, s);
  }

  /** A wake-up's take that is refused moves no chunk. */
  lemma WakeRefused(s: State, k: nat, pacing: nat, x: byte)
    requires TaskEnabled(s, k, WakeTake(pacing))
    requires TakeRetransmitSpec(s.entry, s.ttl, s.now, s.tasks[k].missing, pacing).1.Err?
    ensures var s' := TaskStep(s, k, WakeTake(pacing));
            && s'.burst == s.burst && s'.listener == s.listener
            && (s'.entry == s.entry || s'.entry.None?) && HeldBy(s'.tasks, x) == HeldBy(s.tasks, x)
  {
    TaskSums(s, k, WakeTake(pacing), x, ALIVE);
  }

  lemma WakeTakeConserved(c: Config, s: State, k: nat, pacing: nat, x: byte)
    requires c.Valid() && Shape(c, s) && ConservedAt(c, s, x) && TaskEnabled(s, k, WakeTake(pacing))
    ensures ConservedAt(c, TaskStep(s, k, WakeTake(pacing)), x)
  {
    if TakeRetransmitSpec(s.entry, s.ttl, s.now, s.tasks[k].missing, pacing).1.Ok? {
      WakeTakePlan(c, s, k, pacing, x);
    } else {
      WakeRefused(s, k, pacing, x);
      HeldMoved(c, s, TaskStep(s, k, WakeTake(pacing)), x, 0);
    }
  }

  /** The task actions that neither take nor release a chunk. */
  lemma TaskFrame(s: State, k: nat, a: TaskAction)
    requires TaskEnabled(s, k, a) && !a.WakeTake? && !a.Shipped? && !a.Release?
    ensures var s' := TaskStep(s, k, a);
            && s'.burst == s.burst && s'.listener == s.listener
            && s'.tasks[k].Holds() == s.tasks[k].Holds()
            && (s'.entry.Some? <==> s.entry.Some?)
            && (s.entry.Some? ==> s'.entry.value.pending == s.entry.value.pending)
  {
  }

  /** A finished enqueue, or a release after a failed one, lets go of the head of the task's list. */
  lemma ReleaseFrame(s: State, k: nat, a: TaskAction)
    requires TaskEnabled(s, k, a) && (a.Release? || a.Shipped?)
    ensures var s', todo := TaskStep(s, k, a), s.tasks[k].todo;
            && s'.burst == s.burst && s'.listener == s.listener
            && s.tasks[k].Holds() == todo
            && if a == Shipped(false) then s'.entry == s.entry && s'.tasks[k].Holds() == todo
               else s'.entry == MarkSentSpec(s.entry, todo[0]) && s'.tasks[k].Holds() == todo[1..]
  {
    if |s.tasks[k].todo| == 1 {
      assert s.tasks[k].todo[1..] == [];
    }
  }

  lemma TaskConserved(c: Config, s: State, k: nat, a: TaskAction, x: byte)
    requires c.Valid() && Shape(c, s) && ConservedAt(c, s, x) && TaskEnabled(s, k, a)
    ensures ConservedAt(c, TaskStep(s, k, a), x)
  {
    if a.WakeTake? {
      WakeTakeConserved(c, s, k, a.pacing, x);
    } else {
      OtherTaskConserved(c, s, k, a, x);
    }
  }

  lemma OtherTaskConserved(c: Config, s: State, k: nat, a: TaskAction, x: byte)
    requires ConservedAt(c, s, x) && TaskEnabled(s, k, a) && !a.WakeTake?
    ensures ConservedAt(c, TaskStep(s, k, a), x)
  {
    TaskSums(s, k, a, x, ALIVE);
    SumsMember(s.tasks, k, x, ALIVE);
    if a.Shipped? || a.Release? {
      ReleaseFrame(s, k, a);
      ReleaseHead(s.tasks[k].todo, x);
    } else {
      TaskFrame(s, k, a);
    }
  }

  lemma ConservedKept(c: Config, s: State, a: Action)
    requires c.Valid() && Shape(c, s) && Conserved(c, s) && Enabled(c, s, a)
    ensures Conserved(c, Step(c, s, a))
  {
    forall x: byte ensures ConservedAt(c, Step(c, s, a), x) {
      assert ConservedAt(c, s, x);
      match a
      case Env(_) =>
      case Send(b) => BurstConserved(c, s, b, x);
      case Listen(l) => ListenerConserved(c, s, l, x);
      case Run(k, t) => TaskConserved(c, s, k, t, x);
    }
  }

  lemma OneWakeupKept(c: Config, s: State, a: Action)
    requires OneWakeup(s) && Enabled(c, s, a)
    ensures OneWakeup(Step(c, s, a))
  {
    match a
    case Env(_) =>
    case Send(b) => BurstOneWakeup(c, s, b);
    case Listen(l) => ListenerOneWakeup(s, l);
    case Run(k, t) => TaskOneWakeup(s, k, t);
  }

  lemma BurstOneWakeup(c: Config, s: State, a: BurstAction)
    requires OneWakeup(s) && BurstEnabled(c, s, a)
    ensures OneWakeup(BurstStep(c, s, a))
  {
  }

  /** The listener actions that neither stash a list nor start its wake-up. */
  lemma ListenerStashFrame(s: State, a: ListenerAction)
    requires ListenerEnabled(s, a) && !a.ListenerDefer? && !a.ListenerArm?
    ensures var s' := ListenerStep(s, a);
            && s'.hist.stashed == s.hist.stashed && (s'.listener.Arming? <==> s.listener.Arming?)
            && (s'.entry.Some? ==>
                  && s.entry.Some?
                  && s'.entry.value.deferred == s.entry.value.deferred
                  && s'.entry.value.scheduled == s.entry.value.scheduled)
  {
  }

  /** A deferral either stashes the listener's list or moves nothing of the stash. */
  lemma DeferFrame(s: State)
    requires ListenerEnabled(s, ListenerDefer)
    ensures var s' := ListenerStep(s, ListenerDefer);
            && s'.tasks == s.tasks
            && if s'.hist.stashed == s.listener.missing && s'.entry.Some? && s'.entry.value.deferred == Some(s.listener.missing)
                  && s'.entry.value.scheduled
               then s.entry.Some? && (s'.listener.Arming? <==> !s.entry.value.scheduled)
               else s'.entry == s.entry && s'.hist.stashed == s.hist.stashed && !s'.listener.Arming?
  {
  }

  lemma ListenerOneWakeup(s: State, a: ListenerAction)
    requires OneWakeup(s) && ListenerEnabled(s, a)
    ensures OneWakeup(ListenerStep(s, a))
  {
    if a.ListenerDefer? {
      DeferOneWakeup(s);
    } else if a.ListenerArm? {
      ListenerSums(s, a, 0, WAKEUP);
    } else {
      ListenerStashFrame(s, a);
      ListenerSums(s, a, 0, WAKEUP);
    }
  }

  lemma DeferOneWakeup(s: State)
    requires OneWakeup(s) && ListenerEnabled(s, ListenerDefer)
    ensures OneWakeup(ListenerStep(s, ListenerDefer))
  {
    DeferFrame(s);
  }

  lemma TaskOneWakeup(s: State, k: nat, a: TaskAction)
    requires OneWakeup(s) && TaskEnabled(s, k, a)
    ensures OneWakeup(TaskStep(s, k, a))
  {
    TaskSums(s, k, a, 0, WAKEUP);
    SumsMember(s.tasks, k, 0, WAKEUP);
    if !a.TakeStash? && !a.WakeDefer? {
      StashFrame(s, k, a);
    }
  }

  /** The task actions that leave the deferred list alone. */
  lemma StashFrame(s: State, k: nat, a: TaskAction)
    requires TaskEnabled(s, k, a) && !a.TakeStash? && !a.WakeDefer?
    ensures var s' := TaskStep(s, k, a);
            && s'.hist == s.hist && (s'.listener.Arming? <==> s.listener.Arming?)
            && (s'.tasks[k].IsWakeup() <==> s.tasks[k].IsWakeup() && !a.WakeRearm?)
            && (s'.entry.Some? ==>
                  && s.entry.Some?
                  && s'.entry.value.deferred == s.entry.value.deferred
                  && s'.entry.value.scheduled == s.entry.value.scheduled)
  {
  }

  lemma TallyAppend(log: seq<Status>, st: Status)
    ensures TallyOf(log + [st]) == TallyOf(log).Add(st)
  {
    assert (log + [st])[..|log|] == log;
  }

  /** The state the terminal bookkeeping reads. */
  ghost predicate SameTerminals(s: State, s': State) {
    && s'.active == s.active && s'.burst.pc == s.burst.pc
    && s'.hist.remover == s.hist.remover && s'.hist.lost == s.hist.lost
    && (s'.listener.GaveUpActive? <==> s.listener.GaveUpActive?)
    && (s'.listener.GivingUp? <==> s.listener.GivingUp?)
  }

  lemma TaskTerminals(s: State, k: nat, a: TaskAction)
    requires TaskEnabled(s, k, a)
    ensures SameTerminals(s, TaskStep(s, k, a))
  {
  }

  /** What one action adds to the tally. */
  function Emitted(t: Tally, a: Action): Tally {
    match a
    case Send(EmitComplete) => t.Add(Complete)
    case Listen(EmitGaveUp) => t.Add(GaveUp)
    case Send(Enqueued(ok)) => if ok then t else t.Add(Failed)
    case _ => t
  }

  lemma EnqueuedTally(c: Config, s: State, ok: bool)
    requires BurstEnabled(c, s, Enqueued(ok))
    ensures TallyOf(BurstStep(c, s, Enqueued(ok)).log) == Emitted(TallyOf(s.log), Send(Enqueued(ok)))
  {
    var sent := Sending(s.burst.next + 1);
    TallyAppend(s.log, if ok then sent else Failed);
    TallyAppend(s.log + [sent], BurstComplete);
    var log := BurstStep(c, s, Enqueued(ok)).log;
    assert ok ==> log == s.log + [sent] || log == s.log + [sent] + [BurstComplete];
  }

  lemma BurstTally(c: Config, s: State, a: BurstAction)
    requires BurstEnabled(c, s, a)
    ensures TallyOf(BurstStep(c, s, a).log) == Emitted(TallyOf(s.log), Send(a))
  {
    match a
    case EmitComplete => TallyAppend(s.log, Complete);
    case Enqueued(ok) => EnqueuedTally(c, s, ok);
    case _ => assert BurstStep(c, s, a).log == s.log;
  }

  lemma ListenerTally(s: State, a: ListenerAction)
    requires ListenerEnabled(s, a)
    ensures TallyOf(ListenerStep(s, a).log) == Emitted(TallyOf(s.log), Listen(a))
  {
    match a
    case EmitGaveUp => TallyAppend(s.log, GaveUp);
    case ListenerAnnounce => TallyAppend(s.log, Retransmitting(s.listener.plan));
    case _ => assert ListenerStep(s, a).log == s.log;
  }

  lemma TaskTally(s: State, k: nat, a: TaskAction)
    requires TaskEnabled(s, k, a)
    ensures TallyOf(TaskStep(s, k, a).log) == TallyOf(s.log)
  {
    if a.WakeAnnounce? {
      TallyAppend(s.log, Retransmitting(s.tasks[k].plan));
    } else {
      assert TaskStep(s, k, a).log == s.log;
    }
  }

  lemma TallyStep(c: Config, s: State, a: Action)
    requires Enabled(c, s, a)
    ensures TallyOf(Step(c, s, a).log) == Emitted(TallyOf(s.log), a)
  {
    match a
    case Env(_) =>
    case Send(b) => BurstTally(c, s, b);
    case Listen(l) => ListenerTally(s, l);
    case Run(k, t) => TaskTally(s, k, t);
  }

  lemma BurstBooks(c: Config, s: State, a: BurstAction, t: Tally)
    requires Books(t, s) && Removal(s) && BurstEnabled(c, s, a)
    ensures Books(Emitted(t, Send(a)), BurstStep(c, s, a))
  {
  }

  lemma ListenerBooks(s: State, a: ListenerAction, t: Tally)
    requires Books(t, s) && Removal(s) && ListenerEnabled(s, a)
    ensures Books(Emitted(t, Listen(a)), ListenerStep(s, a))
  {
  }

  lemma AccountedKept(c: Config, s: State, a: Action)
    requires Accounted(s) && Removal(s) && Enabled(c, s, a)
    ensures Accounted(Step(c, s, a))
  {
    TallyStep(c, s, a);
    BooksKept(c, s, a, TallyOf(s.log));
  }

  lemma BooksKept(c: Config, s: State, a: Action, t: Tally)
    requires Books(t, s) && Removal(s) && Enabled(c, s, a)
    ensures Books(Emitted(t, a), Step(c, s, a))
  {
    match a
    case Env(_) =>
    case Send(b) => BurstBooks(c, s, b, t);
    case Listen(l) => ListenerBooks(s, l, t);
    case Run(k, r) => TaskTerminals(s, k, r);
  }

  lemma BurstRemoval(c: Config, s: State, a: BurstAction)
    requires Removal(s) && BurstEnabled(c, s, a)
    ensures Removal(BurstStep(c, s, a))
  {
  }

  lemma ListenerRemoval(s: State, a: ListenerAction)
    requires Removal(s) && ListenerEnabled(s, a)
    ensures Removal(ListenerStep(s, a))
  {
  }

  lemma TaskRemoval(s: State, k: nat, a: TaskAction)
    requires Removal(s) && TaskEnabled(s, k, a)
    ensures Removal(TaskStep(s, k, a))
  {
    TaskTerminals(s, k, a);
    var s' := TaskStep(s, k, a);
    assert s'.hist.drain == s.hist.drain;
    assert s'.entry.Some? ==> s.entry.Some?;
    assert s'.listener.GaveUpRegistry? <==> s.listener.GaveUpRegistry?;
  }

  lemma RemovalKept(c: Config, s: State, a: Action)
    requires Removal(s) && Enabled(c, s, a)
    ensures Removal(Step(c, s, a))
  {
    match a
    case Env(_) =>
    case Send(b) => BurstRemoval(c, s, b);
    case Listen(l) => ListenerRemoval(s, l);
    case Run(k, t) => TaskRemoval(s, k, t);
  }

  /** A cooldown only ever moves forward, and only a round moves it. */
  ghost predicate SameCooldown(s: State, s': State) {
    && s'.now >= s.now && s'.listener == s.listener
    && (s'.entry.Some? ==> s.entry.Some? && s'.entry.value.cooldownUntil == s.entry.value.cooldownUntil)
  }

  lemma RetryingFrame(s: State, s': State)
    requires Retrying(s) && SameCooldown(s, s')
    ensures Retrying(s')
  {
  }

  lemma BurstCooldown(c: Config, s: State, a: BurstAction)
    requires BurstEnabled(c, s, a)
    ensures SameCooldown(s, BurstStep(c, s, a))
  {
  }

  lemma TaskCooldown(s: State, k: nat, a: TaskAction)
    requires TaskEnabled(s, k, a) && !a.WakeTake?
    ensures SameCooldown(s, TaskStep(s, k, a))
  {
  }

  lemma WakeTakeRetrying(c: Config, s: State, k: nat, pacing: nat)
    requires Shape(c, s) && Retrying(s) && TaskEnabled(s, k, WakeTake(pacing))
    ensures Retrying(TaskStep(s, k, WakeTake(pacing)))
  {
    if TakeRetransmitSpec(s.entry, s.ttl, s.now, s.tasks[k].missing, pacing).1.Ok? {
      TakeRetransmitCooldown(s.entry.value, s.ttl, s.now, s.tasks[k].missing, pacing);
    }
  }

  lemma ListenerRetrying(s: State, a: ListenerAction)
    requires Retrying(s) && ListenerEnabled(s, a)
    ensures Retrying(ListenerStep(s, a))
  {
  }

  lemma RetryingKept(c: Config, s: State, a: Action)
    requires Shape(c, s) && Retrying(s) && Enabled(c, s, a)
    ensures Retrying(Step(c, s, a))
  {
    match a
    case Env(e) => RetryingFrame(s, EnvStep(s, e));
    case Send(b) => BurstCooldown(c, s, b); RetryingFrame(s, BurstStep(c, s, b));
    case Listen(l) => ListenerRetrying(s, l);
    case Run(k, t) =>
      if t.WakeTake? {
        WakeTakeRetrying(c, s, k, t.pacing);
      } else {
        TaskCooldown(s, k, t);
        RetryingFrame(s, TaskStep(s, k, t));
      }
  }

  lemma TaskAged(s: State, k: nat, a: TaskAction)
    requires Aged(s) && TaskEnabled(s, k, a)
    ensures Aged(TaskStep(s, k, a))
  {
    var s' := TaskStep(s, k, a);
    assert s'.hist.rounds == s.hist.rounds;
    assert s'.tasks[k].WakeTaking? ==> s'.tasks[k].round == s.hist.stashedRound;
    assert s'.tasks[k].WakeDeferring? ==> s.tasks[k].WakeTaking? && s'.tasks[k].round == s.tasks[k].round;
    forall j | 0 <= j < |s'.tasks| && j != k
      ensures s'.tasks[j].Sleeping? || (j < |s.tasks| && s'.tasks[j] == s.tasks[j])
    {
    }
  }

  lemma ListenerAged(s: State, a: ListenerAction)
    requires Aged(s) && ListenerEnabled(s, a)
    ensures Aged(ListenerStep(s, a))
  {
  }

  lemma AgedKept(c: Config, s: State, a: Action)
    requires Aged(s) && Enabled(c, s, a)
    ensures Aged(Step(c, s, a))
  {
    match a
    case Env(_) =>
    case Send(_) =>
    case Listen(l) => ListenerAged(s, l);
    case Run(k, t) => TaskAged(s, k, t);
  }

  lemma {:induction false} InvKept(c: Config, s: State, a: Action)
    requires c.Valid() && Inv(c, s) && Enabled(c, s, a)
    ensures Inv(c, Step(c, s, a))
  {
    ShapeKept(c, s, a);
    ConservedKept(c, s, a);
    OneWakeupKept(c, s, a);
    BalancedKept(c, s, a);
    AccountedKept(c, s, a);
    RemovalKept(c, s, a);
    RetryingKept(c, s, a);
    AgedKept(c, s, a);
  }

  lemma InitConserved(c: Config, now: nat, ttl: nat)
    requires c.Valid()
    ensures Conserved(c, Init(c, now, ttl))
  {
  }

  lemma InitShape(c: Config, now: nat, ttl: nat)
    requires c.Valid() && ttl >= SECOND
    ensures Shape(c, Init(c, now, ttl)) && Retrying(Init(c, now, ttl)) && Aged(Init(c, now, ttl))
  {
  }

  lemma InitCounts(c: Config, now: nat, ttl: nat)
    requires c.Valid()
    ensures OneWakeup(Init(c, now, ttl)) && Balanced(Init(c, now, ttl))
  {
  }

  lemma InitBooks(c: Config, now: nat, ttl: nat)
    requires c.Valid()
    ensures Accounted(Init(c, now, ttl)) && Removal(Init(c, now, ttl))
  {
    assert TallyOf([]) == Tally(0, 0, 0);
  }

  lemma InvInit(c: Config, now: nat, ttl: nat)
    requires c.Valid() && ttl >= SECOND
    ensures Inv(c, Init(c, now, ttl))
  {
    var s := Init(c, now, ttl);
    InitConserved(c, now, ttl);
    InitShape(c, now, ttl);
    InitCounts(c, now, ttl);
    InitBooks(c, now, ttl);
    InvJoin(c, s);
  }

  lemma InvJoin(c: Config, s: State)
    requires Shape(c, s) && Conserved(c, s) && OneWakeup(s) && Balanced(s)
    requires Accounted(s) && Removal(s) && Retrying(s) && Aged(s)
    ensures Inv(c, s)
  {
  }

  lemma {:induction false} InvAfter(c: Config, s: State, run: seq<Action>)
    requires c.Valid() && Inv(c, s) && Legal(c, s, run)
    ensures Inv(c, After(c, s, run))
    decreases |run|
  {
    if run != [] {
      InvKept(c, s, run[0]);
      InvAfter(c, Step(c, s, run[0]), run[1..]);
    }
  }

  /** The states some interleaving of the tasks can reach, from any retain TTL of whole seconds. */
  ghost predicate Reachable(c: Config, s: State) {
    c.Valid() && exists now: nat, seconds: nat, run ::
      seconds >= 1 && Legal(c, Init(c, now, Seconds(seconds)), run) && s == After(c, Init(c, now, Seconds(seconds)), run)
  }

  lemma Always(c: Config, s: State)
    requires Reachable(c, s)
    ensures Inv(c, s)
  {
    var now: nat, seconds: nat, run :|
      seconds >= 1 && Legal(c, Init(c, now, Seconds(seconds)), run) && s == After(c, Init(c, now, Seconds(seconds)), run);
    InvInit(c, now, Seconds(seconds));
    InvAfter(c, Init(c, now, Seconds(seconds)), run);
  }

  /** Reachable states are closed under runs. */
  lemma ReachableThen(c: Config, s: State, a: Action)
    requires Reachable(c, s) && Enabled(c, s, a)
    ensures Reachable(c, Step(c, s, a))
  {
    var now: nat, seconds: nat, run :|
      seconds >= 1 && Legal(c, Init(c, now, Seconds(seconds)), run) && s == After(c, Init(c, now, Seconds(seconds)), run);
    AfterAppend(c, Init(c, now, Seconds(seconds)), run, a);
  }
}

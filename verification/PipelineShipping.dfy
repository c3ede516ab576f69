/**
  Whether frames of a retransmit can still be enqueued after `Complete`: which live tasks, and which rounds of the listener,
  can still come to it while the retain TTL stays as it is.
 */
module PipelineShipping {
  import opened Words
  import opened Outgoing
  import opened Pipeline
  import opened PipelineSafety
  import opened PipelineGuarantees
  import opened PipelineCompletion

  // ----- who can still ship

  /** The earliest time the entry takes a round. */
  function Opens(s: State): nat {
    if s.entry.Some? && s.entry.value.cooldownUntil.Some? then Max(s.now, s.entry.value.cooldownUntil.value) else s.now
  }

  /** A request for some chunk in range that could be taken from time `at` on, before the entry expires. */
  predicate Ripe(s: State, missing: seq<byte>, at: nat) {
    && s.entry.Some? && s.entry.value.retransmits < MAX_RETRANSMITS
    && (exists x :: x in missing && x < s.entry.value.totalData)
    && !s.entry.value.Expired(Max(Opens(s), at), s.ttl)
  }

  /** When a wake-up gets to its take at the earliest. */
  function Due(t: Task): nat {
    match t
    case Sleeping(deadline) => deadline + WAKE_GRACE
    case WakeRearming(deadline) => deadline + WAKE_GRACE
    case _ => 0
  }

  /** Some wake-up would take this list in time, were it stashed. */
  predicate WakeRipe(s: State, missing: seq<byte>) {
    || (s.listener.Arming? && Ripe(s, missing, s.listener.deadline + WAKE_GRACE))
    || exists k :: 0 <= k < |s.tasks| && s.tasks[k].IsWakeup() && Ripe(s, missing, Due(s.tasks[k]))
  }

  /** Deferred now, during a cooldown, this list would be taken in time, by the wake-up there is or by a new one. */
  predicate DeferRipe(s: State, missing: seq<byte>) {
    && Cooling(s)
    && if s.entry.value.scheduled then WakeRipe(s, missing)
       else Ripe(s, missing, s.entry.value.cooldownUntil.value + WAKE_GRACE)
  }

  predicate StashRipe(s: State, at: nat) {
    s.entry.Some? && s.entry.value.deferred.Some? && Ripe(s, s.entry.value.deferred.value, at)
  }

  predicate TaskShips(s: State, t: Task) {
    match t
    case Shipping(_) => true
    case WakeAnnouncing(_) => true
    case WakeTaking(missing, _) => Ripe(s, missing, 0)
    case WakeDeferring(missing, _) => DeferRipe(s, missing)
    case Sleeping(_) => StashRipe(s, Due(t))
    case WakeRearming(_) => StashRipe(s, Due(t))
    case Waking => StashRipe(s, 0)
    case Releasing(_) => false
    case Exiting => false
    case Done => false
  }

  predicate ListenerShips(s: State) {
    match s.listener
    case Announcing(_) => true
    case Dispatching(_) => true
    case Taking(missing, _, _, _) => Ripe(s, missing, 0)
    case Deferring(missing, attempt, _, _) =>
      (attempt + 1 < LISTENER_ATTEMPTS && Ripe(s, missing, 0)) || DeferRipe(s, missing)
    case Arming(deadline) => StashRipe(s, deadline + WAKE_GRACE)
    case _ => false
  }

  predicate CanShip(s: State) {
    ListenerShips(s) || exists k :: 0 <= k < |s.tasks| && TaskShips(s, s.tasks[k])
  }

  /** Some continuation under the same TTL enqueues a frame of a retransmit. */
  ghost predicate Ships(c: Config, s: State) {
    exists t, k: nat :: ReachesBy(c, s, t, false) && TaskEnabled(t, k, Shipped(true))
  }

  // ----- once nothing can ship, nothing can later

  /** Time has only passed: the entry is older or gone, but not refreshed. */
  ghost predicate Older(s: State, s': State) {
    && s'.now >= s.now && s'.ttl == s.ttl
    && (s'.entry.Some? ==>
          && s.entry.Some?
          && s'.entry.value.totalData == s.entry.value.totalData
          && s'.entry.value.registeredAt == s.entry.value.registeredAt
          && s'.entry.value.retransmits == s.entry.value.retransmits
          && s'.entry.value.cooldownUntil == s.entry.value.cooldownUntil)
  }

  ghost predicate SameStash(s: State, s': State) {
    s.entry.Some? && s'.entry.Some? ==>
      s'.entry.value.deferred == s.entry.value.deferred && s'.entry.value.scheduled == s.entry.value.scheduled
  }

  lemma RipeWanes(s: State, s': State, missing: seq<byte>, at: nat, at': nat)
    requires Older(s, s') && Ripe(s', missing, at') && at <= Max(at', s'.now)
    ensures Ripe(s, missing, at)
  {
  }

  /** No step makes a wake-up out of nothing, or an earlier one. */
  ghost predicate WakeupsWane(s: State, s': State) {
    forall missing :: WakeRipe(s', missing) ==> WakeRipe(s, missing)
  }

  lemma DeferWanes(s: State, s': State, missing: seq<byte>)
    requires Older(s, s') && SameStash(s, s') && WakeupsWane(s, s') && DeferRipe(s', missing)
    ensures DeferRipe(s, missing)
  {
    if !s.entry.value.scheduled {
      var at := s.entry.value.cooldownUntil.value + WAKE_GRACE;
      RipeWanes(s, s', missing, at, at);
    }
  }

  /** Whoever cannot ship cannot later either, as long as it stays where it is. */
  lemma TaskWanes(s: State, s': State, t: Task)
    requires Older(s, s') && SameStash(s, s') && WakeupsWane(s, s') && TaskShips(s', t)
    ensures TaskShips(s, t)
  {
    match t
    case WakeTaking(missing, _) => RipeWanes(s, s', missing, 0, 0);
    case WakeDeferring(missing, _) => DeferWanes(s, s', missing);
    case Sleeping(_) => RipeWanes(s, s', s'.entry.value.deferred.value, Due(t), Due(t));
    case WakeRearming(_) => RipeWanes(s, s', s'.entry.value.deferred.value, Due(t), Due(t));
    case Waking => RipeWanes(s, s', s'.entry.value.deferred.value, 0, 0);
    case _ =>
  }

  lemma ListenerWanes(s: State, s': State)
    requires Older(s, s') && SameStash(s, s') && WakeupsWane(s, s') && s'.listener == s.listener && ListenerShips(s')
    ensures ListenerShips(s)
  {
    match s.listener
    case Taking(missing, _, _, _) => RipeWanes(s, s', missing, 0, 0);
    case Deferring(missing, attempt, _, _) =>
      if DeferRipe(s', missing) {
        DeferWanes(s, s', missing);
      } else {
        RipeWanes(s, s', missing, 0, 0);
      }
    case Arming(deadline) =>
      RipeWanes(s, s', s'.entry.value.deferred.value, deadline + WAKE_GRACE, deadline + WAKE_GRACE);
    case _ =>
  }

  /** A wake-up of the later state, matched by one of the earlier state that is due no later. */
  ghost predicate MatchedWakeups(s: State, s': State) {
    && (s'.listener.Arming? ==> s'.listener == s.listener)
    && forall k :: 0 <= k < |s'.tasks| && s'.tasks[k].IsWakeup() ==>
         || (k < |s.tasks| && s.tasks[k].IsWakeup() && Due(s.tasks[k]) <= Max(Due(s'.tasks[k]), s'.now))
         || (s.listener.Arming? && s.listener.deadline + WAKE_GRACE <= Due(s'.tasks[k]))
         || exists j :: 0 <= j < |s.tasks| && s.tasks[j].IsWakeup() && Due(s.tasks[j]) <= Max(Due(s'.tasks[k]), s'.now)
  }

  lemma MatchedWane(s: State, s': State)
    requires Older(s, s') && MatchedWakeups(s, s')
    ensures WakeupsWane(s, s')
  {
    forall missing | WakeRipe(s', missing) ensures WakeRipe(s, missing) {
      if s'.listener.Arming? && Ripe(s', missing, s'.listener.deadline + WAKE_GRACE) {
        var at := s'.listener.deadline + WAKE_GRACE;
        RipeWanes(s, s', missing, at, at);
      } else {
        var k :| 0 <= k < |s'.tasks| && s'.tasks[k].IsWakeup() && Ripe(s', missing, Due(s'.tasks[k]));
        if j :| 0 <= j < |s.tasks| && s.tasks[j].IsWakeup() && Due(s.tasks[j]) <= Max(Due(s'.tasks[k]), s'.now) {
          RipeWanes(s, s', missing, Due(s.tasks[j]), Due(s'.tasks[k]));
        } else {
          RipeWanes(s, s', missing, s.listener.deadline + WAKE_GRACE, Due(s'.tasks[k]));
        }
      }
    }
  }

  /** Nothing can ship, and no new round can be accepted. */
  ghost predicate Barren(s: State) {
    && !s.active && !CanShip(s)
    && (s.burst.pc.Completing? || s.burst.pc.Removing? || s.burst.pc.Ended?)
  }

  /** Every task is as it was, or cannot ship where it is. */
  lemma StaysBarren(s: State, s': State)
    requires Barren(s) && !s'.active && (s'.burst.pc.Completing? || s'.burst.pc.Removing? || s'.burst.pc.Ended?)
    requires Older(s, s') && SameStash(s, s') && WakeupsWane(s, s')
    requires s'.listener == s.listener || !ListenerShips(s')
    requires forall k :: 0 <= k < |s'.tasks| ==> (k < |s.tasks| && s'.tasks[k] == s.tasks[k]) || !TaskShips(s', s'.tasks[k])
    ensures Barren(s')
  {
    if ListenerShips(s') {
      ListenerWanes(s, s');
    }
    forall k | 0 <= k < |s'.tasks| ensures !TaskShips(s', s'.tasks[k]) {
      if TaskShips(s', s'.tasks[k]) {
        TaskWanes(s, s', s'.tasks[k]);
      }
    }
  }

  /** A take that succeeds was ripe. */
  lemma TakenWasRipe(s: State, missing: seq<byte>, pacing: nat)
    requires TakeRetransmitSpec(s.entry, s.ttl, s.now, missing, pacing).1.Ok?
    ensures Ripe(s, missing, 0)
  {
    FramesForPlan(s.entry.value, missing);
    var plan := s.entry.value.FramesFor(missing);
    assert plan[0] in plan;
  }

  /** A list that could be taken through a stash could be taken now or when the entry opens. */
  lemma DeferRipeIsRipe(s: State, missing: seq<byte>)
    requires DeferRipe(s, missing)
    ensures Ripe(s, missing, 0)
  {
  }

  lemma GoneBarren(s: State, s': State)
    requires Barren(s) && !s'.active && (s'.burst.pc.Completing? || s'.burst.pc.Removing? || s'.burst.pc.Ended?)
    requires s'.entry.None? && !s'.listener.Announcing? && !s'.listener.Dispatching?
    requires forall k :: 0 <= k < |s'.tasks| ==> !s'.tasks[k].Shipping? && !s'.tasks[k].WakeAnnouncing?
    ensures Barren(s')
  {
  }

  // ----- each action of a barren state

  lemma BarrenHolds(s: State)
    requires Barren(s)
    ensures !s.listener.Announcing? && !s.listener.Dispatching?
    ensures forall k :: 0 <= k < |s.tasks| ==> !s.tasks[k].Shipping? && !s.tasks[k].WakeAnnouncing?
  {
    forall k | 0 <= k < |s.tasks| ensures !s.tasks[k].Shipping? && !s.tasks[k].WakeAnnouncing? {
      assert !TaskShips(s, s.tasks[k]);
    }
  }

  lemma EnvBarren(s: State, a: EnvAction)
    requires Barren(s) && EnvEnabled(s, a) && !a.SetTtl?
    ensures Barren(EnvStep(s, a))
  {
    MatchedWane(s, EnvStep(s, a));
    StaysBarren(s, EnvStep(s, a));
  }

  lemma BurstBarren(c: Config, s: State, a: BurstAction)
    requires Barren(s) && BurstEnabled(c, s, a)
    ensures Barren(BurstStep(c, s, a))
  {
    MatchedWane(s, BurstStep(c, s, a));
    StaysBarren(s, BurstStep(c, s, a));
  }

  lemma WakeTakeBarren(s: State, k: nat, pacing: nat)
    requires Barren(s) && TaskEnabled(s, k, WakeTake(pacing))
    ensures Barren(TaskStep(s, k, WakeTake(pacing)))
  {
    var missing := s.tasks[k].missing;
    assert !TaskShips(s, s.tasks[k]);
    if TakeRetransmitSpec(s.entry, s.ttl, s.now, missing, pacing).1.Ok? {
      TakenWasRipe(s, missing, pacing);
      assert false;
    }
    var s' := TaskStep(s, k, WakeTake(pacing));
    BarrenHolds(s);
    if s'.entry.None? {
      GoneBarren(s, s');
    } else {
      if DeferRipe(s', missing) {
        DeferRipeIsRipe(s', missing);
      }
      MatchedWane(s, s');
      StaysBarren(s, s');
    }
  }

  /** The task actions that touch neither the stash nor a round. */
  lemma PlainTaskBarren(s: State, k: nat, a: TaskAction)
    requires Barren(s) && TaskEnabled(s, k, a) && !a.WakeTake? && !a.TakeStash? && !a.WakeDefer?
    ensures Barren(TaskStep(s, k, a))
  {
    BarrenHolds(s);
    assert !TaskShips(s, s.tasks[k]);
    var s' := TaskStep(s, k, a);
    if a.Wake? {
      assert Due(s.tasks[k]) <= s'.now;
      if StashRipe(s', 0) {
        RipeWanes(s, s', s'.entry.value.deferred.value, Due(s.tasks[k]), 0);
      }
    } else if a.WakeRearm? {
      assert s'.tasks[|s.tasks|] == Sleeping(s.tasks[k].deadline);
      if StashRipe(s', Due(s.tasks[k])) {
        RipeWanes(s, s', s'.entry.value.deferred.value, Due(s.tasks[k]), Due(s.tasks[k]));
      }
    }
    MatchedWane(s, s');
    StaysBarren(s, s');
  }

  /** With the stash empty only the tasks and the listener themselves matter; a wake-up has nothing to take. */
  lemma TakeStashBarren(s: State, k: nat)
    requires Barren(s) && OneWakeup(s) && TaskEnabled(s, k, TakeStash)
    ensures Barren(TaskStep(s, k, TakeStash))
  {
    BarrenHolds(s);
    SumsMember(s.tasks, k, 0, WAKEUP);
    var s' := TaskStep(s, k, TakeStash);
    if s.entry.None? {
      GoneBarren(s, s');
    } else {
      assert s.entry.value.scheduled && !TaskShips(s, s.tasks[k]);
      forall missing | DeferRipe(s', missing) ensures DeferRipe(s, missing) {
        DeferRipeIsRipe(s', missing);
        RipeWanes(s, s', missing, Due(s.tasks[k]), 0);
      }
      forall j | 0 <= j < |s'.tasks| ensures !TaskShips(s', s'.tasks[j]) {
        if j == k {
          assert s'.tasks[k] == WakeTaking(s.entry.value.deferred.value, s.hist.stashedRound);
          assert Ripe(s', s.entry.value.deferred.value, 0) ==> Ripe(s, s.entry.value.deferred.value, 0);
        } else {
          assert s'.tasks[j] == s.tasks[j] && !TaskShips(s, s.tasks[j]);
        }
      }
      assert !ListenerShips(s);
    }
  }

  /** With no wake-up about, nobody is one. */
  lemma NoWakeups(s: State)
    requires Wakeups(s) == 0
    ensures !s.listener.Arming? && forall k :: 0 <= k < |s.tasks| ==> !s.tasks[k].IsWakeup()
  {
    forall k | 0 <= k < |s.tasks| ensures !s.tasks[k].IsWakeup() {
      SumsMember(s.tasks, k, 0, WAKEUP);
    }
  }

  /** Stashing a list that no wake-up can take in time keeps a state barren: the wake-up there is, or the one it starts, is late. */
  lemma StashBarren(s: State, s': State, missing: seq<byte>)
    requires Barren(s) && OneWakeup(s) && Cooling(s) && !DeferRipe(s, missing)
    requires s'.entry == Some(s.entry.value.(deferred := Some(missing), scheduled := true))
    requires s'.now == s.now && s'.ttl == s.ttl && !s'.active && s'.burst == s.burst
    requires |s'.tasks| == |s.tasks|
    requires forall k :: 0 <= k < |s.tasks| ==>
               || s'.tasks[k] == s.tasks[k] || s'.tasks[k].Exiting?
               || (!s.entry.value.scheduled && s'.tasks[k] == WakeRearming(s.entry.value.cooldownUntil.value))
    requires || s'.listener == s.listener || s'.listener.Idle?
             || (!s.entry.value.scheduled && s'.listener == Arming(s.entry.value.cooldownUntil.value))
    ensures Barren(s')
  {
    BarrenHolds(s);
    var at := s.entry.value.cooldownUntil.value + WAKE_GRACE;
    if !s.entry.value.scheduled {
      NoWakeups(s);
    }
    assert forall m, t :: Ripe(s', m, t) <==> Ripe(s, m, t);
    forall m | WakeRipe(s', m) ensures if s.entry.value.scheduled then WakeRipe(s, m) else Ripe(s, m, at) {
      if s'.listener.Arming? && Ripe(s', m, s'.listener.deadline + WAKE_GRACE) {
      } else {
        var k :| 0 <= k < |s'.tasks| && s'.tasks[k].IsWakeup() && Ripe(s', m, Due(s'.tasks[k]));
      }
    }
    assert forall m :: DeferRipe(s', m) ==> DeferRipe(s, m);
    forall k | 0 <= k < |s'.tasks| ensures !TaskShips(s', s'.tasks[k]) {
      assert !TaskShips(s, s.tasks[k]);
      if s'.tasks[k].IsWakeup() && TaskShips(s', s'.tasks[k]) {
        assert WakeRipe(s', missing);
      }
    }
    if s'.listener.Arming? {
      assert StashRipe(s', s'.listener.deadline + WAKE_GRACE) ==> WakeRipe(s', missing);
    }
  }

  lemma WakeDeferBarren(s: State, k: nat)
    requires Barren(s) && OneWakeup(s) && TaskEnabled(s, k, WakeDefer)
    ensures Barren(TaskStep(s, k, WakeDefer))
  {
    BarrenHolds(s);
    assert !TaskShips(s, s.tasks[k]);
    var s' := TaskStep(s, k, WakeDefer);
    if Cooling(s) {
      StashBarren(s, s', s.tasks[k].missing);
    } else {
      MatchedWane(s, s');
      StaysBarren(s, s');
    }
  }

  lemma ListenerTakeBarren(s: State, pacing: nat)
    requires Barren(s) && ListenerEnabled(s, ListenerTake(pacing))
    ensures Barren(ListenerStep(s, ListenerTake(pacing)))
  {
    var missing := s.listener.missing;
    assert !ListenerShips(s);
    if TakeRetransmitSpec(s.entry, s.ttl, s.now, missing, pacing).1.Ok? {
      TakenWasRipe(s, missing, pacing);
      assert false;
    }
    var s' := ListenerStep(s, ListenerTake(pacing));
    BarrenHolds(s);
    if s'.entry.None? {
      GoneBarren(s, s');
    } else {
      if DeferRipe(s', missing) {
        DeferRipeIsRipe(s', missing);
      }
      MatchedWane(s, s');
      StaysBarren(s, s');
    }
  }

  lemma ListenerDeferBarren(s: State)
    requires Barren(s) && OneWakeup(s) && ListenerEnabled(s, ListenerDefer)
    ensures Barren(ListenerStep(s, ListenerDefer))
  {
    BarrenHolds(s);
    assert !ListenerShips(s);
    var s' := ListenerStep(s, ListenerDefer);
    if Cooling(s) {
      StashBarren(s, s', s.listener.missing);
    } else {
      if s'.listener.Taking? && Ripe(s', s.listener.missing, 0) {
        RipeWanes(s, s', s.listener.missing, 0, 0);
      }
      MatchedWane(s, s');
      StaysBarren(s, s');
    }
  }

  lemma PlainListenerBarren(s: State, a: ListenerAction)
    requires Barren(s) && ListenerEnabled(s, a) && !a.ListenerTake? && !a.ListenerDefer?
    ensures Barren(ListenerStep(s, a))
  {
    BarrenHolds(s);
    assert !ListenerShips(s);
    var s' := ListenerStep(s, a);
    if a.ListenerArm? {
      var at := s.listener.deadline + WAKE_GRACE;
      assert s'.tasks[|s.tasks|] == Sleeping(s.listener.deadline);
      if StashRipe(s', at) {
        RipeWanes(s, s', s'.entry.value.deferred.value, at, at);
      }
    }
    MatchedWane(s, s');
    StaysBarren(s, s');
  }

  lemma BarrenStep(c: Config, s: State, a: Action)
    requires Barren(s) && OneWakeup(s) && Enabled(c, s, a) && !ChangesTtl(a)
    ensures Barren(Step(c, s, a))
  {
    match a
    case Env(e) => EnvBarren(s, e);
    case Send(b) => BurstBarren(c, s, b);
    case Listen(l) =>
      if l.ListenerTake? {
        ListenerTakeBarren(s, l.pacing);
      } else if l.ListenerDefer? {
        ListenerDeferBarren(s);
      } else {
        PlainListenerBarren(s, l);
      }
    case Run(k, t) =>
      if t.WakeTake? {
        WakeTakeBarren(s, k, t.pacing);
      } else if t.TakeStash? {
        TakeStashBarren(s, k);
      } else if t.WakeDefer? {
        WakeDeferBarren(s, k);
      } else {
        PlainTaskBarren(s, k, t);
      }
  }

  lemma {:induction false} BarrenAfter(c: Config, s: State, run: seq<Action>)
    requires c.Valid() && Inv(c, s) && Barren(s) && Legal(c, s, run) && Allowed(run, false)
    ensures Barren(After(c, s, run))
    decreases |run|
  {
    if run != [] {
      assert run[0] in run && forall a :: a in run[1..] ==> a in run;
      BarrenStep(c, s, run[0]);
      InvKept(c, s, run[0]);
      BarrenAfter(c, Step(c, s, run[0]), run[1..]);
    }
  }

  // ----- whoever can ship does, in some continuation

  lemma ShipNow(c: Config, from: State, s: State, k: nat)
    requires ReachesBy(c, from, s, false) && k < |s.tasks|
    requires (s.tasks[k].Shipping? && s.tasks[k].todo != []) || (s.tasks[k].WakeAnnouncing? && s.tasks[k].plan != [])
    ensures Ships(c, from)
  {
    var t := s;
    if s.tasks[k].WakeAnnouncing? {
      t := Go(c, from, s, Run(k, WakeAnnounce), false);
    }
    assert TaskEnabled(t, k, Shipped(true));
  }

  lemma HandoffShips(c: Config, from: State, s: State)
    requires ReachesBy(c, from, s, false)
    requires (s.listener.Announcing? || s.listener.Dispatching?) && s.listener.plan != []
    ensures Ships(c, from)
  {
    var t := s;
    if s.listener.Announcing? {
      t := Go(c, from, s, Listen(ListenerAnnounce), false);
    }
    t := Go(c, from, t, Listen(ListenerDispatch), false);
    ShipNow(c, from, t, |s.tasks|);
  }

  /** Waiting until a moment at which a list is ripe, nothing but the clock moves. */
  lemma Wait(c: Config, from: State, s: State, missing: seq<byte>, at: nat) returns (t: State)
    requires ReachesBy(c, from, s, false) && Ripe(s, missing, at)
    ensures ReachesBy(c, from, t, false) && t == s.(now := Max(Opens(s), at))
    ensures Ripe(t, missing, 0) && !Cooling(t) && Servable(t, missing, false)
  {
    t := Go(c, from, s, Env(Tick(Max(Opens(s), at) - s.now)), false);
  }

  lemma TaskTakeShips(c: Config, from: State, s: State, k: nat)
    requires ReachesBy(c, from, s, false) && NonePending(s)
    requires k < |s.tasks| && s.tasks[k].WakeTaking? && Ripe(s, s.tasks[k].missing, 0)
    ensures Ships(c, from)
  {
    var t := Wait(c, from, s, s.tasks[k].missing, 0);
    PlanHandedOut(t, s.tasks[k].missing);
    t := Go(c, from, t, Run(k, WakeTake(0)), false);
    ShipNow(c, from, t, k);
  }

  lemma ListenerTakeShips(c: Config, from: State, s: State)
    requires ReachesBy(c, from, s, false) && NonePending(s) && s.listener.Taking? && Ripe(s, s.listener.missing, 0)
    ensures Ships(c, from)
  {
    var t := Wait(c, from, s, s.listener.missing, 0);
    PlanHandedOut(t, s.listener.missing);
    t := Go(c, from, t, Listen(ListenerTake(0)), false);
    HandoffShips(c, from, t);
  }

  lemma WakeupShips(c: Config, from: State, s: State, k: nat)
    requires ReachesBy(c, from, s, false) && NonePending(s)
    requires k < |s.tasks| && s.tasks[k].IsWakeup() && StashRipe(s, Due(s.tasks[k]))
    ensures Ships(c, from)
  {
    var t, j := s, k;
    if s.tasks[k].WakeRearming? {
      t := Go(c, from, s, Run(k, WakeRearm), false);
      j := |s.tasks|;
    }
    if t.tasks[j].Sleeping? {
      t := Wait(c, from, t, s.entry.value.deferred.value, Due(t.tasks[j]));
      t := Go(c, from, t, Run(j, Wake), false);
    }
    t := Go(c, from, t, Run(j, TakeStash), false);
    TaskTakeShips(c, from, t, j);
  }

  lemma StashShips(c: Config, from: State, s: State, missing: seq<byte>)
    requires ReachesBy(c, from, s, false) && NonePending(s)
    requires s.entry.Some? && s.entry.value.deferred == Some(missing) && WakeRipe(s, missing)
    ensures Ships(c, from)
  {
    if s.listener.Arming? && Ripe(s, missing, s.listener.deadline + WAKE_GRACE) {
      var t := Go(c, from, s, Listen(ListenerArm), false);
      WakeupShips(c, from, t, |s.tasks|);
    } else {
      var k :| 0 <= k < |s.tasks| && s.tasks[k].IsWakeup() && Ripe(s, missing, Due(s.tasks[k]));
      WakeupShips(c, from, s, k);
    }
  }

  /** A defer that stashes leaves the list to a wake-up that takes it in time. */
  lemma StashedRipe(s: State, s': State, missing: seq<byte>)
    requires DeferRipe(s, missing)
    requires s'.now == s.now && s'.ttl == s.ttl
    requires s'.entry == Some(s.entry.value.(deferred := Some(missing), scheduled := true))
    requires |s'.tasks| == |s.tasks|
    requires forall k :: 0 <= k < |s.tasks| && s.tasks[k].IsWakeup() ==> s'.tasks[k] == s.tasks[k]
    requires s.listener.Arming? ==> s'.listener == s.listener
    requires s.entry.value.scheduled || s'.listener == Arming(s.entry.value.cooldownUntil.value)
             || exists k :: 0 <= k < |s'.tasks| && s'.tasks[k] == WakeRearming(s.entry.value.cooldownUntil.value)
    ensures WakeRipe(s', missing)
  {
    assert forall at :: Ripe(s, missing, at) ==> Ripe(s', missing, at);
    if s.entry.value.scheduled && !(s.listener.Arming? && Ripe(s, missing, s.listener.deadline + WAKE_GRACE)) {
      var k :| 0 <= k < |s.tasks| && s.tasks[k].IsWakeup() && Ripe(s, missing, Due(s.tasks[k]));
      assert s'.tasks[k].IsWakeup();
    }
  }

  lemma WakeDeferShips(c: Config, from: State, s: State, k: nat)
    requires ReachesBy(c, from, s, false) && NonePending(s)
    requires k < |s.tasks| && s.tasks[k].WakeDeferring? && DeferRipe(s, s.tasks[k].missing)
    ensures Ships(c, from)
  {
    var t := Go(c, from, s, Run(k, WakeDefer), false);
    assert s.entry.value.scheduled || t.tasks[k] == WakeRearming(s.entry.value.cooldownUntil.value);
    StashedRipe(s, t, s.tasks[k].missing);
    StashShips(c, from, t, s.tasks[k].missing);
  }

  lemma ListenerDeferShips(c: Config, from: State, s: State)
    requires ReachesBy(c, from, s, false) && NonePending(s) && s.listener.Deferring? && ListenerShips(s)
    ensures Ships(c, from)
  {
    var missing := s.listener.missing;
    if DeferRipe(s, missing) {
      var t := Go(c, from, s, Listen(ListenerDefer), false);
      StashedRipe(s, t, missing);
      StashShips(c, from, t, missing);
    } else {
      var t := Wait(c, from, s, missing, 0);
      t := Go(c, from, t, Listen(ListenerDefer), false);
      ListenerTakeShips(c, from, t);
    }
  }

  lemma TaskShipping(c: Config, from: State, s: State, k: nat)
    requires ReachesBy(c, from, s, false) && NonePending(s) && k < |s.tasks| && TaskShips(s, s.tasks[k])
    requires TaskShape(s.tasks[k], s.now)
    ensures Ships(c, from)
  {
    match s.tasks[k]
    case Shipping(_) => ShipNow(c, from, s, k);
    case WakeAnnouncing(_) => ShipNow(c, from, s, k);
    case WakeTaking(_, _) => TaskTakeShips(c, from, s, k);
    case WakeDeferring(_, _) => WakeDeferShips(c, from, s, k);
    case _ => WakeupShips(c, from, s, k);
  }

  lemma ListenerShipping(c: Config, from: State, s: State)
    requires ReachesBy(c, from, s, false) && NonePending(s) && ListenerShips(s) && ListenerShape(s.listener, s.now)
    ensures Ships(c, from)
  {
    match s.listener
    case Announcing(_) => HandoffShips(c, from, s);
    case Dispatching(_) => HandoffShips(c, from, s);
    case Taking(_, _, _, _) => ListenerTakeShips(c, from, s);
    case Deferring(_, _, _, _) => ListenerDeferShips(c, from, s);
    case Arming(_) => StashShips(c, from, s, s.entry.value.deferred.value);
  }

  // ----- failed batches let go of their chunks first

  /** Only tasks that release what they failed to send have moved, and only the pending set with them. */
  ghost predicate Freed(s: State, t: State) {
    && t.now == s.now && t.ttl == s.ttl && t.listener == s.listener && |t.tasks| == |s.tasks|
    && (forall k :: 0 <= k < |s.tasks| ==>
          t.tasks[k] == s.tasks[k] || (s.tasks[k].Releasing? && (t.tasks[k].Exiting? || t.tasks[k].Releasing?)))
    && t.entry.Some? == s.entry.Some?
    && (s.entry.Some? ==> t.entry.value == s.entry.value.(pending := t.entry.value.pending))
  }

  lemma {:induction false} ReleaseTask(c: Config, from: State, s: State, k: nat) returns (t: State)
    requires ReachesBy(c, from, s, false) && Reachable(c, s) && k < |s.tasks| && s.tasks[k].Releasing?
    ensures ReachesBy(c, from, t, false) && Reachable(c, t) && Freed(s, t) && t.burst == s.burst && t.tasks[k].Exiting?
    ensures forall j :: 0 <= j < |s.tasks| && j != k ==> t.tasks[j] == s.tasks[j]
    decreases |s.tasks[k].todo|
  {
    Always(c, s);
    assert TaskShape(s.tasks[k], s.now);
    ReachableThen(c, s, Run(k, Release));
    t := Go(c, from, s, Run(k, Release), false);
    if !t.tasks[k].Exiting? {
      var u := t;
      t := ReleaseTask(c, from, u, k);
    }
  }

  lemma {:induction false} ReleaseFirst(c: Config, from: State, s: State, n: nat) returns (t: State)
    requires ReachesBy(c, from, s, false) && Reachable(c, s) && n <= |s.tasks|
    ensures ReachesBy(c, from, t, false) && Reachable(c, t) && Freed(s, t) && t.burst == s.burst
    ensures forall k :: 0 <= k < n ==> !t.tasks[k].Releasing?
  {
    t := s;
    if n > 0 {
      t := ReleaseFirst(c, from, s, n - 1);
      if t.tasks[n - 1].Releasing? {
        var u := t;
        t := ReleaseTask(c, from, u, n - 1);
      }
    }
  }

  lemma FreedShips(s: State, t: State)
    requires Freed(s, t) && CanShip(s)
    ensures CanShip(t)
  {
    assert forall missing, at :: Ripe(s, missing, at) ==> Ripe(t, missing, at);
    forall missing | WakeRipe(s, missing) ensures WakeRipe(t, missing) {
      if k :| 0 <= k < |s.tasks| && s.tasks[k].IsWakeup() && Ripe(s, missing, Due(s.tasks[k])) {
        assert t.tasks[k].IsWakeup();
      }
    }
    assert forall missing :: DeferRipe(s, missing) ==> DeferRipe(t, missing);
    if k :| 0 <= k < |s.tasks| && TaskShips(s, s.tasks[k]) {
      assert TaskShips(t, t.tasks[k]);
    }
  }

  lemma CanShipShips(c: Config, s: State)
    requires Reachable(c, s) && s.burst.pc.Removing? && CanShip(s)
    ensures Ships(c, s)
  {
    ReachesNothing(c, s, false);
    Always(c, s);
    if s.listener.Announcing? || s.listener.Dispatching? {
      HandoffShips(c, s, s);
    } else if k :| 0 <= k < |s.tasks| && (s.tasks[k].Shipping? || s.tasks[k].WakeAnnouncing?) {
      assert TaskShape(s.tasks[k], s.now);
      ShipNow(c, s, s, k);
    } else {
      var t := ReleaseFirst(c, s, s, |s.tasks|);
      FreedShips(s, t);
      NobodyHolds(c, t);
      Always(c, t);
      if ListenerShips(t) {
        ListenerShipping(c, s, t);
      } else {
        var k :| 0 <= k < |t.tasks| && TaskShips(t, t.tasks[k]);
        assert TaskShape(t.tasks[k], t.now);
        TaskShipping(c, s, t, k);
      }
    }
  }

  lemma NobodyHolds(c: Config, s: State)
    requires Reachable(c, s) && s.burst.pc.Removing? && ListenerHolds(s.listener) == []
    requires forall k :: 0 <= k < |s.tasks| ==> s.tasks[k].Holds() == []
    ensures NonePending(s)
  {
    Always(c, s);
    if s.entry.Some? {
      forall x: byte ensures x !in s.entry.value.pending {
        PendingIsHeld(c, s, x);
      }
    }
  }

  /**
    Which tasks alive when `Complete` goes out, after a timed-out drain or not, still enqueue a frame in some continuation
    under the same TTL: exactly those `CanShip` names, by the entry's cooldown, its age and the round each is working on.
   */
  lemma ShipsAfterCompleteIff(c: Config, s: State)
    requires Reachable(c, s) && BurstEnabled(c, s, EmitComplete)
    ensures Ships(c, Step(c, s, Send(EmitComplete))) <==> CanShip(s)
  {
    var t := Step(c, s, Send(EmitComplete));
    CompleteStep(c, s);
    ReachableThen(c, s, Send(EmitComplete));
    if CanShip(s) {
      FreedShips(s, t);
      CanShipShips(c, t);
    } else {
      if CanShip(t) {
        FreedShips(t, s);
      }
      Always(c, t);
      forall u, k: nat | ReachesBy(c, t, u, false) ensures !TaskEnabled(u, k, Shipped(true)) {
        var run :| Legal(c, t, run) && Allowed(run, false) && After(c, t, run) == u;
        BarrenAfter(c, t, run);
        BarrenHolds(u);
      }
    }
  }
}

/**
  What the outbound pipeline guarantees in every reachable state, read off the invariants.
 */
module PipelineGuarantees {
  import opened Words
  import opened Outgoing
  import opened Pipeline
  import opened PipelineSafety

  // ----- chunks in flight

  lemma {:induction false} HolderExists(tasks: seq<Task>, x: byte)
    requires HeldBy(tasks, x) > 0
    ensures exists k :: 0 <= k < |tasks| && x in tasks[k].Holds()
  {
    var n := |tasks| - 1;
    if x in tasks[n].Holds() {
    } else {
      assert x !in multiset(tasks[n].Holds());
      HolderExists(tasks[..n], x);
      var k :| 0 <= k < n && x in tasks[..n][k].Holds();
      assert x in tasks[k].Holds();
    }
  }

  lemma {:induction false} TwoHolders(tasks: seq<Task>, j: nat, k: nat, x: byte)
    requires j < k < |tasks| && x in tasks[j].Holds() && x in tasks[k].Holds()
    ensures HeldBy(tasks, x) >= 2
  {
    var n := |tasks| - 1;
    var before := tasks[..n];
    assert before[j] == tasks[j];
    if k == n {
      SumsMember(before, j, x, ALIVE);
      assert x in multiset(before[j].Holds()) && x in multiset(tasks[n].Holds());
      assert HeldBy(tasks, x) == HeldBy(before, x) + multiset(tasks[n].Holds())[x];
    } else {
      assert before[k] == tasks[k];
      TwoHolders(before, j, k, x);
    }
  }

  /**
    No chunk is queued twice at once: the burst's remaining chunks, the listener's plan and every
    task's list are pairwise disjoint and repeat nothing.
   */
  lemma NoDoubleQueueing(c: Config, s: State)
    requires Reachable(c, s)
    ensures forall k :: 0 <= k < |s.tasks| ==>
              && Distinct(s.tasks[k].Holds())
              && Elements(s.tasks[k].Holds()) !! Unsent(c, s)
              && Elements(s.tasks[k].Holds()) !! Elements(ListenerHolds(s.listener))
    ensures forall j, k :: 0 <= j < k < |s.tasks| ==> Elements(s.tasks[j].Holds()) !! Elements(s.tasks[k].Holds())
    ensures Distinct(ListenerHolds(s.listener)) && Elements(ListenerHolds(s.listener)) !! Unsent(c, s)
  {
    Always(c, s);
    forall k | 0 <= k < |s.tasks|
      ensures Distinct(s.tasks[k].Holds()) && Elements(s.tasks[k].Holds()) !! Unsent(c, s)
           && Elements(s.tasks[k].Holds()) !! Elements(ListenerHolds(s.listener))
    {
      forall x: byte
        ensures multiset(s.tasks[k].Holds())[x] <= 1
        ensures x in s.tasks[k].Holds() ==> x !in Unsent(c, s) && x !in ListenerHolds(s.listener)
      {
        SumsMember(s.tasks, k, x, ALIVE);
        assert ConservedAt(c, s, x);
        assert x in ListenerHolds(s.listener) ==> x in multiset(ListenerHolds(s.listener));
        assert x in s.tasks[k].Holds() ==> x in multiset(s.tasks[k].Holds());
      }
    }
    forall j, k | 0 <= j < k < |s.tasks| ensures Elements(s.tasks[j].Holds()) !! Elements(s.tasks[k].Holds()) {
      forall x: byte | x in s.tasks[j].Holds() && x in s.tasks[k].Holds() ensures false {
        assert ConservedAt(c, s, x);
        TwoHolders(s.tasks, j, k, x);
      }
    }
    forall x: byte
      ensures multiset(ListenerHolds(s.listener))[x] <= 1
      ensures x in ListenerHolds(s.listener) ==> x !in Unsent(c, s)
    {
      assert ConservedAt(c, s, x);
      assert x in ListenerHolds(s.listener) ==> x in multiset(ListenerHolds(s.listener));
    }
  }

  /** While the message is retained, its pending set is the union of what the holders hold. */
  lemma PendingIsHeld(c: Config, s: State, x: byte)
    requires Reachable(c, s) && s.entry.Some?
    ensures x in s.entry.value.pending
            <==> x in Unsent(c, s) || x in ListenerHolds(s.listener)
                 || exists k :: 0 <= k < |s.tasks| && x in s.tasks[k].Holds()
  {
    Always(c, s);
    assert ConservedAt(c, s, x);
    assert x in ListenerHolds(s.listener) <==> x in multiset(ListenerHolds(s.listener));
    if HeldBy(s.tasks, x) > 0 {
      HolderExists(s.tasks, x);
    }
    if k :| 0 <= k < |s.tasks| && x in s.tasks[k].Holds() {
      SumsMember(s.tasks, k, x, ALIVE);
      assert x in multiset(s.tasks[k].Holds());
    }
  }

  /** Nothing leaks: once the burst is out and every task has ended, failed batches included, no chunk is pending. */
  lemma PendingDrains(c: Config, s: State)
    requires Reachable(c, s) && s.entry.Some?
    requires BurstOver(s.burst.pc) && s.listener.Idle?
    requires forall k :: 0 <= k < |s.tasks| ==> s.tasks[k].Done?
    ensures s.entry.value.pending == {}
  {
    Always(c, s);
    forall x: byte ensures x !in s.entry.value.pending {
      PendingIsHeld(c, s, x);
    }
  }

  // ----- deferred rounds

  /** A stashed list always has its one wake-up, and that wake-up is due within 30 s and a 10 ms grace. */
  lemma StashHasItsWakeup(c: Config, s: State)
    requires Reachable(c, s) && s.entry.Some?
    ensures s.entry.value.deferred.Some? <==> s.entry.value.scheduled
    ensures s.entry.value.scheduled <==> Wakeups(s) == 1
    ensures Wakeups(s) <= 1
    ensures s.entry.value.scheduled ==>
              || (s.listener.Arming? && s.listener.deadline <= s.now + Seconds(30))
              || exists k :: 0 <= k < |s.tasks| && s.tasks[k].IsWakeup() && DueBy(s.tasks[k], s.now + Seconds(30))
  {
    Always(c, s);
    if s.entry.value.scheduled && !s.listener.Arming? {
      CountedExists(s.tasks, WAKEUP);
      var k :| 0 <= k < |s.tasks| && WAKEUP(s.tasks[k]);
      assert TaskShape(s.tasks[k], s.now);
      assert s.tasks[k].IsWakeup() && DueBy(s.tasks[k], s.now + Seconds(30));
    }
  }

  predicate DueBy(t: Task, time: nat) {
    match t
    case Sleeping(deadline) => deadline <= time
    case WakeRearming(deadline) => deadline <= time
    case _ => true
  }

  lemma {:induction false} CountedExists(tasks: seq<Task>, p: Task -> bool)
    requires Count(tasks, p) > 0
    ensures exists k :: 0 <= k < |tasks| && p(tasks[k])
  {
    var n := |tasks| - 1;
    if !p(tasks[n]) {
      CountedExists(tasks[..n], p);
      var k :| 0 <= k < n && p(tasks[..n][k]);
      assert p(tasks[k]);
    }
  }

  /** The wake-up that fires consumes the list of the last `defer_nack` that stashed one, and clears the stash. */
  lemma WakeupConsumesLastStash(c: Config, s: State, k: nat)
    requires Reachable(c, s) && TaskEnabled(s, k, TakeStash)
    ensures var s' := TaskStep(s, k, TakeStash);
            && Wakeups(s') == 0
            && (s.entry.Some? ==>
                  && s'.tasks[k] == WakeTaking(s.hist.stashed, s.hist.stashedRound)
                  && s'.entry.Some? && s'.entry.value.deferred.None? && !s'.entry.value.scheduled)
  {
    Always(c, s);
    TaskSums(s, k, TakeStash, 0, WAKEUP);
    SumsMember(s.tasks, k, 0, WAKEUP);
  }

  lemma AgedStash(s: State)
    requires Aged(s) && ListenerEnabled(s, ListenerDefer)
    ensures var s' := ListenerStep(s, ListenerDefer);
            s'.hist.stashedRound != s.hist.stashedRound || s'.hist.stashed != s.hist.stashed ==>
              && s'.hist.stashedRound == s.hist.rounds > s.hist.stashedRound
              && s'.hist.stashed == s.listener.missing
  {
  }

  /** The listener only ever replaces a stash by a strictly newer round. */
  lemma ListenerStashIsFresher(c: Config, s: State)
    requires Reachable(c, s) && ListenerEnabled(s, ListenerDefer)
    ensures var s' := ListenerStep(s, ListenerDefer);
            s'.hist.stashedRound != s.hist.stashedRound || s'.hist.stashed != s.hist.stashed ==>
              && s'.hist.stashedRound == s.hist.rounds > s.hist.stashedRound
              && s'.hist.stashed == s.listener.missing
  {
    Always(c, s);
    AgedStash(s);
  }

  /**
    When a list that is still waiting for its wake-up is replaced by an older one: exactly when a wake-up that had
    consumed its own list before defers again while a newer list waits and the cooldown runs.
   */
  lemma StaleStashIff(c: Config, s: State, k: nat)
    requires Reachable(c, s) && TaskEnabled(s, k, WakeDefer)
    ensures var s' := TaskStep(s, k, WakeDefer);
            (s.entry.Some? && s.entry.value.deferred.Some? && s'.hist.stashedRound < s.hist.stashedRound
             && s'.entry.Some? && s'.entry.value.deferred == Some(s.tasks[k].missing))
            <==> (s.entry.Some? && s.entry.value.scheduled && s.tasks[k].round < s.hist.stashedRound
                  && s.entry.value.cooldownUntil.Some? && s.now < s.entry.value.cooldownUntil.value)
  {
    Always(c, s);
  }

  lemma RetriedTwice(s: State)
    requires Retrying(s) && ListenerEnabled(s, ListenerDefer)
    requires ListenerStep(s, ListenerDefer).hist.dropped > s.hist.dropped
    ensures s.listener.attempt == 2
    ensures s.listener.rivals >= 2
    ensures s.now >= s.listener.since + Seconds(2)
  {
  }

  /**
    The listener gives a round up after three attempts only when, since it began, at least two
    stalled wake-ups took rounds of their own and at least two seconds passed.
   */
  lemma DroppedRoundHadRivals(c: Config, s: State)
    requires Reachable(c, s) && ListenerEnabled(s, ListenerDefer)
    requires ListenerStep(s, ListenerDefer).hist.dropped > s.hist.dropped
    ensures s.listener.attempt == 2
    ensures s.listener.rivals >= 2
    ensures s.now >= s.listener.since + Seconds(2)
  {
    Always(c, s);
    RetriedTwice(s);
  }

  // ----- the in-flight count

  lemma {:induction false} NoneCounted(tasks: seq<Task>, p: Task -> bool)
    requires forall k :: 0 <= k < |tasks| ==> !p(tasks[k])
    ensures Count(tasks, p) == 0
  {
    if tasks != [] {
      NoneCounted(tasks[..|tasks| - 1], p);
    }
  }

  /** The count is zero exactly when every spawned retransmit task has ended; the decrement never saturates. */
  lemma InflightExact(c: Config, s: State)
    requires Reachable(c, s)
    ensures s.inflight == Count(s.tasks, ALIVE)
    ensures s.inflight == 0 <==> forall k :: 0 <= k < |s.tasks| ==> s.tasks[k].Done?
    ensures forall k :: TaskEnabled(s, k, Exit) ==> s.inflight >= 1
  {
    Always(c, s);
    if s.inflight == 0 {
      forall k | 0 <= k < |s.tasks| ensures s.tasks[k].Done? {
        SumsMember(s.tasks, k, 0, ALIVE);
      }
    }
    if forall k :: 0 <= k < |s.tasks| ==> s.tasks[k].Done? {
      NoneCounted(s.tasks, ALIVE);
    }
    forall k: nat | TaskEnabled(s, k, Exit) ensures s.inflight >= 1 {
      SumsMember(s.tasks, k, 0, ALIVE);
    }
  }

  /** Some wake-up in the chain keeps the count up: re-arming raises it before the old wake-up lets go. */
  lemma RearmNeverTouchesZero(c: Config, s: State, k: nat)
    requires Reachable(c, s) && TaskEnabled(s, k, WakeRearm)
    ensures var armed := TaskStep(s, k, WakeRearm);
            && s.inflight >= 1 && armed.inflight >= 2
            && TaskEnabled(armed, k, Exit) && TaskStep(armed, k, Exit).inflight >= 1
  {
    Always(c, s);
    SumsMember(s.tasks, k, 0, ALIVE);
  }

  predicate MidHandoff(l: Listener) {
    l.Arming? || l.Announcing? || l.Dispatching?
  }

  /**
    What a zero read is worth at that moment: every retransmit task has ended, a taken or deferred round is uncounted exactly
    when the listener stands in between, and with the listener idle nothing is pending or deferred. What may still come
    by the time `Complete` is emitted is `PipelineCompletion.RetransmitAfterCompleteIff`.
   */
  lemma ZeroReadMeans(c: Config, s: State)
    requires Reachable(c, s) && BurstEnabled(c, s, DrainRead) && s.inflight == 0
    ensures forall k :: 0 <= k < |s.tasks| ==> s.tasks[k].Done?
    ensures Wakeups(s) > 0 || ListenerHolds(s.listener) != [] <==> MidHandoff(s.listener)
    ensures s.entry.Some? && s.listener.Idle? ==> s.entry.value.pending == {} && !s.entry.value.scheduled
  {
    Always(c, s);
    InflightExact(c, s);
    NoneCounted(s.tasks, WAKEUP);
    if s.entry.Some? && s.listener.Idle? {
      PendingDrains(c, s);
    }
  }

  // ----- terminal statuses

  /** `Complete` comes at most once, only from the step that removed the active entry, after a zero read or the timeout. */
  lemma CompleteOnce(c: Config, s: State)
    requires Reachable(c, s)
    ensures TallyOf(s.log).completes <= 1
    ensures TallyOf(s.log).completes == 1 ==>
              s.hist.remover.BySend? && !s.active && (s.hist.drain.ReadZero? || s.hist.drain.TimedOut?)
  {
    Always(c, s);
  }

  lemma {:induction false} RemoverStays(c: Config, s: State, run: seq<Action>)
    requires c.Valid() && Inv(c, s) && Legal(c, s, run) && !s.active
    ensures After(c, s, run).hist.remover == s.hist.remover
    decreases |run|
  {
    if run != [] {
      RemoverStep(c, s, run[0]);
      InvKept(c, s, run[0]);
      RemoverStays(c, Step(c, s, run[0]), run[1..]);
    }
  }

  lemma RemoverStep(c: Config, s: State, a: Action)
    requires !s.active && Enabled(c, s, a)
    ensures !Step(c, s, a).active && Step(c, s, a).hist.remover == s.hist.remover
  {
    match a
    case Run(k, t) => TaskTerminals(s, k, t);
    case _ =>
  }

  /** Once a give-up or a failure has removed the entry, no continuation ever emits `Complete`. */
  lemma NoCompleteAfterRemoval(c: Config, s: State, run: seq<Action>)
    requires Reachable(c, s) && (s.hist.remover.ByGiveUp? || s.hist.remover.ByFailure?)
    requires Legal(c, s, run)
    ensures TallyOf(After(c, s, run).log).completes == 0
  {
    Always(c, s);
    RemoverStays(c, s, run);
    InvAfter(c, s, run);
  }

  /** Every task has ended and the listener is idle. */
  ghost predicate Quiet(s: State) {
    && s.burst.pc.Ended? && s.listener.Idle?
    && forall k :: 0 <= k < |s.tasks| ==> s.tasks[k].Done?
  }

  lemma TerminalBooks(t: Tally, s: State)
    requires Books(t, s) && Removal(s)
    ensures t.Terminals() <= 2
    ensures s.burst.pc.Ended? && s.listener.Idle? ==> t.Terminals() == 1 + s.hist.lost
  {
  }

  /**
    How many terminal statuses a finished send has emitted. The documented "exactly one" holds
    exactly when no emitter of `GaveUp` or `Failed` found the active entry already removed.
   */
  lemma TerminalCount(c: Config, s: State)
    requires Reachable(c, s)
    ensures TallyOf(s.log).Terminals() <= 2
    ensures s.burst.pc.Ended? && s.listener.Idle? ==>
              && TallyOf(s.log).Terminals() == 1 + s.hist.lost
              && (TallyOf(s.log).Terminals() == 1 <==> s.hist.lost == 0)
  {
    Always(c, s);
    TerminalBooks(TallyOf(s.log), s);
  }

  /** The terminal statuses emitted before each place that emits one, or claims the right to. */
  lemma EmitterBooks(t: Tally, s: State)
    requires Books(t, s) && Removal(s)
    ensures s.listener.GivingUp? ==>
              (t != Tally(0, 0, 0) <==> s.burst.pc.FailedActive? || (!s.active && !s.burst.pc.Completing?))
    ensures s.burst.pc.Enqueuing? ==> (t != Tally(0, 0, 0) <==> !s.active || s.listener.GaveUpActive?)
    ensures s.burst.pc.Claiming? && s.active ==> (t != Tally(0, 0, 0) <==> s.listener.GaveUpActive?)
    ensures s.burst.pc.Completing? ==> (t != Tally(0, 0, 0) <==> s.listener.GaveUpActive? || s.hist.lost > 0)
  {
  }

  /**
    Which emission is a second one. A `GaveUp` follows another terminal status exactly when run_send has emitted `Failed`, or the
    active entry is gone and run_send is not about to emit `Complete`; a `Failed` exactly when the active entry is gone or
    an announced give-up is about to remove it; a `Complete` exactly when a give-up has been announced, whether it has
    found the entry gone yet or not. At the claim of `Complete` only an announced one can have gone before.
   */
  lemma SecondTerminalIff(c: Config, s: State)
    requires Reachable(c, s)
    ensures ListenerEnabled(s, EmitGaveUp) ==>
              (TallyOf(s.log) != Tally(0, 0, 0) <==> s.burst.pc.FailedActive? || (!s.active && !s.burst.pc.Completing?))
    ensures BurstEnabled(c, s, Enqueued(false)) ==>
              (TallyOf(s.log) != Tally(0, 0, 0) <==> !s.active || s.listener.GaveUpActive?)
    ensures BurstEnabled(c, s, Claim) && s.active ==> (TallyOf(s.log) != Tally(0, 0, 0) <==> s.listener.GaveUpActive?)
    ensures BurstEnabled(c, s, EmitComplete) ==>
              (TallyOf(s.log) != Tally(0, 0, 0) <==> s.listener.GaveUpActive? || s.hist.lost > 0)
  {
    Always(c, s);
    EmitterBooks(TallyOf(s.log), s);
  }

  /** A finished send leaves nothing behind: no active entry, no retained frames, a zero count. */
  lemma QuietIsClean(c: Config, s: State)
    requires Reachable(c, s) && Quiet(s)
    ensures !s.active && s.entry.None? && s.inflight == 0
  {
    Always(c, s);
    InflightExact(c, s);
  }
}

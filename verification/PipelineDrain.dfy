/**
  When run_send leaves its linger and its drain, and so what `Complete` has waited for, told from the run itself.
 */
module PipelineDrain {
  import opened Words
  import opened Outgoing
  import opened Pipeline
  import opened PipelineSafety
  import opened PipelineGuarantees

  // ----- the two waits end when they should

  /** Since the linger was over at `at`, run_send has been draining, or has gone on. */
  ghost predicate DrainingSince(s: State, at: nat) {
    match s.burst.pc
    case DrainReading(deadline) => deadline == at + 45_000_000_000
    case DrainTiming(deadline) => deadline == at + 45_000_000_000
    case Claiming => true
    case Completing => true
    case Removing => true
    case Ended => true
    case _ => false
  }

  ghost predicate LingeringSince(c: Config, s: State, at: nat) {
    s.burst.pc.Lingering? ==> s.burst.pc.until == at + c.linger
  }

  lemma WaitsKept(c: Config, s: State, a: Action, at: nat)
    requires Enabled(c, s, a)
    ensures DrainingSince(s, at) ==> DrainingSince(Step(c, s, a), at)
    ensures BurstOver(s.burst.pc) && LingeringSince(c, s, at) ==>
              LingeringSince(c, Step(c, s, a), at) && (BurstOver(Step(c, s, a).burst.pc) || Step(c, s, a).burst.pc.Ended?)
    ensures s.burst.pc.Ended? ==> Step(c, s, a).burst.pc.Ended?
  {
    match a
    case Env(_) =>
    case Send(_) =>
    case Listen(_) =>
    case Run(k, t) => TaskTerminals(s, k, t);
  }

  lemma {:induction false} WaitsAfter(c: Config, s: State, run: seq<Action>, at: nat)
    requires Legal(c, s, run)
    ensures DrainingSince(s, at) ==> DrainingSince(After(c, s, run), at)
    ensures (BurstOver(s.burst.pc) && LingeringSince(c, s, at)) || s.burst.pc.Ended? ==> LingeringSince(c, After(c, s, run), at)
    decreases |run|
  {
    if run != [] {
      WaitsKept(c, s, run[0], at);
      WaitsAfter(c, Step(c, s, run[0]), run[1..], at);
    }
  }

  /** The linger lasts from the last frame handed over until `linger` later, not less and not more. */
  lemma LingerEndsIff(c: Config, s: State, run: seq<Action>)
    requires BurstEnabled(c, s, Enqueued(true)) && s.burst.next + 1 >= |c.frames|
    requires Legal(c, Step(c, s, Send(Enqueued(true))), run)
    ensures var t := After(c, Step(c, s, Send(Enqueued(true))), run);
            t.burst.pc.Lingering? ==> (BurstEnabled(c, t, LingerOver) <==> t.now >= s.now + c.linger)
  {
    WaitsAfter(c, Step(c, s, Send(Enqueued(true))), run, s.now);
  }

  /**
    The drain that follows ends at a reading of the count if and only if every retransmit task has ended by then, and at a reading of the
    clock if and only if 45 seconds have passed since the linger was over.
   */
  lemma DrainEndsIff(c: Config, s: State, run: seq<Action>)
    requires Reachable(c, s) && BurstEnabled(c, s, LingerOver) && Legal(c, Step(c, s, Send(LingerOver)), run)
    ensures var t := After(c, Step(c, s, Send(LingerOver)), run);
            && (BurstEnabled(c, t, DrainRead) ==>
                  if forall k :: 0 <= k < |t.tasks| ==> t.tasks[k].Done? then BurstStep(c, t, DrainRead).burst.pc.Claiming?
                  else BurstStep(c, t, DrainRead).burst.pc.DrainTiming?)
            && (BurstEnabled(c, t, DrainTime) ==>
                  if t.now >= s.now + 45_000_000_000 then BurstStep(c, t, DrainTime).burst.pc.Claiming?
                  else BurstStep(c, t, DrainTime).burst.pc.DrainReading?)
  {
    var u := Step(c, s, Send(LingerOver));
    var t := After(c, u, run);
    WaitsAfter(c, u, run, s.now);
    ReachableThen(c, s, Send(LingerOver));
    ReachableAfter(c, u, run);
    InflightExact(c, t);
  }

  lemma {:induction false} ReachableAfter(c: Config, s: State, run: seq<Action>)
    requires Reachable(c, s) && Legal(c, s, run)
    ensures Reachable(c, After(c, s, run))
    decreases |run|
  {
    if run != [] {
      ReachableThen(c, s, run[0]);
      ReachableAfter(c, Step(c, s, run[0]), run[1..]);
    }
  }

  // ----- what `Complete` has waited for

  /** No wait has been cut short: `start` is when the message was registered. */
  ghost predicate Patient(c: Config, start: nat, s: State) {
    && s.now >= start
    && match s.burst.pc
       case Lingering(until) => until >= start + c.linger
       case DrainReading(deadline) => deadline >= start + c.linger + 45_000_000_000
       case DrainTiming(deadline) => deadline >= start + c.linger + 45_000_000_000
       case _ => true
  }

  lemma PatientStep(c: Config, start: nat, s: State, a: Action)
    requires Patient(c, start, s) && Enabled(c, s, a)
    ensures Patient(c, start, Step(c, s, a))
  {
    match a
    case Env(_) =>
    case Send(_) =>
    case Listen(_) =>
    case Run(k, t) => TaskTerminals(s, k, t);
  }

  lemma {:induction false} PatientAfter(c: Config, start: nat, s: State, run: seq<Action>)
    requires Patient(c, start, s) && Legal(c, s, run)
    ensures Patient(c, start, After(c, s, run))
    decreases |run|
  {
    if run != [] {
      PatientStep(c, start, s, run[0]);
      PatientAfter(c, start, Step(c, s, run[0]), run[1..]);
    }
  }

  /** A run up to its action `i`, and that action. */
  lemma {:induction false} UpTo(c: Config, s: State, run: seq<Action>, i: nat)
    requires Legal(c, s, run) && i < |run|
    ensures Legal(c, s, run[..i]) && Legal(c, s, run[..i + 1]) && Enabled(c, After(c, s, run[..i]), run[i])
    ensures After(c, s, run[..i + 1]) == Step(c, After(c, s, run[..i]), run[i])
    decreases |run|
  {
    if i == 0 {
      assert run[..1] == [run[0]];
    } else {
      UpTo(c, Step(c, s, run[0]), run[1..], i - 1);
      assert run[..i][1..] == run[1..][..i - 1] && run[..i + 1][1..] == run[1..][..i];
    }
  }

  /** Action `i` of the run leaves the drain, at a moment when every retransmit task has ended or no earlier than the two waits allow. */
  ghost predicate LeavesDrain(c: Config, start: nat, s: State, run: seq<Action>, i: nat) {
    && i < |run| && Legal(c, s, run[..i])
    && var t := After(c, s, run[..i]);
       || (run[i] == Send(DrainRead) && forall k :: 0 <= k < |t.tasks| ==> t.tasks[k].Done?)
       || (run[i] == Send(DrainTime) && t.now >= start + c.linger + 45_000_000_000)
  }

  /** run_send has left the drain, on its way to `Complete` or past it. */
  ghost predicate PastDrain(s: State) {
    s.burst.pc.Claiming? || s.burst.pc.Completing? || TallyOf(s.log).completes > 0
  }

  lemma BurstPastDrain(c: Config, s: State, a: BurstAction, t: Tally)
    requires BurstEnabled(c, s, a) && !s.burst.pc.Claiming? && !s.burst.pc.Completing? && t.completes == 0
    requires BurstStep(c, s, a).burst.pc.Claiming? || BurstStep(c, s, a).burst.pc.Completing? || Emitted(t, Send(a)).completes > 0
    ensures (a.DrainRead? && s.inflight == 0) || (a.DrainTime? && s.burst.pc.DrainTiming? && s.now >= s.burst.pc.deadline)
  {
  }

  lemma PastDrainStep(c: Config, s: State, a: Action)
    requires Enabled(c, s, a) && !PastDrain(s) && PastDrain(Step(c, s, a))
    ensures (a == Send(DrainRead) && s.inflight == 0) || (a == Send(DrainTime) && s.burst.pc.DrainTiming? && s.now >= s.burst.pc.deadline)
  {
    TallyStep(c, s, a);
    match a
    case Env(_) =>
    case Send(b) => BurstPastDrain(c, s, b, TallyOf(s.log));
    case Listen(_) =>
    case Run(k, t) => TaskTerminals(s, k, t);
  }

  lemma LeavesLater(c: Config, start: nat, s: State, run: seq<Action>, n: nat)
    requires n <= |run| && exists i: nat :: LeavesDrain(c, start, s, run[..n], i)
    ensures exists i: nat :: LeavesDrain(c, start, s, run, i)
  {
    var i: nat :| LeavesDrain(c, start, s, run[..n], i);
    assert run[..n][..i] == run[..i] && run[..n][i] == run[i];
    assert LeavesDrain(c, start, s, run, i);
  }

  lemma LeavesNow(c: Config, start: nat, s: State, run: seq<Action>, i: nat)
    requires i < |run| && Legal(c, s, run[..i]) && Reachable(c, s) && Patient(c, start, s)
    requires Enabled(c, After(c, s, run[..i]), run[i])
    requires !PastDrain(After(c, s, run[..i])) && PastDrain(Step(c, After(c, s, run[..i]), run[i]))
    ensures LeavesDrain(c, start, s, run, i)
  {
    var t := After(c, s, run[..i]);
    PastDrainStep(c, t, run[i]);
    PatientAfter(c, start, s, run[..i]);
    ReachableAfter(c, s, run[..i]);
    InflightExact(c, t);
  }

  lemma InitReachable(c: Config, start: nat, seconds: nat)
    requires c.Valid() && seconds >= 1
    ensures Reachable(c, Init(c, start, Seconds(seconds))) && Patient(c, start, Init(c, start, Seconds(seconds)))
    ensures !PastDrain(Init(c, start, Seconds(seconds)))
  {
    var s := Init(c, start, Seconds(seconds));
    assert Legal(c, s, []) && After(c, s, []) == s;
  }

  lemma {:induction false} DrainWasLeft(c: Config, start: nat, seconds: nat, run: seq<Action>)
    requires c.Valid() && seconds >= 1 && Legal(c, Init(c, start, Seconds(seconds)), run)
    requires PastDrain(After(c, Init(c, start, Seconds(seconds)), run))
    ensures exists i: nat :: LeavesDrain(c, start, Init(c, start, Seconds(seconds)), run, i)
    decreases |run|
  {
    var s := Init(c, start, Seconds(seconds));
    InitReachable(c, start, seconds);
    if run != [] {
      var i := |run| - 1;
      UpTo(c, s, run, i);
      assert run[..i + 1] == run;
      if PastDrain(After(c, s, run[..i])) {
        DrainWasLeft(c, start, seconds, run[..i]);
        LeavesLater(c, start, s, run, i);
      } else {
        LeavesNow(c, start, s, run, i);
      }
    }
  }

  /**
    Before every `Complete`, run_send has left its drain, and it did so when every retransmit task had ended, or no earlier than the
    linger and 45 seconds after the message was registered.
   */
  lemma CompleteFollowsDrain(c: Config, start: nat, seconds: nat, run: seq<Action>)
    requires c.Valid() && seconds >= 1 && Legal(c, Init(c, start, Seconds(seconds)), run)
    requires TallyOf(After(c, Init(c, start, Seconds(seconds)), run).log).completes > 0
    ensures exists i: nat :: LeavesDrain(c, start, Init(c, start, Seconds(seconds)), run, i)
  {
    DrainWasLeft(c, start, seconds, run);
  }

  /** A drain that is recorded as timed out has lasted its 45 seconds after the linger. */
  lemma {:induction false} TimedOutNoEarlier(c: Config, start: nat, seconds: nat, run: seq<Action>)
    requires c.Valid() && seconds >= 1 && Legal(c, Init(c, start, Seconds(seconds)), run)
    ensures var s := After(c, Init(c, start, Seconds(seconds)), run);
            s.hist.drain.TimedOut? ==> s.now >= start + c.linger + 45_000_000_000
    decreases |run|
  {
    var s0 := Init(c, start, Seconds(seconds));
    if run != [] {
      var i := |run| - 1;
      UpTo(c, s0, run, i);
      assert run[..i + 1] == run;
      TimedOutNoEarlier(c, start, seconds, run[..i]);
      PatientAfter(c, start, s0, run[..i]);
      TimedOutStep(c, start, After(c, s0, run[..i]), run[i]);
    }
  }

  lemma TimedOutStep(c: Config, start: nat, s: State, a: Action)
    requires Patient(c, start, s) && Enabled(c, s, a)
    requires s.hist.drain.TimedOut? ==> s.now >= start + c.linger + 45_000_000_000
    ensures Step(c, s, a).hist.drain.TimedOut? ==> Step(c, s, a).now >= start + c.linger + 45_000_000_000
  {
    match a
    case Env(_) =>
    case Send(_) =>
    case Listen(_) =>
    case Run(k, t) => TaskTerminals(s, k, t);
  }
}

/**
  What a subscriber sees of the burst and of the retransmits: the order of the progress statuses, when the burst stops, how long a
  deferred wake-up sleeps, and that every frame enqueued again has been announced.
 */
module PipelineProgress {
  import opened Words
  import opened Outgoing
  import opened Pipeline
  import opened PipelineSafety
  import opened PipelineGuarantees

  // ----- progress statuses

  /** The statuses that report the initial burst, in the order they were emitted. */
  function Progress(log: seq<Status>): seq<Status> {
    if log == [] then []
    else
      var last := log[|log| - 1];
      Progress(log[..|log| - 1]) + if last.Sending? || last.BurstComplete? then [last] else []
  }

  /** `Sending(1)` to `Sending(n)`, and `BurstComplete` once the last of `total` frames is out. */
  function Reports(n: nat, total: nat): seq<Status> {
    seq(n, i requires 0 <= i < n => Sending(i + 1)) + if n == total then [BurstComplete] else []
  }

  lemma ProgressAppend(log: seq<Status>, st: Status)
    ensures Progress(log + [st]) == Progress(log) + if st.Sending? || st.BurstComplete? then [st] else []
  {
    assert (log + [st])[..|log|] == log;
  }

  lemma ReportsNext(n: nat, total: nat)
    requires n < total
    ensures Reports(n, total) + [Sending(n + 1)] + (if n + 1 == total then [BurstComplete] else []) == Reports(n + 1, total)
  {
  }

  /** What handing over frame `n` adds to the log. */
  lemma ProgressNext(log: seq<Status>, n: nat, total: nat)
    requires n < total && Progress(log) == Reports(n, total)
    ensures Progress(log + [Sending(n + 1)] + if n + 1 >= total then [BurstComplete] else []) == Reports(n + 1, total)
  {
    ReportsNext(n, total);
    ProgressAppend(log, Sending(n + 1));
    ProgressAppend(log + [Sending(n + 1)], BurstComplete);
    assert log + [Sending(n + 1)] + [] == log + [Sending(n + 1)];
  }

  lemma EnqueuedSays(c: Config, s: State)
    requires s.burst.pc.Enqueuing?
    ensures var s', n := BurstStep(c, s, Enqueued(true)), s.burst.next;
            && s'.burst.next == n + 1
            && s'.log == s.log + [Sending(n + 1)] + if n + 1 >= |c.frames| then [BurstComplete] else []
  {
  }

  lemma OtherSays(c: Config, s: State, a: BurstAction)
    requires BurstEnabled(c, s, a) && a != Enqueued(true)
    ensures var s' := BurstStep(c, s, a);
            && (s'.burst.next == s.burst.next || a.ReadCount?)
            && (s'.log == s.log || s'.log == s.log + [Failed] || s'.log == s.log + [Complete])
  {
  }

  lemma BurstProgress(c: Config, s: State, a: BurstAction)
    requires BurstEnabled(c, s, a) && c.Valid() && BurstShaped(c, s.burst, s.entry)
    requires Progress(s.log) == Reports(s.burst.next, |c.frames|)
    ensures var s' := BurstStep(c, s, a); Progress(s'.log) == Reports(s'.burst.next, |c.frames|)
  {
    if a == Enqueued(true) {
      EnqueuedSays(c, s);
      ProgressNext(s.log, s.burst.next, |c.frames|);
    } else {
      OtherSays(c, s, a);
      ProgressAppend(s.log, Failed);
      ProgressAppend(s.log, Complete);
    }
  }

  lemma ListenerProgress(s: State, a: ListenerAction)
    requires ListenerEnabled(s, a)
    ensures Progress(ListenerStep(s, a).log) == Progress(s.log) && ListenerStep(s, a).burst == s.burst
  {
    if a.ListenerAnnounce? {
      ProgressAppend(s.log, Retransmitting(s.listener.plan));
    } else {
      ProgressAppend(s.log, GaveUp);
    }
  }

  lemma TaskProgress(s: State, k: nat, a: TaskAction)
    requires TaskEnabled(s, k, a)
    ensures Progress(TaskStep(s, k, a).log) == Progress(s.log) && TaskStep(s, k, a).burst == s.burst
  {
    if a.WakeAnnounce? {
      ProgressAppend(s.log, Retransmitting(s.tasks[k].plan));
    }
  }

  lemma OtherProgress(c: Config, s: State, a: Action)
    requires Enabled(c, s, a) && !a.Send?
    ensures Progress(Step(c, s, a).log) == Progress(s.log) && Step(c, s, a).burst == s.burst
  {
    match a
    case Env(_) =>
    case Listen(l) => ListenerProgress(s, l);
    case Run(k, t) => TaskProgress(s, k, t);
  }

  lemma {:induction false} ProgressAfter(c: Config, s: State, run: seq<Action>)
    requires c.Valid() && Inv(c, s) && Legal(c, s, run) && Progress(s.log) == Reports(s.burst.next, |c.frames|)
    ensures Progress(After(c, s, run).log) == Reports(After(c, s, run).burst.next, |c.frames|)
    decreases |run|
  {
    if run != [] {
      if run[0].Send? {
        BurstProgress(c, s, run[0].burst);
      } else {
        OtherProgress(c, s, run[0]);
      }
      InvKept(c, s, run[0]);
      ProgressAfter(c, Step(c, s, run[0]), run[1..]);
    }
  }

  /**
    In every reachable state the burst has been reported frame by frame, each once and in order, as far as it is out; `BurstComplete`
    follows the last frame and nothing else.
   */
  lemma ProgressInOrder(c: Config, s: State)
    requires Reachable(c, s)
    ensures Progress(s.log) == Reports(s.burst.next, |c.frames|)
  {
    var now: nat, seconds: nat, run :|
      seconds >= 1 && Legal(c, Init(c, now, Seconds(seconds)), run) && s == After(c, Init(c, now, Seconds(seconds)), run);
    InvInit(c, now, Seconds(seconds));
    ProgressAfter(c, Init(c, now, Seconds(seconds)), run);
  }

  // ----- a removed message is not sent on

  /** Frames the burst may still hand over once its active entry is gone: the one it is awaiting. */
  function Awaited(s: State): nat {
    if s.burst.pc.Enqueuing? then 1 else 0
  }

  lemma StopStep(c: Config, s: State, a: Action)
    requires !s.active && Enabled(c, s, a) && BurstShaped(c, s.burst, s.entry)
    ensures var s' := Step(c, s, a);
            !s'.active && s.burst.next <= s'.burst.next && s'.burst.next + Awaited(s') <= s.burst.next + Awaited(s)
  {
    match a
    case Env(_) =>
    case Send(_) =>
    case Listen(_) =>
    case Run(k, t) => TaskTerminals(s, k, t);
  }

  /** Once a give-up has removed the message, its burst hands over no frame but the one it is awaiting. */
  lemma {:induction false} GiveUpStopsBurst(c: Config, s: State, run: seq<Action>)
    requires c.Valid() && Inv(c, s) && !s.active && Legal(c, s, run)
    ensures !After(c, s, run).active
    ensures s.burst.next <= After(c, s, run).burst.next <= s.burst.next + Awaited(s)
    decreases |run|
  {
    if run != [] {
      StopStep(c, s, run[0]);
      InvKept(c, s, run[0]);
      GiveUpStopsBurst(c, Step(c, s, run[0]), run[1..]);
    }
  }

  // ----- how long a wake-up sleeps

  lemma SleepStep(c: Config, s: State, a: Action, k: nat)
    requires Enabled(c, s, a) && k < |s.tasks| && s.tasks[k].Sleeping?
    ensures var s' := Step(c, s, a);
            && k < |s'.tasks| && s'.now >= s.now
            && (s'.tasks[k] == s.tasks[k] || s.now >= s.tasks[k].deadline + 10_000_000)
  {
    match a
    case Env(_) =>
    case Send(_) =>
    case Listen(_) =>
    case Run(j, t) => TaskReplaced(s, j, t);
  }

  lemma {:induction false} ClockAfter(c: Config, s: State, run: seq<Action>)
    requires Legal(c, s, run)
    ensures After(c, s, run).now >= s.now && |After(c, s, run).tasks| >= |s.tasks|
    decreases |run|
  {
    if run != [] {
      ClockStep(c, s, run[0]);
      ClockAfter(c, Step(c, s, run[0]), run[1..]);
    }
  }

  lemma ClockStep(c: Config, s: State, a: Action)
    requires Enabled(c, s, a)
    ensures Step(c, s, a).now >= s.now && |Step(c, s, a).tasks| >= |s.tasks|
  {
    match a
    case Env(_) =>
    case Send(_) =>
    case Listen(_) =>
    case Run(k, t) => TaskReplaced(s, k, t);
  }

  /** A deferred wake-up sleeps until 10 ms after the cooldown it was scheduled for, whatever else happens. */
  lemma {:induction false} SleepsThrough(c: Config, s: State, run: seq<Action>, k: nat)
    requires Legal(c, s, run) && k < |s.tasks| && s.tasks[k].Sleeping?
    ensures k < |After(c, s, run).tasks|
    ensures After(c, s, run).now < s.tasks[k].deadline + 10_000_000 ==> After(c, s, run).tasks[k] == s.tasks[k]
    decreases |run|
  {
    if run != [] {
      SleepStep(c, s, run[0], k);
      var s' := Step(c, s, run[0]);
      ClockAfter(c, s', run[1..]);
      if s'.tasks[k] == s.tasks[k] {
        SleepsThrough(c, s', run[1..], k);
      }
    }
  }

  // ----- what is sent again has been announced

  /** `todo` is what is left of some announced list, its last chunks. */
  ghost predicate LeftOf(todo: seq<byte>, log: seq<Status>) {
    exists plan, n :: 0 <= n <= |plan| && Retransmitting(plan) in log && todo == plan[n..]
  }

  predicate Sends(t: Task) {
    t.Shipping? || t.Releasing?
  }

  ghost predicate Announced(s: State) {
    && (s.listener.Dispatching? ==> Retransmitting(s.listener.plan) in s.log)
    && forall k :: 0 <= k < |s.tasks| && Sends(s.tasks[k]) ==> LeftOf(s.tasks[k].todo, s.log)
  }

  lemma LeftGrows(todo: seq<byte>, log: seq<Status>, more: seq<Status>)
    requires LeftOf(todo, log)
    ensures LeftOf(todo, log + more)
  {
    var plan, n :| 0 <= n <= |plan| && Retransmitting(plan) in log && todo == plan[n..];
    assert Retransmitting(plan) in log + more;
  }

  lemma LeftShrinks(todo: seq<byte>, log: seq<Status>)
    requires LeftOf(todo, log) && todo != []
    ensures LeftOf(todo[1..], log)
  {
    var plan, n :| 0 <= n <= |plan| && Retransmitting(plan) in log && todo == plan[n..];
    assert todo[1..] == plan[n + 1..];
  }

  lemma LeftWhole(plan: seq<byte>, log: seq<Status>)
    requires Retransmitting(plan) in log
    ensures LeftOf(plan, log)
  {
    assert plan == plan[0..];
  }

  /** A step adds to the log, and all that was announced stays so. */
  lemma StillAnnounced(s: State, s': State, more: seq<Status>)
    requires Announced(s) && s'.log == s.log + more
    requires s'.listener.Dispatching? ==> s'.listener == s.listener || Retransmitting(s'.listener.plan) in more
    requires forall k :: 0 <= k < |s'.tasks| && Sends(s'.tasks[k]) ==>
               (k < |s.tasks| && s'.tasks[k] == s.tasks[k]) || LeftOf(s'.tasks[k].todo, s'.log)
    ensures Announced(s')
  {
    forall k | 0 <= k < |s'.tasks| && Sends(s'.tasks[k]) ensures LeftOf(s'.tasks[k].todo, s'.log) {
      if k < |s.tasks| && s'.tasks[k] == s.tasks[k] {
        LeftGrows(s.tasks[k].todo, s.log, more);
      }
    }
  }

  lemma ListenerAnnounced(s: State, a: ListenerAction)
    requires Announced(s) && ListenerEnabled(s, a)
    ensures Announced(ListenerStep(s, a))
  {
    var s' := ListenerStep(s, a);
    if a.ListenerDispatch? {
      LeftWhole(s.listener.plan, s.log);
    }
    assert s.log + [] == s.log;
    StillAnnounced(s, s', if a.ListenerAnnounce? then [Retransmitting(s.listener.plan)] else if a.EmitGaveUp? then [GaveUp] else []);
  }

  lemma TaskAnnounced(s: State, k: nat, a: TaskAction)
    requires Announced(s) && TaskEnabled(s, k, a)
    ensures Announced(TaskStep(s, k, a))
  {
    var s' := TaskStep(s, k, a);
    TaskReplaced(s, k, a);
    if a.WakeAnnounce? {
      LeftWhole(s.tasks[k].plan, s'.log);
    } else if a.Shipped? || a.Release? {
      LeftShrinks(s.tasks[k].todo, s.log);
    }
    assert s.log + [] == s.log;
    StillAnnounced(s, s', if a.WakeAnnounce? then [Retransmitting(s.tasks[k].plan)] else []);
  }

  /** What run_send adds to the log. */
  function BurstSays(c: Config, s: State, a: BurstAction): seq<Status>
    requires BurstEnabled(c, s, a)
  {
    match a
    case Enqueued(ok) =>
      if !ok then [Failed] else [Sending(s.burst.next + 1)] + if s.burst.next + 1 >= |c.frames| then [BurstComplete] else []
    case EmitComplete => [Complete]
    case _ => []
  }

  lemma BurstAnnounced(c: Config, s: State, a: BurstAction)
    requires Announced(s) && BurstEnabled(c, s, a)
    ensures Announced(BurstStep(c, s, a))
  {
    var s', more := BurstStep(c, s, a), BurstSays(c, s, a);
    assert s'.log == s.log + more;
    StillAnnounced(s, s', more);
  }

  lemma AnnouncedStep(c: Config, s: State, a: Action)
    requires Announced(s) && Enabled(c, s, a)
    ensures Announced(Step(c, s, a))
  {
    match a
    case Env(_) =>
    case Send(b) => BurstAnnounced(c, s, b);
    case Listen(l) => ListenerAnnounced(s, l);
    case Run(k, t) => TaskAnnounced(s, k, t);
  }

  lemma {:induction false} AnnouncedAfter(c: Config, s: State, run: seq<Action>)
    requires Announced(s) && Legal(c, s, run)
    ensures Announced(After(c, s, run))
    decreases |run|
  {
    if run != [] {
      AnnouncedStep(c, s, run[0]);
      AnnouncedAfter(c, Step(c, s, run[0]), run[1..]);
    }
  }

  /** A frame is enqueued again only as one of a list already announced with `Retransmitting`, and in that list's order. */
  lemma ShippedIsAnnounced(c: Config, s: State, k: nat, ok: bool)
    requires Reachable(c, s) && TaskEnabled(s, k, Shipped(ok))
    ensures exists plan, n :: 0 <= n <= |plan| && Retransmitting(plan) in s.log && s.tasks[k].todo == plan[n..]
  {
    var now: nat, seconds: nat, run :|
      seconds >= 1 && Legal(c, Init(c, now, Seconds(seconds)), run) && s == After(c, Init(c, now, Seconds(seconds)), run);
    AnnouncedAfter(c, Init(c, now, Seconds(seconds)), run);
    assert Sends(s.tasks[k]);
  }

  // ----- the listener gets back to listening

  /** How many steps the listener still takes for the NACK it is working on, at most. */
  function Rank(l: Listener): nat {
    match l
    case Idle => 0
    case GivingUp => 3
    case GaveUpActive => 2
    case GaveUpRegistry => 1
    case Taking(_, attempt, _, _) => if attempt < 3 then 2 * (3 - attempt) + 2 else 0
    case Deferring(_, attempt, _, _) => if attempt < 3 then 2 * (3 - attempt) + 1 else 0
    case Arming(_) => 1
    case Announcing(_) => 2
    case Dispatching(_) => 1
  }

  /**
    The listener is never held up by one NACK: whatever the other tasks do in between, it is idle again after eight steps of its own
    at the latest.
   */
  lemma ListenerFinishes(c: Config, s: State, a: Action)
    requires Reachable(c, s) && Enabled(c, s, a)
    ensures Rank(s.listener) <= 8 && (Rank(s.listener) == 0 <==> s.listener.Idle?)
    ensures a.Listen? && !a.listen.NackArrives? ==> Rank(Step(c, s, a).listener) < Rank(s.listener)
    ensures !a.Listen? ==> Rank(Step(c, s, a).listener) == Rank(s.listener)
  {
    AttemptsFew(c, s);
    match a
    case Env(_) =>
    case Send(_) =>
    case Listen(l) => ListenerRanks(s, l);
    case Run(k, t) => TaskKeepsRank(s, k, t);
  }

  lemma AttemptsFew(c: Config, s: State)
    requires Reachable(c, s)
    ensures s.listener.Taking? || s.listener.Deferring? ==> s.listener.attempt < 3
  {
    Always(c, s);
    assert Retrying(s);
  }

  lemma ListenerRanks(s: State, a: ListenerAction)
    requires ListenerEnabled(s, a) && (s.listener.Taking? || s.listener.Deferring? ==> s.listener.attempt < 3)
    ensures !a.NackArrives? ==> Rank(ListenerStep(s, a).listener) < Rank(s.listener)
  {
  }

  lemma TaskKeepsRank(s: State, k: nat, a: TaskAction)
    requires TaskEnabled(s, k, a)
    ensures Rank(TaskStep(s, k, a).listener) == Rank(s.listener)
  {
  }
}

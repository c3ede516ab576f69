/**
  Where the chunks that are sent again come from: every list that circulates was asked for by a NACK, and a round takes exactly what
  its list asks for and is not on its way already.
 */
module PipelineRequests {
  import opened Words
  import opened Outgoing
  import opened Pipeline
  import opened PipelineSafety
  import opened PipelineGuarantees

  // ----- only what was asked for

  /** The lists NACKs have asked for in a run. */
  function Asked(run: seq<Action>): set<seq<byte>> {
    if run == [] then {}
    else
      Asked(run[..|run| - 1])
      + match run[|run| - 1]
        case Listen(NackArrives(requested, false)) => {requested}
        case _ => {}
  }

  /** Chunks of one of the lists, in range. */
  ghost predicate PartOf(plan: seq<byte>, asked: set<seq<byte>>, total: byte) {
    exists list :: list in asked && forall x :: x in plan ==> x in list && x < total
  }

  ghost predicate ListenerAsked(l: Listener, asked: set<seq<byte>>, total: byte) {
    match l
    case Taking(missing, _, _, _) => missing in asked
    case Deferring(missing, _, _, _) => missing in asked
    case Announcing(plan) => PartOf(plan, asked, total)
    case Dispatching(plan) => PartOf(plan, asked, total)
    case _ => true
  }

  ghost predicate TaskAsked(t: Task, asked: set<seq<byte>>, total: byte) {
    match t
    case WakeTaking(missing, _) => missing in asked
    case WakeDeferring(missing, _) => missing in asked
    case WakeAnnouncing(plan) => PartOf(plan, asked, total)
    case _ => true
  }

  ghost predicate LogAsked(log: seq<Status>, asked: set<seq<byte>>, total: byte) {
    forall st :: st in log && st.Retransmitting? ==> PartOf(st.chunks, asked, total)
  }

  ghost predicate EntryAsked(entry: Slot, asked: set<seq<byte>>, total: byte) {
    entry.Some? ==> entry.value.totalData == total && (entry.value.deferred.Some? ==> entry.value.deferred.value in asked)
  }

  ghost predicate OnlyAsked(c: Config, s: State, asked: set<seq<byte>>) {
    && EntryAsked(s.entry, asked, c.totalData)
    && ListenerAsked(s.listener, asked, c.totalData)
    && (forall k :: 0 <= k < |s.tasks| ==> TaskAsked(s.tasks[k], asked, c.totalData))
    && LogAsked(s.log, asked, c.totalData)
  }

  lemma MoreAsked(c: Config, s: State, asked: set<seq<byte>>, more: set<seq<byte>>)
    requires OnlyAsked(c, s, asked) && asked <= more
    ensures OnlyAsked(c, s, more)
  {
    forall plan | PartOf(plan, asked, c.totalData) ensures PartOf(plan, more, c.totalData) {
      var list :| list in asked && forall x :: x in plan ==> x in list && x < c.totalData;
      assert list in more;
    }
  }

  /** A take hands out chunks of its list. */
  lemma TakenAsked(slot: Slot, ttl: nat, now: nat, missing: seq<byte>, pacing: nat, asked: set<seq<byte>>, total: byte)
    requires EntryAsked(slot, asked, total) && missing in asked
    ensures var (slot', r) := TakeRetransmitSpec(slot, ttl, now, missing, pacing);
            EntryAsked(slot', asked, total) && (r.Ok? ==> PartOf(Indices(r.value), asked, total))
  {
    if slot.Some? {
      FramesForPlan(slot.value, missing);
    }
  }

  lemma ListenerKeepsAsked(c: Config, s: State, a: ListenerAction, asked: set<seq<byte>>)
    requires OnlyAsked(c, s, asked) && ListenerEnabled(s, a)
    requires a.NackArrives? && !a.giveUp ==> a.requested in asked
    ensures OnlyAsked(c, ListenerStep(s, a), asked)
  {
    match a
    case ListenerTake(pacing) => TakenAsked(s.entry, s.ttl, s.now, s.listener.missing, pacing, asked, c.totalData);
    case _ =>
  }

  /** What a task action changes: the slot, its own task, the log. */
  lemma TaskKeepsAsked(c: Config, s: State, k: nat, a: TaskAction, asked: set<seq<byte>>)
    requires OnlyAsked(c, s, asked) && TaskEnabled(s, k, a)
    ensures OnlyAsked(c, TaskStep(s, k, a), asked)
  {
    TaskReplaced(s, k, a);
    assert TaskAsked(s.tasks[k], asked, c.totalData);
    match a
    case WakeTake(pacing) => TakenAsked(s.entry, s.ttl, s.now, s.tasks[k].missing, pacing, asked, c.totalData);
    case _ =>
  }

  lemma BurstKeepsAsked(c: Config, s: State, a: BurstAction, asked: set<seq<byte>>)
    requires OnlyAsked(c, s, asked) && BurstEnabled(c, s, a)
    ensures OnlyAsked(c, BurstStep(c, s, a), asked)
  {
  }

  lemma StepKeepsAsked(c: Config, s: State, a: Action, asked: set<seq<byte>>)
    requires OnlyAsked(c, s, asked) && Enabled(c, s, a)
    ensures OnlyAsked(c, Step(c, s, a), asked + Asked([a]))
  {
    var more := asked + Asked([a]);
    MoreAsked(c, s, asked, more);
    match a
    case Env(_) =>
    case Send(b) => BurstKeepsAsked(c, s, b, more);
    case Listen(l) => ListenerKeepsAsked(c, s, l, more);
    case Run(k, t) => TaskKeepsAsked(c, s, k, t, more);
  }

  lemma {:induction false} AskedJoins(a: Action, rest: seq<Action>)
    ensures Asked([a] + rest) == Asked([a]) + Asked(rest)
  {
    if rest == [] {
      assert [a] + rest == [a];
    } else {
      var n := |rest| - 1;
      assert ([a] + rest)[..|[a] + rest| - 1] == [a] + rest[..n] && ([a] + rest)[|[a] + rest| - 1] == rest[n];
      AskedJoins(a, rest[..n]);
    }
  }

  lemma {:induction false} AfterKeepsAsked(c: Config, s: State, run: seq<Action>, asked: set<seq<byte>>)
    requires OnlyAsked(c, s, asked) && Legal(c, s, run)
    ensures OnlyAsked(c, After(c, s, run), asked + Asked(run))
    decreases |run|
  {
    if run == [] {
      assert asked + {} == asked;
    } else {
      StepKeepsAsked(c, s, run[0], asked);
      AfterKeepsAsked(c, Step(c, s, run[0]), run[1..], asked + Asked([run[0]]));
      AskedJoins(run[0], run[1..]);
      assert run == [run[0]] + run[1..];
      assert asked + Asked([run[0]]) + Asked(run[1..]) == asked + Asked(run);
    }
  }

  /**
    Whatever the interleaving, every announced retransmit consists of DATA chunks that one of the NACKs so far has asked for; with
    `PipelineProgress.ShippedIsAnnounced`, no frame is sent again unasked.
   */
  lemma OnlyRequestedChunks(c: Config, start: nat, seconds: nat, run: seq<Action>, plan: seq<byte>)
    requires c.Valid() && seconds >= 1 && Legal(c, Init(c, start, Seconds(seconds)), run)
    requires Retransmitting(plan) in After(c, Init(c, start, Seconds(seconds)), run).log
    ensures exists list :: list in Asked(run) && forall x :: x in plan ==> x in list && x < c.totalData
  {
    AfterKeepsAsked(c, Init(c, start, Seconds(seconds)), run, {});
    assert {} + Asked(run) == Asked(run);
    assert PartOf(plan, Asked(run), c.totalData);
  }

  // ----- and all of it

  /** The list the listener is working on. */
  function Working(l: Listener): Option<seq<byte>> {
    match l
    case Taking(missing, _, _, _) => Some(missing)
    case Deferring(missing, _, _, _) => Some(missing)
    case _ => None
  }

  /** While the listener works on round `round`, it works on `list`. */
  ghost predicate WorksOn(s: State, round: nat, list: seq<byte>) {
    s.hist.rounds >= round && (s.hist.rounds == round && Working(s.listener).Some? ==> Working(s.listener) == Some(list))
  }

  lemma WorkKept(c: Config, s: State, a: Action, round: nat, list: seq<byte>)
    requires WorksOn(s, round, list) && Enabled(c, s, a)
    ensures WorksOn(Step(c, s, a), round, list)
  {
    match a
    case Env(_) =>
    case Send(_) =>
    case Listen(_) =>
    case Run(k, t) => TaskKeepsWork(s, k, t);
  }

  lemma TaskKeepsWork(s: State, k: nat, a: TaskAction)
    requires TaskEnabled(s, k, a)
    ensures var s' := TaskStep(s, k, a); s'.hist.rounds == s.hist.rounds && Working(s'.listener) == Working(s.listener)
  {
  }

  lemma {:induction false} WorkAfter(c: Config, s: State, run: seq<Action>, round: nat, list: seq<byte>)
    requires WorksOn(s, round, list) && Legal(c, s, run)
    ensures WorksOn(After(c, s, run), round, list)
    decreases |run|
  {
    if run != [] {
      WorkKept(c, s, run[0], round, list);
      WorkAfter(c, Step(c, s, run[0]), run[1..], round, list);
    }
  }

  /**
    A NACK that is accepted is worked on as it came: whenever the listener takes that round, however often it had to retry, the plan is
    exactly the requested chunks in range that are not on their way, and a deferral stashes the whole request.
   */
  lemma RoundServesRequest(c: Config, s: State, requested: seq<byte>, run: seq<Action>, pacing: nat)
    requires ListenerEnabled(s, NackArrives(requested, false)) && s.active
    requires Legal(c, Step(c, s, Listen(NackArrives(requested, false))), run)
    ensures var t := After(c, Step(c, s, Listen(NackArrives(requested, false))), run);
            t.hist.rounds == s.hist.rounds + 1 ==>
              && (ListenerEnabled(t, ListenerTake(pacing)) ==>
                    var u := ListenerStep(t, ListenerTake(pacing));
                    u.listener.Announcing? ==>
                      && t.entry.Some?
                      && forall x :: x in u.listener.plan <==>
                           x in requested && x < t.entry.value.totalData && x !in t.entry.value.pending)
              && (ListenerEnabled(t, ListenerDefer) ==>
                    var u := ListenerStep(t, ListenerDefer);
                    u.hist != t.hist && u.hist.dropped == t.hist.dropped ==>
                      u.entry.Some? && u.entry.value.deferred == Some(requested))
  {
    var u := Step(c, s, Listen(NackArrives(requested, false)));
    WorkAfter(c, u, run, s.hist.rounds + 1, requested);
    var t := After(c, u, run);
    if t.listener.Taking? && t.entry.Some? {
      PlanExact(t.entry.value, t.listener.missing);
    }
  }

  lemma PlanExact(e: Entry, missing: seq<byte>)
    ensures forall x :: x in Indices(e.FramesFor(missing)) <==> x in missing && x < e.totalData && x !in e.pending
  {
    FramesForPlan(e, missing);
    var plan := e.FramesFor(missing);
    forall x | x in Indices(plan) ensures x in missing && e.Eligible(x) {
      var i :| 0 <= i < |plan| && Indices(plan)[i] == x;
      assert plan[i] in plan;
    }
    forall x | x in missing && x < e.totalData && x !in e.pending ensures x in Indices(plan) {
      assert e.Eligible(x);
    }
  }

  // ----- a deferred round waits for the cooldown

  lemma ArmingKept(c: Config, s: State, a: Action)
    requires Enabled(c, s, a) && s.listener.Arming? && !a.Listen?
    ensures Step(c, s, a).listener == s.listener
  {
  }

  lemma {:induction false} ArmingAfter(c: Config, s: State, run: seq<Action>)
    requires Legal(c, s, run) && s.listener.Arming? && forall a :: a in run ==> !a.Listen?
    ensures After(c, s, run).listener == s.listener
    decreases |run|
  {
    if run != [] {
      assert run[0] in run && forall a :: a in run[1..] ==> a in run;
      ArmingKept(c, s, run[0]);
      ArmingAfter(c, Step(c, s, run[0]), run[1..]);
    }
  }

  /** The wake-up of a deferral is scheduled for the end of the cooldown that caused it, whatever happens before it is spawned. */
  lemma ArmsForCooldown(c: Config, s: State, run: seq<Action>)
    requires ListenerEnabled(s, ListenerDefer) && ListenerStep(s, ListenerDefer).listener.Arming?
    requires Legal(c, ListenerStep(s, ListenerDefer), run) && forall a :: a in run ==> !a.Listen?
    ensures var t := After(c, ListenerStep(s, ListenerDefer), run);
            && s.entry.Some? && s.entry.value.cooldownUntil.Some? && ListenerEnabled(t, ListenerArm)
            && ListenerStep(t, ListenerArm).tasks == t.tasks + [Sleeping(s.entry.value.cooldownUntil.value)]
  {
    ArmingAfter(c, ListenerStep(s, ListenerDefer), run);
  }

  /** And so is that of a wake-up that defers again. */
  lemma RearmsForCooldown(s: State, k: nat)
    requires TaskEnabled(s, k, WakeDefer) && TaskStep(s, k, WakeDefer).tasks[k].WakeRearming?
    ensures var t := TaskStep(s, k, WakeDefer);
            && s.entry.Some? && s.entry.value.cooldownUntil.Some? && TaskEnabled(t, k, WakeRearm)
            && TaskStep(t, k, WakeRearm).tasks == t.tasks[k := Exiting] + [Sleeping(s.entry.value.cooldownUntil.value)]
  {
  }
}

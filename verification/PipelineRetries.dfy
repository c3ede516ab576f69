/**
  When the listener's three attempts are enough: how many wake-ups it takes to lose a NACK round.
 */
module PipelineRetries {
  import opened Words
  import opened Outgoing
  import opened Pipeline
  import opened PipelineSafety
  import opened PipelineGuarantees

  /** A wake-up that may still take a round of its own, or hand that on to a later one. */
  const CHAINED: Task -> bool :=
    (t: Task) => t.Sleeping? || t.Waking? || t.WakeTaking? || t.WakeDeferring? || t.WakeRearming?

  /** The step that `RoundKept` rules out: a round is lost exactly when its third attempt to defer finds the cooldown of a retained entry over. */
  lemma DroppedRoundIff(c: Config, s: State)
    requires Reachable(c, s) && ListenerEnabled(s, ListenerDefer)
    ensures ListenerStep(s, ListenerDefer).hist.dropped > s.hist.dropped <==>
              && s.listener.attempt == 2
              && s.entry.Some? && s.entry.value.cooldownUntil.Some? && s.entry.value.cooldownUntil.value <= s.now
  {
    Always(c, s);
    DeferOutcomes(s);
  }

  lemma DeferOutcomes(s: State)
    requires Retrying(s) && ListenerEnabled(s, ListenerDefer)
    ensures ListenerStep(s, ListenerDefer).hist.dropped > s.hist.dropped <==>
              && s.listener.attempt == 2
              && s.entry.Some? && s.entry.value.cooldownUntil.Some? && s.entry.value.cooldownUntil.value <= s.now
  {
  }

  /** Rounds taken from the listener so far, and wake-ups that may yet take one. */
  function Pressure(s: State): nat {
    match s.listener
    case Taking(_, _, _, rivals) => rivals + Count(s.tasks, CHAINED)
    case Deferring(_, _, _, rivals) => rivals + Count(s.tasks, CHAINED)
    case _ => 0
  }

  /** While the listener is on round `round`, nothing has been dropped and the pressure is at most one. */
  ghost predicate Relaxed(s: State, round: nat, dropped: nat) {
    && s.hist.rounds >= round
    && (s.hist.rounds == round ==> s.hist.dropped == dropped && Pressure(s) <= 1)
  }

  lemma TaskRelaxed(s: State, k: nat, a: TaskAction, round: nat, dropped: nat)
    requires Relaxed(s, round, dropped) && TaskEnabled(s, k, a)
    ensures Relaxed(TaskStep(s, k, a), round, dropped)
  {
    TaskSums(s, k, a, 0, CHAINED);
    SumsMember(s.tasks, k, 0, CHAINED);
    TaskPressure(s, k, a);
  }

  /** A task's step moves the pressure only by what it does to its own place in the chain. */
  lemma TaskPressure(s: State, k: nat, a: TaskAction)
    requires TaskEnabled(s, k, a)
    ensures var s' := TaskStep(s, k, a);
            && s'.hist.rounds == s.hist.rounds && s'.hist.dropped == s.hist.dropped
            && (CHAINED(s'.tasks[k]) ==> CHAINED(s.tasks[k]))
            && (a.WakeRearm? ==> CHAINED(s.tasks[k]) && !CHAINED(s'.tasks[k]))
            && (s'.listener == s.listener
                || (s'.listener == Rival(s.listener) && CHAINED(s.tasks[k]) && !CHAINED(s'.tasks[k])))
  {
  }

  lemma ListenerRelaxed(s: State, a: ListenerAction, round: nat, dropped: nat)
    requires Relaxed(s, round, dropped) && Retrying(s) && ListenerEnabled(s, a)
    ensures Relaxed(ListenerStep(s, a), round, dropped)
  {
    if a.ListenerDefer? {
      DeferOutcomes(s);
    }
  }

  lemma RelaxedStep(c: Config, s: State, a: Action, round: nat, dropped: nat)
    requires Relaxed(s, round, dropped) && Retrying(s) && Enabled(c, s, a)
    ensures Relaxed(Step(c, s, a), round, dropped)
  {
    match a
    case Env(_) =>
    case Send(b) => assert BurstStep(c, s, b).tasks == s.tasks && BurstStep(c, s, b).listener == s.listener;
    case Listen(l) => ListenerRelaxed(s, l, round, dropped);
    case Run(k, t) => TaskRelaxed(s, k, t, round, dropped);
  }

  lemma {:induction false} RelaxedAfter(c: Config, s: State, run: seq<Action>, round: nat, dropped: nat)
    requires c.Valid() && Inv(c, s) && Relaxed(s, round, dropped) && Legal(c, s, run)
    ensures Relaxed(After(c, s, run), round, dropped)
    decreases |run|
  {
    if run != [] {
      RelaxedStep(c, s, run[0], round, dropped);
      InvKept(c, s, run[0]);
      RelaxedAfter(c, Step(c, s, run[0]), run[1..], round, dropped);
    }
  }

  /**
    Checkable when the NACK arrives: a round accepted while at most one wake-up is about is not dropped in any continuation,
    for as long as the listener accepts no later one.
   */
  lemma RoundKept(c: Config, s: State, requested: seq<byte>, giveUp: bool, run: seq<Action>)
    requires Reachable(c, s) && ListenerEnabled(s, NackArrives(requested, giveUp))
    requires Count(s.tasks, CHAINED) <= 1
    requires Legal(c, Step(c, s, Listen(NackArrives(requested, giveUp))), run)
    ensures var accepted := Step(c, s, Listen(NackArrives(requested, giveUp)));
            var t := After(c, accepted, run);
            t.hist.rounds == accepted.hist.rounds ==> t.hist.dropped == s.hist.dropped
  {
    Always(c, s);
    var a := Listen(NackArrives(requested, giveUp));
    InvKept(c, s, a);
    var accepted := Step(c, s, a);
    RelaxedAfter(c, accepted, run, accepted.hist.rounds, s.hist.dropped);
  }
}

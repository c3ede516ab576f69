/**
  How many terminal statuses a send will have emitted when it is finished, told from the state in which its active entry
  is removed.
 */
module PipelineTerminals {
  import opened Words
  import opened Outgoing
  import opened Pipeline
  import opened PipelineSafety
  import opened PipelineGuarantees

  /** The listener has accepted a give-up and not yet removed the entry. */
  predicate GiveUpUnderWay(l: Listener) {
    l.GivingUp? || l.GaveUpActive?
  }

  /** Terminal statuses that lost the race for the active entry, or are bound to. */
  function Losers(s: State): nat {
    s.hist.lost + Bit(GiveUpUnderWay(s.listener)) + Bit(s.burst.pc.FailedActive?)
  }

  /** Once the active entry is gone, only a failing enqueue that was already awaited adds a loser. */
  ghost predicate Settling(s: State, s': State, faileds: nat, faileds': nat) {
    && !s'.active
    && Losers(s') + faileds == Losers(s) + faileds'
    && faileds <= faileds'
    && (!s.burst.pc.Enqueuing? ==> !s'.burst.pc.Enqueuing? && faileds' == faileds)
  }

  lemma SettlingStep(c: Config, s: State, a: Action, t: Tally)
    requires !s.active && Enabled(c, s, a)
    ensures Settling(s, Step(c, s, a), t.faileds, Emitted(t, a).faileds)
  {
    match a
    case Env(_) =>
    case Send(_) =>
    case Listen(_) =>
    case Run(k, r) => TaskTerminals(s, k, r);
  }

  lemma {:induction false} SettlingAfter(c: Config, s: State, run: seq<Action>)
    requires !s.active && Legal(c, s, run)
    ensures Settling(s, After(c, s, run), TallyOf(s.log).faileds, TallyOf(After(c, s, run).log).faileds)
    decreases |run|
  {
    if run != [] {
      SettlingStep(c, s, run[0], TallyOf(s.log));
      TallyStep(c, s, run[0]);
      SettlingAfter(c, Step(c, s, run[0]), run[1..]);
    }
  }

  /** Before the removal no one has lost it, and only an announced give-up or failure has emitted anything. */
  lemma NoLosersYet(t: Tally, s: State)
    requires Books(t, s) && Removal(s) && s.active
    ensures s.hist.lost == 0 && t.faileds == Bit(s.burst.pc.FailedActive?)
  {
  }

  lemma FinalBooks(t: Tally, s: State)
    requires Books(t, s) && Removal(s) && Quiet(s)
    ensures t.completes + t.gaveUps + t.faileds == 1 + s.hist.lost && Losers(s) == s.hist.lost
    ensures s.hist.remover.BySend? ==> t.faileds == 0
    ensures t.faileds <= 1
  {
  }

  /** The three steps that can remove the active entry. */
  predicate Removes(a: Action) {
    a == Send(Claim) || a == Send(FailActive) || a == Listen(GiveUpActive)
  }

  /** What the removal itself does to the reckoning. */
  lemma RemovalStep(c: Config, s: State, a: Action, t: Tally)
    requires Books(t, s) && Removal(s) && s.active && Enabled(c, s, a) && !Step(c, s, a).active
    ensures Removes(a) && Emitted(t, a) == t
    ensures var u := Step(c, s, a);
            && u.hist.lost == 0
            && (a == Send(Claim) ==> u.burst.pc.Completing? && t.faileds == 0 && u.listener == s.listener)
            && (a == Send(FailActive) ==> u.burst.pc.FailedRegistry? && t.faileds == 1 && u.listener == s.listener)
            && (a == Listen(GiveUpActive) ==>
                  u.burst == s.burst && u.listener.GaveUpRegistry? && t.faileds == Bit(s.burst.pc.FailedActive?))
  {
    NoLosersYet(t, s);
    match a
    case Env(_) =>
    case Send(_) =>
    case Listen(_) =>
    case Run(k, r) => TaskTerminals(s, k, r);
  }

  /**
    "Exactly one terminal status", decided by what can be looked up when the active entry is removed. Some step removes it,
    run_send's claim, its failure path or the listener's give-up path, and in every finished continuation:
    after the claim or the failure, exactly one was emitted if and only if no give-up was then under way;
    after the give-up, two if run_send had announced `Failed`, one if it was neither doing so nor awaiting an
    enqueue, and otherwise one or two as that enqueue succeeds or fails.
   */
  lemma RemovalDecides(c: Config, s: State, a: Action, run: seq<Action>)
    requires Reachable(c, s) && s.active && Enabled(c, s, a) && !Step(c, s, a).active
    requires Legal(c, Step(c, s, a), run) && Quiet(After(c, Step(c, s, a), run))
    ensures Removes(a)
    ensures var n := TallyOf(After(c, Step(c, s, a), run).log).Terminals();
            && (a == Send(Claim) || a == Send(FailActive) ==> (n == 1 <==> !GiveUpUnderWay(s.listener)) && n <= 2)
            && (a == Listen(GiveUpActive) && s.burst.pc.FailedActive? ==> n == 2)
            && (a == Listen(GiveUpActive) && s.burst.pc.Enqueuing? ==>
                  n == 1 + TallyOf(After(c, Step(c, s, a), run).log).faileds)
            && (a == Listen(GiveUpActive) && !s.burst.pc.FailedActive? && !s.burst.pc.Enqueuing? ==> n == 1)
  {
    Always(c, s);
    InvKept(c, s, a);
    var u := Step(c, s, a);
    var t := After(c, u, run);
    InvAfter(c, u, run);
    RemovalStep(c, s, a, TallyOf(s.log));
    TallyStep(c, s, a);
    SettlingAfter(c, u, run);
    FinalBooks(TallyOf(t.log), t);
  }

  /** Every finished send went through one of those steps: `hist.remover` says which. */
  lemma SomeoneRemoved(c: Config, s: State)
    requires Reachable(c, s) && Quiet(s)
    ensures !s.active && !s.hist.remover.Nobody?
  {
    Always(c, s);
  }
}

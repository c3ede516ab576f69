/**
  Reachable states in which the pipeline does not do what its documentation says.

  Each lemma drives the machine from `Init` to a concrete witness.
 */
module PipelineRuns {
  import opened Words
  import opened Outgoing
  import opened Pipeline
  import opened PipelineSafety
  import opened PipelineGuarantees
  import opened PipelineCompletion
  import opened PipelineRetries

  lemma Initially(c: Config, now: nat, seconds: nat)
    requires c.Valid() && seconds >= 1
    ensures Reachable(c, Init(c, now, Seconds(seconds)))
  {
    var s := Init(c, now, Seconds(seconds));
    assert Legal(c, s, []) && After(c, s, []) == s;
  }

  /** One DATA chunk, no parity, no linger. */
  const TINY: Config := Config([[]], 1, 0)

  /** The burst of `TINY` is out, its linger is over, and run_send has read a zero in-flight count. */
  lemma TinyClaiming() returns (s: State)
    ensures Reachable(TINY, s)
    ensures s.burst.pc.Claiming? && s.active && s.listener.Idle? && s.tasks == []
    ensures s.inflight == 0 && s.hist.drain.ReadZero? && s.hist.lost == 0
    ensures s.now == 0 && s.ttl == Seconds(1_200)
    ensures s.entry == Some(OutgoingVoice([[]], 1, 0, 0, None, {}, None, false))
    ensures TallyOf(s.log) == Tally(0, 0, 0)
  {
    Initially(TINY, 0, 1_200);
    s := Init(TINY, 0, Seconds(1_200));
    s := Do(TINY, s, Send(Start));
    s := Do(TINY, s, Send(ReadCount));
    s := Do(TINY, s, Send(Check));
    TallyStep(TINY, s, Send(Enqueued(true)));
    s := Do(TINY, s, Send(Enqueued(true)));
    s := Do(TINY, s, Send(LingerOver));
    s := Do(TINY, s, Send(DrainRead));
  }

  lemma Do(c: Config, s: State, a: Action) returns (s': State)
    requires Reachable(c, s) && Enabled(c, s, a)
    ensures Reachable(c, s') && s' == Step(c, s, a)
  {
    ReachableThen(c, s, a);
    s' := Step(c, s, a);
  }

  /** A give-up arrives just before run_send claims the active entry, and is announced just after. */
  lemma GaveUpAfterClaim() returns (s: State)
    ensures Reachable(TINY, s)
    ensures s.burst.pc.Completing? && s.listener.GaveUpActive? && s.tasks == [] && !s.active
    ensures TallyOf(s.log) == Tally(0, 1, 0)
  {
    s := TinyClaiming();
    s := Do(TINY, s, Listen(NackArrives([], true)));
    s := Do(TINY, s, Send(Claim));
    TallyStep(TINY, s, Listen(EmitGaveUp));
    s := Do(TINY, s, Listen(EmitGaveUp));
  }

  /** The listener emits `GaveUp` between run_send's claim and its `Complete`. */
  lemma BothEmitted() returns (s: State)
    ensures Reachable(TINY, s)
    ensures s.burst.pc.Removing? && s.listener.GaveUpActive? && s.tasks == [] && !s.active
    ensures TallyOf(s.log) == Tally(1, 1, 0)
  {
    s := GaveUpAfterClaim();
    TallyStep(TINY, s, Send(EmitComplete));
    s := Do(TINY, s, Send(EmitComplete));
  }

  /** A finished send can have emitted both `GaveUp` and `Complete`. */
  lemma TwoTerminals()
    ensures exists s :: Reachable(TINY, s) && Quiet(s)
              && TallyOf(s.log).completes == 1 && TallyOf(s.log).gaveUps == 1
  {
    var s := BothEmitted();
    s := Do(TINY, s, Listen(GiveUpActive));
    s := Do(TINY, s, Listen(GiveUpRegistry));
    s := Do(TINY, s, Send(FinalRemove));
    assert Quiet(s);
  }

  /** A NACK arrives in the same gap, and its round is taken before run_send emits `Complete`. */
  lemma TakenAfterZeroRead() returns (s: State)
    ensures Reachable(TINY, s) && s.hist.drain.ReadZero?
    ensures s.burst.pc.Claiming? && s.active && s.listener == Announcing([0]) && s.tasks == [] && s.inflight == 0
    ensures TallyOf(s.log) == Tally(0, 0, 0)
  {
    s := TinyClaiming();
    assert StrictlyIncreasing([0]);
    s := Do(TINY, s, Listen(NackArrives([0], false)));
    assert s.entry.value.FramesFor([0]) == [(0, [])];
    assert Indices([(0, [])]) == [0];
    s := Do(TINY, s, Listen(ListenerTake(0)));
  }

  /** `Complete` has been emitted, and the round taken before it is only now announced and about to be dispatched. */
  lemma AnnouncedAfterComplete() returns (s: State, before: seq<Status>)
    ensures Reachable(TINY, s) && s.hist.drain.ReadZero?
    ensures s.listener == Dispatching([0]) && s.tasks == [] && s.inflight == 0
    ensures s.log == before + [Complete] + [Retransmitting([0])] && TallyOf(s.log).completes == 1
  {
    s := TakenAfterZeroRead();
    before := s.log;
    s := Do(TINY, s, Send(Claim));
    TallyStep(TINY, s, Send(EmitComplete));
    s := Do(TINY, s, Send(EmitComplete));
    TallyStep(TINY, s, Listen(ListenerAnnounce));
    s := Do(TINY, s, Listen(ListenerAnnounce));
  }

  /** `Complete` can precede a retransmit's own announcement and enqueue, even after a zero read. */
  lemma CompleteDuringRetransmit()
    ensures exists s, before: seq<Status> :: Reachable(TINY, s) && s.hist.drain.ReadZero?
              && TallyOf(s.log).completes == 1 && s.log == before + [Complete] + [Retransmitting([0])]
              && s.tasks == [Shipping([0])] && s.inflight == 1
  {
    var s, before := AnnouncedAfterComplete();
    s := Do(TINY, s, Listen(ListenerDispatch));
    assert s.log == before + [Complete] + [Retransmitting([0])];
  }

  /** One DATA chunk, no parity, and the default linger, which is the default retain TTL. */
  const PATIENT: Config := Config([[]], 1, Seconds(DEFAULT_RETAIN_TTL_SECS))

  /**
    With the two defaults a chunk is not kept for the whole linger: the entry, registered before the burst, expires while
    run_send still lingers for NACKs, and a NACK that arrives then is refused.
   */
  lemma DefaultsExpire()
    ensures exists s :: Reachable(PATIENT, s) && s.burst.pc.Lingering? && s.now < s.burst.pc.until
              && s.listener.Taking? && s.ttl == Seconds(DEFAULT_RETAIN_TTL_SECS)
              && s.entry.Some? && s.entry.value.pending == {} && s.listener.missing == [0]
              && TakeRetransmitSpec(s.entry, s.ttl, s.now, s.listener.missing, 0) == (None, Err(TtlExpired))
  {
    Initially(PATIENT, 0, DEFAULT_RETAIN_TTL_SECS);
    var s := Init(PATIENT, 0, Seconds(DEFAULT_RETAIN_TTL_SECS));
    s := Do(PATIENT, s, Env(Tick(SECOND)));
    s := Do(PATIENT, s, Send(Start));
    s := Do(PATIENT, s, Send(ReadCount));
    s := Do(PATIENT, s, Send(Check));
    s := Do(PATIENT, s, Send(Enqueued(true)));
    assert s.entry.value.pending == {};
    s := Do(PATIENT, s, Env(Tick(Seconds(1_199))));
    assert StrictlyIncreasing([0]);
    s := Do(PATIENT, s, Listen(NackArrives([0], false)));
  }

  /** At the instant it was registered, `n` frames of a message may already be out. */
  lemma {:induction false} Promptly(c: Config, seconds: nat, n: nat) returns (s: State)
    requires c.Valid() && seconds >= 1 && n < |c.frames|
    ensures Reachable(c, s) && s.burst.pc.Checking? && s.burst.next == n && s.active
    ensures s.now == 0 && s.ttl == Seconds(seconds) && s.entry.Some? && s.entry.value.registeredAt == 0
  {
    if n == 0 {
      Initially(c, 0, seconds);
      s := Init(c, 0, Seconds(seconds));
      s := Do(c, s, Send(Start));
      s := Do(c, s, Send(ReadCount));
    } else {
      s := Promptly(c, seconds, n - 1);
      s := Do(c, s, Send(Check));
      s := Do(c, s, Send(Enqueued(true)));
    }
  }

  /** A message can still be served when its linger ends if and only if the retain TTL is longer than the linger. */
  lemma KeptThroughLingerIff(c: Config, seconds: nat)
    requires c.Valid() && seconds >= 1
    ensures (exists s :: Reachable(c, s) && s.burst.pc.DrainReading? && s.ttl == Seconds(seconds)
                         && s.entry.Some? && !s.entry.value.Expired(s.now, s.ttl))
            <==> c.linger < Seconds(seconds)
  {
    if c.linger < Seconds(seconds) {
      var s := Promptly(c, seconds, |c.frames| - 1);
      s := Do(c, s, Send(Check));
      s := Do(c, s, Send(Enqueued(true)));
      s := Do(c, s, Env(Tick(c.linger)));
      s := Do(c, s, Send(LingerOver));
    } else {
      forall s | Reachable(c, s) && s.burst.pc.DrainReading? && s.ttl == Seconds(seconds) && s.entry.Some?
        ensures s.entry.value.Expired(s.now, s.ttl)
      {
        LingerOutlastsTtl(c, s);
      }
    }
  }

  /** Two DATA chunks, no parity, an hour of linger. */
  const PAIR: Config := Config([[], []], 2, 3_600_000_000_000)

  /** `PAIR` lingers, the listener is idle, nothing is pending, and no more than `r` rounds were served. */
  ghost predicate Cruising(s: State, r: nat) {
    && Reachable(PAIR, s)
    && s.active && s.burst.pc.Lingering? && s.listener.Idle?
    && s.now + Seconds(100) < s.ttl && s.hist.dropped == 0
    && s.entry.Some?
    && s.entry.value.totalData == 2 && s.entry.value.frames == [[], []] && s.entry.value.registeredAt == 0
    && s.entry.value.pending == {} && s.entry.value.retransmits <= r < 10
  }

  predicate Cooled(s: State) {
    s.entry.Some? && (s.entry.value.cooldownUntil.Some? ==> s.entry.value.cooldownUntil.value <= s.now)
  }

  lemma PairLingering() returns (s: State)
    ensures Cruising(s, 0) && Cooled(s) && s.now == 0 && s.ttl == Seconds(1_200) && s.tasks == []
    ensures !s.entry.value.scheduled && s.hist.rounds == 0
  {
    Initially(PAIR, 0, 1_200);
    s := Init(PAIR, 0, Seconds(1_200));
    s := Do(PAIR, s, Send(Start));
    s := Do(PAIR, s, Send(ReadCount));
    s := Do(PAIR, s, Send(Check));
    s := Do(PAIR, s, Send(Enqueued(true)));
    s := Do(PAIR, s, Send(Check));
    s := Do(PAIR, s, Send(Enqueued(true)));
    assert s.entry.value.pending == {};
  }

  /** The entry after a round for the one chunk `x`. */
  function Taken(e: Entry, now: nat, x: byte): Entry {
    e.(pending := e.pending + {x}, retransmits := e.retransmits + 1, cooldownUntil := Some(now + SECOND))
  }

  lemma TakeOne(s: State, x: byte)
    requires Cooled(s) && s.now < s.ttl && s.ttl > Seconds(100)
    requires s.entry.value.registeredAt == 0 && s.entry.value.retransmits < 10
    requires s.entry.value.Eligible(x)
    ensures TakeRetransmitSpec(s.entry, s.ttl, s.now, [x], 0)
            == (Some(Taken(s.entry.value, s.now, x)), Ok([(x, s.entry.value.frames[x])]))
    ensures Indices([(x, s.entry.value.frames[x])]) == [x]
  {
    var e := s.entry.value;
    assert e.FramesFor([x]) == [(x, e.frames[x])];
    assert Indices([(x, e.frames[x])]) == [x];
    assert Elements([x]) == {x};
    assert Cooldown(0, 1, s.ttl) == SECOND;
  }

  lemma ServeTake(s: State, r: nat) returns (s': State)
    requires Cruising(s, r) && r < 9 && Cooled(s)
    ensures Reachable(PAIR, s')
    ensures s' == s.(listener := Announcing([0]), entry := Some(Taken(s.entry.value, s.now, 0)),
                     hist := s.hist.(rounds := s.hist.rounds + 1))
  {
    assert StrictlyIncreasing([0]);
    s' := Do(PAIR, s, Listen(NackArrives([0], false)));
    TakeOne(s', 0);
    s' := Do(PAIR, s', Listen(ListenerTake(0)));
  }

  /** One NACK for chunk 0, served and shipped: the entry closes for a second. */
  lemma Serve(s: State, r: nat) returns (s': State)
    requires Cruising(s, r) && r < 9 && Cooled(s)
    ensures Cruising(s', r + 1) && s'.now == s.now && s'.ttl == s.ttl
    ensures s'.tasks == s.tasks + [Exiting]
    ensures s'.entry.value.cooldownUntil == Some(s.now + SECOND)
    ensures s'.entry.value.scheduled == s.entry.value.scheduled && s'.entry.value.deferred == s.entry.value.deferred
    ensures s'.hist == s.hist.(rounds := s.hist.rounds + 1)
  {
    s' := ServeTake(s, r);
    s' := Do(PAIR, s', Listen(ListenerAnnounce));
    s' := Do(PAIR, s', Listen(ListenerDispatch));
    assert s'.tasks == s.tasks + [Shipping([0])];
    s' := Do(PAIR, s', Run(|s.tasks|, Shipped(true)));
    assert s'.tasks == s.tasks + [Exiting];
    assert s'.entry.value.pending == {};
  }

  lemma StashDefer(s: State, r: nat, x: byte) returns (s': State)
    requires Cruising(s, r) && !s.entry.value.scheduled
    requires s.entry.value.cooldownUntil == Some(s.now + SECOND)
    ensures Reachable(PAIR, s')
    ensures s' == s.(listener := Arming(s.now + SECOND),
                     entry := Some(s.entry.value.(deferred := Some([x]), scheduled := true)),
                     hist := s.hist.(rounds := s.hist.rounds + 1, stashed := [x], stashedRound := s.hist.rounds + 1))
  {
    assert StrictlyIncreasing([x]);
    s' := Do(PAIR, s, Listen(NackArrives([x], false)));
    assert TakeRetransmitSpec(s'.entry, s'.ttl, s'.now, [x], 0) == (s'.entry, Err(CooldownActive));
    s' := Do(PAIR, s', Listen(ListenerTake(0)));
    s' := Do(PAIR, s', Listen(ListenerDefer));
  }

  /** One NACK for chunk `x` during the cooldown: stashed, its wake-up asleep. */
  lemma Stash(s: State, r: nat, x: byte) returns (s': State)
    requires Cruising(s, r) && !s.entry.value.scheduled
    requires s.entry.value.cooldownUntil == Some(s.now + SECOND)
    ensures Cruising(s', r) && s'.now == s.now && s'.ttl == s.ttl
    ensures s'.tasks == s.tasks + [Sleeping(s.now + SECOND)]
    ensures s'.entry.value.cooldownUntil == s.entry.value.cooldownUntil
    ensures s'.entry.value.scheduled && s'.entry.value.deferred == Some([x])
    ensures s'.hist == s.hist.(rounds := s.hist.rounds + 1, stashed := [x], stashedRound := s.hist.rounds + 1)
  {
    s' := StashDefer(s, r, x);
    s' := Do(PAIR, s', Listen(ListenerArm));
  }

  /** Two seconds later the wake-up has taken the stash, and stalls before its own take. */
  lemma Stall(s: State, r: nat, k: nat) returns (s': State)
    requires Cruising(s, r) && s.now + Seconds(102) < s.ttl
    requires k < |s.tasks| && s.tasks[k] == Sleeping(s.now + SECOND)
    requires s.entry.value.cooldownUntil == Some(s.now + SECOND)
    requires s.entry.value.scheduled && s.entry.value.deferred.Some?
    ensures Cruising(s', r) && Cooled(s') && s'.now == s.now + Seconds(2) && s'.ttl == s.ttl
    ensures s'.tasks == s.tasks[k := WakeTaking(s.entry.value.deferred.value, s.hist.stashedRound)]
    ensures !s'.entry.value.scheduled && s'.hist == s.hist
  {
    s' := Do(PAIR, s, Env(Tick(Seconds(2))));
    s' := Do(PAIR, s', Run(k, Wake));
    s' := Do(PAIR, s', Run(k, TakeStash));
    assert s'.tasks == s.tasks[k := WakeTaking(s.entry.value.deferred.value, s.hist.stashedRound)];
  }

  /** A stalled wake-up holds the list [0], and a newer list [1] is stashed. */
  lemma StalledUnderStash() returns (s: State)
    ensures Cruising(s, 2) && s.ttl == Seconds(1_200) && s.now == Seconds(2)
    ensures |s.tasks| > 1 && s.tasks[1] == WakeTaking([0], 2)
    ensures s.entry.value.cooldownUntil == Some(s.now + SECOND)
    ensures s.entry.value.scheduled && s.entry.value.deferred == Some([1]) && s.hist.stashedRound == 4
  {
    s := PairLingering();
    s := Serve(s, 0);
    s := Stash(s, 1, 0);
    s := Stall(s, 1, 1);
    s := Serve(s, 1);
    s := Stash(s, 2, 1);
  }

  /**
    A stalled wake-up can put its old list back over a newer one: the stash is not always the latest
    NACK's list, although every list the listener stashes is.
   */
  lemma StaleStashOverwrites()
    ensures exists s, k ::
              && Reachable(PAIR, s) && TaskEnabled(s, k, WakeDefer)
              && s.entry.Some? && s.entry.value.deferred == Some([1]) && s.hist.stashedRound == 4
              && TaskStep(s, k, WakeDefer).entry.Some?
              && TaskStep(s, k, WakeDefer).entry.value.deferred == Some([0])
              && TaskStep(s, k, WakeDefer).hist.stashedRound == 2
  {
    var s := StalledUnderStash();
    s := Do(PAIR, s, Run(1, WakeTake(0)));
    assert s.tasks[1] == WakeDeferring([0], 2);
    assert Reachable(PAIR, s) && TaskEnabled(s, 1, WakeDefer);
  }

  /** Two wake-ups that have consumed their lists and stall before taking. */
  lemma TwoStalled() returns (s: State)
    ensures Cruising(s, 2) && Cooled(s) && s.now == Seconds(4) && s.ttl == Seconds(1_200)
    ensures s.tasks == [Exiting, WakeTaking([0], 2), Exiting, WakeTaking([1], 4)]
    ensures !s.entry.value.scheduled
  {
    s := PairLingering();
    s := Serve(s, 0);
    s := Stash(s, 1, 0);
    s := Stall(s, 1, 1);
    s := Serve(s, 1);
    s := Stash(s, 2, 1);
    s := Stall(s, 2, 3);
    assert s.tasks == [Exiting, WakeTaking([0], 2), Exiting, WakeTaking([1], 4)];
  }

  lemma DoFrom(c: Config, from: State, s: State, a: Action) returns (s': State)
    requires Reachable(c, s) && Reaches(c, from, s) && Enabled(c, s, a)
    ensures Reachable(c, s') && Reaches(c, from, s') && s' == Step(c, s, a)
  {
    ReachableThen(c, s, a);
    ReachesThen(c, from, s, a);
    s' := Step(c, s, a);
  }

  /** The listener gets no further with a NACK while the cooldown runs, and finds it over two seconds later. */
  lemma LapseMidHandoff(from: State, s: State) returns (s': State)
    requires Reachable(PAIR, s) && Reaches(PAIR, from, s)
    requires s.listener.Taking? && s.now + Seconds(2) < s.ttl && s.hist.dropped == 0
    requires s.entry.Some? && s.entry.value.registeredAt == 0 && s.entry.value.retransmits < 10
    requires s.entry.value.cooldownUntil == Some(s.now + SECOND)
    ensures Reachable(PAIR, s') && Reaches(PAIR, from, s')
    ensures var l := s.listener;
            s' == s.(listener := Deferring(l.missing, l.attempt, l.since, l.rivals), now := s.now + Seconds(2))
  {
    s' := DoFrom(PAIR, from, s, Listen(ListenerTake(0)));
    s' := DoFrom(PAIR, from, s', Env(Tick(Seconds(2))));
  }

  /** A stalled wake-up takes its round for chunk `x`. */
  lemma RivalTakes(from: State, s: State, k: nat, x: byte, round: nat) returns (s': State)
    requires Reachable(PAIR, s) && Reaches(PAIR, from, s)
    requires s.listener.Taking? && s.now < s.ttl && s.ttl > Seconds(100)
    requires k < |s.tasks| && s.tasks[k] == WakeTaking([x], round)
    requires Cooled(s) && s.entry.value.registeredAt == 0 && s.entry.value.retransmits < 9
    requires s.entry.value.Eligible(x)
    ensures Reachable(PAIR, s') && Reaches(PAIR, from, s')
    ensures s' == s.(listener := Rival(s.listener), tasks := s.tasks[k := WakeAnnouncing([x])],
                     entry := Some(Taken(s.entry.value, s.now, x)))
  {
    TakeOne(s, x);
    s' := DoFrom(PAIR, from, s, Run(k, WakeTake(0)));
  }

  /** The defer that finds the cooldown over goes back to the take. */
  lemma Retry(from: State, s: State) returns (s': State)
    requires Reachable(PAIR, s) && Reaches(PAIR, from, s) && s.listener.Taking? && s.listener.attempt < 2
    requires s.now + Seconds(2) < s.ttl && s.hist.dropped == 0
    requires s.entry.Some? && s.entry.value.registeredAt == 0 && s.entry.value.retransmits < 10
    requires s.entry.value.cooldownUntil == Some(s.now + SECOND)
    ensures Reachable(PAIR, s') && Reaches(PAIR, from, s')
    ensures var l := s.listener;
            s' == s.(listener := Taking(l.missing, l.attempt + 1, l.since, l.rivals), now := s.now + Seconds(2))
  {
    s' := LapseMidHandoff(from, s);
    s' := DoFrom(PAIR, from, s', Listen(ListenerDefer));
  }

  /** One attempt overtaken: the take finds a cooldown, the defer finds it over, and a wake-up takes the next round. */
  lemma Overtaken(from: State, s: State, k: nat, x: byte, round: nat) returns (s': State)
    requires Reachable(PAIR, s) && Reaches(PAIR, from, s) && s.listener.Taking? && s.listener.attempt < 2
    requires s.now + Seconds(10) < s.ttl && s.ttl > Seconds(100) && s.hist.dropped == 0
    requires s.entry.Some? && s.entry.value.registeredAt == 0 && s.entry.value.retransmits < 8
    requires s.entry.value.cooldownUntil == Some(s.now + SECOND) && s.entry.value.Eligible(x)
    requires k < |s.tasks| && s.tasks[k] == WakeTaking([x], round)
    ensures Reachable(PAIR, s') && Reaches(PAIR, from, s')
    ensures var l := s.listener;
            s' == s.(listener := Taking(l.missing, l.attempt + 1, l.since, l.rivals + 1), now := s.now + Seconds(2),
                     tasks := s.tasks[k := WakeAnnouncing([x])],
                     entry := Some(Taken(s.entry.value, s.now + Seconds(2), x)))
  {
    var t := Retry(from, s);
    assert t.entry == s.entry && t.tasks == s.tasks && t.ttl == s.ttl && Cooled(t);
    s' := RivalTakes(from, t, k, x, round);
    assert s'.tasks == s.tasks[k := WakeAnnouncing([x])] && s'.entry == Some(Taken(s.entry.value, s.now + Seconds(2), x));
  }

  lemma NextExits(tasks: seq<Task>, t: Task)
    ensures Count(tasks + [t] + [Exiting], CHAINED) == Count(tasks, CHAINED) + if CHAINED(t) then 1 else 0
  {
    SumsAppend(tasks, t, 0, CHAINED);
    SumsAppend(tasks + [t], Exiting, 0, CHAINED);
  }

  lemma TwoChained()
    ensures Count([Exiting, WakeTaking([0], 2), Exiting, WakeTaking([1], 4), Exiting], CHAINED) == 2
  {
    var a, b := WakeTaking([0], 2), WakeTaking([1], 4);
    SumsAppend([], Exiting, 0, CHAINED);
    NextExits([Exiting], a);
    NextExits([Exiting, a, Exiting], b);
    assert [] + [Exiting] == [Exiting];
    assert [Exiting] + [a] + [Exiting] == [Exiting, a, Exiting];
    assert [Exiting, a, Exiting] + [b] + [Exiting] == [Exiting, a, Exiting, b, Exiting];
  }

  /** The listener idle, two wake-ups stalled before their takes, and a cooldown that has just begun. */
  lemma TwoStalledAndServed() returns (s: State)
    ensures Cruising(s, 3) && s.now == Seconds(4) && s.ttl == Seconds(1_200)
    ensures s.entry.value.cooldownUntil == Some(s.now + SECOND)
    ensures s.tasks == [Exiting, WakeTaking([0], 2), Exiting, WakeTaking([1], 4), Exiting]
  {
    s := TwoStalled();
    s := Serve(s, 2);
    assert s.tasks == [Exiting, WakeTaking([0], 2), Exiting, WakeTaking([1], 4)] + [Exiting];
  }

  /** A round accepted then can have both its first attempts overtaken. */
  lemma OvertakenTwice(accepted: State) returns (s: State)
    requires Reachable(PAIR, accepted) && accepted.listener == Taking([0], 0, Seconds(4), 0)
    requires accepted.now == Seconds(4) && accepted.ttl == Seconds(1_200)
    requires accepted.active && accepted.hist.dropped == 0 && accepted.entry.Some?
    requires accepted.entry.value.registeredAt == 0 && accepted.entry.value.retransmits <= 3
    requires accepted.entry.value.totalData == 2 && accepted.entry.value.pending == {}
    requires accepted.entry.value.cooldownUntil == Some(accepted.now + SECOND)
    requires |accepted.tasks| == 5 && accepted.tasks[1] == WakeTaking([0], 2) && accepted.tasks[3] == WakeTaking([1], 4)
    ensures Reachable(PAIR, s) && Reaches(PAIR, accepted, s) && s.listener == Deferring([0], 2, Seconds(4), 2)
    ensures s.hist == accepted.hist && s.active && s.entry.Some? && Cooled(s) && s.entry.value.cooldownUntil.Some?
  {
    ReachesSelf(PAIR, accepted);
    s := Overtaken(accepted, accepted, 1, 0, 2);
    s := Overtaken(accepted, s, 3, 1, 4);
    s := LapseMidHandoff(accepted, s);
  }

  /** Then its third attempt runs out. */
  lemma LostAfter(accepted: State) returns (t: State)
    requires Reachable(PAIR, accepted) && accepted.listener == Taking([0], 0, Seconds(4), 0)
    requires accepted.now == Seconds(4) && accepted.ttl == Seconds(1_200)
    requires accepted.active && accepted.hist.dropped == 0 && accepted.entry.Some?
    requires accepted.entry.value.registeredAt == 0 && accepted.entry.value.retransmits <= 3
    requires accepted.entry.value.totalData == 2 && accepted.entry.value.pending == {}
    requires accepted.entry.value.cooldownUntil == Some(accepted.now + SECOND)
    requires |accepted.tasks| == 5 && accepted.tasks[1] == WakeTaking([0], 2) && accepted.tasks[3] == WakeTaking([1], 4)
    ensures Reaches(PAIR, accepted, t) && t.hist.rounds == accepted.hist.rounds
    ensures t.hist.dropped == accepted.hist.dropped + 1 && t.active && t.entry.Some?
  {
    t := OvertakenTwice(accepted);
    t := DoFrom(PAIR, accepted, t, Listen(ListenerDefer));
  }

  /** From `s`, accepting a NACK for chunk 0 can end in the loss of that very round. */
  ghost predicate LosesRound(s: State) {
    && ListenerEnabled(s, NackArrives([0], false))
    && var accepted := ListenerStep(s, NackArrives([0], false));
       exists t :: Reaches(PAIR, accepted, t) && t.hist.rounds == accepted.hist.rounds
                   && t.hist.dropped == s.hist.dropped + 1 && t.active && t.entry.Some?
  }

  lemma Loses(s: State)
    requires Cruising(s, 3) && s.now == Seconds(4) && s.ttl == Seconds(1_200)
    requires s.entry.value.cooldownUntil == Some(s.now + SECOND)
    requires |s.tasks| == 5 && s.tasks[1] == WakeTaking([0], 2) && s.tasks[3] == WakeTaking([1], 4)
    ensures LosesRound(s)
  {
    assert StrictlyIncreasing([0]);
    var accepted := Do(PAIR, s, Listen(NackArrives([0], false)));
    var t := LostAfter(accepted);
  }

  /** Two wake-ups are enough: a round accepted while two are about can run out of attempts and be lost. */
  lemma RoundDropped()
    ensures exists s :: Reachable(PAIR, s) && Count(s.tasks, CHAINED) == 2 && LosesRound(s)
  {
    var s := TwoStalledAndServed();
    TwoChained();
    Loses(s);
  }
}

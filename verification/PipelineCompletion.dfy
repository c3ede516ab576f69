/**
  What `Complete` leaves behind: from which states a retransmit can still be scheduled or in flight after it.
 */
module PipelineCompletion {
  import opened Words
  import opened Outgoing
  import opened Pipeline
  import opened PipelineSafety
  import opened PipelineGuarantees

  predicate Cooling(s: State) {
    s.entry.Some? && s.entry.value.cooldownUntil.Some? && s.now < s.entry.value.cooldownUntil.value
  }

  /**
    The tests of `take_retransmit` that come before the cooldown. With `ttlMayChange` the retain TTL may still be raised, and
    its test is left out.
   */
  predicate Honoured(s: State, ttlMayChange: bool) {
    && s.entry.Some? && s.entry.value.retransmits < MAX_RETRANSMITS
    && (ttlMayChange || !s.entry.value.Expired(s.now, s.ttl))
  }

  /** A take could serve this request, were every chunk out and the cooldown over. */
  predicate Servable(s: State, missing: seq<byte>, ttlMayChange: bool) {
    Honoured(s, ttlMayChange) && exists x :: x in missing && x < s.entry.value.totalData
  }

  /** The guards of `take_retransmit` and `defer_nack`, for a round the listener is still working on. */
  predicate RoundLeads(s: State, ttlMayChange: bool) {
    match s.listener
    case Taking(missing, _, _, _) =>
      Servable(s, missing, ttlMayChange) || (Cooling(s) && Honoured(s, ttlMayChange))
    case Deferring(missing, attempt, _, _) =>
      Cooling(s) || (attempt + 1 < LISTENER_ATTEMPTS && Servable(s, missing, ttlMayChange))
    case _ => false
  }

  /** A retransmit task is live, the listener is about to start one, or its round is bound for one. */
  predicate RetransmitAhead(s: State, ttlMayChange: bool) {
    s.inflight > 0 || MidHandoff(s.listener) || RoundLeads(s, ttlMayChange)
  }

  predicate ChangesTtl(a: Action) {
    a.Env? && a.env.SetTtl?
  }

  predicate Allowed(run: seq<Action>, ttlMayChange: bool) {
    ttlMayChange || forall a :: a in run ==> !ChangesTtl(a)
  }

  function Announcements(log: seq<Status>): nat {
    if log == [] then 0
    else Announcements(log[..|log| - 1]) + if log[|log| - 1].Retransmitting? then 1 else 0
  }

  lemma AnnouncementsAppend(log: seq<Status>, st: Status)
    ensures Announcements(log + [st]) == Announcements(log) + if st.Retransmitting? then 1 else 0
  {
    assert (log + [st])[..|log|] == log;
  }

  // ----- nothing ahead stays nothing ahead

  /** No new round can be accepted, none is ahead, and every retransmit task has ended. */
  ghost predicate Spent(s: State, ttlMayChange: bool) {
    && !s.active && !RetransmitAhead(s, ttlMayChange)
    && (s.burst.pc.Completing? || s.burst.pc.Removing? || s.burst.pc.Ended?)
    && forall k :: 0 <= k < |s.tasks| ==> s.tasks[k].Done?
  }

  /** What a step of a spent state must not do. */
  ghost predicate Dormant(s: State, s': State) {
    s'.tasks == s.tasks && Announcements(s'.log) == Announcements(s.log)
  }

  lemma ListenerSpent(s: State, a: ListenerAction, ttlMayChange: bool)
    requires Spent(s, ttlMayChange) && ListenerEnabled(s, a)
    ensures Spent(ListenerStep(s, a), ttlMayChange) && ListenerStep(s, a).tasks == s.tasks
    ensures ListenerStep(s, a).log == s.log + if a.EmitGaveUp? then [GaveUp] else []
  {
    match a
    case ListenerTake(pacing) => TakeSpent(s, pacing, ttlMayChange);
    case ListenerDefer =>
    case _ =>
  }

  lemma TakeSpent(s: State, pacing: nat, ttlMayChange: bool)
    requires Spent(s, ttlMayChange) && ListenerEnabled(s, ListenerTake(pacing))
    ensures ListenerStep(s, ListenerTake(pacing)).listener.Idle?
    ensures Spent(ListenerStep(s, ListenerTake(pacing)), ttlMayChange)
  {
    if s.entry.Some? {
      FramesForPlan(s.entry.value, s.listener.missing);
      var plan := s.entry.value.FramesFor(s.listener.missing);
      if plan != [] {
        assert plan[0] in plan;
      }
    }
  }

  lemma EnvSpent(s: State, a: EnvAction, ttlMayChange: bool)
    requires Spent(s, ttlMayChange) && EnvEnabled(s, a) && (ttlMayChange || !a.SetTtl?)
    ensures Spent(EnvStep(s, a), ttlMayChange) && Dormant(s, EnvStep(s, a))
  {
  }

  lemma AheadWanes(s: State, s': State, ttlMayChange: bool)
    requires s'.inflight == s.inflight && s'.listener == s.listener && s'.now == s.now && s'.ttl == s.ttl
    requires s'.entry == s.entry || s'.entry.None?
    requires !RetransmitAhead(s, ttlMayChange)
    ensures !RetransmitAhead(s', ttlMayChange)
  {
  }

  /** What run_send still does once it has claimed the message. */
  lemma LateBurst(c: Config, s: State, a: BurstAction)
    requires BurstEnabled(c, s, a) && (s.burst.pc.Completing? || s.burst.pc.Removing? || s.burst.pc.Ended?)
    ensures var s' := BurstStep(c, s, a);
            && s'.inflight == s.inflight && s'.listener == s.listener && s'.now == s.now && s'.ttl == s.ttl
            && s'.active == s.active && s'.tasks == s.tasks && (s'.entry == s.entry || s'.entry.None?)
            && (s'.burst.pc.Removing? || s'.burst.pc.Ended?)
            && s'.log == if a.EmitComplete? then s.log + [Complete] else s.log
  {
  }

  lemma BurstSpent(c: Config, s: State, a: BurstAction, ttlMayChange: bool)
    requires Spent(s, ttlMayChange) && BurstEnabled(c, s, a)
    ensures Spent(BurstStep(c, s, a), ttlMayChange) && Dormant(s, BurstStep(c, s, a))
  {
    LateBurst(c, s, a);
    AheadWanes(s, BurstStep(c, s, a), ttlMayChange);
    AnnouncementsAppend(s.log, Complete);
  }

  lemma SpentStep(c: Config, s: State, a: Action, ttlMayChange: bool)
    requires Spent(s, ttlMayChange) && Enabled(c, s, a) && (ttlMayChange || !ChangesTtl(a))
    ensures Spent(Step(c, s, a), ttlMayChange) && Dormant(s, Step(c, s, a))
  {
    match a
    case Env(e) => EnvSpent(s, e, ttlMayChange);
    case Send(b) => BurstSpent(c, s, b, ttlMayChange);
    case Listen(l) => ListenerSpent(s, l, ttlMayChange); AnnouncementsAppend(s.log, GaveUp); assert s.log + [] == s.log;
    case Run(k, t) => assert false;
  }

  lemma {:induction false} SpentAfter(c: Config, s: State, run: seq<Action>, ttlMayChange: bool)
    requires Spent(s, ttlMayChange) && Legal(c, s, run) && Allowed(run, ttlMayChange)
    ensures Spent(After(c, s, run), ttlMayChange) && Dormant(s, After(c, s, run))
    decreases |run|
  {
    if run != [] {
      assert run[0] in run && forall a :: a in run[1..] ==> a in run;
      SpentStep(c, s, run[0], ttlMayChange);
      SpentAfter(c, Step(c, s, run[0]), run[1..], ttlMayChange);
    }
  }

  /** Emitting `Complete` moves nothing but the log and run_send. */
  lemma CompleteStep(c: Config, s: State)
    requires Reachable(c, s) && BurstEnabled(c, s, EmitComplete)
    ensures var t := Step(c, s, Send(EmitComplete));
            && t.log == s.log + [Complete] && t.tasks == s.tasks && t.listener == s.listener && t.entry == s.entry
            && t.inflight == s.inflight && t.now == s.now && t.ttl == s.ttl && !t.active && t.burst.pc.Removing?
            && (forall b :: RetransmitAhead(t, b) == RetransmitAhead(s, b))
  {
    Always(c, s);
  }

  /**
    With nothing ahead, `Complete` is the last word: whatever run follows, no task is spawned, nothing is announced,
    nothing enqueued.
   */
  lemma QuietAfterComplete(c: Config, s: State, run: seq<Action>, ttlMayChange: bool)
    requires Reachable(c, s) && BurstEnabled(c, s, EmitComplete) && !RetransmitAhead(s, ttlMayChange)
    requires Legal(c, Step(c, s, Send(EmitComplete)), run) && Allowed(run, ttlMayChange)
    ensures var t := After(c, Step(c, s, Send(EmitComplete)), run);
            && t.tasks == s.tasks && t.inflight == 0 && Announcements(t.log) == Announcements(s.log)
            && forall k :: 0 <= k < |t.tasks| ==> t.tasks[k].Done?
  {
    CompleteStep(c, s);
    InflightExact(c, s);
    AnnouncementsAppend(s.log, Complete);
    SpentAfter(c, Step(c, s, Send(EmitComplete)), run, ttlMayChange);
  }

  // ----- what is ahead can come

  /** Some run leads from `s` to `t`, leaving the TTL alone unless it may change. */
  ghost predicate ReachesBy(c: Config, s: State, t: State, ttlMayChange: bool) {
    exists run :: Legal(c, s, run) && Allowed(run, ttlMayChange) && After(c, s, run) == t
  }

  lemma ReachesNothing(c: Config, s: State, ttlMayChange: bool)
    ensures ReachesBy(c, s, s, ttlMayChange)
  {
    assert Legal(c, s, []) && Allowed([], ttlMayChange) && After(c, s, []) == s;
  }

  lemma Go(c: Config, from: State, s: State, a: Action, ttlMayChange: bool) returns (t: State)
    requires ReachesBy(c, from, s, ttlMayChange) && Enabled(c, s, a) && (ttlMayChange || !ChangesTtl(a))
    ensures ReachesBy(c, from, t, ttlMayChange) && t == Step(c, s, a)
  {
    var run :| Legal(c, from, run) && Allowed(run, ttlMayChange) && After(c, from, run) == s;
    AfterAppend(c, from, run, a);
    assert Allowed(run + [a], ttlMayChange);
    t := Step(c, s, a);
  }

  ghost predicate Leads(c: Config, s: State, ttlMayChange: bool) {
    exists t :: ReachesBy(c, s, t, ttlMayChange) && t.inflight > 0
  }

  ghost predicate NonePending(s: State) {
    s.entry.Some? ==> s.entry.value.pending == {}
  }

  /** Nothing is pending and nothing is stashed: what the listener finds when every other holder is done. */
  ghost predicate Cleared(s: State) {
    NonePending(s) && (s.entry.Some? ==> !s.entry.value.scheduled && s.entry.value.registeredAt <= s.now)
  }

  lemma HandoffLeads(c: Config, from: State, s: State, ttlMayChange: bool)
    requires ReachesBy(c, from, s, ttlMayChange) && MidHandoff(s.listener)
    ensures Leads(c, from, ttlMayChange)
  {
    var t := s;
    if t.listener.Announcing? {
      t := Go(c, from, t, Listen(ListenerAnnounce), ttlMayChange);
    }
    t := Go(c, from, t, Listen(if t.listener.Arming? then ListenerArm else ListenerDispatch), ttlMayChange);
  }

  lemma DeferLeads(c: Config, from: State, s: State, ttlMayChange: bool)
    requires ReachesBy(c, from, s, ttlMayChange) && s.listener.Deferring? && Cooling(s) && !s.entry.value.scheduled
    ensures Leads(c, from, ttlMayChange)
  {
    var t := Go(c, from, s, Listen(ListenerDefer), ttlMayChange);
    HandoffLeads(c, from, t, ttlMayChange);
  }

  /** If the TTL may change and has run out, it is raised. */
  lemma Unhurried(c: Config, from: State, s: State, ttlMayChange: bool) returns (t: State)
    requires ReachesBy(c, from, s, ttlMayChange) && Honoured(s, ttlMayChange)
    ensures ReachesBy(c, from, t, ttlMayChange) && t == s.(ttl := t.ttl) && Honoured(t, false)
  {
    t := s;
    if s.entry.value.Expired(s.now, s.ttl) {
      t := Go(c, from, s, Env(SetTtl(s.now + 1)), ttlMayChange);
    }
  }

  lemma PlanHandedOut(s: State, missing: seq<byte>)
    requires NonePending(s) && Servable(s, missing, false) && !Cooling(s)
    ensures TakeRetransmitSpec(s.entry, s.ttl, s.now, missing, 0).1.Ok?
    ensures Indices(TakeRetransmitSpec(s.entry, s.ttl, s.now, missing, 0).1.value) != []
  {
    var e := s.entry.value;
    FramesForPlan(e, missing);
    var x :| x in missing && x < e.totalData;
    assert e.Eligible(x);
    assert x in Indices(e.FramesFor(missing));
  }

  lemma TakeLeads(c: Config, from: State, s: State, ttlMayChange: bool)
    requires ReachesBy(c, from, s, ttlMayChange) && s.listener.Taking? && RoundLeads(s, ttlMayChange) && Cleared(s)
    ensures Leads(c, from, ttlMayChange)
  {
    var t := Unhurried(c, from, s, ttlMayChange);
    if Cooling(t) {
      t := Go(c, from, t, Listen(ListenerTake(0)), ttlMayChange);
      DeferLeads(c, from, t, ttlMayChange);
    } else {
      PlanHandedOut(t, t.listener.missing);
      t := Go(c, from, t, Listen(ListenerTake(0)), ttlMayChange);
      HandoffLeads(c, from, t, ttlMayChange);
    }
  }

  lemma RoundsLead(c: Config, from: State, s: State, ttlMayChange: bool)
    requires ReachesBy(c, from, s, ttlMayChange) && RoundLeads(s, ttlMayChange) && Cleared(s)
    ensures Leads(c, from, ttlMayChange)
  {
    if s.listener.Taking? {
      TakeLeads(c, from, s, ttlMayChange);
    } else if Cooling(s) {
      DeferLeads(c, from, s, ttlMayChange);
    } else {
      var t := Go(c, from, s, Listen(ListenerDefer), ttlMayChange);
      TakeLeads(c, from, t, ttlMayChange);
    }
  }

  /** At `Complete` with every retransmit task ended and no handoff under way, the entry is cleared. */
  lemma NothingElseHeld(c: Config, s: State)
    requires Reachable(c, s) && s.burst.pc.Completing? && s.inflight == 0 && !MidHandoff(s.listener)
    ensures Cleared(s)
  {
    Always(c, s);
    InflightExact(c, s);
    NoneCounted(s.tasks, WAKEUP);
    if s.entry.Some? {
      forall x: byte ensures x !in s.entry.value.pending {
        PendingIsHeld(c, s, x);
      }
    }
  }

  /**
    The exact condition. At `Complete`, whichever way the drain ended, some continuation has a retransmit scheduled or in
    flight if and only if one is now, or the listener is about to count one, or it works on a round that its take or
    defer guard lets through. The continuations are those that leave the retain TTL as it is or, with `ttlMayChange`, all of
    them; the guard then tests the TTL or not.
   */
  lemma RetransmitAfterCompleteIff(c: Config, s: State, ttlMayChange: bool)
    requires Reachable(c, s) && BurstEnabled(c, s, EmitComplete)
    ensures Leads(c, Step(c, s, Send(EmitComplete)), ttlMayChange) <==> RetransmitAhead(s, ttlMayChange)
  {
    var t := Step(c, s, Send(EmitComplete));
    CompleteStep(c, s);
    if RetransmitAhead(s, ttlMayChange) {
      ReachesNothing(c, t, ttlMayChange);
      if s.inflight > 0 {
      } else if MidHandoff(s.listener) {
        HandoffLeads(c, t, t, ttlMayChange);
      } else {
        NothingElseHeld(c, s);
        RoundsLead(c, t, t, ttlMayChange);
      }
    } else {
      forall u | ReachesBy(c, t, u, ttlMayChange) ensures u.inflight == 0 {
        var run :| Legal(c, t, run) && Allowed(run, ttlMayChange) && After(c, t, run) == u;
        QuietAfterComplete(c, s, run, ttlMayChange);
      }
    }
  }

  // ----- the entry's age at `Complete`

  /** Garbage collection takes the entry exactly when, at the clock reading it made, the entry had reached the TTL. */
  lemma PruneTakesIff(s: State, reading: nat)
    requires EnvEnabled(s, Prune(reading)) && s.entry.Some? && s.ttl > 0
    ensures var s' := EnvStep(s, Prune(reading));
            && s' == s.(entry := s'.entry) && (s'.entry == s.entry || s'.entry.None?)
            && (s'.entry.None? <==> reading >= s.entry.value.registeredAt + s.ttl)
  {
  }

  /** Past the linger, the entry is at least as old as the linger is long. */
  ghost predicate Seasoned(c: Config, s: State) {
    s.entry.Some? ==>
      && (s.burst.pc.Lingering? ==> s.burst.pc.until >= s.entry.value.registeredAt + c.linger)
      && (BurstOver(s.burst.pc) && !s.burst.pc.Lingering? ==> s.now >= s.entry.value.registeredAt + c.linger)
  }

  /** The entry keeps its age, and neither run_send nor the clock moves. */
  ghost predicate SameAge(s: State, s': State) {
    && s'.burst == s.burst && s'.now == s.now
    && (s'.entry.Some? ==> s.entry.Some? && s'.entry.value.registeredAt == s.entry.value.registeredAt)
  }

  lemma ListenerKeepsAge(s: State, a: ListenerAction)
    requires ListenerEnabled(s, a)
    ensures SameAge(s, ListenerStep(s, a))
  {
  }

  lemma BurstSeasoned(c: Config, s: State, a: BurstAction)
    requires Seasoned(c, s) && (s.entry.Some? ==> s.entry.value.registeredAt <= s.now) && BurstEnabled(c, s, a)
    ensures Seasoned(c, BurstStep(c, s, a))
  {
  }

  lemma TaskKeepsAge(s: State, k: nat, a: TaskAction)
    requires TaskEnabled(s, k, a)
    ensures SameAge(s, TaskStep(s, k, a))
  {
  }

  lemma SeasonedStep(c: Config, s: State, a: Action)
    requires Seasoned(c, s) && (s.entry.Some? ==> s.entry.value.registeredAt <= s.now) && Enabled(c, s, a)
    ensures Seasoned(c, Step(c, s, a))
  {
    match a
    case Env(_) =>
    case Send(b) => BurstSeasoned(c, s, b);
    case Listen(l) => ListenerKeepsAge(s, l);
    case Run(k, t) => TaskKeepsAge(s, k, t);
  }

  lemma {:induction false} SeasonedAfter(c: Config, s: State, run: seq<Action>)
    requires c.Valid() && Inv(c, s) && Seasoned(c, s) && Legal(c, s, run)
    ensures Seasoned(c, After(c, s, run))
    decreases |run|
  {
    if run != [] {
      SeasonedStep(c, s, run[0]);
      InvKept(c, s, run[0]);
      SeasonedAfter(c, Step(c, s, run[0]), run[1..]);
    }
  }

  /**
    A retain TTL no longer than the linger, as the two defaults are, has run out for every entry still retained when `Complete`
    is emitted: no round is served any more, and one still before its take can lead to nothing.
   */
  lemma LingerOutlastsTtl(c: Config, s: State)
    requires Reachable(c, s) && BurstOver(s.burst.pc) && !s.burst.pc.Lingering? && s.ttl <= c.linger
    ensures s.entry.Some? ==> s.entry.value.Expired(s.now, s.ttl)
    ensures s.listener.Taking? ==> !RoundLeads(s, false)
    ensures forall missing, pacing :: TakeRetransmitSpec(s.entry, s.ttl, s.now, missing, pacing).1 == Err(TtlExpired)
  {
    var now: nat, seconds: nat, run :|
      seconds >= 1 && Legal(c, Init(c, now, Seconds(seconds)), run) && s == After(c, Init(c, now, Seconds(seconds)), run);
    InvInit(c, now, Seconds(seconds));
    SeasonedAfter(c, Init(c, now, Seconds(seconds)), run);
  }
}

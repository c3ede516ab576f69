/**
  The sans-IO burst machine (tx_state.rs) over the pacing and backpressure policy (tx_policy.rs).

  Instants and durations are whole nanoseconds.
 */
module VoiceTx {
  import opened Words
  import opened Outgoing

  const RADIO_QUEUE_LOW_WATER: nat := 2
  const RADIO_QUEUE_WAIT_TIMEOUT: nat := 2_000_000_000
  const QUEUE_RECHECK: nat := 60_000_000

  function PacingDelay(elapsed: Option<nat>, pacing: nat): nat {
    match elapsed
    case Some(e) => if e < pacing then pacing - e else 0
    case None => 0
  }

  predicate QueueHasRoom(free: nat) {
    free > RADIO_QUEUE_LOW_WATER
  }

  type Queue = seq<(byte, Bytes)>

  datatype TxAction =
    | Send(chunkIndex: byte, frame: Bytes, channel: u32, to: Option<u32>, wantAck: bool, isData: bool)
    | Wait(duration: nat)
    | Done

  /** The fields of a `VoiceTx`. */
  datatype TxState = TxState(
    totalData: byte,
    queue: Queue,
    channel: u32,
    to: Option<u32>,
    pacing: nat,
    lastSendAt: Option<nat>,
    blockedSince: Option<nat>)
  {
    function PaceLeft(now: nat): nat {
      PacingDelay(if lastSendAt.Some? then Some(SaturatingSub(now, lastSendAt.value)) else None, pacing)
    }

    /** Neither finished nor pacing: the call looks at the radio queue. */
    predicate Clear(now: nat) {
      queue != [] && PaceLeft(now) == 0
    }

    function Emit(now: nat): (TxState, TxAction)
      requires queue != []
    {
      var (idx, frame) := queue[0];
      (this.(queue := queue[1..], lastSendAt := Some(now), blockedSince := None),
       Send(idx, frame, channel, to, to.Some?, idx < totalData))
    }

    function Next(now: nat, free: nat): (TxState, TxAction) {
      if queue == [] then (this, Done)
      else if PaceLeft(now) > 0 then (this, Wait(PaceLeft(now)))
      else if QueueHasRoom(free) then Emit(now)
      else
        var since := if blockedSince.Some? then blockedSince.value else now;
        if SaturatingSub(now, since) < RADIO_QUEUE_WAIT_TIMEOUT
        then (this.(blockedSince := Some(since)), Wait(QUEUE_RECHECK))
        else Emit(now)
    }
  }

  /** The last send is less than a pacing ago. */
  predicate Pacing(lastSendAt: Option<nat>, pacing: nat, now: nat) {
    lastSendAt.Some? && pacing > 0 && now < lastSendAt.value + pacing
  }

  /** The radio queue has been seen full for two seconds. */
  predicate Stale(blockedSince: Option<nat>, now: nat) {
    blockedSince.Some? && now >= blockedSince.value + 2_000_000_000
  }

  /**
    What a call answers, whatever the state and the depth reported: nothing left, the rest of the pacing, the frame in front if more
    than two slots are free or the queue has been full for two seconds, and otherwise another look in 60 ms.
   */
  lemma NextDecides(s: TxState, now: nat, free: nat)
    ensures var (s', a) := s.Next(now, free);
            if s.queue == [] then a == Done && s' == s
            else if Pacing(s.lastSendAt, s.pacing, now) then
              a == Wait(s.pacing - SaturatingSub(now, s.lastSendAt.value)) && s' == s
            else if free > 2 || Stale(s.blockedSince, now) then
              && a == Send(s.queue[0].0, s.queue[0].1, s.channel, s.to, s.to.Some?, s.queue[0].0 < s.totalData)
              && s' == s.(queue := s.queue[1..], lastSendAt := Some(now), blockedSince := None)
            else
              && a == Wait(60_000_000)
              && s' == s.(blockedSince := if s.blockedSince.Some? then s.blockedSince else Some(now))
  {
  }

  class VoiceTx {
    const totalData: byte
    var queue: Queue
    const channel: u32
    const to: Option<u32>
    const pacing: nat
    var lastSendAt: Option<nat>
    var queueBlockStartedAt: Option<nat>

    function State(): TxState
      reads this
    {
      TxState(totalData, queue, channel, to, pacing, lastSendAt, queueBlockStartedAt)
    }

    constructor (totalData: byte, frames: Queue, channel: u32, to: Option<u32>, pacing: nat)
      ensures State() == TxState(totalData, frames, channel, to, pacing, None, None)
    {
      this.totalData, this.channel, this.to, this.pacing := totalData, channel, to, pacing;
      queue, lastSendAt, queueBlockStartedAt := frames, None, None;
    }

    method NextAction(now: nat, queueFree: nat) returns (action: TxAction)
      modifies this
      ensures (State(), action) == old(State()).Next(now, queueFree)
      ensures old(queue) == [] ==> action == Done && State() == old(State())
      ensures old(queue) != [] && Pacing(old(lastSendAt), pacing, now) ==>
                action == Wait(pacing - SaturatingSub(now, old(lastSendAt).value)) && State() == old(State())
      ensures old(queue) != [] && !Pacing(old(lastSendAt), pacing, now) ==>
                if queueFree > 2 || Stale(old(queueBlockStartedAt), now)
                then
                  && action == Send(old(queue)[0].0, old(queue)[0].1, channel, to, to.Some?, old(queue)[0].0 < totalData)
                  && queue == old(queue)[1..] && lastSendAt == Some(now) && queueBlockStartedAt == None
                else
                  && action == Wait(60_000_000)
                  && queue == old(queue) && lastSendAt == old(lastSendAt)
                  && queueBlockStartedAt == if old(queueBlockStartedAt).Some? then old(queueBlockStartedAt) else Some(now)
    {
      if queue == [] {
        return Done;
      }
      var elapsed := if lastSendAt.Some? then Some(SaturatingSub(now, lastSendAt.value)) else None;
      var paceWait := PacingDelay(elapsed, pacing);
      if paceWait != 0 {
        return Wait(paceWait);
      }
      if !QueueHasRoom(queueFree) {
        if queueBlockStartedAt.None? {
          queueBlockStartedAt := Some(now);
        }
        if SaturatingSub(now, queueBlockStartedAt.value) < RADIO_QUEUE_WAIT_TIMEOUT {
          return Wait(QUEUE_RECHECK);
        }
        queueBlockStartedAt := None;
      } else {
        queueBlockStartedAt := None;
      }
      var (idx, frame) := queue[0];
      queue := queue[1..];
      lastSendAt := Some(now);
      return Send(idx, frame, channel, to, to.Some?, idx < totalData);
    }

    method FramesRemaining() returns (n: nat)
      ensures n == |queue|
    {
      n := |queue|;
    }
  }

  // ----- safety, for every clock and every reported depth

  /** One `next_action` call: the clock and the depth passed in. */
  datatype Call = Call(now: nat, free: nat)

  function StateAt(s: TxState, calls: seq<Call>, m: nat): TxState
    requires m <= |calls|
  {
    if m == 0 then s else StateAt(s, calls, m - 1).Next(calls[m - 1].now, calls[m - 1].free).0
  }

  function ActionAt(s: TxState, calls: seq<Call>, m: nat): TxAction
    requires m < |calls|
  {
    StateAt(s, calls, m).Next(calls[m].now, calls[m].free).1
  }

  ghost predicate Monotone(calls: seq<Call>) {
    forall i, j :: 0 <= i < j < |calls| ==> calls[i].now <= calls[j].now
  }

  ghost predicate Fresh(s: TxState) {
    s.lastSendAt.None? && s.blockedSince.None?
  }

  function Emitted(s: TxState, calls: seq<Call>, m: nat): Queue
    requires m <= |calls|
  {
    if m == 0 then []
    else Emitted(s, calls, m - 1)
         + if ActionAt(s, calls, m - 1).Send? then [Written(ActionAt(s, calls, m - 1))] else []
  }

  function Written(a: TxAction): (byte, Bytes)
    requires a.Send?
  {
    (a.chunkIndex, a.frame)
  }

  /** One call takes from the head of the queue what it emits. */
  lemma NextConserves(s: TxState, now: nat, free: nat)
    ensures var (s', a) := s.Next(now, free);
            && (if a.Send? then [Written(a)] else []) + s'.queue == s.queue
            && s'.pacing == s.pacing && s'.totalData == s.totalData
  {
    var (_, a) := s.Next(now, free);
    if a.Send? {
      assert Written(a) == s.queue[0] && [s.queue[0]] + s.queue[1..] == s.queue;
    } else {
      assert [] + s.queue == s.queue;
    }
  }

  lemma MovedAcross(out: Queue, now: Queue, left: Queue)
    ensures out + now + left == out + (now + left)
  {
  }

  /** Nothing is lost, repeated or reordered: what was emitted, then what is queued, is the burst. */
  lemma {:induction false} EmittedThenQueued(s: TxState, calls: seq<Call>, m: nat)
    requires m <= |calls|
    ensures Emitted(s, calls, m) + StateAt(s, calls, m).queue == s.queue
    ensures StateAt(s, calls, m).pacing == s.pacing && StateAt(s, calls, m).totalData == s.totalData
  {
    if m > 0 {
      EmittedThenQueued(s, calls, m - 1);
      NextConserves(StateAt(s, calls, m - 1), calls[m - 1].now, calls[m - 1].free);
      var out, action := Emitted(s, calls, m - 1), ActionAt(s, calls, m - 1);
      var now := if action.Send? then [Written(action)] else [];
      MovedAcross(out, now, StateAt(s, calls, m).queue);
    }
  }

  /** The last send before call `m`, if any, is where the state says it is. */
  lemma {:induction false} LastSend(s: TxState, calls: seq<Call>, i: nat, m: nat)
    requires i < m <= |calls| && Monotone(calls) && ActionAt(s, calls, i).Send?
    ensures StateAt(s, calls, m).lastSendAt.Some?
    ensures calls[i].now <= StateAt(s, calls, m).lastSendAt.value <= calls[m - 1].now
  {
    if m > i + 1 {
      LastSend(s, calls, i, m - 1);
    }
  }

  /** Any two sends are at least `pacing` apart. */
  lemma SendsAreSpaced(s: TxState, calls: seq<Call>, i: nat, j: nat)
    requires i < j < |calls| && Monotone(calls)
    requires ActionAt(s, calls, i).Send? && ActionAt(s, calls, j).Send?
    ensures calls[j].now >= calls[i].now + s.pacing
  {
    LastSend(s, calls, i, j);
    EmittedThenQueued(s, calls, j);
  }

  /** Call `k` got past pacing and was refused for lack of room. */
  ghost predicate RefusedAt(s: TxState, calls: seq<Call>, k: nat)
    requires k < |calls|
  {
    && StateAt(s, calls, k).queue != [] && calls[k].free <= 2
    && !Pacing(StateAt(s, calls, k).lastSendAt, s.pacing, calls[k].now)
  }

  /** Calls `i` up to `m` all were. */
  ghost predicate Stalled(s: TxState, calls: seq<Call>, i: nat, m: nat)
    requires m <= |calls|
  {
    forall k :: i <= k < m ==> RefusedAt(s, calls, k)
  }

  /** A call that ends with the stall under way, and did not begin it while pacing, was refused for lack of room. */
  lemma Refused(s: TxState, now: nat, free: nat, later: nat)
    requires s.Next(now, free).0.blockedSince.Some? && now <= later && (s.blockedSince.Some? ==> s.Clear(now))
    ensures s.Clear(now) && !QueueHasRoom(free) && s.Next(now, free).0.Clear(later)
    ensures s.Next(now, free).0.blockedSince == Some(if s.blockedSince.Some? then s.blockedSince.value else now)
  {
  }

  lemma StalledOn(s: TxState, calls: seq<Call>, i: nat, m: nat)
    requires i <= m < |calls| && Stalled(s, calls, i, m)
    requires RefusedAt(s, calls, m)
    ensures Stalled(s, calls, i, m + 1)
  {
  }

  lemma {:induction false} StallBegins(s: TxState, calls: seq<Call>, m: nat) returns (i: nat)
    requires m <= |calls| && Monotone(calls) && Fresh(s)
    requires StateAt(s, calls, m).blockedSince.Some?
    ensures i < m && calls[i].now == StateAt(s, calls, m).blockedSince.value
    ensures Stalled(s, calls, i, m)
    ensures m < |calls| ==> StateAt(s, calls, m).Clear(calls[m].now)
  {
    var before, call := StateAt(s, calls, m - 1), calls[m - 1];
    if before.blockedSince.Some? {
      i := StallBegins(s, calls, m - 1);
    } else {
      i := m - 1;
    }
    EmittedThenQueued(s, calls, m - 1);
    Refused(before, call.now, call.free, if m < |calls| then calls[m].now else call.now);
    StalledOn(s, calls, i, m - 1);
  }

  /**
    A frame goes out while the radio reports no room only through the safety valve: every call over
    at least the last two seconds got past pacing and saw no room.
   */
  lemma ValveOpensAfterTwoSeconds(s: TxState, calls: seq<Call>, m: nat)
    requires m < |calls| && Monotone(calls) && Fresh(s)
    requires ActionAt(s, calls, m).Send? && calls[m].free <= 2
    ensures exists i :: 0 <= i < m
              && calls[m].now >= calls[i].now + 2_000_000_000 && Stalled(s, calls, i, m)
  {
    var i := StallBegins(s, calls, m);
  }
}

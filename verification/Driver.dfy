/**
  The documented driver loop of `VoiceTx` (tx_state.rs, module comment): call `next_action`, write and
  mark what it sends, sleep for what it says, until it is done.

  The reported queue depths are arbitrary, and so is how late each sleep returns.
 */
module Driver {
  import opened Words
  import opened Outgoing
  import opened VoiceTx

  /** The machine and the driver's clock. */
  datatype Loop = Loop(tx: TxState, now: nat)
  {
    /** The machine's own clock readings are not in the future, and a stall is only timed past pacing. */
    predicate Sane() {
      && (tx.lastSendAt.Some? ==> tx.lastSendAt.value <= now)
      && (tx.blockedSince.Some? ==> tx.blockedSince.value <= now && tx.PaceLeft(now) == 0)
    }

    predicate Over() {
      tx.queue == []
    }

    /** One turn of the loop, `late` being how late the sleep or the write returns. */
    function Turn(free: nat, late: nat): Loop {
      var (tx', a) := tx.Next(now, free);
      Loop(tx', now + Elapse(a, late))
    }

    /** How long the radio queue may still hold the front frame back. */
    function BlockLeft(): nat {
      if tx.blockedSince.Some? then SaturatingSub(RADIO_QUEUE_WAIT_TIMEOUT, SaturatingSub(now, tx.blockedSince.value))
      else RADIO_QUEUE_WAIT_TIMEOUT + 1
    }

    /** Calls the radio queue can still cost the front frame, its send included. */
    function BlockCalls(): nat {
      if tx.blockedSince.Some? then Rechecks(BlockLeft()) + 1 else 35
    }

    /** At most this many more calls, whatever is reported and however late the sleeps return. */
    function CallBudget(): nat {
      if Over() then 1
      else 36 * (|tx.queue| - 1) + 1 + (if tx.PaceLeft(now) > 0 then 1 else 0) + BlockCalls()
    }

    function BlockTime(): nat {
      if tx.blockedSince.Some? then Rechecks(BlockLeft()) * 60_000_000 else 2_040_000_000
    }

    /** At most this much more time, when every sleep returns as told. */
    function TimeBudget(): nat {
      if Over() then 0
      else Repeat(|tx.queue| - 1, tx.pacing + 2_040_000_000) + tx.PaceLeft(now) + BlockTime()
    }
  }

  function Elapse(a: TxAction, late: nat): nat {
    match a
    case Wait(d) => d + late
    case Send(_, _, _, _, _, _) => late
    case Done => 0
  }

  /** What a turn takes: the wait it was told and however late that or the write returned; once all is out, nothing happens. */
  lemma TurnTakes(l: Loop, free: nat, late: nat)
    ensures l.Over() ==> l.Turn(free, late) == l
    ensures !l.Over() ==>
              var a := l.tx.Next(l.now, free).1;
              l.Turn(free, late).now == l.now + late + match a { case Wait(d) => d case _ => 0 }
  {
  }

  function Rechecks(left: nat): nat {
    CeilDiv(left, 60_000_000)
  }

  /** `n` times `each`, one at a time. */
  function Repeat(n: nat, each: nat): nat {
    if n == 0 then 0 else Repeat(n - 1, each) + each
  }

  lemma {:induction false} RepeatIsProduct(n: nat, each: nat)
    ensures Repeat(n, each) == n * each
  {
    if n > 0 {
      RepeatIsProduct(n - 1, each);
    }
  }

  lemma RecheckOnce(left: nat, left': nat)
    requires left > 0 && left' == SaturatingSub(left, QUEUE_RECHECK)
    ensures Rechecks(left) == Rechecks(left') + 1
  {
  }

  lemma RechecksMonotone(left: nat, left': nat)
    requires left' <= left
    ensures Rechecks(left') <= Rechecks(left)
  {
  }

  /** A call leaves a smaller budget of calls: by exactly one, if the radio has no room and nothing is late. */
  lemma TurnSpendsCall(l: Loop, free: nat, late: nat)
    requires l.Sane() && !l.Over()
    ensures var l' := l.Turn(free, late);
            && l'.Sane() && l'.tx.pacing == l.tx.pacing && l'.CallBudget() + 1 <= l.CallBudget()
            && (!QueueHasRoom(free) && late == 0 && l.tx.pacing > 0 ==> l'.CallBudget() + 1 == l.CallBudget())
  {
    var l' := l.Turn(free, late);
    if !QueueHasRoom(free) && l.tx.PaceLeft(l.now) == 0 && |l'.tx.queue| == |l.tx.queue| {
      var left := if l.tx.blockedSince.Some? then l.BlockLeft() else RADIO_QUEUE_WAIT_TIMEOUT;
      RecheckOnce(left, SaturatingSub(left, QUEUE_RECHECK));
      RechecksMonotone(SaturatingSub(left, QUEUE_RECHECK), l'.BlockLeft());
      assert Rechecks(RADIO_QUEUE_WAIT_TIMEOUT) == 34;
    }
  }

  /** With punctual sleeps a call spends no more of the time budget than it takes. */
  lemma TurnSpendsTime(l: Loop, free: nat)
    requires l.Sane() && !l.Over()
    ensures var l' := l.Turn(free, 0);
            && l'.now + l'.TimeBudget() <= l.now + l.TimeBudget()
            && (!QueueHasRoom(free) ==> l'.now + l'.TimeBudget() == l.now + l.TimeBudget())
  {
    var l' := l.Turn(free, 0);
    if !QueueHasRoom(free) && l.tx.PaceLeft(l.now) == 0 && |l'.tx.queue| == |l.tx.queue| {
      var left := if l.tx.blockedSince.Some? then l.BlockLeft() else RADIO_QUEUE_WAIT_TIMEOUT;
      RecheckOnce(left, SaturatingSub(left, QUEUE_RECHECK));
      assert Rechecks(RADIO_QUEUE_WAIT_TIMEOUT) == 34;
    }
  }

  /** The loop after `k` calls, the radio reporting `depths(i)` to call `i`. */
  function After(l: Loop, depths: nat -> nat, late: nat -> nat, k: nat): Loop {
    if k == 0 then l else After(l, depths, late, k - 1).Turn(depths(k - 1), late(k - 1))
  }

  /** Until the burst is out, every call is paid for. */
  lemma {:induction false} CallsPaid(l: Loop, depths: nat -> nat, late: nat -> nat, k: nat)
    requires l.Sane() && (k > 0 ==> !After(l, depths, late, k - 1).Over())
    ensures var m := After(l, depths, late, k);
            m.Sane() && m.tx.pacing == l.tx.pacing && k + m.CallBudget() <= l.CallBudget()
  {
    if k > 0 {
      CallsPaid(l, depths, late, k - 1);
      TurnSpendsCall(After(l, depths, late, k - 1), depths(k - 1), late(k - 1));
    }
  }

  /** A call that finds no room and sleeps no longer than asked spends one call of the budget. */
  lemma TurnSpendsOne(l: Loop, free: nat)
    requires l.Sane() && !l.Over() && l.tx.pacing > 0 && !QueueHasRoom(free)
    ensures 1 + l.Turn(free, 0).CallBudget() == l.CallBudget()
  {
    TurnSpendsCall(l, free, 0);
  }

  lemma CallSpent(l: Loop, depths: nat -> nat, late: nat -> nat, k: nat)
    requires l.Sane() && l.tx.pacing > 0 && k > 0 && !After(l, depths, late, k - 1).Over()
    requires !QueueHasRoom(depths(k - 1)) && late(k - 1) == 0
    ensures 1 + After(l, depths, late, k).CallBudget() == After(l, depths, late, k - 1).CallBudget()
  {
    CallsPaid(l, depths, late, k - 1);
    TurnSpendsOne(After(l, depths, late, k - 1), depths(k - 1));
  }

  /** The budget is spent exactly when the radio never has room and no sleep is late. */
  lemma {:induction false} CallsSpent(l: Loop, depths: nat -> nat, late: nat -> nat, k: nat)
    requires l.Sane() && (k > 0 ==> !After(l, depths, late, k - 1).Over()) && l.tx.pacing > 0
    requires forall i :: depths(i) <= 2 && late(i) == 0
    ensures k + After(l, depths, late, k).CallBudget() == l.CallBudget()
  {
    if k > 0 {
      CallsSpent(l, depths, late, k - 1);
      CallSpent(l, depths, late, k);
    }
  }

  lemma {:induction false} StaysOver(l: Loop, depths: nat -> nat, late: nat -> nat, j: nat, k: nat)
    requires j <= k && After(l, depths, late, j).Over()
    ensures After(l, depths, late, k) == After(l, depths, late, j)
  {
    if j < k {
      StaysOver(l, depths, late, j, k - 1);
    }
  }

  lemma CallsLeft(l: Loop, depths: nat -> nat, late: nat -> nat, k: nat)
    requires l.Sane() && !After(l, depths, late, k).Over() && (k > 0 ==> !After(l, depths, late, k - 1).Over())
    ensures k < l.CallBudget()
  {
    CallsPaid(l, depths, late, k);
  }

  /** The number of calls before the one that answers `Done`. */
  lemma FirstDone(l: Loop, depths: nat -> nat, late: nat -> nat) returns (j: nat)
    requires l.Sane()
    ensures After(l, depths, late, j).Over()
    ensures j > 0 ==> !After(l, depths, late, j - 1).Over()
  {
    j := 0;
    while !After(l, depths, late, j).Over()
      invariant j > 0 ==> !After(l, depths, late, j - 1).Over()
      decreases l.CallBudget() - j
    {
      CallsLeft(l, depths, late, j);
      j := j + 1;
    }
  }

  /**
    Whatever depths are reported and however late the sleeps return, `n` frames are out after
    `36 n - 1` calls, so call `36 n` answers `Done`.
   */
  lemma BurstCalls(l: Loop, depths: nat -> nat, late: nat -> nat, k: nat)
    requires Fresh(l.tx) && !l.Over() && k >= 36 * |l.tx.queue| - 1
    ensures After(l, depths, late, k).Over()
  {
    var j := FirstDone(l, depths, late);
    CallsPaid(l, depths, late, j);
    StaysOver(l, depths, late, j, k);
  }

  /** The bound is exact: when the radio never has room, fewer calls do not finish the burst. */
  lemma BurstCallsTight(l: Loop, depths: nat -> nat, late: nat -> nat, k: nat)
    requires Fresh(l.tx) && !l.Over() && l.tx.pacing > 0
    requires forall i :: depths(i) <= 2 && late(i) == 0
    ensures After(l, depths, late, k).Over() <==> k >= 36 * |l.tx.queue| - 1
  {
    var j := FirstDone(l, depths, late);
    CallsSpent(l, depths, late, j);
    assert j == 36 * |l.tx.queue| - 1;
    if k >= j {
      StaysOver(l, depths, late, j, k);
    } else if After(l, depths, late, k).Over() {
      StaysOver(l, depths, late, k, j - 1);
    }
  }

  lemma {:induction false} TimePaid(l: Loop, depths: nat -> nat, late: nat -> nat, k: nat)
    requires l.Sane() && (forall i :: late(i) == 0)
    requires k > 0 ==> !After(l, depths, late, k - 1).Over()
    ensures var m := After(l, depths, late, k);
            && m.now + m.TimeBudget() <= l.now + l.TimeBudget()
            && ((forall i :: 0 <= i < k ==> depths(i) <= 2) ==> m.now + m.TimeBudget() == l.now + l.TimeBudget())
  {
    if k > 0 {
      TimePaid(l, depths, late, k - 1);
      CallsPaid(l, depths, late, k - 1);
      TurnSpendsTime(After(l, depths, late, k - 1), depths(k - 1));
    }
  }

  /** The longest a burst of `n` frames can take. */
  function LongestBurst(n: nat, pacing: nat): nat
    requires n > 0
  {
    (n - 1) * pacing + n * 2_040_000_000
  }

  lemma Distribute(n: nat, pacing: nat)
    requires n > 0
    ensures Repeat(n - 1, pacing + 2_040_000_000) + 2_040_000_000 == LongestBurst(n, pacing)
  {
    RepeatIsProduct(n - 1, pacing + 2_040_000_000);
    assert (n - 1) * (pacing + 2_040_000_000) == (n - 1) * pacing + (n - 1) * 2_040_000_000;
  }

  lemma FinishTime(l: Loop, depths: nat -> nat, late: nat -> nat, k: nat)
    requires l.Sane() && forall i :: late(i) == 0
    requires After(l, depths, late, k).Over()
    ensures After(l, depths, late, k).now <= l.now + l.TimeBudget()
    ensures (forall i :: depths(i) <= 2) ==> After(l, depths, late, k).now == l.now + l.TimeBudget()
  {
    var j := FirstDone(l, depths, late);
    TimePaid(l, depths, late, j);
    if j <= k {
      StaysOver(l, depths, late, j, k);
    } else {
      StaysOver(l, depths, late, k, j - 1);
    }
  }

  lemma FreshBudget(l: Loop)
    requires Fresh(l.tx) && !l.Over()
    ensures l.Sane() && l.TimeBudget() == LongestBurst(|l.tx.queue|, l.tx.pacing)
  {
    Distribute(|l.tx.queue|, l.tx.pacing);
  }

  /** With punctual sleeps `n` frames are out within `(n - 1) * pacing + n * 2040 ms`, and no sooner if there is never room. */
  lemma BurstTime(l: Loop, depths: nat -> nat, late: nat -> nat, k: nat)
    requires Fresh(l.tx) && !l.Over() && forall i :: late(i) == 0
    requires After(l, depths, late, k).Over()
    ensures After(l, depths, late, k).now <= l.now + LongestBurst(|l.tx.queue|, l.tx.pacing)
    ensures (forall i :: depths(i) <= 2) ==>
              After(l, depths, late, k).now == l.now + LongestBurst(|l.tx.queue|, l.tx.pacing)
  {
    FreshBudget(l);
    FinishTime(l, depths, late, k);
  }

  // ----- a radio that always has room

  /** What is left to wait, and how many calls are left, when there is room at every call and no sleep is late. */
  function OpenTime(l: Loop): nat {
    if l.Over() then 0 else Repeat(|l.tx.queue| - 1, l.tx.pacing) + l.tx.PaceLeft(l.now)
  }

  function OpenCalls(l: Loop): nat {
    if l.Over() then 0 else 2 * |l.tx.queue| - 1 + if l.tx.PaceLeft(l.now) > 0 then 1 else 0
  }

  lemma OpenTurn(l: Loop, free: nat)
    requires l.Sane() && !l.Over() && free > 2 && l.tx.blockedSince.None?
    ensures var l' := l.Turn(free, 0);
            && l'.Sane() && l'.tx.blockedSince.None? && l'.tx.pacing == l.tx.pacing
            && l'.now + OpenTime(l') == l.now + OpenTime(l)
            && (l.tx.pacing > 0 ==> OpenCalls(l') + 1 == OpenCalls(l))
  {
    var l' := l.Turn(free, 0);
    if l.tx.PaceLeft(l.now) == 0 {
      assert l'.tx.queue == l.tx.queue[1..] && l'.tx.lastSendAt == Some(l.now);
    }
  }

  lemma {:induction false} OpenAfter(l: Loop, depths: nat -> nat, late: nat -> nat, k: nat)
    requires l.Sane() && l.tx.blockedSince.None? && (forall i :: depths(i) > 2 && late(i) == 0)
    requires k > 0 ==> !After(l, depths, late, k - 1).Over()
    ensures var m := After(l, depths, late, k);
            && m.Sane() && m.tx.blockedSince.None? && m.tx.pacing == l.tx.pacing
            && m.now + OpenTime(m) == l.now + OpenTime(l)
            && (l.tx.pacing > 0 ==> k + OpenCalls(m) == OpenCalls(l))
  {
    if k > 0 {
      OpenAfter(l, depths, late, k - 1);
      assert depths(k - 1) > 2 && late(k - 1) == 0;
      OpenTurn(After(l, depths, late, k - 1), depths(k - 1));
    }
  }

  lemma OpenDone(l: Loop, depths: nat -> nat, late: nat -> nat) returns (j: nat)
    requires Fresh(l.tx) && !l.Over() && forall i :: depths(i) > 2 && late(i) == 0
    ensures j > 0 && After(l, depths, late, j).Over() && !After(l, depths, late, j - 1).Over()
    ensures After(l, depths, late, j).now == l.now + (|l.tx.queue| - 1) * l.tx.pacing
    ensures l.tx.pacing > 0 ==> j == 2 * |l.tx.queue| - 1
  {
    j := FirstDone(l, depths, late);
    OpenAfter(l, depths, late, j);
    RepeatIsProduct(|l.tx.queue| - 1, l.tx.pacing);
  }

  /**
    When the radio always has more than two slots free and sleeps are punctual, only the pacing takes time: `n` frames are out at
    exactly `(n - 1) * pacing`, after `2 n - 1` calls.
   */
  lemma BurstOpen(l: Loop, depths: nat -> nat, late: nat -> nat, k: nat)
    requires Fresh(l.tx) && !l.Over() && forall i :: depths(i) > 2 && late(i) == 0
    ensures After(l, depths, late, k).Over() ==> After(l, depths, late, k).now == l.now + (|l.tx.queue| - 1) * l.tx.pacing
    ensures l.tx.pacing > 0 ==> (After(l, depths, late, k).Over() <==> k >= 2 * |l.tx.queue| - 1)
  {
    var j := OpenDone(l, depths, late);
    if k >= j {
      StaysOver(l, depths, late, j, k);
    } else if After(l, depths, late, k).Over() {
      StaysOver(l, depths, late, k, j - 1);
    }
  }

  // ----- the loop itself, marking what it sends

  /** `build_message` order: frame `i` carries index `i`. */
  ghost predicate Numbered(queue: Queue, from: nat) {
    from + |queue| <= 256 && forall i :: 0 <= i < |queue| ==> queue[i].0 == from + i
  }

  /** The DATA indices at or after `from`. */
  function DataFrom(from: nat, totalData: byte): set<byte> {
    set x | x in Below(totalData) && from <= x
  }

  lemma DataFromNext(from: byte, totalData: byte)
    ensures DataFrom(from + 1, totalData) == DataFrom(from, totalData) - {from}
    ensures from >= totalData ==> DataFrom(from + 1, totalData) == DataFrom(from, totalData)
  {
  }

  function Upto(n: nat): (r: seq<byte>)
    requires n <= 256
    ensures |r| == n && forall i :: 0 <= i < n ==> r[i] == i
  {
    if n == 0 then [] else Upto(n - 1) + [n - 1]
  }

  /** After `k` turns from `first`: what is written is a prefix of the burst, and its DATA part is marked. */
  ghost predicate Driving(first: Loop, depths: nat -> nat, late: nat -> nat, k: nat, l: Loop, written: Queue, marked: seq<byte>) {
    && l == After(first, depths, late, k) && (k > 0 ==> !After(first, depths, late, k - 1).Over())
    && written + l.tx.queue == first.tx.queue && Numbered(l.tx.queue, |written|)
    && l.tx.totalData == first.tx.totalData
    && marked == Upto(Min(|written|, first.tx.totalData))
  }

  /** A call moves the head of the queue to what is written, or nothing. */
  lemma QueueTurn(tx: TxState, now: nat, free: nat, written: Queue)
    requires Numbered(tx.queue, |written|)
    ensures var (tx', a) := tx.Next(now, free);
            var w := if a.Send? then written + [Written(a)] else written;
            && w + tx'.queue == written + tx.queue && Numbered(tx'.queue, |w|) && tx'.totalData == tx.totalData
            && (a.Send? ==> a.chunkIndex == |written| && (a.isData <==> |written| < tx.totalData))
  {
    var (tx', a) := tx.Next(now, free);
    if a.Send? {
      assert Written(a) == tx.queue[0] && tx'.queue == tx.queue[1..];
      assert written + [tx.queue[0]] + tx.queue[1..] == written + tx.queue;
    } else {
      assert tx'.queue == tx.queue;
    }
  }

  lemma DrivingTurn(first: Loop, depths: nat -> nat, late: nat -> nat, k: nat, l: Loop, written: Queue, marked: seq<byte>)
    requires Driving(first, depths, late, k, l, written, marked) && !l.Over()
    ensures var a := l.tx.Next(l.now, depths(k)).1;
            && (a.Send? ==> a.chunkIndex == |written|)
            && Driving(first, depths, late, k + 1, l.Turn(depths(k), late(k)),
                       if a.Send? then written + [Written(a)] else written,
                       if a.Send? then marked + (if a.isData then [a.chunkIndex] else []) else marked)
  {
    QueueTurn(l.tx, l.now, depths(k), written);
  }

  /** When the queue is empty everything is written, every DATA chunk is marked, and the call bound holds. */
  lemma DrivingOver(first: Loop, depths: nat -> nat, late: nat -> nat, k: nat, l: Loop, written: Queue, marked: seq<byte>)
    requires Driving(first, depths, late, k, l, written, marked) && l.Over()
    requires Fresh(first.tx) && first.tx.totalData <= |first.tx.queue| <= 256
    ensures written == first.tx.queue && marked == Upto(first.tx.totalData)
    ensures DataFrom(|written|, first.tx.totalData) == {}
    ensures After(first, depths, late, k + 1) == l
    ensures first.tx.queue != [] ==> k + 1 <= 36 * |first.tx.queue|
  {
    CallsPaid(first, depths, late, k);
  }

  lemma DrivingBudget(first: Loop, depths: nat -> nat, late: nat -> nat, k: nat, l: Loop, written: Queue, marked: seq<byte>)
    requires Driving(first, depths, late, k, l, written, marked) && Fresh(first.tx)
    ensures k < first.CallBudget()
    ensures first.tx.queue != [] ==> k < 36 * |first.tx.queue|
  {
    CallsPaid(first, depths, late, k);
  }

  lemma SameSlots(a: map<u32, Entry>, b: map<u32, Entry>)
    requires forall o: u32 :: SlotOf(a, o) == SlotOf(b, o)
    ensures a == b
  {
    forall o: u32 ensures (o in a <==> o in b) && (o in a ==> a[o] == b[o]) {
      assert SlotOf(a, o) == SlotOf(b, o);
    }
  }

  /** Only the pending set of `id` differs from what `before` held. */
  ghost predicate PendingOnly(registry: OutgoingVoiceRegistry, before: map<u32, Entry>, id: u32, pending: set<byte>)
    requires id in before
    reads registry
  {
    registry.inner == before[id := before[id].(pending := pending)]
  }

  /** One turn: a DATA frame that is sent and written releases its chunk, a parity frame or a failed write nothing. */
  method Turn(tx: VoiceTx, registry: OutgoingVoiceRegistry, id: u32, now: nat, free: nat, late: nat, accepted: bool,
              ghost before: map<u32, Entry>, ghost from: nat)
    returns (action: TxAction, now': nat)
    requires registry.Valid() && id in before && PendingOnly(registry, before, id, DataFrom(from, tx.totalData))
    requires tx.queue != [] ==> tx.queue[0].0 == from
    modifies tx, registry`inner
    ensures (tx.State(), action) == old(tx.State()).Next(now, free)
    ensures Loop(tx.State(), now') == Loop(old(tx.State()), now).Turn(free, late)
    ensures registry.Valid()
    ensures PendingOnly(registry, before, id, DataFrom(if action.Send? && accepted then from + 1 else from, tx.totalData))
  {
    action := tx.NextAction(now, free);
    if action.Send? && accepted {
      DataFromNext(action.chunkIndex, tx.totalData);
      if action.isData {
        registry.MarkChunkSent(id, action.chunkIndex);
        ghost var after := before[id := before[id].(pending := DataFrom(from + 1, tx.totalData))];
        forall o: u32 ensures SlotOf(registry.inner, o) == SlotOf(after, o) {
          assert o != id ==> registry.Get(o) == SlotOf(old(registry.inner), o);
        }
        SameSlots(registry.inner, after);
      }
    }
    now' := now + Elapse(action, late);
  }

  datatype Outcome = Going | Finished | WriteFailed

  /** How the loop stands after it ended: everything written, or a prefix and one frame lost. */
  ghost predicate Ended(first: TxState, outcome: Outcome, queue: Queue, written: Queue, marked: seq<byte>)
    requires first.totalData <= 256
  {
    if outcome.Finished? then written == first.queue && queue == [] && marked == Upto(first.totalData)
    else
      && |written| < |first.queue| && written == first.queue[..|written|] && queue == first.queue[|written| + 1..]
      && marked == Upto(Min(|written|, first.totalData))
  }

  /** What the driver makes of an action and of the write it called for. */
  function Interpret(action: TxAction, accepted: bool, written: Queue, marked: seq<byte>): (Outcome, Queue, seq<byte>) {
    match action
    case Done => (Finished, written, marked)
    case Wait(_) => (Going, written, marked)
    case Send(idx, frame, _, _, _, isData) =>
      if accepted then (Going, written + [(idx, frame)], marked + if isData then [idx] else [])
      else (WriteFailed, written, marked)
  }

  /** What the next call can find and lead to. */
  lemma NextCall(first: Loop, depths: nat -> nat, late: nat -> nat, k: nat, l: Loop, written: Queue, marked: seq<byte>,
                 accepted: bool)
    requires Fresh(first.tx) && first.tx.totalData <= |first.tx.queue| <= 256
    requires Driving(first, depths, late, k, l, written, marked)
    ensures first.tx.queue != [] ==> k < 36 * |first.tx.queue|
    ensures l.tx.totalData == first.tx.totalData && (l.tx.queue != [] ==> l.tx.queue[0].0 == |written|)
    ensures var action := l.tx.Next(l.now, depths(k)).1;
            var (outcome, w, m) := Interpret(action, accepted, written, marked);
            var next := l.Turn(depths(k), late(k));
            && |w| == (if action.Send? && accepted then |written| + 1 else |written|)
            && (outcome.Going? ==> Driving(first, depths, late, k + 1, next, w, m))
            && (outcome.Finished? ==> next == After(first, depths, late, k + 1) && DataFrom(|w|, first.tx.totalData) == {})
            && (outcome.WriteFailed? ==> !accepted)
            && (!outcome.Going? ==> Ended(first.tx, outcome, next.tx.queue, w, m))
  {
    DrivingBudget(first, depths, late, k, l, written, marked);
    if l.Over() {
      LastCall(first, depths, late, k, l, written, marked);
    } else {
      MiddleCall(first, depths, late, k, l, written, marked, accepted);
    }
  }

  lemma LastCall(first: Loop, depths: nat -> nat, late: nat -> nat, k: nat, l: Loop, written: Queue, marked: seq<byte>)
    requires Fresh(first.tx) && first.tx.totalData <= |first.tx.queue| <= 256
    requires Driving(first, depths, late, k, l, written, marked) && l.Over()
    ensures l.tx.Next(l.now, depths(k)).1 == Done && l.Turn(depths(k), late(k)) == l == After(first, depths, late, k + 1)
    ensures Ended(first.tx, Finished, l.tx.queue, written, marked) && DataFrom(|written|, first.tx.totalData) == {}
  {
    DrivingOver(first, depths, late, k, l, written, marked);
  }

  lemma MiddleCall(first: Loop, depths: nat -> nat, late: nat -> nat, k: nat, l: Loop, written: Queue, marked: seq<byte>,
                   accepted: bool)
    requires Driving(first, depths, late, k, l, written, marked) && !l.Over()
    ensures var action := l.tx.Next(l.now, depths(k)).1;
            var (outcome, w, m) := Interpret(action, accepted, written, marked);
            var next := l.Turn(depths(k), late(k));
            && outcome == (if action.Send? && !accepted then WriteFailed else Going)
            && |w| == (if action.Send? && accepted then |written| + 1 else |written|)
            && (outcome.Going? ==> Driving(first, depths, late, k + 1, next, w, m))
            && (outcome.WriteFailed? ==> Ended(first.tx, WriteFailed, next.tx.queue, w, m))
  {
    DrivingTurn(first, depths, late, k, l, written, marked);
    var (tx', action) := l.tx.Next(l.now, depths(k));
    if action.Send? {
      assert action.chunkIndex == l.tx.queue[0].0 && tx'.queue == l.tx.queue[1..];
      CutShort(first, written, l.tx.queue);
    }
  }

  /** The body of the loop: one call, one write and mark, one sleep. */
  method Step(tx: VoiceTx, registry: OutgoingVoiceRegistry, id: u32, depths: nat -> nat, late: nat -> nat,
              writes: nat -> bool, calls: nat, now: nat, written: Queue, marked: seq<byte>,
              ghost first: Loop, ghost before: map<u32, Entry>)
    returns (outcome: Outcome, now': nat, written': Queue, marked': seq<byte>)
    requires Fresh(first.tx) && first.tx.totalData <= |first.tx.queue| <= 256
    requires Driving(first, depths, late, calls, Loop(tx.State(), now), written, marked)
    requires registry.Valid() && id in before && PendingOnly(registry, before, id, DataFrom(|written|, tx.totalData))
    modifies tx, registry`inner
    ensures first.tx.queue != [] ==> calls < 36 * |first.tx.queue|
    ensures outcome.Going? ==> Driving(first, depths, late, calls + 1, Loop(tx.State(), now'), written', marked')
    ensures !outcome.Going? ==> Ended(first.tx, outcome, tx.queue, written', marked')
    ensures outcome.Finished? ==>
              Loop(tx.State(), now') == After(first, depths, late, calls + 1) && DataFrom(|written'|, tx.totalData) == {}
    ensures outcome.WriteFailed? ==> !writes(calls)
    ensures registry.Valid() && PendingOnly(registry, before, id, DataFrom(|written'|, tx.totalData))
  {
    NextCall(first, depths, late, calls, Loop(tx.State(), now), written, marked, writes(calls));
    var action;
    action, now' := Turn(tx, registry, id, now, depths(calls), late(calls), writes(calls), before, |written|);
    var (o, w, m) := Interpret(action, writes(calls), written, marked);
    return o, now', w, m;
  }

  lemma CutShort(first: Loop, written: Queue, queue: Queue)
    requires written + queue == first.tx.queue && queue != []
    ensures |written| < |first.tx.queue| && written == first.tx.queue[..|written|]
    ensures queue[1..] == first.tx.queue[|written| + 1..]
  {
    assert (written + queue)[|written| + 1..] == queue[1..];
  }

  /**
    Run the loop on a freshly registered burst. While writes succeed every frame is written once, in order; exactly the
    DATA chunks are marked, each once; at `Done` nothing is pending. A failed write ends the loop: what was written is a
    prefix, its DATA chunks are marked, the failed frame is lost, and its chunk stays pending with those of the rest.
   */
  method DriveBurst(tx: VoiceTx, registry: OutgoingVoiceRegistry, id: u32, depths: nat -> nat, late: nat -> nat,
                    writes: nat -> bool, start: nat)
    returns (ok: bool, written: Queue, marked: seq<byte>, calls: nat, finish: nat, left: nat)
    requires registry.Valid() && id in registry.inner
    requires Fresh(tx.State()) && Numbered(tx.queue, 0) && tx.totalData <= |tx.queue|
    requires registry.inner[id].totalData == tx.totalData && registry.inner[id].pending == Below(tx.totalData)
    modifies tx, registry`inner
    ensures (forall i :: writes(i)) ==> ok
    ensures ok ==> written == old(tx.queue) && tx.queue == [] && marked == Upto(tx.totalData)
    ensures ok ==> calls > 0 && Loop(tx.State(), finish) == After(Loop(old(tx.State()), start), depths, late, calls)
    ensures old(tx.queue) != [] ==> calls <= 36 * old(|tx.queue|)
    ensures !ok ==> |written| < old(|tx.queue|) && written == old(tx.queue)[..|written|]
    ensures !ok ==> tx.queue == old(tx.queue)[|written| + 1..] && marked == Upto(Min(|written|, tx.totalData))
    ensures left == |tx.queue|
    ensures registry.Valid()
    ensures PendingOnly(registry, old(registry.inner), id, if ok then {} else DataFrom(|written|, tx.totalData))
  {
    ghost var first, entries := Loop(tx.State(), start), registry.inner;
    var now: nat := start;
    written, marked, calls := [], [], 0;
    assert DataFrom(0, tx.totalData) == Below(tx.totalData);
    while true
      invariant Driving(first, depths, late, calls, Loop(tx.State(), now), written, marked)
      invariant registry.Valid() && PendingOnly(registry, entries, id, DataFrom(|written|, tx.totalData))
      decreases first.CallBudget() - calls
    {
      DrivingBudget(first, depths, late, calls, Loop(tx.State(), now), written, marked);
      var outcome;
      outcome, now, written, marked := Step(tx, registry, id, depths, late, writes, calls, now, written, marked, first, entries);
      calls := calls + 1;
      if !outcome.Going? {
        left := tx.FramesRemaining();
        return outcome.Finished?, written, marked, calls, now, left;
      }
    }
  }
}

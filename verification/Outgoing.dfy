/**
  The sender-side retransmit registry (outgoing.rs).

  One `Entry` per outgoing message; the registry is a map of entries behind one lock, and every
  method below is one critical section. Each method is proved equal to a function of the slot it
  touches (`None` when the message is not retained); the functions are what the pipeline's state
  machine steps with.

  Instants and durations are whole nanoseconds. The clock reading of a critical section is a
  parameter.
 */
module Outgoing {
  import opened Words

  const SECOND: nat := 1_000_000_000
  function Seconds(n: nat): nat {
    n * 1_000_000_000
  }

  const DEFAULT_RETAIN_TTL_SECS: nat := 1_200
  const MAX_RETRANSMITS: nat := 2_400

  datatype SkipReason = TtlExpired | BudgetExhausted | CooldownActive | AllChunksPending

  datatype DeferOutcome = Scheduled(deadline: nat) | AlreadyScheduled | CooldownElapsed | Gone

  /** The frames one retransmit round hands out, with their chunk indices. */
  type Plan = seq<(byte, Bytes)>

  datatype OutgoingVoice = OutgoingVoice(
    frames: seq<Bytes>,
    totalData: byte,
    registeredAt: nat,
    retransmits: nat,
    cooldownUntil: Option<nat>,
    pending: set<byte>,
    deferred: Option<seq<byte>>,
    scheduled: bool)
  {
    predicate Valid() {
      totalData <= |frames|
    }

    predicate Expired(now: nat, ttl: nat) {
      SaturatingSub(now, registeredAt) >= ttl
    }

    predicate Eligible(idx: byte) {
      idx < totalData && idx !in pending
    }

    /** The requested chunks that are in range and not already in flight, in request order. */
    function FramesFor(missing: seq<byte>): Plan
      requires Valid()
    {
      if missing == [] then []
      else if Eligible(missing[0]) then [(missing[0], frames[missing[0]])] + FramesFor(missing[1..])
      else FramesFor(missing[1..])
    }
  }

  /** An entry as `register` makes it: `build_message` delivers a frame for every DATA index. */
  type Entry = e: OutgoingVoice | e.Valid() witness OutgoingVoice([], 0, 0, 0, None, {}, None, false)

  type Slot = Option<Entry>

  function Indices(plan: Plan): seq<byte> {
    seq(|plan|, i requires 0 <= i < |plan| => plan[i].0)
  }

  function InitialEntry(frames: seq<Bytes>, totalData: byte, now: nat): Entry
    requires totalData <= |frames|
  {
    OutgoingVoice(frames, totalData, now, 0, None, Below(totalData), None, false)
  }

  /** How long the entry refuses further rounds after handing out `count` frames. */
  function Cooldown(pacing: nat, count: nat, ttl: nat): nat {
    Min(Min(Max(pacing * (count % 0x1_0000_0000), SECOND), Seconds(30)), ttl)
  }

  function TakeRetransmitSpec(slot: Slot, ttl: nat, now: nat, missing: seq<byte>, pacing: nat)
    : (Slot, Result<Plan, SkipReason>)
  {
    if slot.None? then (None, Err(TtlExpired)) else
    var e := slot.value;
    if e.Expired(now, ttl) then (None, Err(TtlExpired))
    else if e.retransmits >= MAX_RETRANSMITS then (slot, Err(BudgetExhausted))
    else if e.cooldownUntil.Some? && now < e.cooldownUntil.value then (slot, Err(CooldownActive))
    else
      var plan := e.FramesFor(missing);
      if plan == [] then (slot, Err(AllChunksPending))
      else
        (Some(e.(pending := e.pending + Elements(Indices(plan)),
                 retransmits := Min(e.retransmits + 1, 0xFFFF),
                 cooldownUntil := Some(now + Cooldown(pacing, |plan|, ttl)))),
         Ok(plan))
  }

  function DeferNackSpec(slot: Slot, now: nat, missing: seq<byte>): (Slot, DeferOutcome) {
    if slot.None? then (None, Gone)
    else if slot.value.cooldownUntil.None? || now >= slot.value.cooldownUntil.value then (slot, CooldownElapsed)
    else
      (Some(slot.value.(deferred := Some(missing), scheduled := true)),
       if slot.value.scheduled then AlreadyScheduled else Scheduled(slot.value.cooldownUntil.value))
  }

  function TakeDeferredSpec(slot: Slot): (Slot, Option<seq<byte>>) {
    if slot.None? then (None, None)
    else (Some(slot.value.(scheduled := false, deferred := None)), slot.value.deferred)
  }

  function MarkSentSpec(slot: Slot, idx: byte): Slot {
    if slot.None? then None else Some(slot.value.(pending := slot.value.pending - {idx}))
  }

  function PruneSpec(slot: Slot, ttl: nat, now: nat): Slot {
    if slot.Some? && slot.value.Expired(now, ttl) then None else slot
  }

  function SlotOf(m: map<u32, Entry>, id: u32): Slot {
    if id in m then Some(m[id]) else None
  }

  class OutgoingVoiceRegistry {
    var inner: map<u32, Entry>
    var retainTtlSecs: nat

    ghost predicate Valid()
      reads this
    {
      retainTtlSecs >= 1
    }

    function Ttl(): nat
      reads this
    {
      Seconds(retainTtlSecs)
    }

    function Get(id: u32): Slot
      reads this
    {
      SlotOf(inner, id)
    }

    /** Only the slot of `id` may differ from what it was. */
    twostate predicate Others(id: u32)
      reads this
    {
      forall o: u32 :: o != id ==> Get(o) == SlotOf(old(inner), o)
    }

    constructor ()
      ensures Valid() && inner == map[] && Ttl() == 1_200_000_000_000
    {
      inner, retainTtlSecs := map[], DEFAULT_RETAIN_TTL_SECS;
    }

    method SetRetainTtl(ttl: nat)
      requires Valid()
      modifies this`retainTtlSecs
      ensures Valid() && retainTtlSecs == Max(ttl / SECOND, 1)
    {
      retainTtlSecs := Max(ttl / SECOND, 1);
    }

    /** Drop every entry older than the TTL, then retain the new message with every DATA index pending. */
    method Register(id: u32, frames: seq<Bytes>, totalData: byte, now: nat)
      requires Valid()
      requires totalData <= |frames|
      modifies this`inner
      ensures Valid()
      ensures Get(id) == Some(InitialEntry(frames, totalData, now))
      ensures forall o: u32 :: o != id ==> Get(o) == PruneSpec(SlotOf(old(inner), o), Ttl(), now)
    {
      PruneExpired(now);
      var pending := AllIndices(totalData);
      inner := inner[id := OutgoingVoice(frames, totalData, now, 0, None, pending, None, false)];
    }

    static method AllIndices(totalData: byte) returns (pending: set<byte>)
      ensures pending == Below(totalData)
    {
      pending := {};
      for i := 0 to totalData
        invariant pending == Below(i)
      {
        pending := pending + {i};
      }
    }

    method PruneExpired(now: nat)
      requires Valid()
      modifies this`inner
      ensures Valid()
      ensures forall o: u32 :: Get(o) == PruneSpec(SlotOf(old(inner), o), Ttl(), now)
    {
      inner := map id | id in inner && !inner[id].Expired(now, Ttl()) :: inner[id];
    }

    method MarkChunkSent(id: u32, idx: byte)
      requires Valid()
      modifies this`inner
      ensures Valid() && Others(id)
      ensures Get(id) == MarkSentSpec(SlotOf(old(inner), id), idx)
    {
      if id in inner {
        var e := inner[id];
        inner := inner[id := e.(pending := e.pending - {idx})];
      }
    }

    method Remove(id: u32)
      requires Valid()
      modifies this`inner
      ensures Valid() && Others(id) && Get(id) == None
    {
      inner := inner - {id};
    }

    method DataCount(id: u32) returns (n: Option<byte>)
      ensures n.Some? <==> id in inner
      ensures n.Some? ==> n.value == inner[id].totalData
    {
      n := if id in inner then Some(inner[id].totalData) else None;
    }

    method TakeRetransmit(id: u32, missing: seq<byte>, pacing: nat, now: nat)
      returns (r: Result<Plan, SkipReason>)
      requires Valid()
      modifies this`inner
      ensures Valid() && Others(id)
      ensures (Get(id), r) == TakeRetransmitSpec(SlotOf(old(inner), id), Ttl(), now, missing, pacing)
    {
      var ttl := Ttl();
      if id !in inner {
        return Err(TtlExpired);
      }
      var e := inner[id];
      if e.Expired(now, ttl) {
        inner := inner - {id};
        return Err(TtlExpired);
      }
      if e.retransmits >= MAX_RETRANSMITS {
        return Err(BudgetExhausted);
      }
      if e.cooldownUntil.Some? && now < e.cooldownUntil.value {
        return Err(CooldownActive);
      }
      var frames := e.FramesFor(missing);
      if |frames| == 0 {
        return Err(AllChunksPending);
      }
      var pending := e.pending;
      for k := 0 to |frames|
        invariant pending == e.pending + Elements(Indices(frames)[..k])
      {
        assert Indices(frames)[..k + 1] == Indices(frames)[..k] + [frames[k].0];
        assert Elements(Indices(frames)[..k + 1]) == Elements(Indices(frames)[..k]) + {frames[k].0};
        pending := pending + {frames[k].0};
      }
      assert Indices(frames)[..|frames|] == Indices(frames);
      var cooldown := Min(Min(Max(pacing * (|frames| % 0x1_0000_0000), SECOND), Seconds(30)), ttl);
      inner := inner[id := e.(pending := pending,
                              retransmits := Min(e.retransmits + 1, 0xFFFF),
                              cooldownUntil := Some(now + cooldown))];
      return Ok(frames);
    }

    method DeferNack(id: u32, missing: seq<byte>, now: nat) returns (r: DeferOutcome)
      requires Valid()
      modifies this`inner
      ensures Valid() && Others(id)
      ensures (Get(id), r) == DeferNackSpec(SlotOf(old(inner), id), now, missing)
    {
      if id !in inner {
        return Gone;
      }
      var e := inner[id];
      if e.cooldownUntil.None? {
        return CooldownElapsed;
      }
      var deadline := e.cooldownUntil.value;
      if now >= deadline {
        return CooldownElapsed;
      }
      inner := inner[id := e.(deferred := Some(missing))];
      if e.scheduled {
        return AlreadyScheduled;
      }
      inner := inner[id := inner[id].(scheduled := true)];
      return Scheduled(deadline);
    }

    method TakeDeferred(id: u32) returns (r: Option<seq<byte>>)
      requires Valid()
      modifies this`inner
      ensures Valid() && Others(id)
      ensures (Get(id), r) == TakeDeferredSpec(SlotOf(old(inner), id))
    {
      if id !in inner {
        return None;
      }
      var e := inner[id];
      inner := inner[id := e.(scheduled := false)];
      r := e.deferred;
      inner := inner[id := inner[id].(deferred := None)];
    }
  }

  // ----- what the slot functions promise

  /** A plan is the requested list cut down to its eligible indices, in order, each with its own frame. */
  lemma {:induction false} FramesForPlan(e: Entry, missing: seq<byte>)
    ensures forall p :: p in e.FramesFor(missing) ==> e.Eligible(p.0) && p.0 in missing && p.1 == e.frames[p.0]
    ensures forall x :: x in missing && e.Eligible(x) ==> x in Indices(e.FramesFor(missing))
  {
    if missing != [] {
      FramesForPlan(e, missing[1..]);
      var rest := e.FramesFor(missing[1..]);
      if e.Eligible(missing[0]) {
        var plan := e.FramesFor(missing);
        assert Indices(plan) == [missing[0]] + Indices(rest);
      }
    }
  }

  /** An index is handed out as often as it was requested if it is eligible, and never otherwise. */
  lemma {:induction false} PlanMultiplicity(e: Entry, missing: seq<byte>, x: byte)
    ensures multiset(Indices(e.FramesFor(missing)))[x] == if e.Eligible(x) then multiset(missing)[x] else 0
  {
    if missing != [] {
      var tail := missing[1..];
      PlanMultiplicity(e, tail, x);
      assert missing == [missing[0]] + tail;
      if e.Eligible(missing[0]) {
        assert Indices(e.FramesFor(missing)) == [missing[0]] + Indices(e.FramesFor(tail));
      }
    }
  }

  /**
    Every round closes the entry for as long as its frames take at the pacing, but for at least one second and at most thirty or
    the TTL, and was open when it ran.
   */
  lemma TakeRetransmitCooldown(e: Entry, ttl: nat, now: nat, missing: seq<byte>, pacing: nat)
    requires ttl >= SECOND
    requires TakeRetransmitSpec(Some(e), ttl, now, missing, pacing).1.Ok?
    ensures var slot := TakeRetransmitSpec(Some(e), ttl, now, missing, pacing).0;
            && slot.Some? && slot.value.cooldownUntil.Some?
            && now + SECOND <= slot.value.cooldownUntil.value <= now + Min(Seconds(30), ttl)
            && slot.value.retransmits == e.retransmits + 1 <= MAX_RETRANSMITS
            && slot.value.registeredAt == e.registeredAt && slot.value.totalData == e.totalData
            && (e.cooldownUntil.Some? ==> e.cooldownUntil.value <= now)
            && SaturatingSub(now, e.registeredAt) < ttl
    ensures var (slot, r) := TakeRetransmitSpec(Some(e), ttl, now, missing, pacing);
            var airtime, most := pacing * |r.value|, if ttl < 30_000_000_000 then ttl else 30_000_000_000;
            |r.value| < 0x1_0000_0000 ==>
              slot.value.cooldownUntil
              == Some(now + if airtime < 1_000_000_000 then 1_000_000_000 else if airtime < most then airtime else most)
  {
    var plan := e.FramesFor(missing);
    assert Cooldown(pacing, |plan|, ttl) == Min(Min(Max(pacing * (|plan| % 0x1_0000_0000), SECOND), Seconds(30)), ttl);
  }

  /**
    What one round does to the entry, for a duplicate-free request: the chunks handed out were not in
    flight and now are, and nothing else enters or leaves the pending set.
   */
  lemma TakeRetransmitRound(e: Entry, ttl: nat, now: nat, missing: seq<byte>, pacing: nat)
    requires ttl >= SECOND && Distinct(missing)
    requires TakeRetransmitSpec(Some(e), ttl, now, missing, pacing).1.Ok?
    ensures var (slot, r) := TakeRetransmitSpec(Some(e), ttl, now, missing, pacing);
            var idx := Indices(r.value);
            && slot.Some?
            && idx != [] && Distinct(idx)
            && (forall x :: x in idx ==> x < e.totalData)
            && |idx| <= e.totalData
            && multiset(slot.value.pending) == multiset(e.pending) + multiset(idx)
  {
    var plan := e.FramesFor(missing);
    var idx: seq<byte> := Indices(plan);
    forall x: byte ensures multiset(idx)[x] == if e.Eligible(x) then multiset(missing)[x] else 0 {
      PlanMultiplicity(e, missing, x);
    }
    forall x | x in idx ensures e.Eligible(x) {
      assert x in multiset(idx);
    }
    DistinctShort(idx, e.totalData);
    DistinctElements(idx);
    assert e.pending !! Elements(idx);
    assert multiset(e.pending + Elements(idx)) == multiset(e.pending) + multiset(Elements(idx));
  }
}

/**
  How many retransmit rounds one registration can serve, over every sequence of registry calls any
  client can make in lock order with one fixed retain TTL.
 */
module Rounds {
  import opened Words
  import opened Outgoing

  datatype Op =
    | Take(missing: seq<byte>, pacing: nat)
    | Mark(idx: byte)
    | Defer(missing: seq<byte>)
    | TakeDeferred
    | Prune(reading: nat)   // pruning reads the clock before it has the lock

  /** One critical section on the registration's slot, at the clock reading it took. */
  datatype Call = Call(now: nat, op: Op)

  function Apply(slot: Slot, ttl: nat, c: Call): Slot {
    match c.op
    case Take(missing, pacing) => TakeRetransmitSpec(slot, ttl, c.now, missing, pacing).0
    case Mark(idx) => MarkSentSpec(slot, idx)
    case Defer(missing) => DeferNackSpec(slot, c.now, missing).0
    case TakeDeferred => TakeDeferredSpec(slot).0
    case Prune(reading) => PruneSpec(slot, ttl, reading)
  }

  function Play(first: Entry, ttl: nat, run: seq<Call>): Slot {
    if run == [] then Some(first) else Apply(Play(first, ttl, run[..|run| - 1]), ttl, run[|run| - 1])
  }

  function Answer(slot: Slot, ttl: nat, c: Call): Result<Plan, SkipReason>
    requires c.op.Take?
  {
    TakeRetransmitSpec(slot, ttl, c.now, c.op.missing, c.op.pacing).1
  }

  /** The frames handed out by the last call of the run. */
  function LastPlan(first: Entry, ttl: nat, run: seq<Call>): Plan
    requires run != []
  {
    var last := run[|run| - 1];
    if last.op.Take? then
      match Answer(Play(first, ttl, run[..|run| - 1]), ttl, last)
      case Ok(plan) => plan
      case Err(_) => []
    else []
  }

  /** Rounds served. A served round always hands out at least one frame. */
  function Served(first: Entry, ttl: nat, run: seq<Call>): nat {
    if run == [] then 0
    else Served(first, ttl, run[..|run| - 1]) + if LastPlan(first, ttl, run) == [] then 0 else 1
  }

  function Handed(first: Entry, ttl: nat, run: seq<Call>): nat {
    if run == [] then 0 else Handed(first, ttl, run[..|run| - 1]) + |LastPlan(first, ttl, run)|
  }

  /** Clock readings never go back, and start no earlier than the registration. */
  ghost predicate Ordered(first: Entry, run: seq<Call>) {
    && (forall i :: 0 <= i < |run| ==> first.registeredAt <= run[i].now)
    && (forall i, j :: 0 <= i < j < |run| ==> run[i].now <= run[j].now)
  }

  ghost predicate Fresh(first: Entry) {
    first.retransmits == 0 && first.cooldownUntil.None?
  }

  function Clock(first: Entry, run: seq<Call>): nat {
    if run == [] then first.registeredAt else run[|run| - 1].now
  }

  /** The rounds are a second apart: the invariant behind the bound, after `r` rounds at clock `now`. */
  ghost predicate Spaced(first: Entry, seconds: nat, slot: Slot, r: nat, now: nat) {
    && r <= seconds && r <= MAX_RETRANSMITS
    && (r > 0 ==> now >= first.registeredAt + Seconds(r - 1))
    && (slot.Some? ==>
          && slot.value.retransmits == r
          && slot.value.totalData == first.totalData
          && slot.value.registeredAt == first.registeredAt
          && (r > 0 ==> slot.value.cooldownUntil.Some?
                        && slot.value.cooldownUntil.value >= first.registeredAt + Seconds(r)))
  }

  lemma CallSpaced(first: Entry, seconds: nat, slot: Slot, r: nat, now: nat, c: Call)
    requires seconds >= 1 && Spaced(first, seconds, slot, r, now) && now <= c.now && first.registeredAt <= c.now
    ensures var served := c.op.Take? && Answer(slot, Seconds(seconds), c).Ok?;
            Spaced(first, seconds, Apply(slot, Seconds(seconds), c), if served then r + 1 else r, c.now)
  {
    if c.op.Take? && Answer(slot, Seconds(seconds), c).Ok? {
      TakeRetransmitCooldown(slot.value, Seconds(seconds), c.now, c.op.missing, c.op.pacing);
    }
  }

  lemma {:induction false} RoundsSpaced(first: Entry, seconds: nat, run: seq<Call>)
    requires Fresh(first) && seconds >= 1 && Ordered(first, run)
    ensures Spaced(first, seconds, Play(first, Seconds(seconds), run), Served(first, Seconds(seconds), run),
                   Clock(first, run))
  {
    if run != [] {
      var ttl, prefix, last := Seconds(seconds), run[..|run| - 1], run[|run| - 1];
      RoundsSpaced(first, seconds, prefix);
      CallSpaced(first, seconds, Play(first, ttl, prefix), Served(first, ttl, prefix), Clock(first, prefix), last);
    }
  }

  /** A registration with a retain TTL of `seconds` serves at most `seconds` rounds. */
  lemma RoundsBounded(first: Entry, seconds: nat, run: seq<Call>)
    requires Fresh(first) && seconds >= 1 && Ordered(first, run)
    ensures Served(first, Seconds(seconds), run) <= seconds
    ensures Served(first, Seconds(seconds), run) <= 2_400
  {
    RoundsSpaced(first, seconds, run);
  }

  /**
    The same for a message as it is registered: at most a round for every second of the TTL, and the budget of 2400 met in some run
    exactly when the TTL is that long.
   */
  lemma RegisteredBudget(frames: seq<Bytes>, totalData: byte, registeredAt: nat, seconds: nat, run: seq<Call>)
    requires 0 < totalData <= |frames| && seconds >= 1
    ensures var first := InitialEntry(frames, totalData, registeredAt);
            && (Ordered(first, run) ==> Served(first, Seconds(seconds), run) <= Min(seconds, 2_400))
            && ((exists r :: Ordered(first, r) && Exhausts(first, seconds, r)) <==> seconds >= 2_400)
  {
    var first := InitialEntry(frames, totalData, registeredAt);
    if Ordered(first, run) {
      RoundsBounded(first, seconds, run);
    }
    BudgetReachable(first, seconds);
  }

  // ----- what is served

  /** The entry keeps the frames it was registered with, and a chunk leaves its pending set only when it is marked. */
  ghost predicate Faithful(first: Entry, slot: Slot, run: seq<Call>) {
    slot.Some? ==>
      && slot.value.frames == first.frames && slot.value.totalData == first.totalData
      && forall x: byte :: x in first.pending && x !in slot.value.pending ==> exists i :: 0 <= i < |run| && run[i].op == Mark(x)
  }

  lemma {:induction false} StaysFaithful(first: Entry, ttl: nat, run: seq<Call>)
    ensures Faithful(first, Play(first, ttl, run), run)
  {
    if run != [] {
      var prefix, last := run[..|run| - 1], run[|run| - 1];
      StaysFaithful(first, ttl, prefix);
      var slot, slot' := Play(first, ttl, prefix), Play(first, ttl, run);
      if slot'.Some? {
        forall x: byte | x in first.pending && x !in slot'.value.pending
          ensures exists i :: 0 <= i < |run| && run[i].op == Mark(x)
        {
          if x in slot.value.pending {
            assert run[|run| - 1].op == Mark(x);
          } else {
            var i :| 0 <= i < |prefix| && prefix[i].op == Mark(x);
            assert run[i].op == Mark(x);
          }
        }
      }
    }
  }

  /**
    Whatever happens to a registered message, a chunk that is served is one that was asked for, comes with the frame it was
    registered with, and has been marked as sent before.
   */
  lemma ServedAsRegistered(frames: seq<Bytes>, totalData: byte, registeredAt: nat, ttl: nat, run: seq<Call>, p: (byte, Bytes))
    requires totalData <= |frames| && run != [] && p in LastPlan(InitialEntry(frames, totalData, registeredAt), ttl, run)
    ensures p.0 < totalData && p.1 == frames[p.0]
    ensures run[|run| - 1].op.Take? && p.0 in run[|run| - 1].op.missing
    ensures exists i :: 0 <= i < |run| - 1 && run[i].op == Mark(p.0)
  {
    var first := InitialEntry(frames, totalData, registeredAt);
    var prefix, last := run[..|run| - 1], run[|run| - 1];
    StaysFaithful(first, ttl, prefix);
    var slot := Play(first, ttl, prefix);
    assert slot.Some?;
    FramesForPlan(slot.value, last.op.missing);
    assert slot.value.Eligible(p.0);
    var i :| 0 <= i < |prefix| && prefix[i].op == Mark(p.0);
    assert run[i].op == Mark(p.0);
  }

  lemma LastPlanShort(first: Entry, seconds: nat, run: seq<Call>)
    requires Fresh(first) && seconds >= 1 && Ordered(first, run)
    requires run != [] && (run[|run| - 1].op.Take? ==> Distinct(run[|run| - 1].op.missing))
    ensures |LastPlan(first, Seconds(seconds), run)| <= first.totalData
  {
    var ttl, prefix, last := Seconds(seconds), run[..|run| - 1], run[|run| - 1];
    RoundsSpaced(first, seconds, prefix);
    var before := Play(first, ttl, prefix);
    if last.op.Take? && Answer(before, ttl, last).Ok? {
      TakeRetransmitRound(before.value, ttl, last.now, last.op.missing, last.op.pacing);
      assert |Indices(LastPlan(first, ttl, run))| == |LastPlan(first, ttl, run)|;
    }
  }

  lemma OneMoreRound(handed: nat, more: nat, served: nat, n: nat)
    requires handed <= served * n && more <= n
    ensures handed + more <= (served + if more == 0 then 0 else 1) * n
  {
    assert (served + 1) * n == served * n + n;
  }

  /** While no request repeats an index, the frames handed out are at most rounds times `total_data`. */
  lemma {:induction false} HandedBounded(first: Entry, seconds: nat, run: seq<Call>)
    requires Fresh(first) && seconds >= 1 && Ordered(first, run)
    requires forall i :: 0 <= i < |run| && run[i].op.Take? ==> Distinct(run[i].op.missing)
    ensures Handed(first, Seconds(seconds), run) <= Served(first, Seconds(seconds), run) * first.totalData
  {
    if run != [] {
      var ttl, prefix, n := Seconds(seconds), run[..|run| - 1], first.totalData as nat;
      HandedBounded(first, seconds, prefix);
      LastPlanShort(first, seconds, run);
      var served := Served(first, ttl, prefix);
      OneMoreRound(Handed(first, ttl, prefix), |LastPlan(first, ttl, run)|, served, n);
    }
  }

  /** The last call of the run is refused because the round budget is spent. */
  ghost predicate Exhausts(first: Entry, seconds: nat, run: seq<Call>)
  {
    && run != [] && run[|run| - 1].op.Take?
    && Answer(Play(first, Seconds(seconds), run[..|run| - 1]), Seconds(seconds), run[|run| - 1]) == Err(BudgetExhausted)
  }

  /** `k` rounds for chunk 0, one a second, each after the previous copy has left. */
  function Hammer(first: Entry, k: nat): (run: seq<Call>)
    ensures Ordered(first, run)
    ensures Clock(first, run) <= first.registeredAt + Seconds(k)
    ensures k > 0 ==> Clock(first, run) == first.registeredAt + Seconds(k - 1)
  {
    if k == 0 then [] else
    var now := first.registeredAt + Seconds(k - 1);
    Hammer(first, k - 1) + [Call(now, Mark(0)), Call(now, Take([0], 0))]
  }

  /** The entry after `k` of those rounds. */
  ghost predicate Hammered(first: Entry, slot: Slot, k: nat) {
    && slot.Some? && slot.value.retransmits == k
    && slot.value.totalData == first.totalData && slot.value.registeredAt == first.registeredAt
    && slot.value.cooldownUntil == if k == 0 then None else Some(first.registeredAt + Seconds(k))
  }

  lemma HammerOnce(first: Entry, slot: Slot, ttl: nat, k: nat)
    requires first.totalData > 0 && k < MAX_RETRANSMITS && ttl >= Seconds(k + 1)
    requires Hammered(first, slot, k)
    ensures var now := first.registeredAt + Seconds(k);
            var marked := Apply(slot, ttl, Call(now, Mark(0)));
            Hammered(first, Apply(marked, ttl, Call(now, Take([0], 0))), k + 1)
  {
    var now := first.registeredAt + Seconds(k);
    var marked := MarkSentSpec(slot, 0).value;
    assert marked.FramesFor([0]) == [(0, marked.frames[0])];
    assert TakeRetransmitSpec(Some(marked), ttl, now, [0], 0).1.Ok?;
    assert Cooldown(0, 1, ttl) == SECOND;
  }

  lemma {:induction false} PlayTwo(first: Entry, ttl: nat, run: seq<Call>, a: Call, b: Call)
    ensures Play(first, ttl, run + [a, b]) == Apply(Apply(Play(first, ttl, run), ttl, a), ttl, b)
  {
    var all := run + [a, b];
    assert all[..|all| - 1] == run + [a];
    assert (run + [a])[..|run|] == run;
  }

  lemma {:induction false} HammerServed(first: Entry, seconds: nat, k: nat)
    requires Fresh(first) && first.totalData > 0 && k <= seconds && k <= MAX_RETRANSMITS && seconds >= 1
    ensures Hammered(first, Play(first, Seconds(seconds), Hammer(first, k)), k)
  {
    if k > 0 {
      HammerServed(first, seconds, k - 1);
      var ttl, now := Seconds(seconds), first.registeredAt + Seconds(k - 1);
      HammerOnce(first, Play(first, ttl, Hammer(first, k - 1)), ttl, k - 1);
      PlayTwo(first, ttl, Hammer(first, k - 1), Call(now, Mark(0)), Call(now, Take([0], 0)));
    }
  }

  /** The budget can refuse a round exactly when the TTL reaches 2400 s. */
  lemma BudgetReachable(first: Entry, seconds: nat)
    requires Fresh(first) && first.totalData > 0 && seconds >= 1
    ensures (exists run :: Ordered(first, run) && Exhausts(first, seconds, run)) <==> seconds >= 2_400
  {
    if seconds >= MAX_RETRANSMITS {
      HammerServed(first, seconds, MAX_RETRANSMITS);
      var hammer := Hammer(first, MAX_RETRANSMITS);
      var run := hammer + [Call(Clock(first, hammer), Take([0], 0))];
      assert run[..|run| - 1] == hammer;
      assert Ordered(first, run) && Exhausts(first, seconds, run);
    }
    forall run | Ordered(first, run) && Exhausts(first, seconds, run)
      ensures seconds >= MAX_RETRANSMITS
    {
      RoundsSpaced(first, seconds, run[..|run| - 1]);
    }
  }
}

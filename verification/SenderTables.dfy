/**
  The two shared tables of `VoiceSender` (sender.rs): which sends are active, and how many retransmit
  tasks are in flight for each. Every method is one critical section. The pipeline's per-message `active` flag and
  `inflight` number are their projections at one id, in every interleaving of any number of sends (`TablesFollow`).
 */
module SenderTables {
  import opened Words
  import opened Outgoing
  import opened Pipeline

  /** The count of an id; an id without a row counts zero. */
  function CountOf(m: map<u32, nat>, id: u32): nat {
    if id in m then m[id] else 0
  }

  datatype Tables = Tables(active: set<u32>, inflight: map<u32, nat>)
  {
    function Removed(id: u32): Tables {
      this.(active := active - {id})
    }

    function Raised(id: u32): Tables {
      this.(inflight := inflight[id := CountOf(inflight, id) + 1])
    }

    /** A count that drains takes its row with it. */
    function Lowered(id: u32): Tables {
      this.(inflight := if CountOf(inflight, id) <= 1 then inflight - {id}
                        else inflight[id := CountOf(inflight, id) - 1])
    }
  }

  class VoiceSenderTables {
    var active: set<u32>
    var inflight: map<u32, nat>
    const registry: OutgoingVoiceRegistry

    /** No row stores a zero: a drained message leaves the table. */
    ghost predicate Valid()
      reads this
    {
      forall id :: id in inflight ==> inflight[id] > 0
    }

    function Value(): Tables
      reads this
    {
      Tables(active, inflight)
    }

    constructor (registry: OutgoingVoiceRegistry)
      ensures Valid() && Value() == Tables({}, map[]) && this.registry == registry
    {
      active, inflight := {}, map[];
      this.registry := registry;
    }

    method InflightInc(id: u32)
      requires Valid()
      modifies this`inflight
      ensures Valid() && Value() == old(Value()).Raised(id)
      ensures CountOf(inflight, id) == CountOf(old(inflight), id) + 1
      ensures forall o: u32 :: o != id ==> CountOf(inflight, o) == CountOf(old(inflight), o)
    {
      if id !in inflight {
        inflight := inflight[id := 0];
      }
      inflight := inflight[id := inflight[id] + 1];
    }

    method InflightDec(id: u32)
      requires Valid()
      modifies this`inflight
      ensures Valid() && Value() == old(Value()).Lowered(id)
      ensures CountOf(inflight, id) == SaturatingSub(CountOf(old(inflight), id), 1)
      ensures forall o: u32 :: o != id ==> CountOf(inflight, o) == CountOf(old(inflight), o)
      ensures CountOf(inflight, id) == 0 ==> id !in inflight
    {
      if id in inflight {
        var c := SaturatingSub(inflight[id], 1);
        inflight := inflight[id := c];
        if c == 0 {
          inflight := inflight - {id};
        }
      }
    }

    method InflightCount(id: u32) returns (n: nat)
      requires Valid()
      ensures n == CountOf(inflight, id)
      ensures n == 0 <==> id !in inflight
    {
      n := if id in inflight then inflight[id] else 0;
    }

    /** `active.remove`: the caller owns the removal exactly when the entry was there. */
    method RemoveActive(id: u32) returns (claimed: bool)
      modifies this`active
      ensures claimed <==> id in old(active)
      ensures Value() == old(Value()).Removed(id)
    {
      claimed := id in active;
      active := active - {id};
    }

    /** Drop the per-message state; the in-flight table is left to the guards of the running tasks. */
    method Cleanup(id: u32)
      requires registry.Valid()
      modifies this`active, registry`inner
      ensures Value() == old(Value()).Removed(id)
      ensures registry.Valid() && registry.Get(id) == None
      ensures forall o: u32 :: o != id ==> registry.Get(o) == SlotOf(old(registry.inner), o)
    {
      var _ := RemoveActive(id);
      registry.Remove(id);
    }
  }

  // ----- the pipeline's view of the tables

  /** What the pipeline keeps of the tables for the message `id`. */
  predicate Projects(t: Tables, id: u32, s: State) {
    (id in t.active <==> s.active) && CountOf(t.inflight, id) == s.inflight
  }

  /** What a step of the pipeline for `id` does to the tables. */
  function Apply(t: Tables, id: u32, a: Action): Tables {
    match a
    case Send(Claim) => t.Removed(id)
    case Send(FailActive) => t.Removed(id)
    case Listen(GiveUpActive) => t.Removed(id)
    case Listen(ListenerArm) => t.Raised(id)
    case Listen(ListenerDispatch) => t.Raised(id)
    case Run(_, WakeRearm) => t.Raised(id)
    case Run(_, Exit) => t.Lowered(id)
    case _ => t
  }

  lemma StepProjects(c: Config, s: State, a: Action, t: Tables, id: u32, o: u32)
    requires Enabled(c, s, a) && Projects(t, id, s)
    ensures Projects(Apply(t, id, a), id, Step(c, s, a))
    ensures o != id ==>
              && (o in Apply(t, id, a).active <==> o in t.active)
              && CountOf(Apply(t, id, a).inflight, o) == CountOf(t.inflight, o)
  {
  }

  /** No row is left behind at zero. */
  lemma RowsCount(t: Tables, id: u32, a: Action)
    requires forall o :: o in t.inflight ==> t.inflight[o] > 0
    ensures forall o :: o in Apply(t, id, a).inflight ==> Apply(t, id, a).inflight[o] > 0
  {
  }

  /** One send among those that share the tables. */
  datatype Sender = Sender(config: Config, state: State)

  ghost predicate LegalTogether(sends: map<u32, Sender>, run: seq<(u32, Action)>)
    decreases |run|
  {
    run != [] ==>
      && run[0].0 in sends
      && Enabled(sends[run[0].0].config, sends[run[0].0].state, run[0].1)
      && LegalTogether(Moved(sends, run[0].0, run[0].1), run[1..])
  }

  ghost function Moved(sends: map<u32, Sender>, id: u32, a: Action): map<u32, Sender>
    requires id in sends && Enabled(sends[id].config, sends[id].state, a)
  {
    sends[id := sends[id].(state := Step(sends[id].config, sends[id].state, a))]
  }

  /** Where each send is after a run of them all, one step of one send at a time. */
  ghost function Together(sends: map<u32, Sender>, run: seq<(u32, Action)>): map<u32, Sender>
    requires LegalTogether(sends, run)
    decreases |run|
  {
    if run == [] then sends else Together(Moved(sends, run[0].0, run[0].1), run[1..])
  }

  ghost function TablesAfter(t: Tables, run: seq<(u32, Action)>): Tables
    decreases |run|
  {
    if run == [] then t else TablesAfter(Apply(t, run[0].0, run[0].1), run[1..])
  }

  /** However any number of sends interleave on the shared tables, each keeps seeing exactly its own flag and count there. */
  lemma {:induction false} TablesFollow(sends: map<u32, Sender>, t: Tables, run: seq<(u32, Action)>)
    requires LegalTogether(sends, run)
    requires forall id :: id in sends ==> Projects(t, id, sends[id].state)
    ensures var after := Together(sends, run);
            after.Keys == sends.Keys && forall id :: id in after ==> Projects(TablesAfter(t, run), id, after[id].state)
    decreases |run|
  {
    if run != [] {
      var (id, a) := run[0];
      var moved := Moved(sends, id, a);
      forall o | o in moved ensures Projects(Apply(t, id, a), o, moved[o].state) {
        StepProjects(sends[id].config, sends[id].state, a, t, id, o);
      }
      TablesFollow(moved, Apply(t, id, a), run[1..]);
    }
  }
}

/**
  The concurrency gate (core/stores.js, Semaphore): a bounded number of slots, a bounded first-come queue,
  and a slot that is handed on rather than freed while anyone waits for it.
 */
module Semaphore {
  import opened Wrappers

  /** running, arrived and started are kept for the proof alone: who holds a slot, who has ever queued in
      the order they came, and who of those has started in the order they did. */
  datatype Gate = Gate(max: nat, maxQueue: nat, active: int, queue: seq<nat>,
                       running: set<nat>, arrived: seq<nat>, started: seq<nat>)

  /** A gate of at least one slot and a queue of at least none, whatever was configured. */
  function New(max: int, maxQueue: int): Gate {
    Gate(if max < 1 then 1 else max, if maxQueue < 0 then 0 else maxQueue, 0, [], {}, [], [])
  }

  datatype Entry = Runs | Waits | Shed

  function Admission(g: Gate): Entry {
    if g.active < g.max then Runs else if |g.queue| < g.maxQueue then Waits else Shed
  }

  function Enter(g: Gate, id: nat): Gate {
    match Admission(g)
    case Runs => g.(active := g.active + 1, running := g.running + {id})
    case Waits => g.(queue := g.queue + [id], arrived := g.arrived + [id])
    case Shed => g
  }

  /** The task's finally clause, whether it returned or threw. */
  function Leave(g: Gate, id: nat): Gate {
    if |g.queue| > 0
    then g.(queue := g.queue[1..], running := g.running - {id} + {g.queue[0]}, started := g.started + [g.queue[0]])
    else g.(active := g.active - 1, running := g.running - {id})
  }

  datatype Event = Arrives(id: nat) | Ends(id: nat)

  /** A task arrives once, and ends only while it holds a slot. */
  predicate Enabled(g: Gate, e: Event) {
    match e
    case Arrives(id) => id !in g.running && id !in g.queue
    case Ends(id) => id in g.running
  }

  function Step(g: Gate, e: Event): Gate {
    if !Enabled(g, e) then g else if e.Arrives? then Enter(g, e.id) else Leave(g, e.id)
  }

  function Run(g: Gate, events: seq<Event>): Gate {
    if |events| == 0 then g else Step(Run(g, events[..|events| - 1]), events[|events| - 1])
  }

  ghost predicate Inv(g: Gate) {
    && g.max >= 1
    && g.active == |g.running| <= g.max && |g.queue| <= g.maxQueue
    && (g.queue != [] ==> g.active == g.max)
    && (forall i :: 0 <= i < |g.queue| ==> g.queue[i] !in g.running)
    && (forall i, j :: 0 <= i < j < |g.queue| ==> g.queue[i] != g.queue[j])
    && g.arrived == g.started + g.queue
  }

  lemma LeaveKeeps(g: Gate, id: nat)
    requires Inv(g) && id in g.running
    ensures Inv(Leave(g, id))
    ensures |Leave(g, id).running| == if |g.queue| > 0 then |g.running| else |g.running| - 1
  {
    if |g.queue| > 0 {
      assert |g.running - {id}| == |g.running| - 1;
      assert g.queue[0] !in g.running - {id};
      assert g.started + g.queue == g.started + [g.queue[0]] + g.queue[1..];
    }
  }

  lemma {:induction false} RunKeeps(max: int, maxQueue: int, events: seq<Event>)
    ensures Inv(Run(New(max, maxQueue), events))
  {
    if |events| > 0 {
      var g := Run(New(max, maxQueue), events[..|events| - 1]);
      RunKeeps(max, maxQueue, events[..|events| - 1]);
      match events[|events| - 1] {
        case Arrives(id) =>
          if Enabled(g, Arrives(id)) && Admission(g).Waits? {
            assert g.started + (g.queue + [id]) == g.started + g.queue + [id];
          }
        case Ends(id) => if id in g.running { LeaveKeeps(g, id); }
      }
    }
  }

  /** In every interleaving: no more than the slots run, no more than the queue's length wait, and nobody
      waits while a slot is free. */
  lemma SlotsAreRespected(max: int, maxQueue: int, events: seq<Event>)
    ensures var g := Run(New(max, maxQueue), events);
      && g.active == |g.running|
      && |g.running| <= (if max < 1 then 1 else max) && |g.queue| <= (if maxQueue < 0 then 0 else maxQueue)
      && (g.queue != [] ==> |g.running| == if max < 1 then 1 else max)
  {
    RunKeeps(max, maxQueue, events);
    BoundsStay(max, maxQueue, events);
  }

  lemma {:induction false} BoundsStay(max: int, maxQueue: int, events: seq<Event>)
    ensures var g := Run(New(max, maxQueue), events);
      g.max == (if max < 1 then 1 else max) && g.maxQueue == (if maxQueue < 0 then 0 else maxQueue)
  {
    if |events| > 0 {
      BoundsStay(max, maxQueue, events[..|events| - 1]);
    }
  }

  /** Waiters start in the order they arrived: at any time, those who have started are the first of those
      who ever queued, and those still waiting are the rest in order. */
  lemma {:induction false} FirstComeFirstServed(max: int, maxQueue: int, events: seq<Event>)
    ensures var g := Run(New(max, maxQueue), events); g.started <= g.arrived && g.queue == g.arrived[|g.started|..]
  {
    RunKeeps(max, maxQueue, events);
  }

  /** A task that ends, however it ends, gives up exactly its own slot: to the first waiter if there is one,
      and otherwise back. */
  lemma EndHandsOnOrFrees(max: int, maxQueue: int, events: seq<Event>, id: nat)
    requires id in Run(New(max, maxQueue), events).running
    ensures var g := Run(New(max, maxQueue), events);
      var g' := Step(g, Ends(id));
      if g.queue == [] then g'.running == g.running - {id} && g'.active == g.active - 1
      else g'.running == g.running - {id} + {g.queue[0]} && g'.active == g.active && |g'.running| == |g.running|
  {
    RunKeeps(max, maxQueue, events);
    LeaveKeeps(Run(New(max, maxQueue), events), id);
  }

  /** In every interleaving a task that comes runs at once exactly when fewer run than there are slots, and otherwise
      waits, last, exactly when fewer wait than may; one that is shed leaves no trace. */
  lemma AdmitsExactlyWhen(max: int, maxQueue: int, events: seq<Event>, id: nat)
    requires var g := Run(New(max, maxQueue), events); id !in g.running && id !in g.queue
    ensures var g := Run(New(max, maxQueue), events);
      var g', slots, places := Step(g, Arrives(id)), if max < 1 then 1 else max, if maxQueue < 0 then 0 else maxQueue;
      && (id in g'.running <==> |g.running| < slots) && (id in g'.queue <==> |g.running| == slots && |g.queue| < places)
      && (id in g'.running ==> g'.running == g.running + {id} && g'.queue == g.queue)
      && (id in g'.queue ==> g'.queue == g.queue + [id] && g'.running == g.running)
      && (id !in g'.running && id !in g'.queue ==> g' == g)
  {
    RunKeeps(max, maxQueue, events);
    BoundsStay(max, maxQueue, events);
  }

  /** The object itself: its counter and its queue of waiters. */
  class Semaphore {
    const max: nat
    const maxQueue: nat
    var active: int
    var queue: seq<nat>
    ghost var gate: Gate

    ghost predicate Valid()
      reads this
    {
      Inv(gate) && gate.max == max && gate.maxQueue == maxQueue && gate.active == active && gate.queue == queue
    }

    constructor (max: int, maxQueue: int)
      ensures Valid() && gate == New(max, maxQueue)
    {
      this.max, this.maxQueue := if max < 1 then 1 else max, if maxQueue < 0 then 0 else maxQueue;
      active, queue, gate := 0, [], New(max, maxQueue);
    }

    /** Runs at once, waits its turn, or is shed with nothing changed. */
    method Acquire(id: nat) returns (entry: Entry)
      requires Valid() && Enabled(gate, Arrives(id))
      modifies this
      ensures Valid() && entry == Admission(old(gate)) && gate == Enter(old(gate), id)
    {
      if active < max {
        active := active + 1;
        entry := Runs;
      } else if |queue| < maxQueue {
        queue := queue + [id];
        entry := Waits;
        assert gate.started + (gate.queue + [id]) == gate.started + gate.queue + [id];
      } else {
        return Shed;
      }
      gate := Enter(gate, id);
    }

    /** Returns the waiter the slot went to, if there was one. */
    method Release(id: nat) returns (next: Option<nat>)
      requires Valid() && id in gate.running
      modifies this
      ensures Valid() && gate == Leave(old(gate), id)
      ensures next == if |old(queue)| > 0 then Some(old(queue)[0]) else None
    {
      LeaveKeeps(gate, id);
      if |queue| > 0 {
        next := Some(queue[0]);
        queue := queue[1..];
      } else {
        next := None;
        active := active - 1;
      }
      gate := Leave(gate, id);
    }
  }
}

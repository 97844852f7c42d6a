/**
 The sharded broadcast hand-off: every broadcast is offered once to each worker's
 bounded inbox. Publishers interleave freely, one `try_send` or one flag store at a
 time, with workers that drain, vanish, report budget pressure and clear the inbox flag.
 Broadcasts are named by the order in which they start.
 */
module Broadcast {
  import opened Prelude

  /** `WorkerSlot` with the receiving end's queue. */
  datatype Slot = Slot(cap: nat, live: bool, queue: seq<nat>, dropped: nat, budget: bool)

  datatype Sent = Accepted | Full | Disconnected

  /** `try_send` on a bounded channel. */
  function TrySend(s: Slot): Sent
  {
    if !s.live then Disconnected else if |s.queue| < s.cap then Accepted else Full
  }

  function Offered(s: Slot, b: nat): Slot
  {
    match TrySend(s)
    case Accepted => s.(queue := s.queue + [b])
    case Full => s.(dropped := s.dropped + 1)
    case Disconnected => s
  }

  /** A hand-off queues the broadcast last at a live worker with room, counts one drop at a full one, and skips a gone one. */
  lemma OfferedExact(s: Slot, b: nat)
    ensures var after := Offered(s, b);
            && after.cap == s.cap && after.live == s.live && after.budget == s.budget
            && (s.live && |s.queue| < s.cap ==> after.queue == s.queue + [b] && after.dropped == s.dropped)
            && (s.live && |s.queue| >= s.cap ==> after.queue == s.queue && after.dropped == s.dropped + 1)
            && (!s.live ==> after == s)
  {
  }

  predicate BudgetSet(slots: seq<Slot>)
  {
    exists i :: 0 <= i < |slots| && slots[i].budget
  }

  // ---------- the sink as the code keeps it ----------

  class BroadcastSink {
    var slots: seq<Slot>
    var inboxFull: bool
    var bound: bool

    constructor (workers: nat, cap: nat)
      ensures slots == seq(workers, _ => Slot(cap, true, [], 0, false)) && !inboxFull && !bound
    {
      slots := seq(workers, _ => Slot(cap, true, [], 0, false));
      inboxFull, bound := false, false;
    }

    method BindWorkers()
      modifies this`bound
      ensures bound
    {
      bound := true;
    }

    /** One hand-off per worker; a full inbox counts a drop and raises the flag, a gone worker is passed over. */
    method Publish(b: nat)
      modifies this`slots, this`inboxFull
      ensures |slots| == |old(slots)|
      ensures forall i :: 0 <= i < |slots| ==> slots[i] == Offered(old(slots)[i], b)
      ensures forall i :: 0 <= i < |slots| ==>
                && (old(slots)[i].live && |old(slots)[i].queue| < old(slots)[i].cap ==>
                      slots[i].queue == old(slots)[i].queue + [b] && slots[i].dropped == old(slots)[i].dropped)
                && (old(slots)[i].live && |old(slots)[i].queue| >= old(slots)[i].cap ==>
                      slots[i].queue == old(slots)[i].queue && slots[i].dropped == old(slots)[i].dropped + 1)
                && (!old(slots)[i].live ==> slots[i] == old(slots)[i])
      ensures inboxFull <==> old(inboxFull) || exists i :: 0 <= i < |slots| && TrySend(old(slots)[i]) == Full
    {
      for n := 0 to |slots|
        invariant |slots| == |old(slots)|
        invariant forall i :: 0 <= i < n ==> slots[i] == Offered(old(slots)[i], b)
        invariant forall i :: n <= i < |slots| ==> slots[i] == old(slots)[i]
        invariant inboxFull <==> old(inboxFull) || exists i :: 0 <= i < n && TrySend(old(slots)[i]) == Full
      {
        var s := slots[n];
        if !s.live {
          continue;
        }
        if |s.queue| < s.cap {
          slots := slots[n := s.(queue := s.queue + [b])];
        } else {
          slots := slots[n := s.(dropped := s.dropped + 1)];
          inboxFull := true;
        }
      }
    }

    /** A worker receives until its inbox is empty, in queue order, and then clears the flag. */
    method Drain(w: nat) returns (received: seq<nat>)
      requires w < |slots|
      modifies this`slots, this`inboxFull
      ensures slots == old(slots)[w := old(slots)[w].(queue := [])] && !inboxFull
      ensures received == old(slots)[w].queue
    {
      received := [];
      while slots[w].queue != []
        invariant |slots| == |old(slots)|
        invariant received + slots[w].queue == old(slots)[w].queue
        invariant slots == old(slots)[w := old(slots)[w].(queue := slots[w].queue)]
        decreases |slots[w].queue|
      {
        var q := slots[w].queue;
        received := received + [q[0]];
        slots := slots[w := slots[w].(queue := q[1..])];
      }
      inboxFull := false;
    }

    method SetBudget(w: nat, over: bool)
      requires w < |slots|
      modifies this`slots
      ensures slots == old(slots)[w := old(slots)[w].(budget := over)]
    {
      slots := slots[w := slots[w].(budget := over)];
    }

    method IsSaturated() returns (yes: bool)
      ensures yes <==> inboxFull || (bound && BudgetSet(slots))
    {
      if inboxFull {
        return true;
      }
      if !bound {
        return false;
      }
      for n := 0 to |slots|
        invariant forall i :: 0 <= i < n ==> !slots[i].budget
      {
        if slots[n].budget {
          return true;
        }
      }
      return false;
    }
  }

  // ---------- every interleaving ----------

  /** One hand-off attempt in a worker's history. */
  datatype Offer = Offer(id: nat, sent: Sent)

  datatype Worker = Worker(slot: Slot, offers: seq<Offer>, received: seq<nat>)

  /** A broadcast in progress: the next worker to offer to, and a flag store still owed for a drop. */
  datatype Progress = Progress(next: nat, owesFlag: bool)

  datatype State = State(workers: seq<Worker>, broadcasts: seq<Progress>, inboxFull: bool, bound: bool)

  datatype Action =
    | Begin
    | Hand(b: nat)
    | Raise(b: nat)
    | Receive(w: nat)
    | Vanish(w: nat)
    | SetBudget(w: nat, over: bool)
    | ClearInbox
    | Bind

  function HandTo(s: State, b: nat): State
    requires b < |s.broadcasts| && s.broadcasts[b].next < |s.workers|
  {
    var n := s.broadcasts[b].next;
    var w := s.workers[n];
    var sent := TrySend(w.slot);
    s.(workers := s.workers[n := Worker(Offered(w.slot, b), w.offers + [Offer(b, sent)], w.received)],
       broadcasts := s.broadcasts[b := Progress(n + 1, sent == Full)])
  }

  function Step(s: State, act: Action): State
  {
    match act
    case Begin => s.(broadcasts := s.broadcasts + [Progress(0, false)])
    case Hand(b) =>
      if b < |s.broadcasts| && !s.broadcasts[b].owesFlag && s.broadcasts[b].next < |s.workers|
      then HandTo(s, b) else s
    case Raise(b) =>
      if b < |s.broadcasts| && s.broadcasts[b].owesFlag
      then s.(inboxFull := true, broadcasts := s.broadcasts[b := s.broadcasts[b].(owesFlag := false)]) else s
    case Receive(w) =>
      if w < |s.workers| && s.workers[w].slot.queue != []
      then
        var k := s.workers[w];
        s.(workers := s.workers[w := k.(slot := k.slot.(queue := k.slot.queue[1..]),
                                         received := k.received + [k.slot.queue[0]])])
      else s
    case Vanish(w) =>
      if w < |s.workers|
      then s.(workers := s.workers[w := s.workers[w].(slot := s.workers[w].slot.(live := false, queue := []))])
      else s
    case SetBudget(w, over) =>
      if w < |s.workers|
      then s.(workers := s.workers[w := s.workers[w].(slot := s.workers[w].slot.(budget := over))])
      else s
    case ClearInbox => s.(inboxFull := false)
    case Bind => s.(bound := true)
  }

  function Start(workers: nat, cap: nat): State
  {
    State(seq(workers, _ => Worker(Slot(cap, true, [], 0, false), [], [])), [], false, false)
  }

  function From(s: State, acts: seq<Action>): State
  {
    if acts == [] then s else Step(From(s, acts[..|acts| - 1]), acts[|acts| - 1])
  }

  ghost predicate Saturated(s: State)
  {
    s.inboxFull || (s.bound && exists i :: 0 <= i < |s.workers| && s.workers[i].slot.budget)
  }

  // ---------- conservation ----------

  /** The broadcasts of a history that were accepted, in order. */
  function Kept(offers: seq<Offer>): seq<nat>
  {
    if offers == [] then []
    else
      var last := offers[|offers| - 1];
      Kept(offers[..|offers| - 1]) + (if last.sent == Accepted then [last.id] else [])
  }

  /** How many times broadcast `b` was offered. */
  function Times(offers: seq<Offer>, b: nat): nat
  {
    if offers == [] then 0
    else Times(offers[..|offers| - 1], b) + (if offers[|offers| - 1].id == b then 1 else 0)
  }

  /** The books of one worker: nothing offered to a live worker is unaccounted for, and order is kept. */
  ghost predicate Booked(k: Worker, cap: nat)
  {
    && k.slot.cap == cap
    && |k.slot.queue| <= cap
    && (k.slot.live ==>
          && |k.offers| == |k.received| + |k.slot.queue| + k.slot.dropped
          && Kept(k.offers) == k.received + k.slot.queue)
  }

  /** The first `next` workers have been offered the broadcast once each, the others not yet. */
  ghost predicate OnceEach(s: State, b: nat)
  {
    forall i :: 0 <= i < |s.workers| ==>
      Times(s.workers[i].offers, b) ==
      (if b < |s.broadcasts| && i < s.broadcasts[b].next then 1 else 0)
  }

  lemma OfferBooked(k: Worker, cap: nat, b: nat)
    requires Booked(k, cap)
    ensures Booked(Worker(Offered(k.slot, b), k.offers + [Offer(b, TrySend(k.slot))], k.received), cap)
    ensures forall c :: Times(k.offers + [Offer(b, TrySend(k.slot))], c) == Times(k.offers, c) + (if c == b then 1 else 0)
  {
    var offer := Offer(b, TrySend(k.slot));
    assert (k.offers + [offer])[..|k.offers|] == k.offers;
    assert k.received + (k.slot.queue + [b]) == k.received + k.slot.queue + [b];
  }

  lemma ReceiveBooked(k: Worker, cap: nat)
    requires Booked(k, cap) && k.slot.queue != []
    ensures Booked(k.(slot := k.slot.(queue := k.slot.queue[1..]), received := k.received + [k.slot.queue[0]]), cap)
  {
    assert k.received + [k.slot.queue[0]] + k.slot.queue[1..] == k.received + k.slot.queue;
  }

  lemma StepBooked(s: State, act: Action, cap: nat)
    requires forall i :: 0 <= i < |s.workers| ==> Booked(s.workers[i], cap)
    ensures |Step(s, act).workers| == |s.workers|
    ensures forall i :: 0 <= i < |s.workers| ==> Booked(Step(s, act).workers[i], cap)
  {
    if act.Hand? && act.b < |s.broadcasts| && s.broadcasts[act.b].next < |s.workers| {
      OfferBooked(s.workers[s.broadcasts[act.b].next], cap, act.b);
    } else if act.Receive? && act.w < |s.workers| && s.workers[act.w].slot.queue != [] {
      ReceiveBooked(s.workers[act.w], cap);
    }
  }

  lemma StepOnce(s: State, act: Action, b: nat, cap: nat)
    requires forall i :: 0 <= i < |s.workers| ==> Booked(s.workers[i], cap)
    requires OnceEach(s, b)
    ensures OnceEach(Step(s, act), b)
  {
    if act.Hand? && act.b < |s.broadcasts| && s.broadcasts[act.b].next < |s.workers| {
      OfferBooked(s.workers[s.broadcasts[act.b].next], cap, act.b);
    }
  }

  lemma {:induction false} RunBooked(workers: nat, cap: nat, acts: seq<Action>, b: nat)
    ensures var s := From(Start(workers, cap), acts);
            && |s.workers| == workers
            && (forall i :: 0 <= i < workers ==> Booked(s.workers[i], cap))
            && OnceEach(s, b)
  {
    if acts != [] {
      RunBooked(workers, cap, acts[..|acts| - 1], b);
      var s := From(Start(workers, cap), acts[..|acts| - 1]);
      StepBooked(s, acts[|acts| - 1], cap);
      StepOnce(s, acts[|acts| - 1], b, cap);
    }
  }

  /** The broadcasts issued to worker `w`: those whose publisher has reached it. */
  function Issued(s: State, w: nat): set<nat>
  {
    set b | 0 <= b < |s.broadcasts| && s.broadcasts[b].next > w
  }

  function Ids(offers: seq<Offer>): set<nat>
  {
    if offers == [] then {} else Ids(offers[..|offers| - 1]) + {offers[|offers| - 1].id}
  }

  lemma {:induction false} IdsOffered(offers: seq<Offer>, b: nat)
    ensures b in Ids(offers) <==> Times(offers, b) > 0
  {
    if offers != [] {
      IdsOffered(offers[..|offers| - 1], b);
    }
  }

  /** A history that names no broadcast twice has as many ids as entries. */
  lemma {:induction false} IdsSize(offers: seq<Offer>)
    requires forall b :: Times(offers, b) <= 1
    ensures |Ids(offers)| == |offers|
  {
    if offers != [] {
      var init, last := offers[..|offers| - 1], offers[|offers| - 1];
      forall b ensures Times(init, b) <= 1 {
        assert Times(offers, b) <= 1;
      }
      IdsSize(init);
      IdsOffered(init, last.id);
      assert Times(offers, last.id) <= 1;
    }
  }

  /** The step hands a broadcast to worker `w`. */
  ghost predicate HandsTo(s: State, act: Action, w: nat)
  {
    act.Hand? && act.b < |s.broadcasts| && !s.broadcasts[act.b].owesFlag && s.broadcasts[act.b].next == w < |s.workers|
  }

  /** The broadcasts that found worker `w` live and with room, in the order they were handed to it. */
  ghost function Taken(s: State, acts: seq<Action>, w: nat): seq<nat>
  {
    if acts == [] then []
    else
      var init, act := acts[..|acts| - 1], acts[|acts| - 1];
      var now := From(s, init);
      Taken(s, init, w) +
      (if HandsTo(now, act, w) && now.workers[w].slot.live && |now.workers[w].slot.queue| < now.workers[w].slot.cap
       then [act.b] else [])
  }

  lemma StepKept(s: State, act: Action, w: nat)
    requires w < |s.workers|
    ensures |Step(s, act).workers| == |s.workers|
    ensures Kept(Step(s, act).workers[w].offers) ==
            Kept(s.workers[w].offers) +
            (if HandsTo(s, act, w) && s.workers[w].slot.live && |s.workers[w].slot.queue| < s.workers[w].slot.cap
             then [act.b] else [])
  {
    var k := s.workers[w];
    if HandsTo(s, act, w) {
      var offer := Offer(act.b, TrySend(k.slot));
      assert (k.offers + [offer])[..|k.offers|] == k.offers;
    } else {
      assert Step(s, act).workers[w].offers == k.offers;
    }
    assert Kept(k.offers) + [] == Kept(k.offers);
  }

  lemma {:induction false} KeptExact(workers: nat, cap: nat, acts: seq<Action>, w: nat)
    requires w < workers
    ensures |From(Start(workers, cap), acts).workers| == workers
    ensures Kept(From(Start(workers, cap), acts).workers[w].offers) == Taken(Start(workers, cap), acts, w)
  {
    if acts != [] {
      KeptExact(workers, cap, acts[..|acts| - 1], w);
      StepKept(From(Start(workers, cap), acts[..|acts| - 1]), acts[|acts| - 1], w);
    }
  }

  lemma IssuedSize(workers: nat, cap: nat, acts: seq<Action>, w: nat)
    requires w < workers
    ensures var s := From(Start(workers, cap), acts);
            |s.workers| == workers && |Issued(s, w)| == |s.workers[w].offers|
  {
    var s := From(Start(workers, cap), acts);
    RunBooked(workers, cap, acts, 0);
    var offers := s.workers[w].offers;
    forall b: nat ensures Times(offers, b) == if b in Issued(s, w) then 1 else 0 {
      RunBooked(workers, cap, acts, b);
    }
    IdsSize(offers);
    forall b: nat ensures b in Ids(offers) <==> b in Issued(s, w) {
      IdsOffered(offers, b);
    }
    assert Ids(offers) == Issued(s, w);
  }

  /**
   In every interleaving, for every live worker: the broadcasts issued to it are exactly as many
   as it has received, has queued and has had dropped; what it received and still has queued are
   those that found it with room, in the order they were handed to it; and its queue never exceeds the capacity.
   */
  lemma HandOffConserves(workers: nat, cap: nat, acts: seq<Action>, w: nat)
    requires w < workers
    ensures var s := From(Start(workers, cap), acts);
            && |s.workers| == workers
            && var k := s.workers[w];
            && |k.slot.queue| <= cap
            && (k.slot.live ==> |Issued(s, w)| == |k.received| + |k.slot.queue| + k.slot.dropped)
            && (k.slot.live ==> k.received + k.slot.queue == Taken(Start(workers, cap), acts, w))
  {
    RunBooked(workers, cap, acts, 0);
    KeptExact(workers, cap, acts, w);
    IssuedSize(workers, cap, acts, w);
    assert Booked(From(Start(workers, cap), acts).workers[w], cap);
  }

  /** How many broadcasts were begun. */
  ghost function Begun(acts: seq<Action>): nat
  {
    if acts == [] then 0 else Begun(acts[..|acts| - 1]) + (if acts[|acts| - 1].Begin? then 1 else 0)
  }

  lemma {:induction false} BegunExact(s: State, acts: seq<Action>)
    ensures |From(s, acts).broadcasts| == |s.broadcasts| + Begun(acts)
  {
    if acts != [] {
      BegunExact(s, acts[..|acts| - 1]);
    }
  }

  /** A receive takes the oldest queued broadcast and changes nothing else. */
  lemma ReceiveExact(s: State, w: nat)
    requires w < |s.workers| && s.workers[w].slot.queue != []
    ensures var t, q := Step(s, Receive(w)), s.workers[w].slot.queue;
            && |t.workers| == |s.workers|
            && t.workers[w].received == s.workers[w].received + [q[0]] && t.workers[w].slot == s.workers[w].slot.(queue := q[1..])
            && (forall i :: 0 <= i < |s.workers| && i != w ==> t.workers[i] == s.workers[i])
            && t.broadcasts == s.broadcasts && t.inboxFull == s.inboxFull
  {
  }

  /** Once every publisher is through, all broadcasts begun are accounted for at every live worker. */
  lemma AllAccounted(workers: nat, cap: nat, acts: seq<Action>, w: nat)
    requires w < workers
    requires var s := From(Start(workers, cap), acts);
             forall b :: 0 <= b < |s.broadcasts| ==> s.broadcasts[b].next >= workers
    ensures var s := From(Start(workers, cap), acts);
            && |s.workers| == workers
            && var k := s.workers[w];
            k.slot.live ==> Begun(acts) == |k.received| + |k.slot.queue| + k.slot.dropped
  {
    var s := From(Start(workers, cap), acts);
    HandOffConserves(workers, cap, acts, w);
    BegunExact(Start(workers, cap), acts);
    assert Issued(s, w) == Below(|s.broadcasts|);
  }

  function Below(n: nat): (ids: set<nat>)
    ensures |ids| == n && forall b: nat :: b in ids <==> b < n
  {
    if n == 0 then {} else Below(n - 1) + {n - 1}
  }

  /** In every interleaving a broadcast that has passed every worker was offered to each exactly once. */
  lemma OfferedOnce(workers: nat, cap: nat, acts: seq<Action>, b: nat, w: nat)
    requires w < workers
    requires var s := From(Start(workers, cap), acts); b < |s.broadcasts| && s.broadcasts[b].next >= |s.workers|
    ensures var s := From(Start(workers, cap), acts);
            |s.workers| == workers && Times(s.workers[w].offers, b) == 1
  {
    RunBooked(workers, cap, acts, b);
  }

  /** Broadcast `b` alone over the first `n` workers, each hand-off followed by the flag store it may owe. */
  function Solo(s: State, b: nat, n: nat): State
  {
    if n == 0 then s else Step(Step(Solo(s, b, n - 1), Hand(b)), Raise(b))
  }

  /** Run without interruption, the steps have the effect `BroadcastSink.Publish` states. */
  lemma {:induction false} SoloIsPublish(s: State, b: nat, n: nat)
    requires b < |s.broadcasts| && s.broadcasts[b] == Progress(0, false) && n <= |s.workers|
    ensures var t := Solo(s, b, n);
            && |t.workers| == |s.workers| && |t.broadcasts| == |s.broadcasts|
            && t.broadcasts[b] == Progress(n, false)
            && (forall i :: 0 <= i < |s.workers| ==>
                  t.workers[i].slot == if i < n then Offered(s.workers[i].slot, b) else s.workers[i].slot)
            && (t.inboxFull <==> s.inboxFull || exists i :: 0 <= i < n && TrySend(s.workers[i].slot) == Full)
  {
    if n > 0 {
      SoloIsPublish(s, b, n - 1);
      HandAndRaise(Solo(s, b, n - 1), b);
    }
  }

  lemma HandAndRaise(s: State, b: nat)
    requires b < |s.broadcasts| && !s.broadcasts[b].owesFlag && s.broadcasts[b].next < |s.workers|
    ensures var n := s.broadcasts[b].next;
            var t := Step(Step(s, Hand(b)), Raise(b));
            && |t.workers| == |s.workers| && |t.broadcasts| == |s.broadcasts|
            && t.broadcasts[b] == Progress(n + 1, false)
            && t.workers[n].slot == Offered(s.workers[n].slot, b)
            && (forall i :: 0 <= i < |s.workers| && i != n ==> t.workers[i] == s.workers[i])
            && t.inboxFull == (s.inboxFull || TrySend(s.workers[n].slot) == Full)
  {
  }

  // ---------- saturation ----------

  /** A drop: this hand-off finds a live worker's inbox full. */
  predicate Drops(s: State, b: nat)
  {
    && b < |s.broadcasts| && !s.broadcasts[b].owesFlag && s.broadcasts[b].next < |s.workers|
    && TrySend(s.workers[s.broadcasts[b].next].slot) == Full
  }

  lemma {:induction false} DropHolds(s: State, b: nat, acts: seq<Action>)
    requires b < |s.broadcasts| && (s.broadcasts[b].owesFlag || s.inboxFull)
    requires ClearInbox !in acts
    ensures var t := From(s, acts);
            b < |t.broadcasts| && (t.broadcasts[b].owesFlag || t.inboxFull)
  {
    if acts != [] {
      DropHolds(s, b, acts[..|acts| - 1]);
      assert acts[|acts| - 1] in acts;
    }
  }

  /**
   From any drop in any state, and however the run goes on without an inbox clear: the
   publisher's own next step is still the flag store, or the node is saturated.
   */
  lemma DropSaturates(s: State, b: nat, acts: seq<Action>)
    requires Drops(s, b) && ClearInbox !in acts
    ensures var t := From(Step(s, Hand(b)), acts);
            && b < |t.broadcasts|
            && (t.broadcasts[b].owesFlag || Saturated(t))
            && Saturated(Step(t, Raise(b)))
  {
    DropHolds(Step(s, Hand(b)), b, acts);
  }

  /** A bound worker's budget bit holds the node saturated through any clears, until that bit itself is lowered. */
  lemma {:induction false} BudgetHolds(s: State, w: nat, acts: seq<Action>)
    requires w < |s.workers| && s.bound && s.workers[w].slot.budget
    requires SetBudget(w, false) !in acts
    ensures var t := From(s, acts);
            |t.workers| == |s.workers| && t.bound && t.workers[w].slot.budget && Saturated(t)
  {
    if acts == [] {
      assert From(s, acts).workers[w].slot.budget;
    } else {
      BudgetHolds(s, w, acts[..|acts| - 1]);
      assert acts[|acts| - 1] in acts;
      assert From(s, acts).workers[w].slot.budget;
    }
  }

  // ---------- saturation, from the actions alone ----------

  /** Some flag store has been carried out since the last clear. */
  ghost predicate Raised(s: State, acts: seq<Action>)
  {
    acts != [] &&
    (var init, act := acts[..|acts| - 1], acts[|acts| - 1];
     var now := From(s, init);
     if act.Raise? && act.b < |now.broadcasts| && now.broadcasts[act.b].owesFlag then true
     else act != ClearInbox && Raised(s, init))
  }

  /** The last report of worker `w` said it is over its budget. */
  ghost predicate OverBudget(acts: seq<Action>, w: nat)
  {
    acts != [] &&
    (var act := acts[|acts| - 1];
     if act.SetBudget? && act.w == w then act.over else OverBudget(acts[..|acts| - 1], w))
  }

  lemma StepFlags(s: State, act: Action)
    ensures var t := Step(s, act);
            && |t.workers| == |s.workers| && t.bound == (s.bound || act == Bind)
            && t.inboxFull == if act.Raise? && act.b < |s.broadcasts| && s.broadcasts[act.b].owesFlag then true
                              else act != ClearInbox && s.inboxFull
  {
  }

  lemma StepBudget(s: State, act: Action, w: nat)
    requires w < |s.workers|
    ensures |Step(s, act).workers| == |s.workers|
    ensures Step(s, act).workers[w].slot.budget ==
            if act.SetBudget? && act.w == w then act.over else s.workers[w].slot.budget
  {
  }

  lemma {:induction false} FlagsExact(s: State, acts: seq<Action>)
    requires !s.inboxFull && !s.bound
    ensures var t := From(s, acts);
            |t.workers| == |s.workers| && t.inboxFull == Raised(s, acts) && t.bound == (Bind in acts)
  {
    if acts != [] {
      var init, act := acts[..|acts| - 1], acts[|acts| - 1];
      FlagsExact(s, init);
      StepFlags(From(s, init), act);
      assert acts == init + [act];
    }
  }

  /** A worker is live until it vanishes. */
  lemma {:induction false} LiveExact(s: State, acts: seq<Action>, w: nat)
    requires w < |s.workers| && s.workers[w].slot.live
    ensures |From(s, acts).workers| == |s.workers| && From(s, acts).workers[w].slot.live == (Vanish(w) !in acts)
  {
    if acts != [] {
      var init, act := acts[..|acts| - 1], acts[|acts| - 1];
      LiveExact(s, init, w);
      StepLive(From(s, init), act, w);
      assert acts == init + [act];
    }
  }

  lemma StepLive(s: State, act: Action, w: nat)
    requires w < |s.workers|
    ensures |Step(s, act).workers| == |s.workers|
    ensures Step(s, act).workers[w].slot.live == (s.workers[w].slot.live && act != Vanish(w))
  {
  }

  lemma {:induction false} BudgetExact(s: State, acts: seq<Action>, w: nat)
    requires w < |s.workers| && !s.workers[w].slot.budget
    ensures |From(s, acts).workers| == |s.workers| && From(s, acts).workers[w].slot.budget == OverBudget(acts, w)
  {
    if acts != [] {
      BudgetExact(s, acts[..|acts| - 1], w);
      StepBudget(From(s, acts[..|acts| - 1]), acts[|acts| - 1], w);
    }
  }

  /** The workers last known to be over their budget. */
  ghost function Over(acts: seq<Action>, workers: nat): set<nat>
  {
    set w: nat | w < workers && OverBudget(acts, w)
  }

  /**
   Over every run the node is saturated if and only if a drop has been flagged since the last
   clear, or the workers are bound and one last reported being over its budget.
   */
  lemma SaturatedExact(workers: nat, cap: nat, acts: seq<Action>)
    ensures Saturated(From(Start(workers, cap), acts)) <==>
            Raised(Start(workers, cap), acts) || (Bind in acts && Over(acts, workers) != {})
  {
    var s := Start(workers, cap);
    var t := From(s, acts);
    FlagsExact(s, acts);
    forall w: nat | w < workers ensures t.workers[w].slot.budget == (w in Over(acts, workers)) {
      BudgetExact(s, acts, w);
    }
    if Over(acts, workers) != {} {
      var w :| w in Over(acts, workers);
      assert t.workers[w].slot.budget;
    } else {
      forall i | 0 <= i < |t.workers| ensures !t.workers[i].slot.budget {
        assert i !in Over(acts, workers);
      }
    }
  }

  /** A clear lowers saturation exactly when no bound budget bit is set. */
  lemma ClearExact(s: State)
    ensures Saturated(Step(s, ClearInbox)) <==>
            s.bound && exists i :: 0 <= i < |s.workers| && s.workers[i].slot.budget
  {
  }

  /**
   The flag is the node's, not the worker's: after any drop, the first clear by any worker
   lowers it although the inbox that was full still is.
   */
  lemma ClearForAnother(s: State, b: nat)
    requires Drops(s, b) && forall i :: 0 <= i < |s.workers| ==> !s.workers[i].slot.budget
    ensures var t := Step(Step(Step(s, Hand(b)), Raise(b)), ClearInbox);
            && |t.workers| == |s.workers| && !Saturated(t)
            && TrySend(t.workers[s.broadcasts[b].next].slot) == Full
  {
    var t := Step(Step(Step(s, Hand(b)), Raise(b)), ClearInbox);
    forall i | 0 <= i < |t.workers| ensures !t.workers[i].slot.budget {
      assert !s.workers[i].slot.budget;
    }
  }
}

/**
 The mailbox hand-off between sending threads and one worker, under every
 interleaving. A send is push, then mark dirty, then wake; the worker polls,
 collects the dirty tokens, and drains those mailboxes until they are empty or
 order a close.
 */
module MailboxSpec {
  import opened Prelude
  import ChannelSpec

  type Token(==, !new)
  type Sender(==, !new)
  type Message(==, !new)

  /** What a mailbox carries: an encoded channel frame, a message to encode, or the order to close. */
  datatype Event = Raw(frame: ChannelSpec.Frame) | Direct(message: Message) | Close

  /** One connection's bounded mailbox, with what was tried on it since it opened. */
  datatype Box = Box(
    queue: seq<Event>,
    capacity: nat,
    open: bool,
    accepted: seq<Event>,
    received: seq<Event>,
    dropped: nat,
    attempts: nat)

  /** A send in progress: queued but not marked, or marked but not woken. */
  datatype Sending = Pushed(tok: Token) | Marked

  datatype Worker =
    | Polling
    | Collecting(found: set<Token>)
    | Draining(left: set<Token>, current: Option<Token>, closing: bool)

  datatype State = State(
    boxes: map<Token, Box>,
    dirty: seq<Token>,
    sends: map<Sender, Sending>,
    wake: bool,
    worker: Worker)

  datatype Action =
    | Connect(tok: Token, capacity: nat)
    | Disconnect(tok: Token)
    | Push(id: Sender, tok: Token, event: Event)
    | Mark(id: Sender)
    | Wake(id: Sender)
    | PollReturns
    | CollectOne
    | CollectEnds
    | Visit(tok: Token)
    | DrainOne
    | DrainEnds
    | PollAgain

  /** `try_send`: queued, or dropped and counted when full, or refused when the receiver is gone. */
  function TrySend(b: Box, e: Event): Box
  {
    if !b.open then b
    else if |b.queue| < b.capacity then
      b.(queue := b.queue + [e], accepted := b.accepted + [e], attempts := b.attempts + 1)
    else b.(dropped := b.dropped + 1, attempts := b.attempts + 1)
  }

  predicate Takes(b: Box)
  {
    b.open && |b.queue| < b.capacity
  }

  function Receive(b: Box): Box
    requires b.queue != []
  {
    b.(queue := b.queue[1..], received := b.received + [b.queue[0]])
  }

  /** The connection is torn down, and what it had queued with it. */
  function Shut(b: Box): Box
  {
    b.(open := false, queue := [])
  }

  function NewBox(capacity: nat): Box
  {
    Box([], capacity, true, [], [], 0, 0)
  }

  ghost function SendStep(st: State, a: Action): State
    requires a.Push? || a.Mark? || a.Wake?
  {
    match a
    case Push(id, tok, e) =>
      if id in st.sends || tok !in st.boxes then st
      else
        var sent := st.(boxes := st.boxes[tok := TrySend(st.boxes[tok], e)]);
        if Takes(st.boxes[tok]) then sent.(sends := st.sends[id := Pushed(tok)]) else sent
    case Mark(id) =>
      if id in st.sends && st.sends[id].Pushed? then
        st.(dirty := st.dirty + [st.sends[id].tok], sends := st.sends[id := Marked])
      else st
    case Wake(id) =>
      if id in st.sends && st.sends[id].Marked? then st.(wake := true, sends := st.sends - {id}) else st
  }

  /** Actions that are not enabled change nothing. */
  ghost function Step(st: State, a: Action): State
  {
    match a
    case Connect(tok, capacity) =>
      if tok in st.boxes && st.boxes[tok].open then st else st.(boxes := st.boxes[tok := NewBox(capacity)])
    case Disconnect(tok) =>
      if tok in st.boxes then st.(boxes := st.boxes[tok := Shut(st.boxes[tok])]) else st
    case PollReturns => if st.worker.Polling? then st.(worker := Collecting({}), wake := false) else st
    case CollectOne =>
      if st.worker.Collecting? && st.dirty != [] then
        st.(worker := Collecting(st.worker.found + {st.dirty[0]}), dirty := st.dirty[1..])
      else st
    case CollectEnds =>
      if st.worker.Collecting? && st.dirty == [] then st.(worker := Draining(st.worker.found, None, false)) else st
    case Visit(tok) =>
      if st.worker.Draining? && st.worker.current.None? && tok in st.worker.left then
        st.(worker := Draining(st.worker.left - {tok}, Some(tok), false))
      else st
    case DrainOne =>
      if st.worker.Draining? && st.worker.current.Some? && !st.worker.closing && HasMail(st, st.worker.current.value) then
        var tok := st.worker.current.value;
        st.(boxes := st.boxes[tok := Receive(st.boxes[tok])],
            worker := st.worker.(closing := st.boxes[tok].queue[0].Close?))
      else st
    case DrainEnds =>
      if st.worker.Draining? && st.worker.current.Some?
         && (st.worker.closing || !HasMail(st, st.worker.current.value)) then
        var tok := st.worker.current.value;
        st.(boxes := if st.worker.closing && tok in st.boxes then st.boxes[tok := Shut(st.boxes[tok])] else st.boxes,
            worker := Draining(st.worker.left, None, false))
      else st
    case PollAgain => if st.worker == Draining({}, None, false) then st.(worker := Polling) else st
    case _ => SendStep(st, a)
  }

  ghost predicate HasMail(st: State, tok: Token)
  {
    tok in st.boxes && st.boxes[tok].open && st.boxes[tok].queue != []
  }

  ghost function Run(acts: seq<Action>): State
  {
    if acts == [] then State(map[], [], map[], false, Polling) else Step(Run(acts[..|acts| - 1]), acts[|acts| - 1])
  }

  // ---------- no lost wake-up ----------

  /** The token is with the worker: collected, or being drained. */
  ghost predicate InWorker(w: Worker, tok: Token)
  {
    match w
    case Polling => false
    case Collecting(found) => tok in found
    case Draining(left, current, _) => tok in left || current == Some(tok)
  }

  /** Some send has pushed to `tok` and not yet marked it. */
  ghost predicate OwesMark(st: State, tok: Token)
  {
    exists id :: id in st.sends && st.sends[id] == Pushed(tok)
  }

  ghost predicate Noticed(st: State, tok: Token)
  {
    HasMail(st, tok) ==> tok in st.dirty || InWorker(st.worker, tok) || OwesMark(st, tok)
  }

  ghost predicate OwesWake(st: State)
  {
    exists id :: id in st.sends && st.sends[id] == Marked
  }

  /** Outside a collection, queued tokens come with a pending wake or a sender about to issue one. */
  ghost predicate Roused(st: State)
  {
    !st.worker.Collecting? && st.dirty != [] ==> st.wake || OwesWake(st)
  }

  lemma SendNoticed(st: State, a: Action, tok: Token)
    requires a.Push? || a.Mark? || a.Wake?
    requires Noticed(st, tok)
    ensures Noticed(SendStep(st, a), tok)
  {
    var next := SendStep(st, a);
    if OwesMark(st, tok) {
      var id :| id in st.sends && st.sends[id] == Pushed(tok);
      if a.id != id {
        assert id in next.sends && next.sends[id] == Pushed(tok);
      }
    }
    if a.Push? && a.tok == tok && next.sends != st.sends {
      assert a.id in next.sends && next.sends[a.id] == Pushed(tok);
    }
  }

  lemma StepNoticed(st: State, a: Action, tok: Token)
    requires Noticed(st, tok)
    ensures Noticed(Step(st, a), tok)
  {
    if a.Push? || a.Mark? || a.Wake? {
      SendNoticed(st, a, tok);
    } else {
      var next := Step(st, a);
      assert next.sends == st.sends;
      assert OwesMark(st, tok) ==> OwesMark(next, tok);
      if a.CollectOne? && st.dirty != [] {
        assert st.dirty == [st.dirty[0]] + st.dirty[1..];
      }
    }
  }

  lemma StepRoused(st: State, a: Action)
    requires Roused(st)
    ensures Roused(Step(st, a))
  {
    var next := Step(st, a);
    if OwesWake(st) {
      var id :| id in st.sends && st.sends[id] == Marked;
      if !(a.Wake? && a.id == id) {
        assert id in next.sends && next.sends[id] == Marked;
      }
    }
    if a.Mark? && a.id in st.sends && st.sends[a.id].Pushed? {
      assert a.id in next.sends && next.sends[a.id] == Marked;
    }
  }

  lemma {:induction false} RunNoticed(acts: seq<Action>, tok: Token)
    ensures Noticed(Run(acts), tok) && Roused(Run(acts))
  {
    if acts != [] {
      RunNoticed(acts[..|acts| - 1], tok);
      StepNoticed(Run(acts[..|acts| - 1]), acts[|acts| - 1], tok);
      StepRoused(Run(acts[..|acts| - 1]), acts[|acts| - 1]);
    }
  }

  /** The worker is blocked in its poll with no wake pending, and no send is in progress. */
  ghost predicate Asleep(st: State)
  {
    st.worker.Polling? && !st.wake && st.sends == map[]
  }

  /**
   No lost wake-up: in every reachable state a non-empty mailbox has its token
   queued, collected, being drained, or owed by a sender between push and mark;
   so a worker that could sleep for good has no mail waiting anywhere.
   */
  lemma NoLostWakeUp(acts: seq<Action>, tok: Token)
    ensures var st := Run(acts);
            && (HasMail(st, tok) ==> tok in st.dirty || InWorker(st.worker, tok) || OwesMark(st, tok))
            && (Asleep(st) ==> !HasMail(st, tok))
  {
    RunNoticed(acts, tok);
  }

  // ---------- conservation and order ----------

  /**
   What has been received is the first of what was accepted, in order; and everything
   tried on an open mailbox is received, queued or counted as dropped.
   */
  ghost predicate Conserved(b: Box)
  {
    && b.received <= b.accepted
    && (!b.open ==> b.queue == [])
    && (b.open ==> b.accepted == b.received + b.queue && b.attempts == |b.received| + |b.queue| + b.dropped
                   && |b.queue| <= b.capacity)
  }

  lemma SendConserves(b: Box, e: Event)
    requires Conserved(b)
    ensures Conserved(TrySend(b, e))
  {
    assert b.received + b.queue + [e] == b.received + (b.queue + [e]);
  }

  lemma ReceiveConserves(b: Box)
    requires Conserved(b) && b.queue != []
    ensures Conserved(Receive(b))
  {
    assert b.queue == [b.queue[0]] + b.queue[1..];
    assert b.received + [b.queue[0]] + b.queue[1..] == b.received + b.queue;
  }

  /** What a step does to one mailbox: nothing, a send, a receive, a teardown or a new connection. */
  lemma StepBox(st: State, a: Action, tok: Token)
    requires tok in Step(st, a).boxes
    ensures var b := Step(st, a).boxes[tok];
            || (a.Connect? && b == NewBox(a.capacity))
            || (tok in st.boxes &&
                  (b == st.boxes[tok] || b == Shut(st.boxes[tok])
                   || (a.Push? && b == TrySend(st.boxes[tok], a.event))
                   || (st.boxes[tok].queue != [] && b == Receive(st.boxes[tok]))))
  {
  }

  lemma {:induction false} MailConserved(acts: seq<Action>, tok: Token)
    requires tok in Run(acts).boxes
    ensures Conserved(Run(acts).boxes[tok])
  {
    if acts != [] {
      var st, a := Run(acts[..|acts| - 1]), acts[|acts| - 1];
      StepBox(st, a, tok);
      if tok in st.boxes {
        MailConserved(acts[..|acts| - 1], tok);
        if a.Push? {
          SendConserves(st.boxes[tok], a.event);
        } else if st.boxes[tok].queue != [] {
          ReceiveConserves(st.boxes[tok]);
        }
      }
    }
  }

  // ---------- what is in a mailbox, from the sends alone ----------

  /** A send to an open mailbox queues exactly its event, or counts one drop when it is full; else nothing happens. */
  lemma TrySendExact(b: Box, e: Event)
    ensures var after := TrySend(b, e);
            && after.open == b.open && after.capacity == b.capacity && after.received == b.received
            && (b.open && |b.queue| < b.capacity ==> after.queue == b.queue + [e] && after.dropped == b.dropped)
            && (b.open && |b.queue| >= b.capacity ==> after.queue == b.queue && after.dropped == b.dropped + 1)
            && (!b.open ==> after == b)
  {
  }

  /** The step opens a fresh mailbox for `tok`. */
  ghost predicate Opens(st: State, a: Action, tok: Token)
  {
    a.Connect? && a.tok == tok && !(tok in st.boxes && st.boxes[tok].open)
  }

  /** The step tries an event on the open mailbox of `tok`. */
  ghost predicate Tries(st: State, a: Action, tok: Token)
  {
    a.Push? && a.tok == tok && a.id !in st.sends && tok in st.boxes && st.boxes[tok].open
  }

  /** The events pushed to `tok` since it last connected that found its mailbox open and not full. */
  ghost function Posted(acts: seq<Action>, tok: Token): seq<Event>
  {
    if acts == [] then []
    else
      var init, a := acts[..|acts| - 1], acts[|acts| - 1];
      var st := Run(init);
      if Opens(st, a, tok) then []
      else if Tries(st, a, tok) && |st.boxes[tok].queue| < st.boxes[tok].capacity then Posted(init, tok) + [a.event]
      else Posted(init, tok)
  }

  /** How many events were tried on it since then. */
  ghost function Tried(acts: seq<Action>, tok: Token): nat
  {
    if acts == [] then 0
    else
      var init, a := acts[..|acts| - 1], acts[|acts| - 1];
      if Opens(Run(init), a, tok) then 0 else Tried(init, tok) + (if Tries(Run(init), a, tok) then 1 else 0)
  }

  /** The capacity it last connected with. */
  ghost function Granted(acts: seq<Action>, tok: Token): nat
  {
    if acts == [] then 0
    else
      var init, a := acts[..|acts| - 1], acts[|acts| - 1];
      if Opens(Run(init), a, tok) then a.capacity else Granted(init, tok)
  }

  /** What one step leaves of a mailbox's record of events accepted, tried and allowed. */
  lemma StepRecord(st: State, a: Action, tok: Token)
    requires tok in Step(st, a).boxes
    ensures var b := Step(st, a).boxes[tok];
            if Opens(st, a, tok) then b.accepted == [] && b.attempts == 0 && b.capacity == a.capacity
            else
              && tok in st.boxes && b.capacity == st.boxes[tok].capacity
              && b.attempts == st.boxes[tok].attempts + (if Tries(st, a, tok) then 1 else 0)
              && b.accepted == st.boxes[tok].accepted +
                   (if Tries(st, a, tok) && |st.boxes[tok].queue| < st.boxes[tok].capacity then [a.event] else [])
  {
    if tok in st.boxes {
      assert st.boxes[tok].accepted + [] == st.boxes[tok].accepted;
    }
  }

  /** Over every run a mailbox has accepted exactly the events posted to it, in order. */
  lemma {:induction false} PostedExact(acts: seq<Action>, tok: Token)
    requires tok in Run(acts).boxes
    ensures var b := Run(acts).boxes[tok];
            b.accepted == Posted(acts, tok) && b.attempts == Tried(acts, tok) && b.capacity == Granted(acts, tok)
  {
    if acts != [] {
      var init, a := acts[..|acts| - 1], acts[|acts| - 1];
      StepRecord(Run(init), a, tok);
      if !Opens(Run(init), a, tok) {
        PostedExact(init, tok);
      }
    }
  }

  /** `tok` has connected, and has neither disconnected nor been torn down for a close order since. */
  ghost predicate Connected(acts: seq<Action>, tok: Token)
  {
    acts != [] &&
    (var init, a := acts[..|acts| - 1], acts[|acts| - 1];
     if a.Connect? && a.tok == tok then true
     else if a == Disconnect(tok) || (a.DrainEnds? && Closing(Run(init).worker, tok)) then false
     else Connected(init, tok))
  }

  /** Over every run a mailbox is open exactly while its connection is. */
  lemma {:induction false} OpenExact(acts: seq<Action>, tok: Token)
    ensures tok in Run(acts).boxes && Run(acts).boxes[tok].open <==> Connected(acts, tok)
  {
    if acts != [] {
      OpenExact(acts[..|acts| - 1], tok);
      StepOpen(Run(acts[..|acts| - 1]), acts[|acts| - 1], tok);
    }
  }

  lemma StepOpen(st: State, a: Action, tok: Token)
    ensures var next := Step(st, a);
            tok in next.boxes && next.boxes[tok].open <==>
            || (a.Connect? && a.tok == tok)
            || (tok in st.boxes && st.boxes[tok].open && a != Disconnect(tok) && !(a.DrainEnds? && Closing(st.worker, tok)))
  {
  }

  /** So what an open mailbox has delivered and still holds is what was posted, and the rest tried was dropped. */
  lemma MailExact(acts: seq<Action>, tok: Token)
    requires tok in Run(acts).boxes
    ensures var b := Run(acts).boxes[tok];
            && b.received <= Posted(acts, tok)
            && (b.open ==> b.received + b.queue == Posted(acts, tok) && b.dropped == Tried(acts, tok) - |Posted(acts, tok)|)
  {
    PostedExact(acts, tok);
    MailConserved(acts, tok);
  }

  // ---------- nothing is delivered after a close order ----------

  /** The worker has received a close order for `tok` and is about to tear it down. */
  ghost predicate Closing(w: Worker, tok: Token)
  {
    w.Draining? && w.closing && w.current == Some(tok)
  }

  /** A close order is the last event received, and then the connection is closed or being closed. */
  ghost predicate EndsAtClose(b: Box, closing: bool)
  {
    && (forall i :: 0 <= i < |b.received| - 1 ==> b.received[i] != Close)
    && (b.received != [] && b.received[|b.received| - 1] == Close ==> !b.open || closing)
  }

  lemma StepEndsAtClose(st: State, a: Action, tok: Token)
    requires tok in st.boxes ==> EndsAtClose(st.boxes[tok], Closing(st.worker, tok))
    requires tok in Step(st, a).boxes
    ensures EndsAtClose(Step(st, a).boxes[tok], Closing(Step(st, a).worker, tok))
  {
  }

  lemma {:induction false} NothingAfterClose(acts: seq<Action>, tok: Token)
    requires tok in Run(acts).boxes
    ensures EndsAtClose(Run(acts).boxes[tok], Closing(Run(acts).worker, tok))
  {
    if acts != [] {
      var init := acts[..|acts| - 1];
      if tok in Run(init).boxes {
        NothingAfterClose(init, tok);
      }
      StepEndsAtClose(Run(init), acts[|acts| - 1], tok);
    }
  }
}

/** A worker's mailboxes with no send in progress: the whole send, and one drain of the dirty connections. */
module Mailbox {
  import opened Prelude
  import opened MailboxSpec

  class MailboxWorker {
    var boxes: map<Token, Box>
    var dirty: seq<Token>
    var wake: bool

    /** Every connection with mail is marked dirty, and marks come with a pending wake. */
    ghost predicate Valid()
      reads this
    {
      && (forall t :: t in boxes ==> Conserved(boxes[t]))
      && (forall t :: Mail(boxes, t) ==> t in dirty)
      && (dirty != [] ==> wake)
    }

    constructor ()
      ensures Valid() && boxes == map[]
    {
      boxes, dirty, wake := map[], [], false;
    }

    /** Queue an event for a connection; fails only when its receiver is gone. */
    method Send(tok: Token, e: Event) returns (ok: bool)
      requires Valid() && tok in boxes
      modifies this
      ensures Valid()
      ensures ok <==> old(boxes)[tok].open
      ensures boxes == old(boxes)[tok := TrySend(old(boxes)[tok], e)]
      ensures old(boxes)[tok].open && |old(boxes)[tok].queue| < old(boxes)[tok].capacity ==>
                boxes[tok].queue == old(boxes)[tok].queue + [e] && boxes[tok].dropped == old(boxes)[tok].dropped && wake
      ensures old(boxes)[tok].open && |old(boxes)[tok].queue| >= old(boxes)[tok].capacity ==>
                boxes[tok].queue == old(boxes)[tok].queue && boxes[tok].dropped == old(boxes)[tok].dropped + 1
      ensures dirty == if Takes(old(boxes)[tok]) then old(dirty) + [tok] else old(dirty)
      ensures wake <==> old(wake) || Takes(old(boxes)[tok])
    {
      var b := boxes[tok];
      SendConserves(b, e);
      if !b.open {
        return false;
      }
      boxes := boxes[tok := TrySend(b, e)];
      if |b.queue| >= b.capacity {
        return true;
      }
      dirty := dirty + [tok];
      wake := true;
      return true;
    }

    /**
     Drain one open connection's mailbox, in order, until it is empty or orders a close; the
     connection is torn down on that order, or when writing what was received fails.
     */
    method DrainSession(tok: Token, writeFails: bool)
      requires forall t :: t in boxes ==> Conserved(boxes[t])
      modifies this`boxes
      ensures forall t :: t in boxes ==> Conserved(boxes[t])
      ensures boxes == if tok in old(boxes) && old(boxes)[tok].open
                       then old(boxes)[tok := Session(old(boxes)[tok], writeFails)] else old(boxes)
      ensures tok in old(boxes) && old(boxes)[tok].open ==>
                var q := old(boxes)[tok].queue;
                && boxes[tok].queue == [] && boxes[tok].received == old(boxes)[tok].received + UpToClose(q)
                && (boxes[tok].open <==> Close !in q && !(q != [] && writeFails))
    {
      if tok !in boxes || !boxes[tok].open {
        return;
      }
      var b, closing := ReadUntilClose(boxes[tok]);
      SessionConserved(boxes[tok], writeFails);
      if closing || (boxes[tok].queue != [] && writeFails) {
        b := Shut(b);
      }
      boxes := boxes[tok := b];
    }

    /** Take the wake and every dirty token, each once. */
    method Collect() returns (found: set<Token>)
      modifies this`dirty, this`wake
      ensures dirty == [] && !wake && forall t :: t in found <==> t in old(dirty)
    {
      wake, found := false, {};
      while dirty != []
        invariant !wake && forall t :: t in old(dirty) <==> t in found || t in dirty
        decreases |dirty|
      {
        assert dirty == [dirty[0]] + dirty[1..];
        found := found + {dirty[0]};
        dirty := dirty[1..];
      }
    }

    /** One pass over the dirty connections: each is drained once, and no open mailbox keeps mail. */
    method DrainDirty(writeFails: Token -> bool)
      requires Valid()
      modifies this
      ensures Valid() && dirty == [] && !wake && boxes.Keys == old(boxes).Keys
      ensures forall t :: !Mail(boxes, t)
      ensures forall t :: t in boxes ==>
                boxes[t] == if old(boxes)[t].open then Session(old(boxes)[t], writeFails(t)) else old(boxes)[t]
    {
      ghost var before, marked := boxes, dirty;
      var found := Collect();
      DrainFound(found, writeFails);
      forall t | t in before && before[t].open && t !in marked
        ensures Session(before[t], writeFails(t)) == before[t]
      {
        EmptySession(before[t], writeFails(t));
      }
    }

    /** Drain each collected connection once. */
    method DrainFound(tokens: set<Token>, writeFails: Token -> bool)
      requires forall t :: t in boxes ==> Conserved(boxes[t])
      modifies this`boxes
      ensures boxes.Keys == old(boxes).Keys && forall t :: t in boxes ==> Conserved(boxes[t])
      ensures forall t :: t in boxes ==>
                boxes[t] == if old(boxes)[t].open && t in tokens then Session(old(boxes)[t], writeFails(t)) else old(boxes)[t]
    {
      var left := tokens;
      while left != {}
        invariant left <= tokens && boxes.Keys == old(boxes).Keys
        invariant forall t :: t in boxes ==> Conserved(boxes[t])
        invariant forall t :: t in boxes ==>
                    boxes[t] == if old(boxes)[t].open && t in tokens - left
                                then Session(old(boxes)[t], writeFails(t)) else old(boxes)[t]
        decreases |left|
      {
        var tok :| tok in left;
        left := left - {tok};
        DrainSession(tok, writeFails(tok));
      }
    }
  }

  predicate Mail(boxes: map<Token, Box>, tok: Token)
  {
    tok in boxes && boxes[tok].open && boxes[tok].queue != []
  }

  predicate HasClose(q: seq<Event>)
  {
    Close in q
  }

  /** The queued events up to and including the first order to close. */
  function UpToClose(q: seq<Event>): seq<Event>
  {
    if q == [] then [] else if q[0].Close? then [q[0]] else [q[0]] + UpToClose(q[1..])
  }

  /** The receive loop of a drain. */
  method ReadUntilClose(b: Box) returns (r: Box, closing: bool)
    ensures r == ReadThrough(b) && (closing <==> HasClose(b.queue))
    ensures !closing ==> r.queue == []
  {
    r, closing := b, false;
    while r.queue != [] && !closing
      invariant if closing then r == ReadThrough(b) else ReadThrough(r) == ReadThrough(b)
      invariant HasClose(b.queue) <==> closing || HasClose(r.queue)
      decreases |r.queue|
    {
      assert r.queue == [r.queue[0]] + r.queue[1..];
      closing := r.queue[0].Close?;
      r := Receive(r);
    }
  }

  ghost function ReadThrough(b: Box): Box
    decreases |b.queue|
  {
    if b.queue == [] then b else if b.queue[0].Close? then Receive(b) else ReadThrough(Receive(b))
  }

  lemma {:induction false} ReadThroughIs(b: Box)
    ensures ReadThrough(b) == b.(queue := ReadThrough(b).queue, received := b.received + UpToClose(b.queue))
    decreases |b.queue|
  {
    if b.queue == [] {
      assert b.received + [] == b.received;
    } else if !b.queue[0].Close? {
      ReadThroughIs(Receive(b));
      assert b.received + [b.queue[0]] + UpToClose(b.queue[1..]) == b.received + ([b.queue[0]] + UpToClose(b.queue[1..]));
    }
  }

  lemma SessionConserved(b: Box, writeFails: bool)
    requires Conserved(b) && b.open
    ensures Conserved(Session(b, writeFails))
    ensures var r := ReadThrough(b);
            Session(b, writeFails) ==
            if HasClose(b.queue) || (b.queue != [] && writeFails) then Shut(r) else r.(queue := [])
  {
    ReadThroughIs(b);
    UpToCloseFacts(b.queue);
    assert b.received + UpToClose(b.queue) <= b.accepted;
  }

  /** An open mailbox after one drain of its connection. */
  ghost function Session(b: Box, writeFails: bool): Box
  {
    var read := b.(queue := [], received := b.received + UpToClose(b.queue));
    if HasClose(b.queue) || (b.queue != [] && writeFails) then read.(open := false) else read
  }

  lemma EmptySession(b: Box, writeFails: bool)
    requires b.queue == []
    ensures Session(b, writeFails) == b
  {
    assert b.received + UpToClose(b.queue) == b.received;
  }

  /** A drain that meets no close order receives everything; one that does receives nothing after it. */
  lemma {:induction false} UpToCloseFacts(q: seq<Event>)
    ensures UpToClose(q) <= q
    ensures !HasClose(q) ==> UpToClose(q) == q
    ensures HasClose(q) ==>
              var n := |UpToClose(q)|;
              n > 0 && q[n - 1] == Close && Close !in q[..n - 1]
  {
    if q != [] && !q[0].Close? {
      UpToCloseFacts(q[1..]);
      assert q == [q[0]] + q[1..];
      var n := |UpToClose(q)|;
      if HasClose(q) {
        assert Close in q[1..];
        assert q[..n - 1] == [q[0]] + q[1..][..n - 2];
      }
    }
  }

  // ---------- the drain as steps of the protocol ----------

  /** The worker is visiting `tok` and has met no close order. */
  ghost predicate Visiting(st: State, tok: Token)
  {
    && st.worker.Draining? && st.worker.current == Some(tok) && !st.worker.closing
    && tok in st.boxes && st.boxes[tok].open
  }

  ghost function Receives(st: State, n: nat): State
  {
    if n == 0 then st else Step(Receives(st, n - 1), DrainOne)
  }

  lemma {:induction false} ReceivesFirst(st: State, n: nat)
    requires n > 0
    ensures Receives(st, n) == Receives(Step(st, DrainOne), n - 1)
  {
    if n > 1 {
      ReceivesFirst(st, n - 1);
    }
  }

  /** A close order at the head ends the visit after one receive. */
  lemma CloseEndsVisit(st: State, tok: Token)
    requires Visiting(st, tok) && st.boxes[tok].queue != [] && st.boxes[tok].queue[0].Close?
    ensures |UpToClose(st.boxes[tok].queue)| == 1
    ensures var end := Step(Step(st, DrainOne), DrainEnds);
            end.boxes == st.boxes[tok := Session(st.boxes[tok], false)] && end.worker == Draining(st.worker.left, None, false)
  {
    var b := st.boxes[tok];
    assert b.queue[0] in b.queue;
    assert Session(b, false) == Shut(Receive(b));
    assert st.boxes[tok := Receive(b)][tok := Shut(Receive(b))] == st.boxes[tok := Shut(Receive(b))];
  }

  /** Receiving as long as the loop does, and ending the visit, leaves the mailbox the drain leaves. */
  lemma {:induction false} VisitIsSession(st: State, tok: Token)
    requires Visiting(st, tok)
    ensures var b, n := st.boxes[tok], |UpToClose(st.boxes[tok].queue)|;
            var end := Step(Receives(st, n), DrainEnds);
            end.boxes == st.boxes[tok := Session(b, false)] && end.worker == Draining(st.worker.left, None, false)
    decreases |st.boxes[tok].queue|
  {
    var b := st.boxes[tok];
    if b.queue == [] {
      EmptySession(b, false);
      assert st.boxes[tok := b] == st.boxes;
    } else {
      var next := Step(st, DrainOne);
      assert next.boxes == st.boxes[tok := Receive(b)];
      ReceivesFirst(st, |UpToClose(b.queue)|);
      if b.queue[0].Close? {
        CloseEndsVisit(st, tok);
      } else {
        VisitIsSession(next, tok);
        SessionReceives(b);
        assert st.boxes[tok := Receive(b)][tok := Session(b, false)] == st.boxes[tok := Session(b, false)];
      }
    }
  }

  lemma SessionReceives(b: Box)
    requires b.queue != [] && !b.queue[0].Close?
    ensures Session(Receive(b), false) == Session(b, false)
  {
    assert b.queue == [b.queue[0]] + b.queue[1..];
    assert b.received + [b.queue[0]] + UpToClose(b.queue[1..]) == b.received + UpToClose(b.queue);
  }

  /** Push, mark and wake with nothing in between have the effect `MailboxWorker.Send` states. */
  lemma SendIsSteps(st: State, id: Sender, tok: Token, e: Event)
    requires id !in st.sends && tok in st.boxes
    ensures var takes := Takes(st.boxes[tok]);
            Step(Step(Step(st, Push(id, tok, e)), Mark(id)), Wake(id)) ==
            st.(boxes := st.boxes[tok := TrySend(st.boxes[tok], e)],
                dirty := if takes then st.dirty + [tok] else st.dirty,
                wake := st.wake || takes)
  {
    assert st.sends[id := Pushed(tok)][id := Marked] - {id} == st.sends;
  }

  ghost function Collects(st: State, n: nat): State
    decreases n
  {
    if n == 0 then st else Collects(Step(st, CollectOne), n - 1)
  }

  lemma {:induction false} CollectsAll(st: State)
    requires st.worker.Collecting?
    ensures Collects(st, |st.dirty|) == st.(dirty := [], worker := Collecting(st.worker.found + (set t | t in st.dirty)))
    decreases |st.dirty|
  {
    if st.dirty == [] {
      assert st.worker.found + (set t | t in st.dirty) == st.worker.found;
    } else {
      var next := Step(st, CollectOne);
      CollectsAll(next);
      assert st.dirty == [st.dirty[0]] + st.dirty[1..];
      assert next.worker.found + (set t | t in next.dirty) == st.worker.found + (set t | t in st.dirty);
    }
  }

  /** A poll that returns takes the wake and every dirty token, each once, and turns to draining those. */
  lemma PollCollects(st: State)
    requires st.worker.Polling?
    ensures Step(Collects(Step(st, PollReturns), |st.dirty|), CollectEnds) ==
            st.(dirty := [], wake := false, worker := Draining((set t | t in st.dirty), None, false))
  {
    var start := Step(st, PollReturns);
    CollectsAll(start);
    assert {} + (set t | t in st.dirty) == (set t | t in st.dirty);
    assert Collects(start, |st.dirty|) == start.(dirty := [], worker := Collecting(set t | t in st.dirty));
  }

  /** Each collected token can be visited, and with none left the worker polls again. */
  lemma DrainTurns(st: State, tok: Token)
    requires st.worker.Draining? && st.worker.current.None? && !st.worker.closing
    ensures tok in st.worker.left ==> Step(st, Visit(tok)) == st.(worker := Draining(st.worker.left - {tok}, Some(tok), false))
    ensures st.worker.left == {} ==> Step(st, PollAgain) == st.(worker := Polling)
  {
  }
}

/**
 Delivery of one broadcast to the mailboxes of a detached membership snapshot,
 by the serial loop or by chunk jobs that interleave in any order.
 */
module Fanout {
  import opened Prelude
  import opened ChannelSpec
  import opened ChannelState
  import opened MailboxSpec
  import PresenceEdges

  const SEND_CHUNK: nat := 512

  /** Every mailbox of `targets` other than `except` is sent the frame once; no other mailbox is touched. */
  ghost function Delivered(boxes: map<SocketId, Box>, targets: set<SocketId>, frame: Frame, except: Option<SocketId>)
    : map<SocketId, Box>
  {
    map s | s in boxes :: if s in targets && Some(s) != except then TrySend(boxes[s], Raw(frame)) else boxes[s]
  }

  /** A delivery keeps every mailbox's books: each frame is queued in order or counted as dropped. */
  lemma DeliveryConserves(boxes: map<SocketId, Box>, targets: set<SocketId>, frame: Frame, except: Option<SocketId>)
    requires forall s :: s in boxes ==> Conserved(boxes[s])
    ensures var after := Delivered(boxes, targets, frame, except);
            forall s :: s in after ==> Conserved(after[s])
  {
    forall s | s in boxes ensures Conserved(Delivered(boxes, targets, frame, except)[s]) {
      SendConserves(boxes[s], Raw(frame));
    }
  }

  /**
   Mailbox by mailbox: a target other than the excluded one has the frame queued last, once, or counts one
   drop when it is full; a closed one and every other mailbox is as it was.
   */
  lemma DeliveredExact(boxes: map<SocketId, Box>, targets: set<SocketId>, frame: Frame, except: Option<SocketId>, s: SocketId)
    requires s in boxes
    ensures var after, b := Delivered(boxes, targets, frame, except), boxes[s];
            && after.Keys == boxes.Keys
            && (s !in targets || except == Some(s) || !b.open ==> after[s] == b)
            && (s in targets && except != Some(s) && b.open ==>
                  if |b.queue| < b.capacity then after[s].queue == b.queue + [Raw(frame)] && after[s].dropped == b.dropped
                  else after[s].queue == b.queue && after[s].dropped == b.dropped + 1)
  {
    TrySendExact(boxes[s], Raw(frame));
  }

  ghost function Sockets(ss: seq<SocketId>): set<SocketId>
  {
    set s | s in ss
  }

  ghost function Targets(f: Fanout): set<SocketId>
  {
    Sockets(f.snapshot)
  }

  class Mailboxes {
    var boxes: map<SocketId, Box>

    method SendOne(f: Fanout, s: SocketId)
      modifies this
      ensures boxes == if Some(s) == f.except || s !in old(boxes) then old(boxes)
                       else old(boxes)[s := TrySend(old(boxes)[s], Raw(f.frame))]
    {
      if Some(s) == f.except {
        return;
      }
      if s in boxes {
        boxes := boxes[s := TrySend(boxes[s], Raw(f.frame))];
      }
    }

    method SendSerial(f: Fanout)
      requires NoDup(f.snapshot)
      modifies this
      ensures boxes == Delivered(old(boxes), Targets(f), f.frame, f.except)
    {
      ghost var before := boxes;
      for i := 0 to |f.snapshot|
        invariant boxes == Delivered(before, Sockets(f.snapshot[..i]), f.frame, f.except)
      {
        assert f.snapshot[i] !in f.snapshot[..i];
        assert f.snapshot[..i + 1] == f.snapshot[..i] + [f.snapshot[i]];
        DeliveredOne(before, Sockets(f.snapshot[..i]), f.snapshot[i], f);
        assert Sockets(f.snapshot[..i + 1]) == Sockets(f.snapshot[..i]) + {f.snapshot[i]};
        SendOne(f, f.snapshot[i]);
      }
      assert f.snapshot[..|f.snapshot|] == f.snapshot;
    }

    /**
     The chunk jobs of the parallel path. `left[c]` is what job `c` still has to
     send; each turn any unfinished job sends one frame, so every interleaving of
     the jobs is covered.
     */
    method SendChunked(f: Fanout)
      requires NoDup(f.snapshot)
      modifies this
      ensures boxes == Delivered(old(boxes), Targets(f), f.frame, f.except)
    {
      ghost var before := boxes;
      var left := Chunks(f.snapshot);
      ChunksHold(f.snapshot);
      assert Targets(f) - Awaiting(left) == {};
      while exists c: nat :: c < |left| && left[c] != []
        invariant Held(left) <= multiset(f.snapshot)
        invariant boxes == Delivered(before, Targets(f) - Awaiting(left), f.frame, f.except)
        decreases |Held(left)|
      {
        var c: nat :| c < |left| && left[c] != [];
        var s := left[c][0];
        JobStep(f, left, c);
        DeliveredOne(before, Targets(f) - Awaiting(left), s, f);
        SendOne(f, s);
        left := left[c := left[c][1..]];
      }
      NoneHeld(left);
      assert Targets(f) - Awaiting(left) == Targets(f);
    }

    /** The two paths deliver the same thing. */
    method Send(f: Fanout)
      requires NoDup(f.snapshot)
      modifies this
      ensures boxes == Delivered(old(boxes), Targets(f), f.frame, f.except)
    {
      if !f.parallel {
        SendSerial(f);
      } else {
        SendChunked(f);
      }
    }
  }

  /** The snapshot cut into jobs of at most `SEND_CHUNK` sockets. */
  function Chunks(ss: seq<SocketId>): seq<seq<SocketId>>
  {
    if |ss| <= SEND_CHUNK then [ss] else [ss[..SEND_CHUNK]] + Chunks(ss[SEND_CHUNK..])
  }

  ghost function Held(jobs: seq<seq<SocketId>>): multiset<SocketId>
  {
    if jobs == [] then multiset{} else multiset(jobs[0]) + Held(jobs[1..])
  }

  ghost function Awaiting(jobs: seq<seq<SocketId>>): set<SocketId>
  {
    set s | s in Held(jobs)
  }

  /** Chunking loses and duplicates nothing. */
  lemma {:induction false} ChunksHold(ss: seq<SocketId>)
    ensures Held(Chunks(ss)) == multiset(ss)
  {
    if |ss| <= SEND_CHUNK {
      assert Held([ss][1..]) == multiset{};
    } else {
      ChunksHold(ss[SEND_CHUNK..]);
      var cs := Chunks(ss);
      assert cs[1..] == Chunks(ss[SEND_CHUNK..]);
      assert ss == ss[..SEND_CHUNK] + ss[SEND_CHUNK..];
    }
  }

  lemma {:induction false} HeldOne(jobs: seq<seq<SocketId>>, c: nat)
    requires c < |jobs| && jobs[c] != []
    ensures Held(jobs) == Held(jobs[c := jobs[c][1..]]) + multiset{jobs[c][0]}
  {
    if c == 0 {
      assert jobs[0] == [jobs[0][0]] + jobs[0][1..];
      assert jobs[0 := jobs[0][1..]][1..] == jobs[1..];
    } else {
      HeldOne(jobs[1..], c - 1);
      assert jobs[c := jobs[c][1..]][1..] == jobs[1..][c - 1 := jobs[c][1..]];
    }
  }

  /** No socket is owed twice. */
  lemma OwedOnce(ss: seq<SocketId>, held: multiset<SocketId>, s: SocketId)
    requires NoDup(ss) && held <= multiset(ss) && s in held
    ensures held[s] == 1 && s in ss
  {
    NoDupOnce(ss);
    assert held[s] <= multiset(ss)[s];
  }

  lemma AwaitingLess(before: multiset<SocketId>, after: multiset<SocketId>, s: SocketId)
    requires before == after + multiset{s} && before[s] == 1
    ensures (set x | x in after) == (set x | x in before) - {s}
    ensures after <= before && |after| < |before|
  {
    assert |before| == |after| + 1;
  }

  /** A job's next send takes exactly its own socket out of what the jobs still owe. */
  lemma JobStep(f: Fanout, left: seq<seq<SocketId>>, c: nat)
    requires NoDup(f.snapshot) && Held(left) <= multiset(f.snapshot)
    requires c < |left| && left[c] != []
    ensures var s, after := left[c][0], left[c := left[c][1..]];
            && Held(after) <= multiset(f.snapshot) && |Held(after)| < |Held(left)|
            && s in Targets(f) && s in Awaiting(left)
            && Targets(f) - Awaiting(after) == Targets(f) - Awaiting(left) + {s}
  {
    var s, after := left[c][0], left[c := left[c][1..]];
    HeldOne(left, c);
    OwedOnce(f.snapshot, Held(left), s);
    AwaitingLess(Held(left), Held(after), s);
    assert Awaiting(after) == Awaiting(left) - {s};
  }

  lemma DeliveredOne(boxes: map<SocketId, Box>, done: set<SocketId>, s: SocketId, f: Fanout)
    requires s !in done
    ensures var now := Delivered(boxes, done, f.frame, f.except);
            Delivered(boxes, done + {s}, f.frame, f.except) ==
            if Some(s) == f.except || s !in now then now else now[s := TrySend(now[s], Raw(f.frame))]
  {
  }

  lemma {:induction false} NoneHeld(jobs: seq<seq<SocketId>>)
    requires forall c: nat :: c < |jobs| ==> jobs[c] == []
    ensures Held(jobs) == multiset{}
  {
    if jobs != [] {
      NoneHeld(jobs[1..]);
    }
  }

  lemma {:induction false} NoDupOnce(ss: seq<SocketId>)
    requires NoDup(ss)
    ensures forall s :: s in ss ==> multiset(ss)[s] == 1
  {
    if ss != [] {
      NoDupOnce(ss[1..]);
      assert ss == [ss[0]] + ss[1..];
      assert ss[0] !in ss[1..];
    }
  }

  /**
   Snapshot under the guard, let any adds and removes run, then send: exactly the
   guard-time subscribers minus `except` are sent the frame, once each.
   */
  method BroadcastAcross(state: ChannelState, mail: Mailboxes, frame: Frame, except: Option<SocketId>,
                         between: seq<PresenceEdges.Op>)
    requires state.Valid()
    modifies state, mail
    ensures state.Valid() && state.joins == PresenceEdges.Applied(old(state.joins), between)
    ensures mail.boxes == Delivered(old(mail.boxes), old(state.subscribers.Keys), frame, except)
  {
    var f := state.FanOut(frame, except);
    assert Targets(f) == state.subscribers.Keys;
    for i := 0 to |between|
      invariant state.Valid()
      invariant state.joins == PresenceEdges.Applied(old(state.joins), between[..i])
      invariant mail.boxes == old(mail.boxes)
    {
      assert between[..i + 1][..i] == between[..i];
      var _ := PresenceEdges.DriveOne(state, between[i]);
    }
    assert between[..|between|] == between;
    mail.Send(f);
  }
}

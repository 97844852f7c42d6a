/**
 The cluster adapter's worker calls and the bridge's drain loop, as calls on one
 node. Each is proved to be the corresponding steps of `NodeToken`.
 */
module ClusterNode {
  import opened Prelude
  import opened ChannelSpec
  import opened Registry
  import opened NodeToken

  const CMD_CHANNEL_CAPACITY: nat := 8192

  class ClusterNode {
    var members: map<Key, set<SocketId>>
    var queue: seq<Cmd>
    var subscribed: set<Key>
    var cmdDropped: nat

    ghost function View(): State
      reads this
    {
      State(members, queue, Idle, subscribed, cmdDropped)
    }

    /** No token is out of order, and until a command is dropped every channel is on course. */
    ghost predicate Sound()
      reads this
    {
      Ordered(View()) && (cmdDropped == 0 ==> forall k :: Inv(View(), k))
    }

    constructor ()
      ensures View() == Init && Sound()
    {
      members, queue, subscribed, cmdDropped := map[], [], {}, 0;
    }

    /** Queue a command without blocking; a full queue drops it and counts it. */
    method TrySend(c: Cmd)
      modifies this`queue, this`cmdDropped
      ensures View() == Enqueue(old(View()), c, |old(queue)| < CMD_CHANNEL_CAPACITY)
    {
      if |queue| < CMD_CHANNEL_CAPACITY {
        queue := queue + [c];
      } else {
        cmdDropped := cmdDropped + 1;
      }
    }

    method LocalUnsubscribe(k: Key, s: SocketId) returns (count: nat)
      modifies this`members
      ensures View() == Leave(old(View()), k, s)
      ensures count == |MembersOf(View(), k)|
      ensures forall l :: MembersOf(View(), l) == if l == k then old(MembersOf(View(), l)) - {s} else old(MembersOf(View(), l))
    {
      var left := (if k in members then members[k] else {}) - {s};
      members := members[k := left];
      count := |left|;
    }

    /** Stays sound unless the socket's earlier join of the channel is still queued. */
    method Subscribe(k: Key, s: SocketId, presence: bool) returns (count: nat)
      modifies this
      ensures old(Sound() && !Rejoins(View(), WorkerJoin(k, s, presence, true))) ==> Sound()
      ensures View() == Step(old(View()), WorkerJoin(k, s, presence, |old(queue)| < CMD_CHANNEL_CAPACITY))
      ensures count == |MembersOf(View(), k)| && subscribed == old(subscribed)
      ensures forall l :: MembersOf(View(), l) == if l == k then old(MembersOf(View(), l)) + {s} else old(MembersOf(View(), l))
      ensures queue == if |old(queue)| < CMD_CHANNEL_CAPACITY
                       then old(queue) + [JoinCmd(k, s, presence, old(MembersOf(View(), k)) <= {s})] else old(queue)
    {
      ghost var st, a := View(), WorkerJoin(k, s, presence, |queue| < CMD_CHANNEL_CAPACITY);
      var now := (if k in members then members[k] else {}) + {s};
      members := members[k := now];
      count := |now|;
      OneMember(now, s);
      TrySend(JoinCmd(k, s, presence, count == 1));
      assert View() == Step(st, a);
      if old(Sound() && !Rejoins(View(), WorkerJoin(k, s, presence, true))) {
        OrderedWorker(st, a);
        WorkerSound(st, a);
      }
    }

    method Unsubscribe(k: Key, s: SocketId) returns (count: nat)
      modifies this
      ensures old(Sound()) ==> Sound()
      ensures View() == Step(old(View()), WorkerLeave(k, s, |old(queue)| < CMD_CHANNEL_CAPACITY))
      ensures count == |MembersOf(View(), k)| && subscribed == old(subscribed)
      ensures forall l :: MembersOf(View(), l) == if l == k then old(MembersOf(View(), l)) - {s} else old(MembersOf(View(), l))
      ensures queue == if |old(queue)| < CMD_CHANNEL_CAPACITY
                       then old(queue) + [LeaveCmd(k, s, old(MembersOf(View(), k)) <= {s})] else old(queue)
    {
      ghost var st, a := View(), WorkerLeave(k, s, |queue| < CMD_CHANNEL_CAPACITY);
      count := LocalUnsubscribe(k, s);
      NoneLeft(MembersOf(st, k), s);
      TrySend(LeaveCmd(k, s, count == 0));
      assert View() == Step(st, a);
      if old(Sound()) {
        OrderedWorker(st, a);
        WorkerSound(st, a);
      }
    }

    /** The pub/sub half of a join: spend the token, then take the join back if it is rejected. */
    method HandleJoin(k: Key, s: SocketId, first: bool, rejected: bool)
      modifies this`members, this`subscribed
      ensures var on := if first then old(subscribed) + {k} else old(subscribed);
              var left := Leave(old(View()), k, s);
              View() == if !rejected then old(View()).(subscribed := on)
                        else left.(subscribed := if MembersOf(left, k) == {} then on - {k} else on)
    {
      if first {
        subscribed := subscribed + {k};
      }
      if rejected {
        var count := LocalUnsubscribe(k, s);
        if count == 0 {
          subscribed := subscribed - {k};
        }
      }
    }

    /** Carry out the first queued command; `admitted` is the cluster's verdict should it be a presence join. */
    method HandleCmd(admitted: bool)
      requires queue != []
      modifies this
      ensures View() == Handled(old(View()), admitted)
      ensures queue == old(queue)[1..] && cmdDropped == old(cmdDropped)
      ensures var c := old(queue)[0];
              forall l :: MembersOf(View(), l) == if c.JoinCmd? && c.presence && !admitted && l == c.key
                                                  then old(MembersOf(View(), l)) - {c.sock} else old(MembersOf(View(), l))
    {
      HandledIs(View(), admitted);
      var cmd := queue[0];
      queue := queue[1..];
      match cmd {
        case JoinCmd(k, s, presence, first) =>
          HandleJoin(k, s, first, presence && !admitted);
        case LeaveCmd(k, s, last) =>
          if last && (k !in members || members[k] == {}) {
            subscribed := subscribed - {k};
          }
      }
    }

    /** The drain loop: once it has emptied the queue the subscriptions match the registry. */
    method Drain(verdicts: nat -> bool)
      modifies this
      ensures queue == [] && cmdDropped == old(cmdDropped)
      ensures View() == HandledAll(old(View()), verdicts, 0)
      ensures old(Sound()) ==> Sound() && (cmdDropped == 0 ==> forall k :: Right(View(), k))
    {
      var n := 0;
      while queue != []
        invariant cmdDropped == old(cmdDropped) && (old(Sound()) ==> Sound())
        invariant HandledAll(View(), verdicts, n) == HandledAll(old(View()), verdicts, 0)
        decreases |queue|
      {
        ghost var st := View();
        HandleCmd(verdicts(n));
        HandledIs(st, verdicts(n));
        if old(Sound()) {
          HandledSound(st, verdicts(n));
        }
        n := n + 1;
      }
      if old(Sound()) && cmdDropped == 0 {
        forall k ensures Right(View(), k) {
          assert Inv(View(), k);
        }
      }
    }
  }

  lemma OneMember(now: set<SocketId>, s: SocketId)
    requires s in now
    ensures now == {s} <==> |now| == 1
  {
    if |now| == 1 {
      assert |now - {s}| == 0;
      assert now == (now - {s}) + {s};
    }
  }

  lemma NoneLeft(before: set<SocketId>, s: SocketId)
    ensures |before - {s}| == 0 <==> before <= {s}
    ensures before - {s} == {} <==> before <= {s}
  {
  }

  lemma WorkerSound(st: State, a: Action)
    requires a.WorkerJoin? || a.WorkerLeave?
    requires st.dropped == 0 ==> forall k :: Inv(st, k)
    ensures Step(st, a).dropped == 0 ==> forall k :: Inv(Step(st, a), k)
  {
    if Step(st, a).dropped == 0 {
      forall k ensures Inv(Step(st, a), k) {
        WorkerCourse(st, a, false, k);
      }
    }
  }

  /** One command handled with no worker running in between: all phases of the bridge in order. */
  ghost function Handled(st: State, admitted: bool): State
  {
    Step(Step(Step(Step(Step(st, Action.Dequeue), SpendToken), Verdict(admitted)), LeaveCheck), Action.Unsubscribe)
  }

  /** Every queued command handled in queue order, the n-th with the n-th verdict. */
  ghost function HandledAll(st: State, verdicts: nat -> bool, n: nat): State
    requires st.hand.Idle?
    decreases |st.queue|
  {
    if st.queue == [] then st
    else
      HandledIs(st, verdicts(n));
      HandledAll(Handled(st, verdicts(n)), verdicts, n + 1)
  }

  /** What the phases of one command come to. */
  lemma HandledIs(st: State, admitted: bool)
    requires st.hand.Idle? && st.queue != []
    ensures var c, rest := st.queue[0], st.(queue := st.queue[1..]);
            Handled(st, admitted) ==
            match c
            case JoinCmd(k, s, presence, first) =>
              var on := if first then st.subscribed + {k} else st.subscribed;
              var left := Leave(rest, k, s);
              if !presence || admitted then rest.(subscribed := on)
              else left.(subscribed := if MembersOf(left, k) == {} then on - {k} else on)
            case LeaveCmd(k, s, last) =>
              rest.(subscribed := if last && MembersOf(st, k) == {} then st.subscribed - {k} else st.subscribed)
  {
    var s1 := Step(st, Action.Dequeue);
    var s2 := Step(s1, SpendToken);
    var s3 := Step(s2, Verdict(admitted));
    var s4 := Step(s3, LeaveCheck);
    assert Handled(st, admitted) == Step(s4, Action.Unsubscribe);
  }

  lemma PhaseSound(st: State, a: Action)
    requires !a.WorkerJoin? && !a.WorkerLeave?
    requires Ordered(st) && (st.dropped == 0 ==> forall k :: Inv(st, k))
    ensures Ordered(Step(st, a)) && Step(st, a).dropped == st.dropped
    ensures st.dropped == 0 ==> forall k :: Inv(Step(st, a), k)
  {
    OrderedBridge(st, a);
    OrderedNeverStrands(st, a);
    if st.dropped == 0 {
      forall k ensures Inv(Step(st, a), k) {
        BridgeKeeps(st, a, k);
      }
    }
  }

  lemma HandledSound(st: State, admitted: bool)
    requires Ordered(st) && (st.dropped == 0 ==> forall k :: Inv(st, k))
    ensures var next := Handled(st, admitted);
            && Ordered(next) && next.dropped == st.dropped
            && (st.dropped == 0 ==> forall k :: Inv(next, k))
  {
    var s1 := Step(st, Action.Dequeue);
    var s2 := Step(s1, SpendToken);
    var s3 := Step(s2, Verdict(admitted));
    var s4 := Step(s3, LeaveCheck);
    PhaseSound(st, Action.Dequeue);
    PhaseSound(s1, SpendToken);
    PhaseSound(s2, Verdict(admitted));
    PhaseSound(s3, LeaveCheck);
    PhaseSound(s4, Action.Unsubscribe);
  }
}

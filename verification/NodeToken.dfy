/**
 The node subscription token. Workers change the node-local registry and queue a
 command carrying the local 0 -> 1 / 1 -> 0 edge; one bridge drains the queue in
 order, awaiting Redis between its phases, so workers run between them.
 */
module NodeToken {
  import opened Prelude
  import opened ChannelSpec
  import opened Registry

  /** `first`/`last` are the node-local edges the worker computed; a presence join needs a cluster verdict. */
  datatype Cmd =
    | JoinCmd(key: Key, sock: SocketId, presence: bool, first: bool)
    | LeaveCmd(key: Key, sock: SocketId, last: bool)

  /** Where the bridge stands with the command it holds. */
  datatype Hand =
    | Idle
    | Got(cmd: Cmd)
    | AwaitingVerdict(cmd: Cmd)
    | Unsubscribing(key: Key)

  datatype State = State(
    members: map<Key, set<SocketId>>,   // the node-local registry
    queue: seq<Cmd>,
    hand: Hand,
    subscribed: set<Key>,               // the Redis msg keys this node is subscribed to
    dropped: nat)                       // commands lost to a full or closed queue

  datatype Action =
    | WorkerJoin(key: Key, sock: SocketId, presence: bool, accepted: bool)
    | WorkerLeave(key: Key, sock: SocketId, accepted: bool)
    | Dequeue
    | SpendToken
    | Verdict(admitted: bool)
    | LeaveCheck
    | Unsubscribe

  ghost function MembersOf(st: State, k: Key): set<SocketId>
  {
    if k in st.members then st.members[k] else {}
  }

  ghost function Enqueue(st: State, c: Cmd, accepted: bool): State
  {
    if accepted then st.(queue := st.queue + [c]) else st.(dropped := st.dropped + 1)
  }

  ghost function Leave(st: State, k: Key, s: SocketId): State
  {
    st.(members := st.members[k := MembersOf(st, k) - {s}])
  }

  /** Actions that are not enabled change nothing. */
  ghost function Step(st: State, a: Action): State
  {
    match a
    case WorkerJoin(k, s, presence, accepted) =>
      var now := MembersOf(st, k) + {s};
      Enqueue(st.(members := st.members[k := now]), JoinCmd(k, s, presence, now == {s}), accepted)
    case WorkerLeave(k, s, accepted) =>
      var next := Leave(st, k, s);
      Enqueue(next, LeaveCmd(k, s, MembersOf(next, k) == {}), accepted)
    case Dequeue =>
      if st.hand.Idle? && st.queue != [] then st.(hand := Got(st.queue[0]), queue := st.queue[1..]) else st
    case SpendToken =>
      if st.hand.Got? && st.hand.cmd.JoinCmd? then
        var c := st.hand.cmd;
        st.(subscribed := if c.first then st.subscribed + {c.key} else st.subscribed,
            hand := if c.presence then AwaitingVerdict(c) else Idle)
      else st
    case Verdict(admitted) =>
      if st.hand.AwaitingVerdict? then
        var k := st.hand.cmd.key;
        if admitted then st.(hand := Idle)
        else
          var next := Leave(st, k, st.hand.cmd.sock);
          next.(hand := if MembersOf(next, k) == {} then Unsubscribing(k) else Idle)
      else st
    case LeaveCheck =>
      if st.hand.Got? && st.hand.cmd.LeaveCmd? then
        var c := st.hand.cmd;
        st.(hand := if c.last && MembersOf(st, c.key) == {} then Unsubscribing(c.key) else Idle)
      else st
    case Unsubscribe =>
      if st.hand.Unsubscribing? then st.(subscribed := st.subscribed - {st.hand.key}, hand := Idle) else st
  }

  ghost function Exec(st: State, acts: seq<Action>): State
  {
    if acts == [] then st else Step(Exec(st, acts[..|acts| - 1]), acts[|acts| - 1])
  }

  const Init: State := State(map[], [], Idle, {}, 0)

  // ---------- what the calls and the verdicts alone determine ----------

  /** The rejection of a join of `k` is carried out, taking the held socket back out. */
  ghost predicate Rejects(st: State, a: Action, k: Key)
  {
    a == Verdict(false) && st.hand.AwaitingVerdict? && st.hand.cmd.key == k
  }

  /** Who is joined on this node: each join adds its own socket, each leave and each rejection takes out one. */
  ghost function Occupants(acts: seq<Action>, k: Key): set<SocketId>
  {
    if acts == [] then {}
    else
      var init, a := acts[..|acts| - 1], acts[|acts| - 1];
      var before, st := Occupants(init, k), Exec(Init, init);
      if a.WorkerJoin? && a.key == k then before + {a.sock}
      else if a.WorkerLeave? && a.key == k then before - {a.sock}
      else if Rejects(st, a, k) then before - {st.hand.cmd.sock}
      else before
  }

  /** Over every run the local registry holds exactly those. */
  lemma {:induction false} MembersExact(acts: seq<Action>, k: Key)
    ensures MembersOf(Exec(Init, acts), k) == Occupants(acts, k)
  {
    if acts != [] {
      MembersExact(acts[..|acts| - 1], k);
    }
  }

  /** The commands accepted by the queue, with the edge each call made: the only member, or none left. */
  ghost function Accepted(acts: seq<Action>): seq<Cmd>
  {
    if acts == [] then []
    else
      var init, a := acts[..|acts| - 1], acts[|acts| - 1];
      if a.WorkerJoin? && a.accepted then
        Accepted(init) + [JoinCmd(a.key, a.sock, a.presence, Occupants(acts, a.key) == {a.sock})]
      else if a.WorkerLeave? && a.accepted then
        Accepted(init) + [LeaveCmd(a.key, a.sock, Occupants(acts, a.key) == {})]
      else Accepted(init)
  }

  /** How many commands the bridge has taken off the queue. */
  ghost function Taken(acts: seq<Action>): nat
  {
    if acts == [] then 0
    else
      var st := Exec(Init, acts[..|acts| - 1]);
      Taken(acts[..|acts| - 1]) + (if acts[|acts| - 1].Dequeue? && st.hand.Idle? && st.queue != [] then 1 else 0)
  }

  ghost predicate InOrder(st: State, accepted: seq<Cmd>, taken: nat)
  {
    && taken <= |accepted| && st.queue == accepted[taken..]
    && (st.hand.Got? || st.hand.AwaitingVerdict? ==> taken > 0 && st.hand.cmd == accepted[taken - 1])
    && (st.hand.AwaitingVerdict? ==> st.hand.cmd.JoinCmd? && st.hand.cmd.presence)
  }

  /**
   Over every run the queue is the accepted commands not yet taken, in the order of the calls,
   the bridge holds the latest one taken, and only a presence join awaits a verdict.
   */
  lemma {:induction false} QueueExact(acts: seq<Action>)
    ensures InOrder(Exec(Init, acts), Accepted(acts), Taken(acts))
  {
    if acts != [] {
      var init, a := acts[..|acts| - 1], acts[|acts| - 1];
      QueueExact(init);
      if a.WorkerJoin? || a.WorkerLeave? {
        MembersExact(acts, a.key);
      }
      StepInOrder(Exec(Init, init), a, Accepted(init), Taken(init), Accepted(acts), Taken(acts));
    }
  }

  lemma StepInOrder(st: State, a: Action, accepted: seq<Cmd>, taken: nat, accepted': seq<Cmd>, taken': nat)
    requires InOrder(st, accepted, taken)
    requires taken' == taken + if a.Dequeue? && st.hand.Idle? && st.queue != [] then 1 else 0
    requires if a.WorkerJoin? && a.accepted
             then accepted' == accepted + [JoinCmd(a.key, a.sock, a.presence, MembersOf(Step(st, a), a.key) == {a.sock})]
             else if a.WorkerLeave? && a.accepted
             then accepted' == accepted + [LeaveCmd(a.key, a.sock, MembersOf(Step(st, a), a.key) == {})]
             else accepted' == accepted
    ensures InOrder(Step(st, a), accepted', taken')
  {
  }

  /** The queue is drained and the bridge holds nothing. */
  ghost predicate Quiescent(st: State)
  {
    st.queue == [] && st.hand.Idle?
  }

  /** Subscribed to a channel's key exactly when the local registry has members of the channel. */
  ghost predicate Right(st: State, k: Key)
  {
    k in st.subscribed <==> MembersOf(st, k) != {}
  }

  // ---------- the invariant ----------

  ghost predicate Opens(c: Cmd, k: Key)
  {
    c.JoinCmd? && c.first && c.key == k
  }

  ghost predicate Closes(c: Cmd, k: Key)
  {
    c.LeaveCmd? && c.last && c.key == k
  }

  datatype Last = Opening | Closing | Silent

  /** The last queued edge of channel `k`, if any. */
  ghost function Tail(q: seq<Cmd>, k: Key): Last
  {
    if q == [] then Silent
    else
      var c := q[|q| - 1];
      if Opens(c, k) then Opening else if Closes(c, k) then Closing else Tail(q[..|q| - 1], k)
  }

  lemma TailAppend(q: seq<Cmd>, c: Cmd, k: Key)
    ensures Tail(q + [c], k) == if Opens(c, k) then Opening else if Closes(c, k) then Closing else Tail(q, k)
  {
    assert (q + [c])[..|q|] == q;
  }

  lemma {:induction false} TailDequeue(q: seq<Cmd>, k: Key)
    requires q != []
    ensures Tail(q, k) == if Tail(q[1..], k) != Silent then Tail(q[1..], k)
                          else if Opens(q[0], k) then Opening else if Closes(q[0], k) then Closing else Silent
  {
    if |q| > 1 {
      TailDequeue(q[..|q| - 1], k);
      assert q[..|q| - 1][1..] == q[1..][..|q| - 2];
      assert q[1..][|q| - 2] == q[|q| - 1];
    } else {
      assert q[..0] == [] && q[1..] == [];
    }
  }

  /** What is still to happen will leave this node subscribed to `k`. */
  ghost predicate WillSubscribe(st: State, k: Key)
  {
    match Tail(st.queue, k)
    case Opening => true
    case Closing => false
    case Silent =>
      || (st.hand.Got? && Opens(st.hand.cmd, k))
      || (k in st.subscribed && st.hand != Unsubscribing(k) && !(st.hand.Got? && Closes(st.hand.cmd, k)))
  }

  /** What is still to happen will leave this node unsubscribed from `k`. */
  ghost predicate WillUnsubscribe(st: State, k: Key)
  {
    match Tail(st.queue, k)
    case Opening => false
    case Closing => true
    case Silent =>
      || st.hand == Unsubscribing(k)
      || (st.hand.Got? && Closes(st.hand.cmd, k))
      || (k !in st.subscribed && !(st.hand.Got? && Opens(st.hand.cmd, k)))
  }

  ghost predicate Inv(st: State, k: Key)
  {
    if MembersOf(st, k) != {} then WillSubscribeSafely(st, k) else WillUnsubscribe(st, k)
  }

  /** As `WillSubscribe`, but a held leave may still be overtaken by the members that re-joined. */
  ghost predicate WillSubscribeSafely(st: State, k: Key)
  {
    match Tail(st.queue, k)
    case Opening => true
    case Closing => false
    case Silent =>
      || (st.hand.Got? && Opens(st.hand.cmd, k))
      || (k in st.subscribed && st.hand != Unsubscribing(k))
  }

  /**
   The one damaging move: a rejected join takes the channel's last local member
   while a later 0 -> 1 token for the channel is still queued.
   */
  ghost predicate Strands(st: State, a: Action)
  {
    && a.Verdict? && !a.admitted && st.hand.AwaitingVerdict?
    && MembersOf(st, st.hand.cmd.key) == {st.hand.cmd.sock}
    && Tail(st.queue, st.hand.cmd.key) == Opening
  }

  lemma StepDropped(st: State, a: Action)
    ensures Step(st, a).dropped >= st.dropped
  {
  }

  /** No step of the run strands a channel. */
  ghost predicate NeverStrands(acts: seq<Action>)
  {
    acts == [] || (NeverStrands(acts[..|acts| - 1]) && !Strands(Exec(Init, acts[..|acts| - 1]), acts[|acts| - 1]))
  }

  // ---------- exactly which runs end wrong ----------

  /** A rejection carried out for `k` with no token of `k` queued behind it. */
  ghost predicate RejectsLast(st: State, a: Action, k: Key)
  {
    a == Verdict(false) && st.hand.AwaitingVerdict? && st.hand.cmd.key == k && Tail(st.queue, k) == Silent
  }

  /**
   Whether the run from `st` leaves `k` deaf to its local registry, given whether it was: a
   stranding rejection makes it so; a worker's call on the channel, or a rejection with no
   token queued behind it, mends it.
   */
  ghost predicate DeafFrom(st: State, deaf: bool, acts: seq<Action>, k: Key)
  {
    if acts == [] then deaf
    else
      var init, a := acts[..|acts| - 1], acts[|acts| - 1];
      var now := Exec(st, init);
      if Strands(now, a) && now.hand.cmd.key == k then true
      else if ((a.WorkerJoin? || a.WorkerLeave?) && a.key == k) || RejectsLast(now, a, k) then false
      else DeafFrom(st, deaf, init, k)
  }

  ghost predicate Deaf(acts: seq<Action>, k: Key)
  {
    DeafFrom(Init, false, acts, k)
  }

  /** What is still to happen settles `k` rightly, or wrongly when it is deaf. */
  ghost predicate Course(st: State, deaf: bool, k: Key)
  {
    if deaf then MembersOf(st, k) == {} && WillSubscribe(st, k) else Inv(st, k)
  }

  lemma WorkerCourse(st: State, a: Action, deaf: bool, k: Key)
    requires a.WorkerJoin? || a.WorkerLeave?
    requires Course(st, deaf, k) && Step(st, a).dropped == st.dropped
    ensures Course(Step(st, a), deaf && a.key != k, k)
  {
    var next := Step(st, a);
    TailAppend(st.queue, next.queue[|next.queue| - 1], k);
  }

  lemma VerdictCourse(st: State, a: Action, deaf: bool, k: Key)
    requires a.Verdict? && Course(st, deaf, k)
    ensures var strands := Strands(st, a) && st.hand.cmd.key == k;
            Course(Step(st, a), strands || (deaf && !RejectsLast(st, a, k)), k)
  {
    if Strands(st, a) && st.hand.cmd.key == k {
      assert {st.hand.cmd.sock} - {st.hand.cmd.sock} == {};
    }
  }

  lemma BridgeCourse(st: State, a: Action, deaf: bool, k: Key)
    requires !a.WorkerJoin? && !a.WorkerLeave? && !a.Verdict?
    requires Course(st, deaf, k)
    ensures Course(Step(st, a), deaf, k)
  {
    if a.Dequeue? && st.hand.Idle? && st.queue != [] {
      TailDequeue(st.queue, k);
    }
  }

  lemma {:induction false} RunCourse(st: State, deaf: bool, acts: seq<Action>, k: Key)
    requires Course(st, deaf, k) && Exec(st, acts).dropped == st.dropped
    ensures Course(Exec(st, acts), DeafFrom(st, deaf, acts, k), k)
  {
    if acts != [] {
      var init, a := acts[..|acts| - 1], acts[|acts| - 1];
      ExecDropped(st, init);
      StepDropped(Exec(st, init), a);
      RunCourse(st, deaf, init, k);
      if a.WorkerJoin? || a.WorkerLeave? {
        WorkerCourse(Exec(st, init), a, DeafFrom(st, deaf, init, k), k);
      } else if a.Verdict? {
        VerdictCourse(Exec(st, init), a, DeafFrom(st, deaf, init, k), k);
      } else {
        BridgeCourse(Exec(st, init), a, DeafFrom(st, deaf, init, k), k);
      }
    }
  }

  lemma {:induction false} ExecDropped(st: State, acts: seq<Action>)
    ensures Exec(st, acts).dropped >= st.dropped
  {
    if acts != [] {
      ExecDropped(st, acts[..|acts| - 1]);
      StepDropped(Exec(st, acts[..|acts| - 1]), acts[|acts| - 1]);
    }
  }

  /**
   Over every run with no dropped command, rejections and rejoins included: when the queue is
   empty and the bridge idle, the subscription of `k` matches the registry if and only if no
   stranding rejection of `k` was left unmended.
   */
  lemma QuiescentExact(acts: seq<Action>, k: Key)
    requires Exec(Init, acts).dropped == 0 && Quiescent(Exec(Init, acts))
    ensures (k in Exec(Init, acts).subscribed <==> Occupants(acts, k) != {}) <==> !Deaf(acts, k)
    ensures Right(Exec(Init, acts), k) <==> !Deaf(acts, k)
  {
    RunCourse(Init, false, acts, k);
    MembersExact(acts, k);
  }

  lemma BridgeKeeps(st: State, a: Action, k: Key)
    requires !a.WorkerJoin? && !a.WorkerLeave?
    requires Inv(st, k) && !Strands(st, a)
    ensures Inv(Step(st, a), k)
  {
    if a.Verdict? {
      VerdictCourse(st, a, false, k);
    } else {
      BridgeCourse(st, a, false, k);
    }
  }

  /** In every state of a run that strands nothing, what is queued and held will settle each channel rightly. */
  lemma RunKeeps(acts: seq<Action>, k: Key)
    requires NeverStrands(acts) && Exec(Init, acts).dropped == 0
    ensures Inv(Exec(Init, acts), k)
  {
    NeverStrandsNeverDeaf(acts, k);
    RunCourse(Init, false, acts, k);
  }

  /** In particular it matches in every run in which no rejection strands a channel. */
  lemma QuiescentRight(acts: seq<Action>, k: Key)
    requires NeverStrands(acts) && Exec(Init, acts).dropped == 0
    requires Quiescent(Exec(Init, acts))
    ensures Right(Exec(Init, acts), k)
  {
    NeverStrandsNeverDeaf(acts, k);
    QuiescentExact(acts, k);
  }

  lemma {:induction false} NeverStrandsNeverDeaf(acts: seq<Action>, k: Key)
    requires NeverStrands(acts)
    ensures !Deaf(acts, k)
  {
    if acts != [] {
      NeverStrandsNeverDeaf(acts[..|acts| - 1], k);
    }
  }

  // ---------- sockets that do not rejoin while queued never strand ----------

  /** The commands not yet carried out, the held one first. */
  ghost function Pending(st: State): seq<Cmd>
  {
    match st.hand
    case Got(c) => [c] + st.queue
    case AwaitingVerdict(c) => [c] + st.queue
    case _ => st.queue
  }

  ghost predicate IsJoin(c: Cmd, k: Key, s: SocketId)
  {
    c.JoinCmd? && c.key == k && c.sock == s
  }

  /** The worker joins a socket whose earlier join of the channel has not been carried out. */
  ghost predicate Rejoins(st: State, a: Action)
  {
    a.WorkerJoin? && exists i :: 0 <= i < |Pending(st)| && IsJoin(Pending(st)[i], a.key, a.sock)
  }

  ghost predicate NeverRejoins(acts: seq<Action>)
  {
    acts == [] || (NeverRejoins(acts[..|acts| - 1]) && !Rejoins(Exec(Init, acts[..|acts| - 1]), acts[|acts| - 1]))
  }

  /** No token is queued behind the pending join of a socket that is still a member. */
  ghost predicate Ordered(st: State)
  {
    var p := Pending(st);
    && (st.hand.AwaitingVerdict? ==> st.hand.cmd.JoinCmd?)
    && forall i, j :: 0 <= i < j < |p| && p[i].JoinCmd? && p[i].sock in MembersOf(st, p[i].key) ==> !Opens(p[j], p[i].key)
  }

  lemma {:induction false} TailOpens(q: seq<Cmd>, k: Key)
    requires Tail(q, k) == Opening
    ensures exists j :: 0 <= j < |q| && Opens(q[j], k)
  {
    if !Opens(q[|q| - 1], k) {
      TailOpens(q[..|q| - 1], k);
      var j :| 0 <= j < |q| - 1 && Opens(q[..|q| - 1][j], k);
      assert Opens(q[j], k);
    }
  }

  lemma OrderedNeverStrands(st: State, a: Action)
    requires Ordered(st)
    ensures !Strands(st, a)
  {
    if st.hand.AwaitingVerdict? && Tail(st.queue, st.hand.cmd.key) == Opening {
      var k := st.hand.cmd.key;
      TailOpens(st.queue, k);
      var j :| 0 <= j < |st.queue| && Opens(st.queue[j], k);
      assert Pending(st)[0] == st.hand.cmd && Pending(st)[j + 1] == st.queue[j];
      assert st.hand.cmd.sock !in MembersOf(st, k);
    }
  }

  lemma OrderedWorker(st: State, a: Action)
    requires a.WorkerJoin? || a.WorkerLeave?
    requires Ordered(st) && !Rejoins(st, a)
    ensures Ordered(Step(st, a))
  {
    var p, next := Pending(st), Step(st, a);
    var p' := Pending(next);
    assert p <= p' && |p'| <= |p| + 1;
    forall i, j | 0 <= i < j < |p'| && p'[i].JoinCmd? && p'[i].sock in MembersOf(next, p'[i].key)
      ensures !Opens(p'[j], p'[i].key)
    {
      assert p'[i] == p[i];
      assert a.WorkerJoin? ==> !IsJoin(p[i], a.key, a.sock);
      if j < |p| {
        assert p'[j] == p[j] && !Opens(p[j], p[i].key);
      }
    }
  }

  /** A bridge step carries out at most the first pending command and adds no member. */
  lemma BridgePending(st: State, a: Action)
    requires !a.WorkerJoin? && !a.WorkerLeave?
    ensures var p, p' := Pending(st), Pending(Step(st, a));
            p' == p || (p != [] && p' == p[1..])
    ensures forall k :: MembersOf(Step(st, a), k) <= MembersOf(st, k)
  {
  }

  lemma OrderedBridge(st: State, a: Action)
    requires !a.WorkerJoin? && !a.WorkerLeave?
    requires Ordered(st)
    ensures Ordered(Step(st, a))
  {
    BridgePending(st, a);
  }

  lemma {:induction false} NeverRejoinsNeverStrands(acts: seq<Action>)
    requires NeverRejoins(acts)
    ensures NeverStrands(acts) && Ordered(Exec(Init, acts))
  {
    if acts != [] {
      var init, a := acts[..|acts| - 1], acts[|acts| - 1];
      NeverRejoinsNeverStrands(init);
      OrderedNeverStrands(Exec(Init, init), a);
      if a.WorkerJoin? || a.WorkerLeave? {
        OrderedWorker(Exec(Init, init), a);
      } else {
        OrderedBridge(Exec(Init, init), a);
      }
    }
  }

  /**
   The node subscription token: over every interleaving of workers and bridge
   phases in which no command is dropped and no socket rejoins a channel while
   its earlier join is pending, a drained and idle bridge is subscribed to
   exactly the channels some socket is joined to.
   */
  lemma TokenTheorem(acts: seq<Action>)
    requires NeverRejoins(acts) && Exec(Init, acts).dropped == 0
    requires Quiescent(Exec(Init, acts))
    ensures forall k :: k in Exec(Init, acts).subscribed <==> Occupants(acts, k) != {}
    ensures forall k :: MembersOf(Exec(Init, acts), k) == Occupants(acts, k)
  {
    NeverRejoinsNeverStrands(acts);
    forall k ensures MembersOf(Exec(Init, acts), k) == Occupants(acts, k) {
      MembersExact(acts, k);
    }
    forall k ensures k in Exec(Init, acts).subscribed <==> Occupants(acts, k) != {} {
      QuiescentRight(acts, k);
      MembersExact(acts, k);
    }
  }

  // ---------- and stranding really does leave a subscribed node without members ----------

  /** No worker calls on `k`, and no rejection of `k` without a token queued behind it. */
  ghost predicate Unmended(st: State, acts: seq<Action>, k: Key)
  {
    acts == [] ||
    (Unmended(st, acts[..|acts| - 1], k) &&
     var a := acts[|acts| - 1];
     !((a.WorkerJoin? || a.WorkerLeave?) && a.key == k) && !RejectsLast(Exec(st, acts[..|acts| - 1]), a, k))
  }

  lemma {:induction false} UnmendedDeaf(st: State, acts: seq<Action>, k: Key)
    requires Unmended(st, acts, k)
    ensures DeafFrom(st, true, acts, k)
  {
    if acts != [] {
      UnmendedDeaf(st, acts[..|acts| - 1], k);
    }
  }

  /** From any state, after a stranding rejection that nothing mends, the drained node is subscribed to a channel with no members. */
  lemma StrandingIsWrong(st: State, acts: seq<Action>)
    requires Strands(st, Verdict(false))
    requires var next := Step(st, Verdict(false));
             && Unmended(next, acts, st.hand.cmd.key)
             && Exec(next, acts).dropped == next.dropped && Quiescent(Exec(next, acts))
    ensures var end := Exec(Step(st, Verdict(false)), acts);
            MembersOf(end, st.hand.cmd.key) == {} && st.hand.cmd.key in end.subscribed
  {
    var k, next := st.hand.cmd.key, Step(st, Verdict(false));
    assert {st.hand.cmd.sock} - {st.hand.cmd.sock} == {};
    UnmendedDeaf(next, acts, k);
    RunCourse(next, true, acts, k);
  }

  lemma ExecAppend(st: State, acts: seq<Action>, a: Action)
    ensures Exec(st, acts + [a]) == Step(Exec(st, acts), a)
  {
    assert (acts + [a])[..|acts|] == acts;
  }

  lemma JoinLeaveJoin(k: Key, s: SocketId) returns (acts: seq<Action>)
    ensures var join, leave := JoinCmd(k, s, true, true), LeaveCmd(k, s, true);
            Exec(Init, acts) == State(map[k := {s}], [join, leave, join], Idle, {}, 0)
  {
    var join, leave := JoinCmd(k, s, true, true), LeaveCmd(k, s, true);
    assert {} + {s} == {s} && {s} - {s} == {};
    acts := Advance([], WorkerJoin(k, s, true, true));
    assert Exec(Init, acts) == State(map[k := {s}], [join], Idle, {}, 0);
    acts := Advance(acts, WorkerLeave(k, s, true));
    assert Exec(Init, acts) == State(map[k := {}], [join, leave], Idle, {}, 0);
    acts := Advance(acts, WorkerJoin(k, s, true, true));
  }

  /** A socket that joins, leaves and rejoins before its first join is rejected is stranded. */
  lemma RejoinStrands(k: Key, s: SocketId) returns (acts: seq<Action>)
    ensures Exec(Init, acts) == State(map[k := {s}], [LeaveCmd(k, s, true), JoinCmd(k, s, true, true)],
                                      AwaitingVerdict(JoinCmd(k, s, true, true)), {k}, 0)
    ensures Strands(Exec(Init, acts), Verdict(false))
  {
    var join, leave := JoinCmd(k, s, true, true), LeaveCmd(k, s, true);
    acts := JoinLeaveJoin(k, s);
    acts := Advance(acts, Dequeue);
    assert Exec(Init, acts) == State(map[k := {s}], [leave, join], Got(join), {}, 0);
    acts := Advance(acts, SpendToken);
  }

  lemma RejoinRejected(k: Key, s: SocketId) returns (acts: seq<Action>)
    ensures Exec(Init, acts) == State(map[k := {}], [JoinCmd(k, s, true, true)], Got(LeaveCmd(k, s, true)), {}, 0)
  {
    var c2, c3 := LeaveCmd(k, s, true), JoinCmd(k, s, true, true);
    assert {s} - {s} == {};
    acts := RejoinStrands(k, s);
    acts := Advance(acts, Verdict(false));
    assert Exec(Init, acts) == State(map[k := {}], [c2, c3], Unsubscribing(k), {k}, 0);
    acts := Advance(acts, Unsubscribe);
    assert Exec(Init, acts) == State(map[k := {}], [c2, c3], Idle, {}, 0);
    acts := Advance(acts, Dequeue);
  }

  /** Rejecting that join and draining the rest ends wrong: idle, nothing dropped, subscribed without a member. */
  lemma RejoinEndsWrong(k: Key, s: SocketId) returns (acts: seq<Action>)
    ensures Exec(Init, acts).dropped == 0 && Quiescent(Exec(Init, acts)) && !Right(Exec(Init, acts), k)
  {
    var c3 := JoinCmd(k, s, true, true);
    acts := RejoinRejected(k, s);
    acts := Advance(acts, LeaveCheck);
    acts := Advance(acts, Unsubscribe);
    assert Exec(Init, acts) == State(map[k := {}], [c3], Idle, {}, 0);
    acts := Advance(acts, Dequeue);
    assert Exec(Init, acts) == State(map[k := {}], [], Got(c3), {}, 0);
    acts := Advance(acts, SpendToken);
    acts := Advance(acts, Verdict(true));
    assert Exec(Init, acts) == State(map[k := {}], [], Idle, {k}, 0);
  }

  lemma Advance(acts: seq<Action>, a: Action) returns (more: seq<Action>)
    ensures more == acts + [a] && Exec(Init, more) == Step(Exec(Init, acts), a)
  {
    more := acts + [a];
    ExecAppend(Init, acts, a);
  }
}

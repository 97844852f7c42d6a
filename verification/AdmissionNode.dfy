/**
 The admission calls of the workers and the bridge's two capacity arms, as calls on
 one node. Each is proved to be the corresponding steps of `Admission`, so the books
 balance after any sequence of calls.
 */
module AdmissionNode {
  import opened Prelude
  import opened Admission
  import ClusterNode

  class AdmissionNode {
    const cap: Capacity
    var conns: map<ConnId, Phase>
    var queue: seq<Cmd>
    var node: nat
    var total: nat
    /** Releases that never reached Redis. */
    ghost var leaked: nat
    ghost var stranded: nat

    ghost function View(): State
      reads this
    {
      State(conns, queue, Idle, node, total, leaked, stranded)
    }

    ghost predicate Valid()
      reads this
    {
      Balanced(cap, View()) && stranded == 0 && forall id :: id in conns ==> !conns[id].LateAnswer? && !conns[id].GivingUp?
    }

    constructor (cap: Capacity, others: nat)
      requires others <= cap
      ensures Valid() && View() == Start(others) && this.cap == cap
    {
      this.cap := cap;
      conns, queue, node, total, leaked, stranded := map[], [], 0, others, 0, 0;
      new;
      RunBalanced(cap, others, []);
    }

    /** Queue a command without blocking. */
    method TrySend(c: Cmd) returns (ok: bool)
      modifies this`queue
      ensures ok <==> |old(queue)| < ClusterNode.CMD_CHANNEL_CAPACITY
      ensures queue == if ok then old(queue) + [c] else old(queue)
    {
      ok := |queue| < ClusterNode.CMD_CHANNEL_CAPACITY;
      if ok {
        queue := queue + [c];
      }
    }

    /** The first half of `admit_app`: a full queue fails open at once. */
    method RequestAdmission(id: ConnId) returns (queued: bool)
      requires Valid() && id !in conns
      modifies this
      ensures Valid()
      ensures queued <==> |old(queue)| < ClusterNode.CMD_CHANNEL_CAPACITY
      ensures View() == Step(cap, old(View()), Connect(id, queued))
      ensures conns == old(conns)[id := if queued then Waiting else Unmetered]
      ensures queue == if queued then old(queue) + [Admit(id)] else old(queue)
    {
      ConnectBalanced(cap, View(), id, |queue| < ClusterNode.CMD_CHANNEL_CAPACITY);
      queued := TrySend(Admit(id));
      conns := conns[id := if queued then Waiting else Unmetered];
    }

    /** The second half: the reply that is there, or a time-out that drops the receiver. */
    method AwaitVerdict(id: ConnId) returns (verdict: Option<bool>)
      requires Valid() && id in conns && (conns[id].Waiting? || conns[id].Answered?)
      modifies this`conns
      ensures Valid()
      ensures verdict == if old(conns)[id].Answered? then old(conns)[id].v else None
      ensures View() == if old(conns)[id].Answered? then Step(cap, old(View()), Read(id))
                        else Step(cap, Step(cap, old(View()), TimeOut(id)), DropReceiver(id))
      ensures conns[id] == match verdict
                           case Some(true) => Holding
                           case Some(false) => Gone
                           case None => Unmetered
    {
      ghost var st := View();
      if conns[id].Answered? {
        AwaitBalanced(cap, st, Read(id));
        verdict := conns[id].v;
        conns := conns[id := if verdict == Some(true) then Holding else if verdict == Some(false) then Gone else Unmetered];
      } else {
        AwaitBalanced(cap, st, TimeOut(id));
        AwaitBalanced(cap, Step(cap, st, TimeOut(id)), DropReceiver(id));
        assert st.conns[id := GivingUp][id := Unmetered] == st.conns[id := Unmetered];
        verdict := None;
        conns := conns[id := Unmetered];
      }
    }

    /** Close an open connection: only one that holds a unit owes a release. */
    method CloseConnection(id: ConnId)
      requires Valid() && id in conns && (conns[id].Holding? || conns[id].Unmetered?)
      modifies this
      ensures Valid()
      ensures View() == Step(cap, old(View()), Close(id, |old(queue)| < ClusterNode.CMD_CHANNEL_CAPACITY))
      ensures conns == old(conns)[id := Gone]
      ensures queue == if old(conns)[id].Holding? && |old(queue)| < ClusterNode.CMD_CHANNEL_CAPACITY
                       then old(queue) + [Release] else old(queue)
    {
      CloseBalanced(cap, View(), id, |queue| < ClusterNode.CMD_CHANNEL_CAPACITY);
      var holds := conns[id].Holding?;
      conns := conns[id := Gone];
      if holds {
        var ok := TrySend(Release);
        if !ok {
          leaked := leaked + 1;
        }
      }
    }

    /** `RELEASE_APP_LUA`, or a failed call to it. */
    method ReleaseUnit(ok: bool)
      modifies this`node, this`total, this`leaked
      ensures View() == Returned(old(View()), ok)
      ensures ok && old(node) > 0 && old(total) > 0 ==> node == old(node) - 1 && total == old(total) - 1
      ensures ok && old(node) == 0 ==> node == 0 && total == old(total)
      ensures !ok ==> node == old(node) && total == old(total) && leaked == old(leaked) + 1
    {
      if !ok {
        leaked := leaked + 1;
      } else if node > 0 {
        node := node - 1;
        total := if total == 0 then 0 else total - 1;
      }
    }

    /** `ADMIT_APP_LUA`, or a failed call to it. */
    method AdmitUnit(ok: bool) returns (verdict: Option<bool>)
      modifies this`node, this`total
      ensures ok ==> (verdict == Some(true) <==> old(total) < cap) && (verdict == Some(false) <==> old(total) >= cap)
      ensures !ok ==> verdict == None
      ensures node == old(node) + (if verdict == Some(true) then 1 else 0)
      ensures total == old(total) + (if verdict == Some(true) then 1 else 0)
      ensures verdict == if ok then Some(AdmitScript(old(View()), cap).1) else None
      ensures View() == if ok then AdmitScript(old(View()), cap).0 else old(View())
    {
      if !ok {
        return None;
      }
      if total >= cap {
        return Some(false);
      }
      node, total := node + 1, total + 1;
      return Some(true);
    }

    /** Carry out the first queued command; a positive verdict nobody is waiting for is given back. */
    method HandleCmd(redisOk: bool, giveBackOk: bool)
      requires Valid() && queue != []
      modifies this
      ensures Valid() && queue == old(queue)[1..] && View() == Served(cap, old(View()), redisOk, giveBackOk)
      ensures match old(queue)[0]
              case Release => conns == old(conns) && total == old(total) - (if redisOk then 1 else 0)
              case Admit(id) =>
                var v := if redisOk then Some(old(total) < cap) else None;
                var waits := id in old(conns) && old(conns)[id].Waiting?;
                && conns == (if waits then old(conns)[id := Answered(v)] else old(conns))
                && total == old(total) + (if v == Some(true) && (waits || !giveBackOk) then 1 else 0)
    {
      ServedBalanced(cap, View(), redisOk, giveBackOk);
      ServedIs(cap, View(), redisOk, giveBackOk);
      if queue[0].Release? {
        ReleasesPositive(queue);
      }
      var cmd := queue[0];
      queue := queue[1..];
      match cmd {
        case Release =>
          ReleaseUnit(redisOk);
        case Admit(id) =>
          var verdict := AdmitUnit(redisOk);
          if id in conns && conns[id].Waiting? {
            conns := conns[id := Answered(verdict)];
          } else if verdict == Some(true) {
            ReleaseUnit(giveBackOk);
          }
      }
    }

    /**
     Once the bridge has drained its queue and every reply is read, the units on this
     node's hash are the connections that hold one and the releases that were lost.
     */
    method Drain(redisOk: nat -> bool, giveBackOk: nat -> bool)
      requires Valid()
      modifies this
      ensures Valid() && queue == [] && View() == ServedAll(cap, old(View()), redisOk, giveBackOk, 0)
      ensures node == Count(conns, Holding) + Count(conns, Answered(Some(true))) + leaked
      ensures node <= total <= cap
    {
      var n := 0;
      while queue != []
        invariant Valid()
        invariant ServedAll(cap, View(), redisOk, giveBackOk, n) == ServedAll(cap, old(View()), redisOk, giveBackOk, 0)
        decreases |queue|
      {
        HandleCmd(redisOk(n), giveBackOk(n));
        n := n + 1;
      }
      assert Those(conns, LateAnswer(Some(true))) == {};
    }
  }

  /** One command with no worker running in between. */
  ghost function Served(cap: Capacity, st: State, redisOk: bool, giveBackOk: bool): State
  {
    Step(cap, Step(cap, Step(cap, st, Take(redisOk)), Reply), GiveBack(giveBackOk))
  }

  lemma ServedQueue(cap: Capacity, st: State, redisOk: bool, giveBackOk: bool)
    requires st.hand.Idle? && st.queue != []
    ensures Served(cap, st, redisOk, giveBackOk).queue == st.queue[1..]
    ensures Served(cap, st, redisOk, giveBackOk).hand.Idle?
  {
  }

  /** Every queued command in queue order, the n-th under the n-th faults. */
  ghost function ServedAll(cap: Capacity, st: State, redisOk: nat -> bool, giveBackOk: nat -> bool, n: nat): State
    requires st.hand.Idle?
    decreases |st.queue|
  {
    if st.queue == [] then st
    else
      ServedQueue(cap, st, redisOk(n), giveBackOk(n));
      ServedAll(cap, Served(cap, st, redisOk(n), giveBackOk(n)), redisOk, giveBackOk, n + 1)
  }

  lemma ServedBalanced(cap: Capacity, st: State, redisOk: bool, giveBackOk: bool)
    requires Balanced(cap, st)
    ensures Balanced(cap, Served(cap, st, redisOk, giveBackOk))
  {
    TakeBalanced(cap, st, redisOk);
    ReplyBalanced(cap, Step(cap, st, Take(redisOk)));
    StepBalanced(cap, Step(cap, Step(cap, st, Take(redisOk)), Reply), GiveBack(giveBackOk));
  }

  /** What the phases of one command come to. */
  lemma ServedIs(cap: Capacity, st: State, redisOk: bool, giveBackOk: bool)
    requires st.hand.Idle? && st.queue != [] && forall id :: id in st.conns ==> !st.conns[id].GivingUp?
    ensures var rest := st.(queue := st.queue[1..]);
            var taken := AdmitScript(rest, cap);
            Served(cap, st, redisOk, giveBackOk) ==
            match st.queue[0]
            case Release => Returned(rest, redisOk)
            case Admit(id) =>
              var v := if redisOk then Some(taken.1) else None;
              var next := if redisOk then taken.0 else rest;
              if PhaseOf(st, id) == Some(Waiting) then Put(next, id, Answered(v))
              else if v == Some(true) then Returned(next, giveBackOk)
              else next
  {
    var s1 := Step(cap, st, Take(redisOk));
    var s2 := Step(cap, s1, Reply);
    assert Served(cap, st, redisOk, giveBackOk) == Step(cap, s2, GiveBack(giveBackOk));
  }
}

/**
 Cluster-wide capacity admission of one app with a fixed capacity, as seen from
 one node: connecting workers, the bridge between its script call and its reply,
 and other nodes taking and returning units of the same total.
 */
module Admission {
  import opened Prelude

  type ConnId(==, !new)

  /** An app of capacity 0 is unlimited, and its connections never ask. */
  type Capacity = c: nat | c > 0 witness 1

  /** A connection from its admission request on. A reply is `Some(true)`, `Some(false)` or `None` (Redis error). */
  datatype Phase =
    | Waiting                      // blocked on the reply
    | Answered(v: Option<bool>)    // the reply is in the channel, unread
    | GivingUp                     // the wait timed out, the receiver is not dropped yet
    | LateAnswer(v: Option<bool>)  // a reply landed in that window
    | Unmetered                    // open without a unit: failed open
    | Holding                      // open with a unit
    | Gone

  datatype Cmd = Admit(id: ConnId) | Release

  datatype Hand = Idle | Deciding(id: ConnId, v: Option<bool>) | GivingBack

  datatype State = State(
    conns: map<ConnId, Phase>,
    queue: seq<Cmd>,
    hand: Hand,
    node: nat,       // units on this node's hash
    total: nat,      // units on the cluster hash
    leaked: nat,     // releases dropped at the queue or failed in Redis
    stranded: nat)   // positive replies dropped with their receiver

  datatype Action =
    | Connect(id: ConnId, accepted: bool)
    | TimeOut(id: ConnId)
    | DropReceiver(id: ConnId)
    | Read(id: ConnId)
    | Close(id: ConnId, accepted: bool)
    | Take(ok: bool)
    | Reply
    | GiveBack(ok: bool)
    | OtherAdmit
    | OtherRelease

  ghost function PhaseOf(st: State, id: ConnId): Option<Phase>
  {
    if id in st.conns then Some(st.conns[id]) else None
  }

  ghost function Put(st: State, id: ConnId, p: Phase): State
  {
    st.(conns := st.conns[id := p])
  }

  /** The admit script: refuse at capacity, else one unit on both hashes. */
  ghost function AdmitScript(st: State, cap: Capacity): (State, bool)
  {
    if st.total >= cap then (st, false) else (st.(node := st.node + 1, total := st.total + 1), true)
  }

  /** The release script: this node's hash floors at zero, and then the cluster hash is left alone. */
  ghost function ReleaseScript(st: State): State
  {
    if st.node == 0 then st
    else st.(node := st.node - 1, total := if st.total == 0 then 0 else st.total - 1)
  }

  ghost function Returned(st: State, ok: bool): State
  {
    if ok then ReleaseScript(st) else st.(leaked := st.leaked + 1)
  }

  /** Actions that are not enabled change nothing. */
  ghost function Step(cap: Capacity, st: State, a: Action): State
  {
    match a
    case Connect(id, accepted) =>
      if id in st.conns then st
      else if accepted then Put(st, id, Waiting).(queue := st.queue + [Admit(id)])
      else Put(st, id, Unmetered)
    case TimeOut(id) =>
      if PhaseOf(st, id) == Some(Waiting) then Put(st, id, GivingUp) else st
    case DropReceiver(id) =>
      if PhaseOf(st, id) == Some(GivingUp) then Put(st, id, Unmetered)
      else if id in st.conns && st.conns[id].LateAnswer? then
        Put(st, id, Unmetered).(stranded := st.stranded + if st.conns[id].v == Some(true) then 1 else 0)
      else st
    case Read(id) =>
      if id in st.conns && st.conns[id].Answered? then
        Put(st, id, if st.conns[id].v == Some(true) then Holding
                    else if st.conns[id].v == Some(false) then Gone else Unmetered)
      else st
    case Close(id, accepted) =>
      if PhaseOf(st, id) == Some(Holding) then
        if accepted then Put(st, id, Gone).(queue := st.queue + [Release])
        else Put(st, id, Gone).(leaked := st.leaked + 1)
      else if PhaseOf(st, id) == Some(Unmetered) then Put(st, id, Gone)
      else st
    case Take(ok) =>
      if !st.hand.Idle? || st.queue == [] then st
      else
        var rest := st.(queue := st.queue[1..]);
        if st.queue[0].Release? then Returned(rest, ok)
        else if !ok then rest.(hand := Deciding(st.queue[0].id, None))
        else
          var (next, admitted) := AdmitScript(rest, cap);
          next.(hand := Deciding(st.queue[0].id, Some(admitted)))
    case Reply =>
      if !st.hand.Deciding? then st
      else
        var id, v, idle := st.hand.id, st.hand.v, st.(hand := Idle);
        if PhaseOf(st, id) == Some(Waiting) then Put(idle, id, Answered(v))
        else if PhaseOf(st, id) == Some(GivingUp) then Put(idle, id, LateAnswer(v))
        else if v == Some(true) then st.(hand := GivingBack)
        else idle
    case GiveBack(ok) =>
      if st.hand.GivingBack? then Returned(st.(hand := Idle), ok) else st
    case OtherAdmit => if st.total < cap then st.(total := st.total + 1) else st
    case OtherRelease => if st.total > st.node then st.(total := st.total - 1) else st
  }

  /** Every run starts with no connection here and any number of units held elsewhere. */
  ghost function Start(others: nat): State
  {
    State(map[], [], Idle, 0, others, 0, 0)
  }

  ghost function Run(cap: Capacity, others: nat, acts: seq<Action>): State
  {
    if acts == [] then Start(others) else Step(cap, Run(cap, others, acts[..|acts| - 1]), acts[|acts| - 1])
  }

  // ---------- the books ----------

  ghost function Those(conns: map<ConnId, Phase>, p: Phase): set<ConnId>
  {
    set id | id in conns && conns[id] == p
  }

  ghost function Count(conns: map<ConnId, Phase>, p: Phase): nat
  {
    |Those(conns, p)|
  }

  lemma CountEmpty(st: State, p: Phase)
    requires st.conns == map[]
    ensures Count(st.conns, p) == 0
  {
    assert Those(st.conns, p) == {};
  }

  lemma CountPut(conns: map<ConnId, Phase>, id: ConnId, p: Phase, q: Phase)
    ensures Count(conns[id := p], q) ==
            Count(conns, q) - (if id in conns && conns[id] == q then 1 else 0) + (if p == q then 1 else 0)
  {
    var before, after := Those(conns, q), Those(conns[id := p], q);
    if p == q {
      assert after == before + {id};
    } else {
      assert after == before - {id};
    }
  }

  ghost function Releases(q: seq<Cmd>): nat
  {
    if q == [] then 0 else Releases(q[..|q| - 1]) + (if q[|q| - 1].Release? then 1 else 0)
  }

  lemma {:induction false} ReleasesHead(q: seq<Cmd>)
    requires q != []
    ensures Releases(q) == Releases(q[1..]) + (if q[0].Release? then 1 else 0)
  {
    if |q| > 1 {
      ReleasesHead(q[..|q| - 1]);
      assert q[..|q| - 1][1..] == q[1..][..|q| - 2];
    } else {
      assert q[..0] == [] && q[1..] == [];
    }
  }

  /** A unit the bridge has taken or is about to return and no one else accounts for. */
  ghost function InHand(st: State): nat
  {
    if st.hand.GivingBack? || (st.hand.Deciding? && st.hand.v == Some(true)) then 1 else 0
  }

  /** The units connections hold or have an unread reply for. */
  ghost function Units(conns: map<ConnId, Phase>): nat
  {
    Count(conns, Holding) + Count(conns, Answered(Some(true))) + Count(conns, LateAnswer(Some(true)))
  }

  /** The units no connection has: on their way back, lost, or in the bridge's hand. */
  ghost function Returning(st: State): nat
  {
    Releases(st.queue) + st.leaked + st.stranded + InHand(st)
  }

  ghost function Accounted(st: State): nat
  {
    Units(st.conns) + Returning(st)
  }

  ghost predicate Balanced(cap: Capacity, st: State)
  {
    st.node == Accounted(st) && st.node <= st.total <= cap
  }

  ghost predicate HasUnit(p: Phase)
  {
    p == Holding || p == Answered(Some(true)) || p == LateAnswer(Some(true))
  }

  lemma PutBooks(st: State, id: ConnId, p: Phase)
    ensures Accounted(Put(st, id, p)) ==
            Accounted(st) - (if id in st.conns && HasUnit(st.conns[id]) then 1 else 0) + (if HasUnit(p) then 1 else 0)
  {
    CountPut(st.conns, id, p, Holding);
    CountPut(st.conns, id, p, Answered(Some(true)));
    CountPut(st.conns, id, p, LateAnswer(Some(true)));
  }

  lemma ReleasesTail(q: seq<Cmd>, c: Cmd)
    ensures Releases(q + [c]) == Releases(q) + (if c.Release? then 1 else 0)
  {
    assert (q + [c])[..|q|] == q;
  }

  lemma ConnectBalanced(cap: Capacity, st: State, id: ConnId, accepted: bool)
    requires Balanced(cap, st)
    ensures Balanced(cap, Step(cap, st, Connect(id, accepted)))
  {
    if id !in st.conns {
      PutBooks(st, id, if accepted then Waiting else Unmetered);
      if accepted {
        QueueBooks(Put(st, id, Waiting), Admit(id), Step(cap, st, Connect(id, accepted)));
      }
    }
  }

  lemma AwaitBalanced(cap: Capacity, st: State, a: Action)
    requires a.TimeOut? || a.DropReceiver? || a.Read?
    requires Balanced(cap, st)
    ensures Balanced(cap, Step(cap, st, a))
  {
    if a.id in st.conns {
      PutBooks(st, a.id, Step(cap, st, a).conns[a.id]);
    }
  }

  lemma CloseBalanced(cap: Capacity, st: State, id: ConnId, accepted: bool)
    requires Balanced(cap, st)
    ensures Balanced(cap, Step(cap, st, Close(id, accepted)))
  {
    if PhaseOf(st, id) == Some(Holding) || PhaseOf(st, id) == Some(Unmetered) {
      PutBooks(st, id, Gone);
      if accepted && PhaseOf(st, id) == Some(Holding) {
        QueueBooks(Put(st, id, Gone), Release, Step(cap, st, Close(id, accepted)));
      }
    }
  }

  /** Queueing a command adds to the books exactly if it is a release. */
  lemma QueueBooks(st: State, c: Cmd, next: State)
    requires next == st.(queue := st.queue + [c])
    ensures Returning(next) == Returning(st) + (if c.Release? then 1 else 0)
  {
    ReleasesTail(st.queue, c);
  }

  lemma TakeBalanced(cap: Capacity, st: State, ok: bool)
    requires Balanced(cap, st)
    ensures Balanced(cap, Step(cap, st, Take(ok)))
  {
    if st.hand.Idle? && st.queue != [] {
      ReleasesHead(st.queue);
    }
  }

  lemma ReplyBalanced(cap: Capacity, st: State)
    requires Balanced(cap, st)
    ensures Balanced(cap, Step(cap, st, Reply))
  {
    if st.hand.Deciding? {
      PutBooks(st.(hand := Idle), st.hand.id, Answered(st.hand.v));
      PutBooks(st.(hand := Idle), st.hand.id, LateAnswer(st.hand.v));
    }
  }

  lemma StepBalanced(cap: Capacity, st: State, a: Action)
    requires Balanced(cap, st)
    ensures Balanced(cap, Step(cap, st, a))
  {
    match a
    case Connect(id, accepted) => ConnectBalanced(cap, st, id, accepted);
    case Close(id, accepted) => CloseBalanced(cap, st, id, accepted);
    case Take(ok) => TakeBalanced(cap, st, ok);
    case Reply => ReplyBalanced(cap, st);
    case GiveBack(_) =>
    case OtherAdmit =>
    case OtherRelease =>
    case _ => AwaitBalanced(cap, st, a);
  }

  lemma {:induction false} RunBalanced(cap: Capacity, others: nat, acts: seq<Action>)
    requires others <= cap
    ensures Balanced(cap, Run(cap, others, acts))
  {
    if acts != [] {
      RunBalanced(cap, others, acts[..|acts| - 1]);
      StepBalanced(cap, Run(cap, others, acts[..|acts| - 1]), acts[|acts| - 1]);
    } else {
      CountEmpty(Start(others), Holding);
      CountEmpty(Start(others), Answered(Some(true)));
      CountEmpty(Start(others), LateAnswer(Some(true)));
    }
  }

  /** The release script is about to run. */
  ghost predicate Releasing(st: State, a: Action)
  {
    || (a == Take(true) && st.hand.Idle? && st.queue != [] && st.queue[0].Release?)
    || (a == GiveBack(true) && st.hand.GivingBack?)
  }

  lemma {:induction false} ReleasesPositive(q: seq<Cmd>)
    requires q != [] && q[0].Release?
    ensures Releases(q) > 0
  {
    ReleasesHead(q);
  }

  /**
   Over every run: this node's units are exactly the connections holding one, the
   positive replies not yet read, the queued releases, the lost ones and the unit
   in the bridge's hand; the cluster total never exceeds the capacity; and no
   release script ever meets its floor.
   */
  lemma AdmissionConserves(cap: Capacity, others: nat, acts: seq<Action>, next: Action)
    requires others <= cap
    ensures var st := Run(cap, others, acts);
            && st.node == Count(st.conns, Holding) + Count(st.conns, Answered(Some(true)))
                          + Count(st.conns, LateAnswer(Some(true)))
                          + Releases(st.queue) + st.leaked + st.stranded + InHand(st)
            && st.node <= st.total <= cap
            && (Releasing(st, next) ==> st.node > 0 && st.total > 0)
  {
    RunBalanced(cap, others, acts);
    if Releasing(Run(cap, others, acts), next) {
      ReleasingHolds(cap, Run(cap, others, acts), next);
    }
  }

  // ---------- what the scripts answer ----------

  /** Units held by other nodes: those at the start, and each one they take or return since. */
  ghost function Elsewhere(cap: Capacity, others: nat, acts: seq<Action>): int
  {
    if acts == [] then others
    else
      var init, a := acts[..|acts| - 1], acts[|acts| - 1];
      var st := Run(cap, others, init);
      Elsewhere(cap, others, init) +
      (if a.OtherAdmit? && st.total < cap then 1 else if a.OtherRelease? && st.total > st.node then -1 else 0)
  }

  lemma StepTotal(cap: Capacity, st: State, a: Action)
    requires Balanced(cap, st)
    ensures var next := Step(cap, st, a);
            next.total - next.node == st.total - st.node
              + (if a.OtherAdmit? && st.total < cap then 1 else if a.OtherRelease? && st.total > st.node then -1 else 0)
  {
    if Releasing(st, a) {
      ReleasingHolds(cap, st, a);
    }
  }

  lemma ReleasingHolds(cap: Capacity, st: State, a: Action)
    requires Balanced(cap, st) && Releasing(st, a)
    ensures st.node > 0 && st.total > 0
  {
    if a.Take? {
      ReleasesPositive(st.queue);
    }
  }

  /** Over every run the cluster total is this node's units and those held elsewhere, no more and no less. */
  lemma {:induction false} TotalExact(cap: Capacity, others: nat, acts: seq<Action>)
    requires others <= cap
    ensures Run(cap, others, acts).total == Run(cap, others, acts).node + Elsewhere(cap, others, acts)
  {
    if acts != [] {
      var init := acts[..|acts| - 1];
      TotalExact(cap, others, init);
      RunBalanced(cap, others, init);
      StepTotal(cap, Run(cap, others, init), acts[|acts| - 1]);
    }
  }

  /**
   Over every run, an admit carried out with Redis up is refused if and only if the units of all
   nodes fill the capacity at that step; it takes one unit exactly when it is not refused; and
   with Redis down it is answered neither way and takes none.
   */
  lemma VerdictExact(cap: Capacity, others: nat, acts: seq<Action>, id: ConnId, ok: bool)
    requires others <= cap
    requires var st := Run(cap, others, acts); st.hand.Idle? && st.queue != [] && st.queue[0] == Admit(id)
    ensures var st, next := Run(cap, others, acts), Run(cap, others, acts + [Take(ok)]);
            && next.hand.Deciding? && next.hand.id == id
            && (!ok ==> next.hand.v == None && next.node == st.node && next.total == st.total)
            && (ok ==> next.hand.v.Some?)
            && (ok && !next.hand.v.value <==> ok && st.node + Elsewhere(cap, others, acts) == cap)
            && (ok ==> next.node == st.node + (if next.hand.v.value then 1 else 0))
            && (ok ==> next.total == st.total + (if next.hand.v.value then 1 else 0))
  {
    RunAppend(cap, others, acts, Take(ok));
    RunBalanced(cap, others, acts);
    TotalExact(cap, others, acts);
  }

  /** A waiting connection gets exactly the verdict the bridge holds for it. */
  lemma ReplyExact(cap: Capacity, others: nat, acts: seq<Action>, id: ConnId)
    requires var st := Run(cap, others, acts); st.hand.Deciding? && st.hand.id == id
    ensures var st, next := Run(cap, others, acts), Run(cap, others, acts + [Reply]);
            && (PhaseOf(st, id) == Some(Waiting) ==> PhaseOf(next, id) == Some(Answered(st.hand.v)) && next.hand.Idle?)
            && (PhaseOf(st, id) == Some(GivingUp) ==> PhaseOf(next, id) == Some(LateAnswer(st.hand.v)) && next.hand.Idle?)
            && (PhaseOf(st, id) !in {Some(Waiting), Some(GivingUp)} ==>
                  next.conns == st.conns && (next.hand == GivingBack <==> st.hand.v == Some(true)))
            && forall other :: other != id ==> PhaseOf(next, other) == PhaseOf(st, other)
  {
    RunAppend(cap, others, acts, Reply);
  }

  // ---------- the queue ----------

  /** The commands accepted by the queue: an admit per new connection, a release per closed holder. */
  ghost function Accepted(cap: Capacity, others: nat, acts: seq<Action>): seq<Cmd>
  {
    if acts == [] then []
    else
      var init, a := acts[..|acts| - 1], acts[|acts| - 1];
      var st := Run(cap, others, init);
      Accepted(cap, others, init) +
      (if a.Connect? && a.accepted && a.id !in st.conns then [Admit(a.id)]
       else if a.Close? && a.accepted && PhaseOf(st, a.id) == Some(Holding) then [Release] else [])
  }

  /** How many commands the bridge has taken off the queue. */
  ghost function Taken(cap: Capacity, others: nat, acts: seq<Action>): nat
  {
    if acts == [] then 0
    else
      var st := Run(cap, others, acts[..|acts| - 1]);
      Taken(cap, others, acts[..|acts| - 1]) +
      (if acts[|acts| - 1].Take? && st.hand.Idle? && st.queue != [] then 1 else 0)
  }

  lemma StepQueue(cap: Capacity, st: State, a: Action, accepted: seq<Cmd>, taken: nat)
    requires taken <= |accepted| && st.queue == accepted[taken..]
    ensures var more := if a.Connect? && a.accepted && a.id !in st.conns then [Admit(a.id)]
                        else if a.Close? && a.accepted && PhaseOf(st, a.id) == Some(Holding) then [Release] else [];
            var taken' := taken + if a.Take? && st.hand.Idle? && st.queue != [] then 1 else 0;
            taken' <= |accepted + more| && Step(cap, st, a).queue == (accepted + more)[taken'..]
  {
  }

  /** Over every run the queue is the accepted commands not yet taken, in the order they were sent. */
  lemma {:induction false} QueueExact(cap: Capacity, others: nat, acts: seq<Action>)
    ensures Taken(cap, others, acts) <= |Accepted(cap, others, acts)|
    ensures Run(cap, others, acts).queue == Accepted(cap, others, acts)[Taken(cap, others, acts)..]
  {
    if acts != [] {
      var init := acts[..|acts| - 1];
      QueueExact(cap, others, init);
      StepQueue(cap, Run(cap, others, init), acts[|acts| - 1], Accepted(cap, others, init), Taken(cap, others, init));
    }
  }

  // ---------- the timeout window ----------

  /** A positive reply is sent between a worker's timeout and the drop of its receiver. */
  ghost predicate LandsInWindow(st: State, a: Action)
  {
    a.Reply? && st.hand.Deciding? && st.hand.v == Some(true) && PhaseOf(st, st.hand.id) == Some(GivingUp)
  }

  ghost function Windows(cap: Capacity, others: nat, acts: seq<Action>): nat
  {
    if acts == [] then 0
    else Windows(cap, others, acts[..|acts| - 1]) +
         (if LandsInWindow(Run(cap, others, acts[..|acts| - 1]), acts[|acts| - 1]) then 1 else 0)
  }

  lemma StepStranded(cap: Capacity, st: State, a: Action)
    ensures var next := Step(cap, st, a);
            next.stranded + Count(next.conns, LateAnswer(Some(true))) ==
            st.stranded + Count(st.conns, LateAnswer(Some(true))) + (if LandsInWindow(st, a) then 1 else 0)
  {
    var late := LateAnswer(Some(true));
    match a
    case Reply =>
      if st.hand.Deciding? {
        CountPut(st.conns, st.hand.id, Answered(st.hand.v), late);
        CountPut(st.conns, st.hand.id, LateAnswer(st.hand.v), late);
      }
    case Take(_) =>
    case GiveBack(_) =>
    case OtherAdmit =>
    case OtherRelease =>
    case _ =>
      var next := Step(cap, st, a);
      if next.conns != st.conns {
        CountPut(st.conns, a.id, next.conns[a.id], late);
      }
  }

  /** Units are stranded exactly by the replies that land in the window, one each. */
  lemma {:induction false} StrandedExactly(cap: Capacity, others: nat, acts: seq<Action>)
    ensures var st := Run(cap, others, acts);
            st.stranded + Count(st.conns, LateAnswer(Some(true))) == Windows(cap, others, acts)
  {
    if acts != [] {
      StrandedExactly(cap, others, acts[..|acts| - 1]);
      StepStranded(cap, Run(cap, others, acts[..|acts| - 1]), acts[|acts| - 1]);
    } else {
      CountEmpty(Start(others), LateAnswer(Some(true)));
    }
  }

  /** Every time-out of the run is followed at once by the drop of its receiver. */
  ghost predicate Atomic(acts: seq<Action>)
    decreases |acts|
  {
    var n := |acts|;
    || n == 0
    || (!acts[n - 1].TimeOut? && Atomic(acts[..n - 1]))
    || (n >= 2 && acts[n - 1].DropReceiver? && acts[n - 2] == TimeOut(acts[n - 1].id) && Atomic(acts[..n - 2]))
  }

  ghost predicate NoneGivingUp(st: State)
  {
    forall id :: id in st.conns ==> st.conns[id] != GivingUp
  }

  lemma StepNoneGivingUp(cap: Capacity, st: State, a: Action)
    requires NoneGivingUp(st) && !a.TimeOut?
    ensures NoneGivingUp(Step(cap, st, a)) && !LandsInWindow(st, a)
  {
  }

  lemma TimeOutAndDrop(cap: Capacity, st: State, id: ConnId)
    requires NoneGivingUp(st)
    ensures NoneGivingUp(Step(cap, Step(cap, st, TimeOut(id)), DropReceiver(id)))
  {
  }

  lemma {:induction false} AtomicNoWindow(cap: Capacity, others: nat, acts: seq<Action>)
    requires Atomic(acts)
    ensures Windows(cap, others, acts) == 0 && NoneGivingUp(Run(cap, others, acts))
    decreases |acts|
  {
    var n := |acts|;
    if n == 0 {
    } else if !acts[n - 1].TimeOut? && Atomic(acts[..n - 1]) {
      AtomicNoWindow(cap, others, acts[..n - 1]);
      StepNoneGivingUp(cap, Run(cap, others, acts[..n - 1]), acts[n - 1]);
    } else {
      AtomicNoWindow(cap, others, acts[..n - 2]);
      assert acts[..n - 1][..n - 2] == acts[..n - 2];
      TimeOutAndDrop(cap, Run(cap, others, acts[..n - 2]), acts[n - 1].id);
    }
  }

  /** When time-out and receiver drop are one step, no unit is ever lost but to a lost release. */
  lemma AtomicTimeoutsConserve(cap: Capacity, others: nat, acts: seq<Action>)
    requires others <= cap && Atomic(acts)
    ensures var st := Run(cap, others, acts);
            st.node == Count(st.conns, Holding) + Count(st.conns, Answered(Some(true)))
                       + Releases(st.queue) + st.leaked + InHand(st)
  {
    RunBalanced(cap, others, acts);
    StrandedExactly(cap, others, acts);
    AtomicNoWindow(cap, others, acts);
  }

  lemma RunAppend(cap: Capacity, others: nat, acts: seq<Action>, a: Action)
    ensures Run(cap, others, acts + [a]) == Step(cap, Run(cap, others, acts), a)
  {
    assert (acts + [a])[..|acts|] == acts;
  }

  /** With the two apart, the unit of a reply landing between them is lost though no release was. */
  lemma WindowStrands(cap: Capacity, id: ConnId) returns (acts: seq<Action>)
    ensures var st := Run(cap, 0, acts);
            st.node == 1 && st.queue == [] && st.hand.Idle? && st.leaked == 0 && st.conns == map[id := Unmetered]
  {
    acts := [];
    RunAppend(cap, 0, acts, Connect(id, true));
    acts := acts + [Connect(id, true)];
    RunAppend(cap, 0, acts, TimeOut(id));
    acts := acts + [TimeOut(id)];
    assert Run(cap, 0, acts) == State(map[id := GivingUp], [Admit(id)], Idle, 0, 0, 0, 0);
    RunAppend(cap, 0, acts, Take(true));
    acts := acts + [Take(true)];
    RunAppend(cap, 0, acts, Reply);
    acts := acts + [Reply];
    assert Run(cap, 0, acts) == State(map[id := LateAnswer(Some(true))], [], Idle, 1, 1, 0, 0);
    RunAppend(cap, 0, acts, DropReceiver(id));
    acts := acts + [DropReceiver(id)];
  }
}

/**
 The join and leave edges a presence channel reports over a whole run:
 `firstForUser` from an add, `lastForUser` from a remove.
 */
module PresenceEdges {
  import opened Prelude
  import opened ChannelSpec
  import opened ChannelState

  datatype Op = AddOp(sock: SocketId, member: Option<Member>) | RemoveOp(sock: SocketId)
  datatype History = History(joins: seq<Join>, log: seq<(UserId, Edge)>)

  /** The edge an add or a remove reports, by the contracts of `ChannelState.Add` and `ChannelState.Remove`. */
  ghost function Reported(js: seq<Join>, op: Op): seq<(UserId, Edge)>
  {
    match op
    case AddOp(s, m) =>
      if m.Some? && Conns(Joined(js, Join(s, m)), m.value.userId) == [s] then [(m.value.userId, Up)] else []
    case RemoveOp(s) =>
      if s in Subs(js) && Subs(js)[s].Some? && !OnRoster(Without(js, s), Subs(js)[s].value.userId)
      then [(Subs(js)[s].value.userId, Down)] else []
  }

  ghost function Step(h: History, op: Op): History
  {
    History(match op
            case AddOp(s, m) => Joined(h.joins, Join(s, m))
            case RemoveOp(s) => Without(h.joins, s),
            h.log + Reported(h.joins, op))
  }

  /** The joins after some operations on any channel. */
  ghost function Applied(js: seq<Join>, ops: seq<Op>): seq<Join>
  {
    if ops == [] then js else Step(History(Applied(js, ops[..|ops| - 1]), []), ops[|ops| - 1]).joins
  }

  ghost function Run(ops: seq<Op>): History
  {
    if ops == [] then History([], []) else Step(Run(ops[..|ops| - 1]), ops[|ops| - 1])
  }

  // ---------- the joins, from the operations alone ----------

  /** When socket `s` was last added or removed; -1 if never. */
  ghost function LastOp(ops: seq<Op>, s: SocketId): int
  {
    if ops == [] then -1
    else if ops[|ops| - 1].sock == s then |ops| - 1 else LastOp(ops[..|ops| - 1], s)
  }

  lemma {:induction false} LastOpIs(ops: seq<Op>, s: SocketId)
    ensures -1 <= LastOp(ops, s) < |ops|
    ensures LastOp(ops, s) >= 0 ==> ops[LastOp(ops, s)].sock == s
    ensures forall i :: LastOp(ops, s) < i < |ops| ==> ops[i].sock != s
  {
    if ops != [] {
      LastOpIs(ops[..|ops| - 1], s);
    }
  }

  /** A live join is the last operation on its socket, with the member it named. */
  ghost predicate Live(ops: seq<Op>, j: Join)
  {
    var t := LastOp(ops, j.sock);
    0 <= t < |ops| && ops[t] == AddOp(j.sock, j.member)
  }

  lemma {:induction false} WithoutPosition(js: seq<Join>, s: SocketId, a: nat) returns (i: nat)
    requires a < |Without(js, s)|
    ensures i < |js| && js[i] == Without(js, s)[a] && js[i].sock != s
  {
    var init := js[..|js| - 1];
    if a < |Without(init, s)| {
      i := WithoutPosition(init, s, a);
    } else {
      i := |js| - 1;
    }
  }

  lemma {:induction false} WithoutPositions(js: seq<Join>, s: SocketId, a: nat, b: nat) returns (i: nat, j: nat)
    requires a < b < |Without(js, s)|
    ensures i < j < |js| && js[i] == Without(js, s)[a] && js[j] == Without(js, s)[b] && js[i].sock != s && js[j].sock != s
  {
    var init := js[..|js| - 1];
    if b < |Without(init, s)| {
      i, j := WithoutPositions(init, s, a, b);
    } else {
      i := WithoutPosition(init, s, a);
      j := |js| - 1;
    }
  }

  lemma {:induction false} WithoutKeeps(js: seq<Join>, s: SocketId, j: Join)
    requires j in js && j.sock != s
    ensures j in Without(js, s)
  {
    if j != js[|js| - 1] {
      assert js == js[..|js| - 1] + [js[|js| - 1]];
      WithoutKeeps(js[..|js| - 1], s, j);
    }
  }

  lemma LiveNext(ops: seq<Op>, j: Join)
    requires ops != []
    ensures var init, op := ops[..|ops| - 1], ops[|ops| - 1];
            Live(ops, j) <==> if op.sock == j.sock then op == AddOp(j.sock, j.member) else Live(init, j)
  {
    LastOpIs(ops[..|ops| - 1], j.sock);
  }

  /** Over every run the joins are exactly the live ones. */
  lemma {:induction false} JoinsAreLive(ops: seq<Op>, j: Join)
    ensures j in Run(ops).joins <==> Live(ops, j)
  {
    if ops != [] {
      var init, op := ops[..|ops| - 1], ops[|ops| - 1];
      var js := Run(init).joins;
      JoinsAreLive(init, j);
      LiveNext(ops, j);
      if j in js && j.sock != op.sock {
        WithoutKeeps(js, op.sock, j);
      }
      if j in Without(js, op.sock) {
        var a :| 0 <= a < |Without(js, op.sock)| && Without(js, op.sock)[a] == j;
        var i := WithoutPosition(js, op.sock, a);
      }
    }
  }

  /** And they stand in the order of those operations, the oldest first. */
  lemma {:induction false} JoinsInOrder(ops: seq<Op>, a: nat, b: nat)
    requires a < b < |Run(ops).joins|
    ensures LastOp(ops, Run(ops).joins[a].sock) < LastOp(ops, Run(ops).joins[b].sock)
  {
    var init, op := ops[..|ops| - 1], ops[|ops| - 1];
    var js, w := Run(init).joins, Without(Run(init).joins, op.sock);
    var i := WithoutPosition(js, op.sock, a);
    LastOpIs(init, js[i].sock);
    if b < |w| {
      var i', j := WithoutPositions(js, op.sock, a, b);
      JoinsInOrder(init, i', j);
    }
  }

  /** Each user's edges alternate from `Up`, and the user is on the roster exactly between an `Up` and its `Down`. */
  ghost predicate FaithfulFor(h: History, u: UserId)
  {
    Alternating(Of(h.log, u)) && (OnRoster(h.joins, u) <==> Due(Of(h.log, u)) == Down)
  }

  /** An add whose socket is already its user's only live connection. */
  ghost predicate SwallowsLeave(h: History, op: Op)
  {
    op.AddOp? && Sole(h.joins, op.sock)
  }

  /** A user whose reports no longer match the roster: an `Up` twice in a row, or gone without a `Down`. */
  ghost predicate Broken(h: History, u: UserId)
  {
    !Alternating(Of(h.log, u)) || (!OnRoster(h.joins, u) && Due(Of(h.log, u)) == Down)
  }

  lemma {:induction false} RunDistinct(ops: seq<Op>)
    ensures Distinct(Run(ops).joins)
  {
    if ops != [] {
      var h := Run(ops[..|ops| - 1]);
      RunDistinct(ops[..|ops| - 1]);
      match ops[|ops| - 1]
      case AddOp(s, m) => JoinedDistinct(h.joins, Join(s, m));
      case RemoveOp(s) => WithoutDistinct(h.joins, s);
    }
  }

  /** The leave of `s` empties user `u`. */
  ghost predicate Empties(js: seq<Join>, s: SocketId, u: UserId)
  {
    Sole(js, s) && Subs(js)[s].value.userId == u
  }

  /** Who is on the roster after a leave, and after a join. */
  lemma RosterAfter(js: seq<Join>, j: Join, u: UserId)
    requires Distinct(js)
    ensures Empties(js, j.sock, u) ==> OnRoster(js, u)
    ensures OnRoster(Without(js, j.sock), u) <==> OnRoster(js, u) && !Empties(js, j.sock, u)
    ensures j.sock in Subs(js) && IsUser(Subs(js)[j.sock], u) ==> OnRoster(js, u)
    ensures OnRoster(Joined(js, j), u) <==> OnRoster(Without(js, j.sock), u) || IsUser(j.member, u)
    ensures IsUser(j.member, u) ==>
              (Conns(Joined(js, j), u) == [j.sock] <==> !OnRoster(Without(js, j.sock), u))
  {
    var s, w := j.sock, Without(js, j.sock);
    WithoutConns(js, s, u);
    ConnsMembership(js, u);
    RetainFacts(Conns(js, u), s);
    if s in Conns(js, u) {
      SoleRetain(Conns(js, u), s);
    }
    assert (w + [j])[..|w|] == w;
    assert Conns(w + [j], u) == Conns(w, u) + (if IsUser(j.member, u) then [s] else []);
  }

  /** One step as user `u` sees it: whether it is left on the roster, and what is reported of it. */
  lemma StepFor(h: History, op: Op, u: UserId)
    requires Distinct(h.joins)
    ensures Empties(h.joins, op.sock, u) ==> OnRoster(h.joins, u)
    ensures var stays := OnRoster(h.joins, u) && !Empties(h.joins, op.sock, u);
            var enters := op.AddOp? && IsUser(op.member, u);
            && (OnRoster(Step(h, op).joins, u) <==> stays || enters)
            && Of(Step(h, op).log, u) == Of(h.log, u) +
                 (if enters && !stays then [Up]
                  else if op.RemoveOp? && Empties(h.joins, op.sock, u) then [Down] else [])
  {
    OfReport(h.log, Reported(h.joins, op), u);
    RosterAfter(h.joins, Join(op.sock, if op.AddOp? then op.member else None), u);
  }

  lemma StepFaithful(h: History, op: Op, u: UserId)
    requires Distinct(h.joins) && FaithfulFor(h, u) && !SwallowsLeave(h, op)
    ensures FaithfulFor(Step(h, op), u)
  {
    StepFor(h, op, u);
    var on, on' := OnRoster(h.joins, u), OnRoster(Step(h, op).joins, u);
    BracketStep(Of(h.log, u), on, if on == on' then [] else if on' then [Up] else [Down], on');
  }

  lemma StepBreaks(h: History, op: Op)
    requires Distinct(h.joins) && SwallowsLeave(h, op)
    requires FaithfulFor(h, Subs(h.joins)[op.sock].value.userId)
    ensures Broken(Step(h, op), Subs(h.joins)[op.sock].value.userId)
  {
    var u := Subs(h.joins)[op.sock].value.userId;
    StepFor(h, op, u);
    AlternatingExtend(Of(h.log, u), Up);
  }

  lemma StepStaysBroken(h: History, op: Op, u: UserId)
    requires Distinct(h.joins) && Broken(h, u)
    ensures Broken(Step(h, op), u)
  {
    StepFor(h, op, u);
    assert Of(h.log, u) + [] == Of(h.log, u);
    AlternatingExtend(Of(h.log, u), Up);
    AlternatingExtend(Of(h.log, u), Down);
  }

  /** No add of the run swallowed a leave. */
  ghost predicate Clean(ops: seq<Op>)
  {
    ops == [] || (Clean(ops[..|ops| - 1]) && !SwallowsLeave(Run(ops[..|ops| - 1]), ops[|ops| - 1]))
  }

  lemma {:induction false} CleanFaithful(ops: seq<Op>, u: UserId)
    requires Clean(ops)
    ensures FaithfulFor(Run(ops), u)
  {
    if ops != [] {
      CleanFaithful(ops[..|ops| - 1], u);
      RunDistinct(ops[..|ops| - 1]);
      StepFaithful(Run(ops[..|ops| - 1]), ops[|ops| - 1], u);
    }
  }

  lemma {:induction false} UncleanBroken(ops: seq<Op>) returns (u: UserId)
    requires !Clean(ops)
    ensures Broken(Run(ops), u)
  {
    var init, op := ops[..|ops| - 1], ops[|ops| - 1];
    RunDistinct(init);
    if Clean(init) {
      u := Subs(Run(init).joins)[op.sock].value.userId;
      CleanFaithful(init, u);
      StepBreaks(Run(init), op);
    } else {
      u := UncleanBroken(init);
      StepStaysBroken(Run(init), op, u);
    }
  }

  /**
   Over every sequential run: every user's reports alternate and bracket its
   time on the roster if and only if no add swallowed its socket's last leave.
   */
  lemma PresenceEdgesExact(ops: seq<Op>)
    ensures (forall u :: FaithfulFor(Run(ops), u)) <==> Clean(ops)
  {
    if Clean(ops) {
      forall u ensures FaithfulFor(Run(ops), u) {
        CleanFaithful(ops, u);
      }
    } else {
      var u := UncleanBroken(ops);
      assert !FaithfulFor(Run(ops), u);
    }
  }

  /** The failing family is not empty: one socket added twice as the same user. */
  lemma ReAddBreaks(s: SocketId, m: Member)
    ensures var ops := [AddOp(s, Some(m)), AddOp(s, Some(m))];
            !Clean(ops) && !FaithfulFor(Run(ops), m.userId)
  {
    var op := AddOp(s, Some(m));
    AddedOnce(s, m);
    RunDistinct([op]);
    CleanFaithful([op], m.userId);
    StepBreaks(Run([op]), op);
    Append([op], op);
    assert [op] + [op] == [op, op];
  }

  lemma AddedOnce(s: SocketId, m: Member)
    ensures var once := [AddOp(s, Some(m))];
            && Clean(once) && s in Subs(Run(once).joins) && Subs(Run(once).joins)[s] == Some(m)
            && Sole(Run(once).joins, s)
  {
    var none: seq<Op>, js := [], [Join(s, Some(m))];
    Append(none, AddOp(s, Some(m)));
    assert none + [AddOp(s, Some(m))] == [AddOp(s, Some(m))];
    assert Run(none) == History([], []);
    assert Without([], s) + js == js && js[..0] == [];
    assert Subs(js) == map[s := Some(m)];
    assert Conns(js, m.userId) == [] + [s];
  }

  lemma Append(ops: seq<Op>, op: Op)
    ensures Run(ops + [op]) == Step(Run(ops), op)
    ensures Clean(ops + [op]) <==> Clean(ops) && !SwallowsLeave(Run(ops), op)
  {
    assert (ops + [op])[..|ops|] == ops;
  }

  /** No add of the run named a socket that was subscribed at the time. */
  ghost predicate NoReAdds(ops: seq<Op>)
  {
    ops == [] || (NoReAdds(ops[..|ops| - 1]) &&
                  (ops[|ops| - 1].AddOp? ==> ops[|ops| - 1].sock !in Subs(Run(ops[..|ops| - 1]).joins)))
  }

  /** In particular such a run reports faithfully. */
  lemma {:induction false} NoReAddsFaithful(ops: seq<Op>)
    requires NoReAdds(ops)
    ensures Clean(ops) && forall u :: FaithfulFor(Run(ops), u)
  {
    if ops != [] {
      NoReAddsFaithful(ops[..|ops| - 1]);
    }
    PresenceEdgesExact(ops);
  }

  /** One call on the channel: the joins step and the edge is the one reported. */
  method DriveOne(state: ChannelState, op: Op) returns (r: seq<(UserId, Edge)>)
    requires state.Valid()
    modifies state
    ensures state.Valid()
    ensures state.joins == Step(History(old(state.joins), []), op).joins
    ensures r == Reported(old(state.joins), op)
  {
    r := [];
    match op {
      case AddOp(s, m) =>
        var join := state.Add(state.channel, s, m);
        if join.Some? && join.value.firstForUser {
          r := [(m.value.userId, Up)];
        }
      case RemoveOp(s) =>
        var leave := state.Remove(s);
        if leave.Some? && leave.value.lastForUser {
          r := [(leave.value.userId, Down)];
        }
    }
  }

  lemma RunNext(ops: seq<Op>, i: nat)
    requires i < |ops|
    ensures Run(ops[..i + 1]) == Step(Run(ops[..i]), ops[i])
  {
    assert ops[..i + 1][..i] == ops[..i];
  }

  /** Driving a fresh channel through a run yields exactly the joins and reports above. */
  method Drive(state: ChannelState, ops: seq<Op>) returns (log: seq<(UserId, Edge)>)
    requires state.Valid() && state.joins == []
    modifies state
    ensures state.Valid()
    ensures state.joins == Run(ops).joins && log == Run(ops).log
  {
    log := [];
    for i := 0 to |ops|
      invariant state.Valid()
      invariant state.joins == Run(ops[..i]).joins && log == Run(ops[..i]).log
    {
      RunNext(ops, i);
      var r := DriveOne(state, ops[i]);
      log := log + r;
    }
    assert ops[..|ops|] == ops;
  }
}

/**
 One channel's mutable state: the subscriber map, the presence index and the two
 memo cells (encoded roster frame, fan-out snapshot), refining the live joins.
 */
module ChannelState {
  import opened Prelude
  import opened ChannelSpec

  datatype PresenceJoin = PresenceJoin(firstForUser: bool, rosterFrame: Frame, member: Member)
  datatype PresenceLeave = PresenceLeave(lastForUser: bool, userId: UserId)

  /** One broadcast detached from the channel: frame, guard-time membership, exclusion, send path. */
  datatype Fanout = Fanout(frame: Frame, snapshot: seq<SocketId>, except: Option<SocketId>, parallel: bool)

  const PARALLEL_THRESHOLD: nat := 256

  class ChannelState {
    const channel: ChannelName
    const encode: Encoder
    var subscribers: map<SocketId, Option<Member>>
    var users: map<UserId, PresenceUser>
    var snapshot: Option<seq<SocketId>>
    var rosterFrame: Option<Frame>
    /** The live joins this state stands for. */
    ghost var joins: seq<Join>
    /** How often the roster has been encoded: a shared frame costs nothing. */
    ghost var encodings: nat

    ghost predicate Valid()
      reads this
    {
      && Indexed()
      && (rosterFrame.Some? ==> rosterFrame.value == encode(channel, Hash(users)))
    }

    ghost predicate Indexed()
      reads this
    {
      && Distinct(joins)
      && subscribers == Subs(joins)
      && IsRoster(joins, users)
      && (snapshot.Some? ==> Lists(snapshot.value, subscribers.Keys))
    }

    constructor (channel: ChannelName, wire: Wire)
      ensures Valid() && joins == [] && encodings == 0 && rosterFrame.None? && snapshot.None?
      ensures this.channel == channel && encode == EncoderFor(wire)
    {
      this.channel, this.encode := channel, EncoderFor(wire);
      subscribers, users, snapshot, rosterFrame := map[], map[], None, None;
      joins, encodings := [], 0;
    }

    /** A re-add replaces the socket's previous membership. */
    method Add(channel: ChannelName, sock: SocketId, member: Option<Member>) returns (join: Option<PresenceJoin>)
      requires Valid() && channel == this.channel
      modifies this
      ensures Valid()
      ensures joins == Joined(old(joins), Join(sock, member))
      ensures join.Some? <==> member.Some?
      ensures member.Some? ==>
                && join.value.member == member.value
                && join.value.rosterFrame == encode(channel, Hash(users))
                && (join.value.firstForUser <==> Conns(joins, member.value.userId) == [sock])
      ensures snapshot.None?
      // the roster is re-encoded for a join exactly when its generation has ended
      ensures var moved := Hash(users) != old(Hash(users)) || Sole(old(joins), sock);
              && rosterFrame == (if member.Some? then Some(encode(channel, Hash(users)))
                                 else if moved then None else old(rosterFrame))
              && encodings == old(encodings) + (if member.Some? && (moved || old(rosterFrame).None?) then 1 else 0)
    {
      ghost var js, before := joins, users;
      var _ := Remove(sock);
      ghost var mid := users;
      LeaveFacts(js, sock);
      var first := Insert(sock, member);
      GenerationEnds(js, Join(sock, member), before, mid);
      join := None;
      if member.Some? {
        var frame := CachedRosterFrame(channel);
        join := Some(PresenceJoin(first, frame, member.value));
      }
    }

    /** Index a socket that is not subscribed; its user's first socket ends the roster generation. */
    method Insert(sock: SocketId, member: Option<Member>) returns (first: bool)
      requires Valid() && sock !in subscribers
      modifies this
      ensures Valid() && snapshot.None? && encodings == old(encodings)
      ensures joins == old(joins) + [Join(sock, member)]
      ensures users == UsersAfterJoin(old(users), Join(sock, member))
      ensures first <==> member.Some? && member.value.userId !in old(users)
      ensures member.Some? ==> (first <==> Conns(joins, member.value.userId) == [sock])
      ensures rosterFrame == if first then None else old(rosterFrame)
    {
      InsertStep(joins, users, Join(sock, member));
      first := Index(sock, member);
    }

    /** Record a socket in both indexes and drop what that makes stale. */
    method Index(sock: SocketId, member: Option<Member>) returns (first: bool)
      modifies this
      ensures subscribers == old(subscribers)[sock := member] && joins == old(joins) + [Join(sock, member)]
      ensures users == UsersAfterJoin(old(users), Join(sock, member))
      ensures first <==> member.Some? &&
                         |if member.value.userId in old(users) then old(users)[member.value.userId].conns else []| == 0
      ensures snapshot.None? && encodings == old(encodings)
      ensures rosterFrame == if first then None else old(rosterFrame)
    {
      first := PushConn(sock, member);
      subscribers := subscribers[sock := member];
      joins := joins + [Join(sock, member)];
      snapshot := None;
      if first {
        rosterFrame := None;
      }
    }

    /** Append `sock` to its user's list, creating the entry if the user is new. */
    method PushConn(sock: SocketId, member: Option<Member>) returns (first: bool)
      modifies this`users
      ensures users == UsersAfterJoin(old(users), Join(sock, member))
      ensures first <==> member.Some? &&
                         |if member.value.userId in old(users) then old(users)[member.value.userId].conns else []| == 0
    {
      first := false;
      if member.Some? {
        var u := member.value.userId;
        if u !in users {
          users := users[u := PresenceUser(member.value.userInfo, [])];
        }
        users := users[u := users[u].(conns := users[u].conns + [sock])];
        first := |users[u].conns| == 1;
      }
    }

    method Remove(sock: SocketId) returns (leave: Option<PresenceLeave>)
      requires Valid()
      modifies this
      ensures Valid()
      ensures joins == Without(old(joins), sock)
      ensures leave.Some? <==> sock in old(subscribers) && old(subscribers)[sock].Some?
      ensures leave.Some? ==>
                && leave.value.userId == old(subscribers)[sock].value.userId
                && (leave.value.lastForUser <==> !OnRoster(joins, leave.value.userId))
      // the cached frame survives exactly the leaves that leave the roster as it was
      ensures rosterFrame == if Hash(users) == old(Hash(users)) then old(rosterFrame) else None
      ensures encodings == old(encodings)
      ensures snapshot == if sock in old(subscribers) then None else old(snapshot)
    {
      ghost var js, before := joins, users;
      LeaveFacts(js, sock);
      if sock !in subscribers {
        return None;
      }
      var sub := subscribers[sock];
      subscribers := subscribers - {sock};
      joins := Without(joins, sock);
      snapshot := None;
      if sub.None? {
        LeaveUnlisted(js, sock, before);
        return None;
      }
      var u := sub.value.userId;
      var last := DropConn(u, sock);
      LeaveIndexed(js, sock, before, u, users);
      return Some(PresenceLeave(last, u));
    }

    /** Take `sock` off its user's list; the entry goes with its last socket, else follows the oldest survivor. */
    method DropConn(u: UserId, sock: SocketId) returns (last: bool)
      modifies this`users, this`rosterFrame
      ensures users == UsersAfterLeave(old(users), subscribers, u, sock)
      ensures last <==> u !in users
      ensures rosterFrame == if u in users && u in old(users) && users[u].userInfo == old(users)[u].userInfo
                             then old(rosterFrame) else None
    {
      var oldestLeft: Option<SocketId> := None;
      if u in users {
        var conns := RetainMethod(users[u].conns, sock);
        users := users[u := users[u].(conns := conns)];
        oldestLeft := if conns == [] then None else Some(conns[0]);
      }
      match oldestLeft {
        case None =>
          users := users - {u};
          rosterFrame := None;
        case Some(oldest) =>
          ReseatUserInfo(u, oldest);
      }
      last := oldestLeft.None?;
    }

    /** Point a user's entry at its oldest surviving connection's info; a changed value ends the generation. */
    method ReseatUserInfo(u: UserId, oldest: SocketId)
      modifies this`users, this`rosterFrame
      ensures u !in old(users) ==> users == old(users)
      ensures u in old(users) ==>
                users == old(users)[u := old(users)[u].(userInfo := InfoAt(subscribers, oldest, old(users)[u].userInfo))]
      ensures rosterFrame == if users == old(users) then old(rosterFrame) else None
    {
      if oldest !in subscribers || subscribers[oldest].None? {
        return;
      }
      var info := subscribers[oldest].value.userInfo;
      if u !in users {
        return;
      }
      if users[u].userInfo == info {
        return;
      }
      users := users[u := users[u].(userInfo := info)];
      assert users[u] != old(users)[u];
      rosterFrame := None;
    }

    /** The frame of the current roster, encoded at most once per generation. */
    method CachedRosterFrame(channel: ChannelName) returns (frame: Frame)
      requires Valid() && channel == this.channel
      modifies this`rosterFrame, this`encodings
      ensures Valid()
      ensures frame == encode(channel, Hash(users)) && rosterFrame == Some(frame)
      ensures encodings == old(encodings) + (if old(rosterFrame).None? then 1 else 0)
    {
      if rosterFrame.None? {
        rosterFrame := Some(encode(channel, Hash(users)));
        encodings := encodings + 1;
      }
      frame := rosterFrame.value;
    }

    function SubscriptionCount(): (n: nat)
      requires Valid()
      reads this
      ensures n == |joins|
    {
      SubsSize(joins);
      |subscribers|
    }

    function UserCount(): (n: Option<nat>)
      requires Valid()
      reads this
      ensures n.None? <==> forall u :: !OnRoster(joins, u)
      ensures n.Some? ==> n.value == |users| > 0
    {
      assert forall u :: EntryOk(joins, users, u) ==> (u in users <==> OnRoster(joins, u));
      if users == map[] then None else Some(|users|)
    }

    /** Capture one broadcast: exactly the current subscribers, snapshotted at most once per membership. */
    method FanOut(frame: Frame, except: Option<SocketId>) returns (f: Fanout)
      requires Valid()
      modifies this`snapshot
      ensures Valid() && snapshot == Some(f.snapshot)
      ensures f.frame == frame && f.except == except
      ensures Lists(f.snapshot, subscribers.Keys) && |f.snapshot| == |joins|
      ensures f.parallel <==> |joins| > PARALLEL_THRESHOLD
      ensures old(snapshot).Some? ==> snapshot == old(snapshot)
    {
      if snapshot.None? {
        var v: seq<SocketId> := [];
        var left := subscribers.Keys;
        while left != {}
          invariant left <= subscribers.Keys
          invariant Lists(v, subscribers.Keys - left)
          invariant unchanged(this)
          decreases |left|
        {
          var s :| s in left;
          left := left - {s};
          v := v + [s];
        }
        snapshot := Some(v);
      }
      SubsSize(joins);
      ListsLength(snapshot.value, subscribers.Keys);
      f := Fanout(frame, snapshot.value, except, |subscribers| > PARALLEL_THRESHOLD);
    }
  }

  /** `Vec::retain(|s| s != sock)`. */
  method RetainMethod(conns: seq<SocketId>, sock: SocketId) returns (r: seq<SocketId>)
    ensures r == Retain(conns, sock)
  {
    r := [];
    for i := 0 to |conns|
      invariant r == Retain(conns[..i], sock)
    {
      assert conns[..i + 1][..i] == conns[..i];
      if conns[i] != sock {
        r := r + [conns[i]];
      }
    }
    assert conns[..|conns|] == conns;
  }

  // ---------- the proof steps behind Add and Remove ----------

  lemma InsertFacts(js: seq<Join>, j: Join)
    requires Distinct(js) && j.sock !in Subs(js)
    ensures Distinct(js + [j]) && Subs(js + [j]) == Subs(js)[j.sock := j.member]
  {
    assert (js + [j])[..|js|] == js;
    SubsDomain(js, j.sock);
  }

  lemma LeaveFacts(js: seq<Join>, sock: SocketId)
    requires Distinct(js)
    ensures Distinct(Without(js, sock)) && Subs(Without(js, sock)) == Subs(js) - {sock}
    ensures sock !in Subs(js) ==> Without(js, sock) == js
  {
    WithoutDistinct(js, sock);
    WithoutSubs(js, sock);
    if sock !in Subs(js) {
      WithoutAbsent(js, sock);
    }
  }

  /** Leaving keeps joins distinct, drops the socket, and retains the others in every user's list. */
  lemma WithoutAll(js: seq<Join>, sock: SocketId)
    requires Distinct(js)
    ensures Distinct(Without(js, sock)) && Subs(Without(js, sock)) == Subs(js) - {sock}
    ensures forall u :: Conns(Without(js, sock), u) == Retain(Conns(js, u), sock)
  {
    WithoutDistinct(js, sock);
    WithoutSubs(js, sock);
    forall u ensures Conns(Without(js, sock), u) == Retain(Conns(js, u), sock) {
      WithoutConns(js, sock, u);
    }
  }

  /** The info of a live socket's member, or `held` when there is none. */
  function InfoAt(subs: map<SocketId, Option<Member>>, s: SocketId, held: UserInfo): UserInfo
  {
    if s in subs && subs[s].Some? then subs[s].value.userInfo else held
  }

  /** The presence index once `sock` has left user `u`: the list without it, re-seated on the oldest survivor. */
  ghost function UsersAfterLeave(users: map<UserId, PresenceUser>, subs: map<SocketId, Option<Member>>,
                                 u: UserId, sock: SocketId): map<UserId, PresenceUser>
  {
    var conns := if u in users then Retain(users[u].conns, sock) else [];
    if conns == [] then users - {u}
    else users[u := PresenceUser(InfoAt(subs, conns[0], users[u].userInfo), conns)]
  }

  /** Leaving without presence membership, or from an unknown socket, moves no entry. */
  lemma LeaveKeepsEntry(js: seq<Join>, sock: SocketId, users: map<UserId, PresenceUser>, u: UserId)
    requires Distinct(js) && EntryOk(js, users, u)
    requires sock in Subs(js) ==> !IsUser(Subs(js)[sock], u)
    ensures EntryOk(Without(js, sock), users, u)
  {
    WithoutAll(js, sock);
    ConnsMembership(js, u);
    RetainFacts(Conns(js, u), sock);
  }

  /** The leaving user's new entry is right for the remaining joins. */
  lemma LeaveMovesEntry(js: seq<Join>, sock: SocketId, before: map<UserId, PresenceUser>, u: UserId)
    requires Distinct(js) && EntryOk(js, before, u)
    requires sock in Subs(js) && IsUser(Subs(js)[sock], u)
    ensures u in before && sock in before[u].conns
    ensures EntryOk(Without(js, sock), UsersAfterLeave(before, Subs(js) - {sock}, u, sock), u)
  {
    WithoutAll(js, sock);
    ConnsMembership(js, u);
    RetainFacts(Conns(js, u), sock);
  }

  /** A presence member's leave: the updated index is the roster of the remaining joins. */
  lemma LeaveIndexed(js: seq<Join>, sock: SocketId, before: map<UserId, PresenceUser>, u: UserId,
                     after: map<UserId, PresenceUser>)
    requires Distinct(js) && IsRoster(js, before)
    requires sock in Subs(js) && IsUser(Subs(js)[sock], u)
    requires after == UsersAfterLeave(before, Subs(js) - {sock}, u, sock)
    ensures u in before
    ensures IsRoster(Without(js, sock), after)
    ensures u in after <==> OnRoster(Without(js, sock), u)
    ensures Hash(after) == Hash(before) <==> u in after && after[u].userInfo == before[u].userInfo
  {
    assert EntryOk(js, before, u);
    LeaveMovesEntry(js, sock, before, u);
    forall v ensures EntryOk(Without(js, sock), after, v) {
      if v != u {
        assert EntryOk(js, before, v);
        LeaveKeepsEntry(js, sock, before, v);
      }
    }
    LeaveHash(before, after, u);
  }

  /** A leave by a socket that is no presence member. */
  lemma LeaveUnlisted(js: seq<Join>, sock: SocketId, users: map<UserId, PresenceUser>)
    requires Distinct(js) && IsRoster(js, users)
    requires sock in Subs(js) ==> Subs(js)[sock].None?
    ensures IsRoster(Without(js, sock), users)
  {
    forall v ensures EntryOk(Without(js, sock), users, v) {
      assert EntryOk(js, users, v);
      LeaveKeepsEntry(js, sock, users, v);
    }
  }

  lemma LeaveHash(before: map<UserId, PresenceUser>, after: map<UserId, PresenceUser>, u: UserId)
    requires u in before
    requires u in after ==> after == before[u := after[u]]
    requires u !in after ==> after == before - {u}
    ensures Hash(after) == Hash(before) <==> u in after && after[u].userInfo == before[u].userInfo
  {
    assert u in Hash(before) && Hash(before)[u] == before[u].userInfo;
    if u in after {
      assert Hash(after)[u] == after[u].userInfo;
      if after[u].userInfo == before[u].userInfo {
        assert Hash(after) == Hash(before);
      }
    } else {
      assert u !in Hash(after);
    }
  }

  ghost function UsersAfterJoin(users: map<UserId, PresenceUser>, j: Join): map<UserId, PresenceUser>
  {
    if j.member.None? then users
    else
      var u := j.member.value.userId;
      users[u := PresenceUser(if u in users then users[u].userInfo else j.member.value.userInfo,
                              (if u in users then users[u].conns else []) + [j.sock])]
  }

  /** Every user's entry is right for the longer channel. */
  lemma JoinEntry(js: seq<Join>, before: map<UserId, PresenceUser>, j: Join, u: UserId)
    requires Distinct(js) && EntryOk(js, before, u) && j.sock !in Subs(js)
    ensures EntryOk(js + [j], UsersAfterJoin(before, j), u)
    ensures IsUser(j.member, u) ==> (Conns(js + [j], u) == [j.sock] <==> u !in before)
  {
    var longer := js + [j];
    assert longer[..|js|] == js && longer[|js|] == j;
    assert Conns(longer, u) == Conns(js, u) + (if IsUser(j.member, u) then [j.sock] else []);
    ConnsMembership(js, u);
  }

  /** A join moves the advertised roster exactly when its user is new to it. */
  lemma JoinHash(before: map<UserId, PresenceUser>, j: Join)
    ensures var after := UsersAfterJoin(before, j);
            Hash(after) == Hash(before) <==> j.member.None? || j.member.value.userId in before
  {
    var after := UsersAfterJoin(before, j);
    if j.member.Some? && j.member.value.userId !in before {
      assert j.member.value.userId in Hash(after) && j.member.value.userId !in Hash(before);
    } else {
      assert Hash(after) == Hash(before);
    }
  }

  /** Appending a fresh join to an indexed channel gives the index of the longer channel. */
  lemma JoinIndexed(js: seq<Join>, before: map<UserId, PresenceUser>, j: Join)
    requires Distinct(js) && IsRoster(js, before) && j.sock !in Subs(js)
    ensures IsRoster(js + [j], UsersAfterJoin(before, j))
    ensures j.member.Some? ==>
              (Conns(js + [j], j.member.value.userId) == [j.sock] <==> j.member.value.userId !in before)
  {
    forall u ensures EntryOk(js + [j], UsersAfterJoin(before, j), u)
            ensures IsUser(j.member, u) ==> (Conns(js + [j], u) == [j.sock] <==> u !in before)
    {
      assert EntryOk(js, before, u);
      JoinEntry(js, before, j, u);
    }
  }

  /** All that appending a fresh join does to an indexed channel. */
  lemma InsertStep(js: seq<Join>, before: map<UserId, PresenceUser>, j: Join)
    requires Distinct(js) && IsRoster(js, before) && j.sock !in Subs(js)
    ensures Distinct(js + [j]) && Subs(js + [j]) == Subs(js)[j.sock := j.member]
    ensures IsRoster(js + [j], UsersAfterJoin(before, j))
    ensures j.member.Some? ==>
              var u := j.member.value.userId;
              && (Conns(js + [j], u) == [j.sock] <==> u !in before)
              && (u in before ==> before[u].conns != [])
    ensures j.member.None? || j.member.value.userId in before ==> Hash(UsersAfterJoin(before, j)) == Hash(before)
  {
    InsertFacts(js, j);
    JoinIndexed(js, before, j);
    JoinHash(before, j);
    if j.member.Some? {
      assert EntryOk(js, before, j.member.value.userId);
    }
  }

  /**
   The code resets the cached frame when the leave inside a re-add moves the
   roster or the join is its user's first. That is exactly: the roster moved, or
   the socket was the sole connection of its user.
   */
  lemma GenerationEnds(js: seq<Join>, j: Join, before: map<UserId, PresenceUser>, mid: map<UserId, PresenceUser>)
    requires Distinct(js) && IsRoster(js, before)
    requires IsRoster(Without(js, j.sock), mid)
    ensures Hash(mid) != Hash(before) || (j.member.Some? && j.member.value.userId !in mid)
            <==> Hash(UsersAfterJoin(mid, j)) != Hash(before) || Sole(js, j.sock)
  {
    var s, after := j.sock, UsersAfterJoin(mid, j);
    LeaveMovesOne(js, s, before, mid);
    JoinHash(mid, j);
    if Hash(mid) != Hash(before) && !Sole(js, s) {
      var u := Subs(js)[s].value.userId;
      assert Hash(after)[u] == mid[u].userInfo && Hash(before)[u] == before[u].userInfo;
    }
  }

  /** A leave that moves the roster is its user's last, or changes that user's info; a last leave always moves it. */
  lemma LeaveMovesOne(js: seq<Join>, s: SocketId, before: map<UserId, PresenceUser>, after: map<UserId, PresenceUser>)
    requires Distinct(js) && IsRoster(js, before) && IsRoster(Without(js, s), after)
    ensures Sole(js, s) ==> Hash(after) != Hash(before)
    ensures Hash(after) != Hash(before) && !Sole(js, s) ==>
              && s in Subs(js) && Subs(js)[s].Some?
              && var u := Subs(js)[s].value.userId;
                 u in after && u in before && after[u].userInfo != before[u].userInfo
  {
    if s !in Subs(js) || Subs(js)[s].None? {
      LeaveUnlisted(js, s, before);
      RosterUnique(Without(js, s), before, after);
    } else {
      var u := Subs(js)[s].value.userId;
      var expected := UsersAfterLeave(before, Subs(js) - {s}, u, s);
      LeaveIndexed(js, s, before, u, expected);
      RosterUnique(Without(js, s), expected, after);
      assert EntryOk(js, before, u) && EntryOk(Without(js, s), after, u);
      ConnsMembership(js, u);
      WithoutConns(js, s, u);
      SoleRetain(Conns(js, u), s);
    }
  }

  lemma RosterUnique(js: seq<Join>, a: map<UserId, PresenceUser>, b: map<UserId, PresenceUser>)
    requires IsRoster(js, a) && IsRoster(js, b)
    ensures a == b
  {
    forall u ensures u in a <==> u in b
            ensures u in a ==> a[u] == b[u]
    {
      assert EntryOk(js, a, u) && EntryOk(js, b, u);
    }
  }
}

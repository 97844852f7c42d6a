/**
 The reference meaning of one channel: the sequence of its live joins, oldest
 first. Everything the server stores per channel is derived from that sequence.
 */
module ChannelSpec {
  import opened Prelude

  type AppId(==, !new)
  type ChannelName(==, !new)
  type SocketId(==, !new)
  type UserInfo(==, !new)
  type Frame(==, !new)
  type UserId = string

  datatype Member = Member(userId: UserId, userInfo: UserInfo)
  datatype Join = Join(sock: SocketId, member: Option<Member>)
  datatype PresenceUser = PresenceUser(userInfo: UserInfo, conns: seq<SocketId>)
  datatype Payload = Payload(count: nat, ids: seq<UserId>, hash: map<UserId, UserInfo>)

  /** The wire encoder of a channel's roster announcement. */
  type Wire = (ChannelName, Payload) -> Frame
  type Encoder = (ChannelName, map<UserId, UserInfo>) -> Frame

  // ---------- live joins ----------

  /** The live joins once socket `s` has left. */
  ghost function Without(js: seq<Join>, s: SocketId): seq<Join>
  {
    if js == [] then []
    else
      var last := js[|js| - 1];
      Without(js[..|js| - 1], s) + (if last.sock == s then [] else [last])
  }

  /** A join replaces the socket's previous membership and becomes the newest. */
  ghost function Joined(js: seq<Join>, j: Join): seq<Join>
  {
    Without(js, j.sock) + [j]
  }

  ghost function Subs(js: seq<Join>): map<SocketId, Option<Member>>
  {
    if js == [] then map[]
    else Subs(js[..|js| - 1])[js[|js| - 1].sock := js[|js| - 1].member]
  }

  ghost predicate Distinct(js: seq<Join>)
  {
    forall i, j :: 0 <= i < j < |js| ==> js[i].sock != js[j].sock
  }

  predicate IsUser(m: Option<Member>, u: UserId)
  {
    m.Some? && m.value.userId == u
  }

  /** The live sockets of user `u`, in join order. */
  ghost function Conns(js: seq<Join>, u: UserId): seq<SocketId>
  {
    if js == [] then []
    else
      var last := js[|js| - 1];
      Conns(js[..|js| - 1], u) + (if IsUser(last.member, u) then [last.sock] else [])
  }

  ghost function Retain(ss: seq<SocketId>, s: SocketId): seq<SocketId>
  {
    if ss == [] then []
    else Retain(ss[..|ss| - 1], s) + (if ss[|ss| - 1] == s then [] else [ss[|ss| - 1]])
  }

  ghost predicate OnRoster(js: seq<Join>, u: UserId)
  {
    Conns(js, u) != []
  }

  /** User `u`'s entry: listed while live, with the info its oldest live socket presented. */
  ghost predicate EntryOk(js: seq<Join>, users: map<UserId, PresenceUser>, u: UserId)
  {
    && (u in users <==> OnRoster(js, u))
    && (u in users ==>
          && users[u].conns == Conns(js, u)
          && users[u].conns[0] in Subs(js)
          && IsUser(Subs(js)[users[u].conns[0]], u)
          && users[u].userInfo == Subs(js)[users[u].conns[0]].value.userInfo)
  }

  /** The roster the channel must advertise. */
  ghost predicate IsRoster(js: seq<Join>, users: map<UserId, PresenceUser>)
  {
    forall u :: EntryOk(js, users, u)
  }

  /** `s` is the one live connection of the presence user it joined as. */
  ghost predicate Sole(js: seq<Join>, s: SocketId)
  {
    s in Subs(js) && Subs(js)[s].Some? && Conns(js, Subs(js)[s].value.userId) == [s]
  }

  // ---------- how joins and leaves move the derived state ----------

  lemma {:induction false} SubsDomain(js: seq<Join>, s: SocketId)
    ensures s in Subs(js) <==> exists i :: 0 <= i < |js| && js[i].sock == s
  {
    if js != [] {
      var init := js[..|js| - 1];
      SubsDomain(init, s);
      if s in Subs(init) {
        var i :| 0 <= i < |init| && init[i].sock == s;
        assert js[i].sock == s;
      } else if s == js[|js| - 1].sock {
        assert js[|js| - 1].sock == s;
      } else {
        forall i | 0 <= i < |js| ensures js[i].sock != s {
          if i < |init| { assert init[i] == js[i]; }
        }
      }
    }
  }

  lemma {:induction false} WithoutSubs(js: seq<Join>, s: SocketId)
    ensures Subs(Without(js, s)) == Subs(js) - {s}
    ensures |Without(js, s)| <= |js|
  {
    if js != [] {
      var init, last := js[..|js| - 1], js[|js| - 1];
      WithoutSubs(init, s);
      var w := Without(init, s);
      if last.sock != s {
        assert (w + [last])[..|w|] == w;
      } else {
        assert w + [] == w;
      }
    }
  }

  lemma {:induction false} WithoutConns(js: seq<Join>, s: SocketId, u: UserId)
    ensures Conns(Without(js, s), u) == Retain(Conns(js, u), s)
  {
    if js != [] {
      var init, last := js[..|js| - 1], js[|js| - 1];
      WithoutConns(init, s, u);
      var w := Without(init, s);
      var c := Conns(init, u);
      assert w + [] == w && (w + [last])[..|w|] == w;
      assert (c + [last.sock])[..|c|] == c;
      assert c + [] == c && Retain(c, s) + [] == Retain(c, s);
    }
  }

  lemma {:induction false} WithoutDistinct(js: seq<Join>, s: SocketId)
    requires Distinct(js)
    ensures Distinct(Without(js, s))
    ensures forall i :: 0 <= i < |Without(js, s)| ==> Without(js, s)[i].sock != s && Without(js, s)[i] in js
  {
    if js != [] {
      var init, last := js[..|js| - 1], js[|js| - 1];
      WithoutDistinct(init, s);
      var w := Without(init, s);
      forall i | 0 <= i < |w| ensures w[i] in js && w[i].sock != last.sock {
        var k :| 0 <= k < |init| && init[k] == w[i];
        assert js[k] == w[i];
      }
    }
  }

  lemma {:induction false} WithoutAbsent(js: seq<Join>, s: SocketId)
    requires s !in Subs(js)
    ensures Without(js, s) == js
  {
    if js != [] {
      WithoutAbsent(js[..|js| - 1], s);
    }
  }

  lemma JoinedDistinct(js: seq<Join>, j: Join)
    requires Distinct(js)
    ensures Distinct(Joined(js, j))
  {
    WithoutDistinct(js, j.sock);
  }

  /** Distinct sockets: as many subscribers as live joins. */
  lemma {:induction false} SubsSize(js: seq<Join>)
    requires Distinct(js)
    ensures |Subs(js)| == |js|
  {
    if js != [] {
      var init, last := js[..|js| - 1], js[|js| - 1];
      SubsSize(init);
      SubsDomain(init, last.sock);
      forall i | 0 <= i < |init| ensures init[i].sock != last.sock { assert js[i] == init[i]; }
      assert Subs(js).Keys == Subs(init).Keys + {last.sock};
    }
  }

  /** A socket is listed for a user exactly when its live join presented that user, once. */
  lemma {:induction false} ConnsMembership(js: seq<Join>, u: UserId)
    requires Distinct(js)
    ensures NoDup(Conns(js, u))
    ensures forall s :: s in Conns(js, u) <==> s in Subs(js) && IsUser(Subs(js)[s], u)
  {
    if js != [] {
      var init, last := js[..|js| - 1], js[|js| - 1];
      ConnsMembership(init, u);
      SubsDomain(init, last.sock);
      forall i | 0 <= i < |init| ensures init[i].sock != last.sock { assert js[i] == init[i]; }
    }
  }

  lemma {:induction false} RetainFacts(ss: seq<SocketId>, s: SocketId)
    ensures forall x :: x in Retain(ss, s) <==> x in ss && x != s
    ensures s !in ss ==> Retain(ss, s) == ss
    ensures ss != [] && ss[0] != s ==> Retain(ss, s) != [] && Retain(ss, s)[0] == ss[0]
  {
    if ss != [] {
      var init, last := ss[..|ss| - 1], ss[|ss| - 1];
      RetainFacts(init, s);
      assert ss == init + [last];
      assert forall x :: x in ss <==> x in init || x == last;
    }
  }

  lemma SoleRetain(ss: seq<SocketId>, s: SocketId)
    requires NoDup(ss) && s in ss
    ensures Retain(ss, s) == [] <==> ss == [s]
  {
    RetainFacts(ss, s);
    if ss != [s] {
      var i :| 0 <= i < |ss| && ss[i] == s;
      var k := if i == 0 then 1 else 0;
      assert ss[k] in Retain(ss, s);
    }
  }

  // ---------- sorted rosters ----------

  /** Lexicographic order on user ids: the iteration order of a `BTreeMap<String, _>`. */
  predicate IdLeq(a: UserId, b: UserId)
  {
    a == [] || (b != [] && (a[0] < b[0] || (a[0] == b[0] && IdLeq(a[1..], b[1..]))))
  }

  lemma {:induction false} IdLeqTotal(a: UserId, b: UserId)
    ensures IdLeq(a, a)
    ensures IdLeq(a, b) || IdLeq(b, a)
    ensures IdLeq(a, b) && IdLeq(b, a) ==> a == b
  {
    if a != [] && b != [] {
      IdLeqTotal(a[1..], b[1..]);
      assert a == [a[0]] + a[1..] && b == [b[0]] + b[1..];
    } else if a != [] {
      IdLeqTotal(a[1..], b);
    }
  }

  lemma {:induction false} IdLeqTransitive(a: UserId, b: UserId, c: UserId)
    requires IdLeq(a, b) && IdLeq(b, c)
    ensures IdLeq(a, c)
  {
    if a != [] && a[0] == b[0] == c[0] {
      IdLeqTransitive(a[1..], b[1..], c[1..]);
    }
  }

  predicate IsLeast(m: UserId, ids: set<UserId>)
  {
    m in ids && forall u :: u in ids ==> IdLeq(m, u)
  }

  lemma {:induction false} LeastExists(ids: set<UserId>)
    requires ids != {}
    ensures exists m :: IsLeast(m, ids)
  {
    var x :| x in ids;
    IdLeqTotal(x, x);
    if ids == {x} {
      assert IsLeast(x, ids);
    } else {
      assert ids - {x} != {};
      LeastExists(ids - {x});
      var m :| IsLeast(m, ids - {x});
      IdLeqTotal(x, m);
      if IdLeq(x, m) {
        forall u | u in ids ensures IdLeq(x, u) {
          if u != x { IdLeqTransitive(x, m, u); }
        }
        assert IsLeast(x, ids);
      } else {
        assert IsLeast(m, ids);
      }
    }
  }

  lemma LeastUnique(ids: set<UserId>)
    ensures forall m, n :: IsLeast(m, ids) && IsLeast(n, ids) ==> m == n
  {
    forall m, n | IsLeast(m, ids) && IsLeast(n, ids) ensures m == n {
      IdLeqTotal(m, n);
    }
  }

  ghost predicate Sorted(ids: seq<UserId>)
  {
    forall i, j :: 0 <= i < j < |ids| ==> IdLeq(ids[i], ids[j]) && ids[i] != ids[j]
  }

  /** The ids of a set in ascending order. */
  function SortedIds(ids: set<UserId>): (r: seq<UserId>)
    ensures Sorted(r) && |r| == |ids|
    ensures forall u :: u in r <==> u in ids
  {
    if ids == {} then []
    else
      LeastExists(ids);
      LeastUnique(ids);
      var m :| m in ids && IsLeast(m, ids);
      var rest := SortedIds(ids - {m});
      assert forall i :: 0 <= i < |rest| ==> rest[i] in ids - {m};
      [m] + rest
  }

  /** There is only one ascending listing of a set, so "the sorted roster" is well defined. */
  lemma {:induction false} SortedUnique(a: seq<UserId>, b: seq<UserId>)
    requires Sorted(a) && Sorted(b)
    requires forall u :: u in a <==> u in b
    ensures a == b
  {
    assert b != [] ==> b[0] in b;
    if a != [] {
      assert a[0] in b;
      assert b[0] in a;
      IdLeqTotal(a[0], b[0]);
      assert a[0] == b[0];
      assert a == [a[0]] + a[1..] && b == [b[0]] + b[1..];
      assert a[0] !in a[1..] && b[0] !in b[1..];
      forall u ensures u in a[1..] <==> u in b[1..] {
        assert u in a <==> u == a[0] || u in a[1..];
        assert u in b <==> u == b[0] || u in b[1..];
      }
      SortedUnique(a[1..], b[1..]);
    }
  }

  function Hash(users: map<UserId, PresenceUser>): map<UserId, UserInfo>
  {
    map u | u in users :: users[u].userInfo
  }

  /** The presence payload: sorted ids, id -> info, distinct-user count. */
  function Roster(users: map<UserId, PresenceUser>): Payload
  {
    Payload(|users|, SortedIds(users.Keys), Hash(users))
  }

  /** The announcement for a roster given as id -> info: ids and count follow from it. */
  function EncoderFor(wire: Wire): Encoder
  {
    (channel: ChannelName, hash: map<UserId, UserInfo>) => wire(channel, Payload(|hash|, SortedIds(hash.Keys), hash))
  }

  /** Encoding from the id -> info map alone is a fresh encode of the full sorted payload. */
  lemma EncodesRoster(wire: Wire, channel: ChannelName, users: map<UserId, PresenceUser>)
    ensures EncoderFor(wire)(channel, Hash(users)) == wire(channel, Roster(users))
  {
    assert Hash(users).Keys == users.Keys;
    assert |Hash(users)| == |Hash(users).Keys| == |users.Keys| == |users|;
  }

  function UserIds(ms: seq<Member>): seq<UserId>
  {
    if ms == [] then [] else UserIds(ms[..|ms| - 1]) + [ms[|ms| - 1].userId]
  }

  function Listed(users: map<UserId, PresenceUser>, ids: seq<UserId>): seq<Member>
    requires forall u :: u in ids ==> u in users
  {
    if ids == [] then []
    else
      var u := ids[|ids| - 1];
      Listed(users, ids[..|ids| - 1]) + [Member(u, users[u].userInfo)]
  }

  lemma UserIdsNext(ms: seq<Member>, m: Member)
    ensures UserIds(ms + [m]) == UserIds(ms) + [m.userId]
  {
    assert (ms + [m])[..|ms|] == ms;
  }

  lemma {:induction false} ListedIds(users: map<UserId, PresenceUser>, ids: seq<UserId>)
    requires forall u :: u in ids ==> u in users
    ensures UserIds(Listed(users, ids)) == ids && |Listed(users, ids)| == |ids|
  {
    if ids != [] {
      var init, u := ids[..|ids| - 1], ids[|ids| - 1];
      ListedIds(users, init);
      var ms, last := Listed(users, init), Member(u, users[u].userInfo);
      UserIdsNext(ms, last);
      assert Listed(users, ids) == ms + [last] && ids == init + [u];
    }
  }

  lemma {:induction false} ListedIff(users: map<UserId, PresenceUser>, ids: seq<UserId>, m: Member)
    requires forall u :: u in ids ==> u in users
    ensures m in Listed(users, ids) <==> m.userId in ids && users[m.userId].userInfo == m.userInfo
  {
    if ids != [] {
      var init, u := ids[..|ids| - 1], ids[|ids| - 1];
      ListedIff(users, init, m);
      assert ids == init + [u];
      assert m.userId in ids <==> m.userId in init || m.userId == u;
    }
  }

  /** The member list: one entry per user, ids ascending. */
  function Members(users: map<UserId, PresenceUser>): (ms: seq<Member>)
    ensures |ms| == |users| && Sorted(UserIds(ms))
    ensures forall m :: m in ms <==> m.userId in users && users[m.userId].userInfo == m.userInfo
  {
    var ids := SortedIds(users.Keys);
    ListedIds(users, ids);
    assert forall m :: m in Listed(users, ids) <==> m.userId in users && users[m.userId].userInfo == m.userInfo by {
      forall m ensures m in Listed(users, ids) <==> m.userId in users && users[m.userId].userInfo == m.userInfo {
        ListedIff(users, ids, m);
      }
    }
    Listed(users, ids)
  }

  // ---------- the derived state, read off the joins ----------

  /** A user's sockets are listed in the order their joins stand in. */
  lemma {:induction false} ConnsInJoinOrder(js: seq<Join>, u: UserId, a: nat, b: nat) returns (i: nat, j: nat)
    requires a < b < |Conns(js, u)|
    ensures i < j < |js| && js[i].sock == Conns(js, u)[a] && js[j].sock == Conns(js, u)[b]
    ensures IsUser(js[i].member, u) && IsUser(js[j].member, u)
  {
    var init := js[..|js| - 1];
    if b < |Conns(init, u)| {
      i, j := ConnsInJoinOrder(init, u, a, b);
    } else {
      i := ConnAt(init, u, a);
      j := |js| - 1;
    }
  }

  lemma {:induction false} ConnAt(js: seq<Join>, u: UserId, a: nat) returns (i: nat)
    requires a < |Conns(js, u)|
    ensures i < |js| && js[i].sock == Conns(js, u)[a] && IsUser(js[i].member, u)
    ensures a == 0 ==> forall j :: 0 <= j < i ==> !IsUser(js[j].member, u)
  {
    var init := js[..|js| - 1];
    if a < |Conns(init, u)| {
      i := ConnAt(init, u, a);
    } else {
      i := |js| - 1;
      if a == 0 {
        NoConns(init, u);
      }
    }
  }

  lemma {:induction false} NoConns(js: seq<Join>, u: UserId)
    requires Conns(js, u) == []
    ensures forall j :: 0 <= j < |js| ==> !IsUser(js[j].member, u)
  {
    if js != [] {
      NoConns(js[..|js| - 1], u);
    }
  }

  /** The oldest live join of `u` is the `i`-th. */
  ghost predicate Oldest(js: seq<Join>, u: UserId, i: int)
  {
    0 <= i < |js| && IsUser(js[i].member, u) && forall j :: 0 <= j < i ==> !IsUser(js[j].member, u)
  }

  /** `u` is announced exactly if it has a live join, with the info its oldest one presented. */
  ghost predicate AnnouncedAs(hash: map<UserId, UserInfo>, js: seq<Join>, u: UserId)
  {
    && (u in hash <==> exists i :: Oldest(js, u, i))
    && (forall i :: u in hash && Oldest(js, u, i) ==> hash[u] == js[i].member.value.userInfo)
  }

  /** What a channel must announce for its joins: every such user, the ids ascending, and their number. */
  ghost predicate Announces(p: Payload, js: seq<Join>)
  {
    && Sorted(p.ids) && p.count == |p.ids|
    && (forall u :: u in p.ids <==> u in p.hash)
    && (forall u :: AnnouncedAs(p.hash, js, u))
  }

  lemma {:induction false} SubsAt(js: seq<Join>, i: nat)
    requires Distinct(js) && i < |js|
    ensures js[i].sock in Subs(js) && Subs(js)[js[i].sock] == js[i].member
  {
    var init := js[..|js| - 1];
    if i < |init| {
      SubsAt(init, i);
      assert js[i].sock != js[|js| - 1].sock;
    }
  }

  lemma EntryAnnounced(js: seq<Join>, users: map<UserId, PresenceUser>, u: UserId)
    requires Distinct(js) && EntryOk(js, users, u)
    ensures AnnouncedAs(Hash(users), js, u)
  {
    if u in users {
      var first := ConnAt(js, u, 0);
      SubsAt(js, first);
      assert Oldest(js, u, first);
      forall i | Oldest(js, u, i) ensures i == first {
        OldestUnique(js, u, i, first);
      }
    } else {
      NoConns(js, u);
    }
  }

  lemma OldestUnique(js: seq<Join>, u: UserId, i: int, j: int)
    requires Oldest(js, u, i) && Oldest(js, u, j)
    ensures i == j
  {
  }

  /** The roster payload built from the presence index is what the joins call for. */
  lemma RosterAnnounces(js: seq<Join>, users: map<UserId, PresenceUser>)
    requires Distinct(js) && IsRoster(js, users)
    ensures Announces(Roster(users), js)
  {
    forall u ensures AnnouncedAs(Hash(users), js, u) {
      assert EntryOk(js, users, u);
      EntryAnnounced(js, users, u);
    }
  }

  /** There is only one such payload. */
  lemma AnnouncesUnique(p: Payload, q: Payload, js: seq<Join>)
    requires Announces(p, js) && Announces(q, js)
    ensures p == q
  {
    forall u ensures u in p.hash <==> u in q.hash
            ensures u in p.hash ==> p.hash[u] == q.hash[u]
    {
      assert AnnouncedAs(p.hash, js, u) && AnnouncedAs(q.hash, js, u);
    }
    assert p.hash == q.hash;
    SortedUnique(p.ids, q.ids);
  }
}

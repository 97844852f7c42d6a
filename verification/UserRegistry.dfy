/** The node-local user and watch index, one call at a time. */
module UserRegistry {
  import opened Prelude
  import opened ChannelSpec

  type User(==, !new)
  datatype UserKey = UserKey(app: AppId, user: User)
  datatype SocketKey = SocketKey(app: AppId, sock: SocketId)

  type SocketSets = map<UserKey, set<SocketId>>

  function At(m: SocketSets, k: UserKey): set<SocketId>
  {
    if k in m then m[k] else {}
  }

  /** Socket `s` of `app` is recorded as watching `u`. */
  ghost predicate Watches(watching: map<SocketKey, seq<User>>, app: AppId, s: SocketId, u: User)
  {
    SocketKey(app, s) in watching && u in watching[SocketKey(app, s)]
  }

  ghost predicate NoEmpty(m: SocketSets)
  {
    forall k :: k in m ==> m[k] != {}
  }

  /** The watcher sets are the inverse of the watch lists. */
  ghost predicate Inverse(watchers: SocketSets, watching: map<SocketKey, seq<User>>)
  {
    forall k, s :: s in At(watchers, k) <==> Watches(watching, k.app, s, k.user)
  }

  /** The watcher sets with `s` dropped from the users of `app` in `us`. */
  ghost predicate Dropped(before: SocketSets, after: SocketSets, app: AppId, s: SocketId, us: seq<User>)
  {
    forall k :: At(after, k) == if k.app == app && k.user in us then At(before, k) - {s} else At(before, k)
  }

  /** The watcher sets with `s` added to the users of `app` in `us`. */
  ghost predicate Added(before: SocketSets, after: SocketSets, app: AppId, s: SocketId, us: seq<User>)
  {
    forall k :: At(after, k) == if k.app == app && k.user in us then At(before, k) + {s} else At(before, k)
  }

  class UserRegistry {
    var users: SocketSets
    var watchers: SocketSets
    var watching: map<SocketKey, seq<User>>
    /** The users whose latest reported edge is "newly watched". */
    ghost var announced: set<UserKey>

    ghost predicate Valid()
      reads this
    {
      NoEmpty(users) && NoEmpty(watchers) && Inverse(watchers, watching)
    }

    constructor ()
      ensures Valid() && users == map[] && watchers == map[] && watching == map[] && announced == {}
    {
      users, watchers, watching, announced := map[], map[], map[], {};
    }

    method Signin(app: AppId, user: User, sock: SocketId) returns (firstForUser: bool)
      requires Valid()
      modifies this`users
      ensures Valid()
      ensures users == old(users)[UserKey(app, user) := At(old(users), UserKey(app, user)) + {sock}]
      ensures firstForUser <==> At(old(users), UserKey(app, user)) == {}
    {
      var k := UserKey(app, user);
      firstForUser := At(users, k) == {};
      users := users[k := At(users, k) + {sock}];
    }

    method Signout(app: AppId, user: User, sock: SocketId) returns (lastForUser: bool)
      requires Valid()
      modifies this`users
      ensures Valid()
      ensures forall k :: At(users, k) == if k == UserKey(app, user) then At(old(users), k) - {sock} else At(old(users), k)
      ensures lastForUser <==> UserKey(app, user) in old(users) && UserKey(app, user) !in users
    {
      var k := UserKey(app, user);
      if k !in users {
        return false;
      }
      users := users[k := users[k] - {sock}];
      lastForUser := users[k] == {};
      if users[k] == {} {
        users := users - {k};
      }
    }

    function IsOnline(app: AppId, user: User): (online: bool)
      reads this
      ensures online <==> At(users, UserKey(app, user)) != {}
    {
      UserKey(app, user) in users && users[UserKey(app, user)] != {}
    }

    /** Drop a socket's watch state; returns, without duplicates, the users whose only watcher left. */
    method Unwatch(app: AppId, sock: SocketId) returns (nowEmpty: seq<User>)
      requires Valid()
      modifies this`watchers, this`watching
      ensures Valid()
      ensures watching == old(watching) - {SocketKey(app, sock)}
      ensures forall k :: At(watchers, k) == if k.app == app then At(old(watchers), k) - {sock} else At(old(watchers), k)
      ensures NoDup(nowEmpty) && forall u :: u in nowEmpty <==> At(old(watchers), UserKey(app, u)) == {sock}
    {
      var sk := SocketKey(app, sock);
      if sk !in watching {
        UnwatchAbsent(watchers, watching, app, sock);
        return [];
      }
      ghost var before, lists := watchers, watching;
      var watched := watching[sk];
      watching := watching - {sk};
      nowEmpty := DropAll(app, sock, watched);
      UnwatchAll(before, watchers, lists, app, sock);
    }

    /** The loop of an unwatch over the socket's list, duplicates included. */
    method DropAll(app: AppId, sock: SocketId, watched: seq<User>) returns (nowEmpty: seq<User>)
      requires NoEmpty(watchers)
      modifies this`watchers
      ensures NoEmpty(watchers)
      ensures Dropped(old(watchers), watchers, app, sock, watched)
      ensures NoDup(nowEmpty)
      ensures forall u :: u in nowEmpty <==> u in watched && At(old(watchers), UserKey(app, u)) == {sock}
    {
      ghost var before := watchers;
      nowEmpty := [];
      for i := 0 to |watched|
        invariant NoEmpty(watchers)
        invariant Dropped(before, watchers, app, sock, watched[..i])
        invariant NoDup(nowEmpty)
        invariant forall u :: u in nowEmpty <==> u in watched[..i] && At(before, UserKey(app, u)) == {sock}
      {
        var u := watched[i];
        assert watched[..i + 1] == watched[..i] + [u];
        assert At(watchers, UserKey(app, u)) == At(before, UserKey(app, u)) - (if u in watched[..i] then {sock} else {});
        var emptied := DropWatcher(UserKey(app, u), sock);
        if emptied {
          assert u !in watched[..i];
          nowEmpty := nowEmpty + [u];
        }
      }
      assert watched[..|watched|] == watched;
    }

    /** The two guarded steps of one list entry: take the socket out, then delete the set if it is empty. */
    method DropWatcher(k: UserKey, sock: SocketId) returns (emptied: bool)
      requires NoEmpty(watchers)
      modifies this`watchers
      ensures NoEmpty(watchers)
      ensures forall l :: At(watchers, l) == if l == k then At(old(watchers), k) - {sock} else At(old(watchers), l)
      ensures emptied <==> At(old(watchers), k) == {sock}
    {
      if k !in watchers {
        return false;
      }
      watchers := watchers[k := watchers[k] - {sock}];
      emptied := watchers[k] == {};
      if emptied {
        watchers := watchers - {k};
      }
    }

    /** Replace a socket's watch list; returns the online subset and the users that gained their first watcher. */
    method Watch(app: AppId, sock: SocketId, watched: seq<User>) returns (online: seq<User>, newly: seq<User>)
      requires Valid()
      modifies this`watchers, this`watching
      ensures Valid()
      ensures watching == old(watching)[SocketKey(app, sock) := watched]
      ensures forall k :: At(watchers, k) == if k.app != app then At(old(watchers), k)
                                             else if k.user in watched then At(old(watchers), k) + {sock}
                                             else At(old(watchers), k) - {sock}
      ensures NoDup(newly) && forall u :: u in newly <==> u in watched && At(old(watchers), UserKey(app, u)) <= {sock}
      ensures online == Online(users, app, watched)
    {
      var _ := Unwatch(app, sock);
      ghost var mid, lists := watchers, watching;
      newly := AddAll(app, sock, watched);
      online := FilterOnline(app, watched);
      watching := watching[SocketKey(app, sock) := watched];
      WatchInverse(mid, lists, watchers, app, sock, watched);
    }

    /** The loop of a watch over its new list, duplicates included. */
    method AddAll(app: AppId, sock: SocketId, watched: seq<User>) returns (newly: seq<User>)
      requires NoEmpty(watchers)
      modifies this`watchers
      ensures NoEmpty(watchers)
      ensures Added(old(watchers), watchers, app, sock, watched)
      ensures NoDup(newly)
      ensures forall u :: u in newly <==> u in watched && At(old(watchers), UserKey(app, u)) == {}
    {
      ghost var before := watchers;
      newly := [];
      for i := 0 to |watched|
        invariant NoEmpty(watchers)
        invariant Added(before, watchers, app, sock, watched[..i])
        invariant NoDup(newly)
        invariant forall u :: u in newly <==> u in watched[..i] && At(before, UserKey(app, u)) == {}
      {
        var u := watched[i];
        assert watched[..i + 1] == watched[..i] + [u];
        var wasEmpty := AddWatcher(UserKey(app, u), sock);
        if wasEmpty {
          assert u !in watched[..i];
          newly := newly + [u];
        }
      }
      assert watched[..|watched|] == watched;
    }

    /** The guarded step of one list entry: insert the socket, reporting whether the set was empty. */
    method AddWatcher(k: UserKey, sock: SocketId) returns (wasEmpty: bool)
      requires NoEmpty(watchers)
      modifies this`watchers
      ensures NoEmpty(watchers)
      ensures forall l :: At(watchers, l) == if l == k then At(old(watchers), k) + {sock} else At(old(watchers), l)
      ensures wasEmpty <==> At(old(watchers), k) == {}
    {
      wasEmpty := At(watchers, k) == {};
      watchers := watchers[k := At(watchers, k) + {sock}];
    }

    method FilterOnline(app: AppId, watched: seq<User>) returns (online: seq<User>)
      ensures online == Online(users, app, watched)
    {
      online := [];
      for i := 0 to |watched|
        invariant online == Online(users, app, watched[..i])
      {
        assert watched[..i + 1][..i] == watched[..i];
        if IsOnline(app, watched[i]) {
          online := online + [watched[i]];
        }
      }
      assert watched[..|watched|] == watched;
    }

    // ---------- the edges the cross-node adapter subscribes by ----------

    /** The announced users are exactly the users with a local watcher. */
    ghost predicate Exact()
      reads this
    {
      forall k :: k in announced <==> At(watchers, k) != {}
    }

    ghost predicate Covered()
      reads this
    {
      forall k :: At(watchers, k) != {} ==> k in announced
    }

    /**
     A watch reports only its 0 -> 1 edges: the 1 -> 0 edges of the list it
     replaces are lost. The announced users stay exact if and only if every user
     that only this socket watched is on the new list again.
     */
    method WatchEdges(app: AppId, sock: SocketId, watched: seq<User>) returns (online: seq<User>, newly: seq<User>)
      requires Valid() && Covered()
      modifies this`watchers, this`watching, this`announced
      ensures Valid() && Covered()
      ensures announced == old(announced) + (set u | u in newly :: UserKey(app, u))
      ensures forall k :: At(watchers, k) == if k.app != app then At(old(watchers), k)
                                             else if k.user in watched then At(old(watchers), k) + {sock}
                                             else At(old(watchers), k) - {sock}
      ensures NoDup(newly) && forall u :: u in newly <==> u in watched && At(old(watchers), UserKey(app, u)) <= {sock}
      ensures online == Online(users, app, watched) && watching == old(watching)[SocketKey(app, sock) := watched]
      ensures old(Exact()) ==>
                (Exact() <==> forall u :: At(old(watchers), UserKey(app, u)) == {sock} ==> u in watched)
    {
      online, newly := Watch(app, sock, watched);
      announced := announced + (set u | u in newly :: UserKey(app, u));
      WatchAnnounces(old(watchers), watchers, old(announced), announced, app, sock, watched, newly);
    }

    method UnwatchEdges(app: AppId, sock: SocketId) returns (nowEmpty: seq<User>)
      requires Valid() && Covered()
      modifies this`watchers, this`watching, this`announced
      ensures Valid() && Covered()
      ensures announced == old(announced) - (set u | u in nowEmpty :: UserKey(app, u))
      ensures NoDup(nowEmpty) && forall u :: u in nowEmpty <==> At(old(watchers), UserKey(app, u)) == {sock}
      ensures forall k :: At(watchers, k) == if k.app == app then At(old(watchers), k) - {sock} else At(old(watchers), k)
      ensures watching == old(watching) - {SocketKey(app, sock)}
      ensures old(Exact()) ==> Exact()
    {
      nowEmpty := Unwatch(app, sock);
      announced := announced - (set u | u in nowEmpty :: UserKey(app, u));
      forall k: UserKey ensures k in (set u | u in nowEmpty :: UserKey(app, u)) <==> k.app == app && k.user in nowEmpty {
        assert k == UserKey(k.app, k.user);
      }
    }
  }

  /** A re-watch that drops a user only its socket watched leaves the user announced without a watcher. */
  method ReWatchForgets(app: AppId, sock: SocketId, u: User) returns (r: UserRegistry)
    ensures fresh(r) && r.Valid() && !r.Exact()
    ensures UserKey(app, u) in r.announced && At(r.watchers, UserKey(app, u)) == {}
  {
    r := new UserRegistry();
    var k := UserKey(app, u);
    var _, _ := r.WatchEdges(app, sock, [u]);
    assert At(r.watchers, k) == {} + {sock};
    assert k in r.announced;
    var _, _ := r.WatchEdges(app, sock, []);
    assert At(r.watchers, k) == {sock} - {sock};
  }

  /** The subsequence of `watched` that is online, duplicates kept. */
  ghost function Online(users: SocketSets, app: AppId, watched: seq<User>): seq<User>
  {
    if watched == [] then []
    else
      var u := watched[|watched| - 1];
      Online(users, app, watched[..|watched| - 1]) + (if At(users, UserKey(app, u)) != {} then [u] else [])
  }

  /** The online part of a list holds each online user as often as the list does, and no one else. */
  lemma {:induction false} OnlineCount(users: SocketSets, app: AppId, watched: seq<User>, u: User)
    ensures multiset(Online(users, app, watched))[u] ==
            if At(users, UserKey(app, u)) != {} then multiset(watched)[u] else 0
  {
    if watched != [] {
      var init, last := watched[..|watched| - 1], watched[|watched| - 1];
      OnlineCount(users, app, init, u);
      assert watched == init + [last];
      OnlineNext(Online(users, app, init), init, last, At(users, UserKey(app, last)) != {}, u);
    }
  }

  lemma OnlineNext(online: seq<User>, init: seq<User>, last: User, isOnline: bool, u: User)
    ensures multiset(online + (if isOnline then [last] else []))[u]
            == multiset(online)[u] + (if isOnline && last == u then 1 else 0)
    ensures multiset(init + [last])[u] == multiset(init)[u] + (if last == u then 1 else 0)
  {
    CountNext(init, last, u);
    if isOnline {
      CountNext(online, last, u);
    } else {
      assert online + [] == online;
    }
  }

  lemma {:induction false} OnlineAt(users: SocketSets, app: AppId, watched: seq<User>, a: nat) returns (i: nat)
    requires a < |Online(users, app, watched)|
    ensures i < |watched| && watched[i] == Online(users, app, watched)[a]
  {
    var init := watched[..|watched| - 1];
    if a < |Online(users, app, init)| {
      i := OnlineAt(users, app, init, a);
    } else {
      i := |watched| - 1;
    }
  }

  /** And in the order of the list. */
  lemma {:induction false} OnlineInOrder(users: SocketSets, app: AppId, watched: seq<User>, a: nat, b: nat)
    returns (i: nat, j: nat)
    requires a < b < |Online(users, app, watched)|
    ensures i < j < |watched| && watched[i] == Online(users, app, watched)[a] && watched[j] == Online(users, app, watched)[b]
  {
    var init := watched[..|watched| - 1];
    if b < |Online(users, app, init)| {
      i, j := OnlineInOrder(users, app, init, a, b);
    } else {
      i := OnlineAt(users, app, init, a);
      j := |watched| - 1;
    }
  }

  lemma UnwatchAbsent(watchers: SocketSets, watching: map<SocketKey, seq<User>>, app: AppId, s: SocketId)
    requires Inverse(watchers, watching) && SocketKey(app, s) !in watching
    ensures watching - {SocketKey(app, s)} == watching
    ensures forall k: UserKey :: k.app == app ==> At(watchers, k) - {s} == At(watchers, k) && At(watchers, k) != {s}
  {
    forall k: UserKey | k.app == app ensures s !in At(watchers, k) {
      assert !Watches(watching, app, s, k.user);
    }
  }

  lemma UnwatchAll(before: SocketSets, after: SocketSets, lists: map<SocketKey, seq<User>>, app: AppId, s: SocketId)
    requires Inverse(before, lists) && SocketKey(app, s) in lists
    requires Dropped(before, after, app, s, lists[SocketKey(app, s)])
    ensures Inverse(after, lists - {SocketKey(app, s)})
    ensures forall k :: At(after, k) == if k.app == app then At(before, k) - {s} else At(before, k)
    ensures forall u :: At(before, UserKey(app, u)) == {s} ==> u in lists[SocketKey(app, s)]
  {
    var left := lists - {SocketKey(app, s)};
    forall k, t ensures t in At(after, k) <==> Watches(left, k.app, t, k.user)
               ensures t in At(after, k) <==> t in At(before, k) && !(k.app == app && t == s)
    {
      assert t in At(before, k) <==> Watches(lists, k.app, t, k.user);
      assert t in At(after, k) <==>
             t in (if k.app == app && k.user in lists[SocketKey(app, s)] then At(before, k) - {s} else At(before, k));
    }
    forall u | At(before, UserKey(app, u)) == {s} ensures u in lists[SocketKey(app, s)] {
      assert s in At(before, UserKey(app, u));
    }
  }

  lemma WatchInverse(mid: SocketSets, lists: map<SocketKey, seq<User>>, after: SocketSets,
                     app: AppId, s: SocketId, watched: seq<User>)
    requires Inverse(mid, lists) && SocketKey(app, s) !in lists
    requires Added(mid, after, app, s, watched)
    ensures Inverse(after, lists[SocketKey(app, s) := watched])
  {
    forall k, t ensures t in At(after, k) <==> Watches(lists[SocketKey(app, s) := watched], k.app, t, k.user) {
      assert t in At(mid, k) <==> Watches(lists, k.app, t, k.user);
      assert t in At(after, k) <==> t in At(mid, k) || (t == s && k.app == app && k.user in watched);
    }
  }

  lemma WatchAnnounces(before: SocketSets, after: SocketSets, old': set<UserKey>, new': set<UserKey>,
                       app: AppId, s: SocketId, watched: seq<User>, newly: seq<User>)
    requires forall k :: At(after, k) == if k.app != app then At(before, k)
                                         else if k.user in watched then At(before, k) + {s} else At(before, k) - {s}
    requires forall u :: u in newly <==> u in watched && At(before, UserKey(app, u)) <= {s}
    requires new' == old' + (set u | u in newly :: UserKey(app, u))
    requires forall k :: At(before, k) != {} ==> k in old'
    ensures forall k :: At(after, k) != {} ==> k in new'
    ensures (forall k :: k in old' <==> At(before, k) != {}) ==>
              ((forall k :: k in new' <==> At(after, k) != {}) <==>
               (forall u :: At(before, UserKey(app, u)) == {s} ==> u in watched))
  {
    forall k: UserKey ensures k in new' <==> k in old' || (k.app == app && k.user in newly)
            ensures At(after, k) != {} ==> k in new'
    {
      assert k == UserKey(k.app, k.user);
    }
    if forall k :: k in old' <==> At(before, k) != {} {
      forall k: UserKey | k.app != app || At(before, k) != {s} || k.user in watched
        ensures k in new' <==> At(after, k) != {}
      {
        assert k == UserKey(k.app, k.user);
        if k.app == app && k.user !in watched && At(before, k) != {} {
          var t :| t in At(before, k) && t != s;
          assert t in At(after, k);
        }
      }
      forall u | At(before, UserKey(app, u)) == {s} && u !in watched
        ensures UserKey(app, u) in new' && At(after, UserKey(app, u)) == {}
      {
      }
    }
  }
}

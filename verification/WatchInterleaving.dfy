/**
 The watch index of one app under concurrency. Each connection runs at most one
 watch or unwatch at a time; connections interleave between the guarded steps.
 */
module WatchInterleaving {
  import opened Prelude
  import opened ChannelSpec
  import opened UserRegistry

  /**
   A call in progress. `next` is the position in the list. An unwatch entry takes
   two steps: once `removed`, it still owes the conditional delete. The unwatch
   inside a re-watch has a `followup` list and reports nothing.
   */
  datatype Job =
    | Adding(list: seq<User>, next: nat)
    | Dropping(list: seq<User>, next: nat, removed: bool, followup: Option<seq<User>>)

  datatype State = State(
    watchers: map<User, set<SocketId>>,
    watching: map<SocketId, seq<User>>,
    jobs: map<SocketId, Job>,
    log: seq<(User, Edge)>)   // the edges reported, at their guarded steps

  datatype Action =
    | StartWatch(sock: SocketId, list: seq<User>)
    | StartUnwatch(sock: SocketId)
    | Tick(sock: SocketId)

  ghost function Has(st: State, u: User): set<SocketId>
  {
    if u in st.watchers then st.watchers[u] else {}
  }

  /** Insert the socket; an absent or empty set makes this a reported 0 -> 1 edge. */
  ghost function AddStep(st: State, s: SocketId, j: Job): State
    requires j.Adding?
  {
    if j.next < |j.list| then
      var u := j.list[j.next];
      st.(watchers := st.watchers[u := Has(st, u) + {s}],
          log := st.log + (if Has(st, u) == {} then [(u, Up)] else []),
          jobs := st.jobs[s := Adding(j.list, j.next + 1)])
    else
      st.(watching := st.watching[s := j.list], jobs := st.jobs - {s})
  }

  /** Delete an emptied set: the 1 -> 0 edge, reported or swallowed. */
  ghost function Delete(st: State, u: User, reported: bool): State
  {
    st.(watchers := st.watchers - {u},
        log := st.log + (if reported then [(u, Down)] else []))
  }

  ghost function DropStep(st: State, s: SocketId, j: Job): State
    requires j.Dropping?
  {
    if j.next < |j.list| then
      var u := j.list[j.next];
      var onward := st.(jobs := st.jobs[s := Dropping(j.list, j.next + 1, false, j.followup)]);
      if !j.removed then
        if u !in st.watchers then onward
        else st.(watchers := st.watchers[u := st.watchers[u] - {s}], jobs := st.jobs[s := Dropping(j.list, j.next, true, j.followup)])
      else if u in st.watchers && st.watchers[u] == {} then Delete(onward, u, j.followup.None?)
      else onward
    else
      st.(jobs := if j.followup.Some? then st.jobs[s := Adding(j.followup.value, 0)] else st.jobs - {s})
  }

  ghost function Step(st: State, a: Action): State
  {
    match a
    case StartWatch(s, list) =>
      if s in st.jobs then st
      else if s in st.watching then
        st.(watching := st.watching - {s}, jobs := st.jobs[s := Dropping(st.watching[s], 0, false, Some(list))])
      else st.(jobs := st.jobs[s := Adding(list, 0)])
    case StartUnwatch(s) =>
      if s in st.jobs || s !in st.watching then st
      else st.(watching := st.watching - {s}, jobs := st.jobs[s := Dropping(st.watching[s], 0, false, None)])
    case Tick(s) =>
      if s !in st.jobs then st
      else if st.jobs[s].Adding? then AddStep(st, s, st.jobs[s])
      else DropStep(st, s, st.jobs[s])
  }

  ghost function Run(acts: seq<Action>): State
  {
    if acts == [] then State(map[], map[], map[], []) else Step(Run(acts[..|acts| - 1]), acts[|acts| - 1])
  }

  // ---------- reported edges ----------

  ghost predicate LatestUp(st: State, u: User)
  {
    var es := Of(st.log, u);
    es != [] && es[|es| - 1] == Up
  }

  /** The step adds a watcher of `u`. */
  ghost predicate AddsTo(st: State, a: Action, u: User)
  {
    && a.Tick? && a.sock in st.jobs
    && var j := st.jobs[a.sock];
       j.Adding? && j.next < |j.list| && j.list[j.next] == u
  }

  /** The step is a re-watch deleting the emptied set of `u`: the 1 -> 0 edge it does not report. */
  ghost predicate Swallows(st: State, a: Action, u: User)
  {
    && a.Tick? && a.sock in st.jobs && OwesDelete(st.jobs[a.sock], u) && st.jobs[a.sock].followup.Some?
    && u in st.watchers && st.watchers[u] == {}
  }

  /** Some re-watch of the run swallowed the 1 -> 0 edge of `u`, and no watcher of `u` was added since. */
  ghost predicate Swallowed(acts: seq<Action>, u: User)
  {
    acts != [] &&
    (var st, a := Run(acts[..|acts| - 1]), acts[|acts| - 1];
     Swallows(st, a, u) || (!AddsTo(st, a, u) && Swallowed(acts[..|acts| - 1], u)))
  }

  /** The latest report says "newly watched" exactly while the user has a set, or lost it without a report. */
  ghost predicate Announced(st: State, u: User, swallowed: bool)
  {
    && (LatestUp(st, u) <==> u in st.watchers || swallowed)
    && !(u in st.watchers && swallowed)
  }

  /** Some connection is between the two steps of unwatching `u`. */
  ghost predicate Owed(st: State, u: User)
  {
    exists s :: s in st.jobs && OwesDelete(st.jobs[s], u)
  }

  ghost predicate OwesDelete(j: Job, u: User)
  {
    j.Dropping? && j.removed && j.next < |j.list| && j.list[j.next] == u
  }

  lemma AddAnnounced(st: State, s: SocketId, u: User, sw: bool)
    requires s in st.jobs && st.jobs[s].Adding? && Announced(st, u, sw)
    ensures Announced(AddStep(st, s, st.jobs[s]), u, sw && !AddsTo(st, Tick(s), u))
  {
    var j := st.jobs[s];
    var next := AddStep(st, s, j);
    if j.next < |j.list| {
      var v := j.list[j.next];
      OfReport(st.log, if Has(st, v) == {} then [(v, Up)] else [], u);
      if v != u {
        assert Of(next.log, u) == Of(st.log, u);
        assert LatestUp(next, u) <==> LatestUp(st, u);
      } else {
        assert Has(st, v) != {} ==> next.log == st.log;
        assert LatestUp(next, u);
      }
    }
  }

  lemma DeleteAnnounced(st: State, v: User, reported: bool, u: User, sw: bool)
    requires Announced(st, u, sw) && v in st.watchers
    ensures Announced(Delete(st, v, reported), u, sw || (v == u && !reported))
  {
    OfReport(st.log, if reported then [(v, Down)] else [], u);
    if v != u || !reported {
      assert Of(Delete(st, v, reported).log, u) == Of(st.log, u);
    }
  }

  lemma DropAnnounced(st: State, s: SocketId, u: User, sw: bool)
    requires s in st.jobs && st.jobs[s].Dropping? && Announced(st, u, sw)
    ensures Announced(DropStep(st, s, st.jobs[s]), u, sw || Swallows(st, Tick(s), u))
  {
    var j := st.jobs[s];
    if j.next < |j.list| && j.removed && j.list[j.next] in st.watchers {
      var onward := st.(jobs := st.jobs[s := Dropping(j.list, j.next + 1, false, j.followup)]);
      assert Announced(onward, u, sw);
      DeleteAnnounced(onward, j.list[j.next], j.followup.None?, u, sw);
    }
  }

  lemma {:induction false} RunAnnounced(acts: seq<Action>, u: User)
    ensures Announced(Run(acts), u, Swallowed(acts, u))
  {
    if acts != [] {
      var st, a, sw := Run(acts[..|acts| - 1]), acts[|acts| - 1], Swallowed(acts[..|acts| - 1], u);
      RunAnnounced(acts[..|acts| - 1], u);
      if a.Tick? && a.sock in st.jobs {
        if st.jobs[a.sock].Adding? {
          AddAnnounced(st, a.sock, u, sw);
        } else {
          DropAnnounced(st, a.sock, u, sw);
        }
      }
    }
  }

  lemma StepOwed(st: State, a: Action, u: User)
    requires u in st.watchers && st.watchers[u] == {} ==> Owed(st, u)
    requires u in Step(st, a).watchers && Step(st, a).watchers[u] == {}
    ensures Owed(Step(st, a), u)
  {
    var next := Step(st, a);
    if u in st.watchers && st.watchers[u] == {} {
      var s :| s in st.jobs && OwesDelete(st.jobs[s], u);
      assert s in next.jobs && OwesDelete(next.jobs[s], u);
    } else {
      assert a.sock in next.jobs && OwesDelete(next.jobs[a.sock], u);
    }
  }

  /** An empty watcher set exists only while some unwatch still owes its delete. */
  lemma {:induction false} EmptySetIsOwed(acts: seq<Action>, u: User)
    requires u in Run(acts).watchers && Run(acts).watchers[u] == {}
    ensures Owed(Run(acts), u)
  {
    if acts != [] {
      var init := acts[..|acts| - 1];
      if u in Run(init).watchers && Run(init).watchers[u] == {} {
        EmptySetIsOwed(init, u);
      }
      StepOwed(Run(init), acts[|acts| - 1], u);
    }
  }

  /** The edge a step must report of `u`: its set came to life, or was deleted by an unwatch. */
  ghost function Change(st: State, a: Action, u: User): seq<Edge>
  {
    var next := Step(st, a);
    if Has(st, u) == {} && Has(next, u) != {} then [Up]
    else if u in st.watchers && u !in next.watchers && !Swallows(st, a, u) then [Down]
    else []
  }

  ghost function Edges(acts: seq<Action>, u: User): seq<Edge>
  {
    if acts == [] then [] else Edges(acts[..|acts| - 1], u) + Change(Run(acts[..|acts| - 1]), acts[|acts| - 1], u)
  }

  /** What an insertion does to the sets, user by user. */
  lemma AddSets(st: State, s: SocketId, u: User)
    requires s in st.jobs && st.jobs[s].Adding?
    ensures var next := Step(st, Tick(s));
            && Has(next, u) == (if AddsTo(st, Tick(s), u) then Has(st, u) + {s} else Has(st, u))
            && (u in st.watchers ==> u in next.watchers)
  {
  }

  lemma AddEdges(st: State, s: SocketId, u: User)
    requires s in st.jobs && st.jobs[s].Adding?
    ensures Of(Step(st, Tick(s)).log, u) == Of(st.log, u) + Change(st, Tick(s), u)
  {
    var j := st.jobs[s];
    AddSets(st, s, u);
    assert Change(st, Tick(s), u) == if AddsTo(st, Tick(s), u) && Has(st, u) == {} then [Up] else [];
    if j.next < |j.list| {
      var v := j.list[j.next];
      OfReport(st.log, if Has(st, v) == {} then [(v, Up)] else [], u);
    } else {
      assert Of(st.log, u) + [] == Of(st.log, u);
    }
  }

  /** The step deletes the emptied set of `u`, reporting it or not. */
  ghost predicate Deletes(st: State, s: SocketId, u: User)
  {
    s in st.jobs && OwesDelete(st.jobs[s], u) && u in st.watchers && st.watchers[u] == {}
  }

  /** What an unwatch step does to the sets: none comes to life, and only an emptied one is deleted. */
  lemma DropSets(st: State, s: SocketId, u: User)
    requires s in st.jobs && st.jobs[s].Dropping?
    ensures var next := Step(st, Tick(s));
            && (Has(next, u) != {} ==> Has(st, u) != {})
            && (u in st.watchers ==> (u !in next.watchers <==> Deletes(st, s, u)))
  {
  }

  lemma DropEdges(st: State, s: SocketId, u: User)
    requires s in st.jobs && st.jobs[s].Dropping?
    ensures Of(Step(st, Tick(s)).log, u) == Of(st.log, u) + Change(st, Tick(s), u)
  {
    var j := st.jobs[s];
    DropSets(st, s, u);
    assert Change(st, Tick(s), u) == if Deletes(st, s, u) && j.followup.None? then [Down] else [];
    if j.next < |j.list| && Deletes(st, s, j.list[j.next]) {
      OfReport(st.log, if j.followup.None? then [(j.list[j.next], Down)] else [], u);
    } else {
      assert Of(st.log, u) + [] == Of(st.log, u);
    }
  }

  lemma StepEdges(st: State, a: Action, u: User)
    ensures Of(Step(st, a).log, u) == Of(st.log, u) + Change(st, a, u)
  {
    if a.Tick? && a.sock in st.jobs {
      if st.jobs[a.sock].Adding? {
        AddEdges(st, a.sock, u);
      } else {
        DropEdges(st, a.sock, u);
      }
    } else {
      assert Of(st.log, u) + [] == Of(st.log, u);
    }
  }

  /** Over every interleaving the edges reported of a user are exactly those of its watcher set, the swallowed ones left out. */
  lemma {:induction false} EdgesExact(acts: seq<Action>, u: User)
    ensures Of(Run(acts).log, u) == Edges(acts, u)
  {
    if acts != [] {
      EdgesExact(acts[..|acts| - 1], u);
      StepEdges(Run(acts[..|acts| - 1]), acts[|acts| - 1], u);
    }
  }

  /**
   Over every interleaving, duplicates in the lists included: a user with a local
   watcher has "newly watched" as its latest reported edge; and while no unwatch
   of it is between its phases, that edge is right if and only if no re-watch has
   swallowed the user's 1 -> 0 edge since it was last watched.
   */
  lemma WatchEdges(acts: seq<Action>, u: User)
    ensures Has(Run(acts), u) != {} ==> LatestUp(Run(acts), u)
    ensures !Owed(Run(acts), u) ==>
              ((LatestUp(Run(acts), u) <==> Has(Run(acts), u) != {}) <==> !Swallowed(acts, u))
  {
    RunAnnounced(acts, u);
    if u in Run(acts).watchers && Run(acts).watchers[u] == {} {
      EmptySetIsOwed(acts, u);
    }
  }

  // ---------- without re-watch the edges are exact ----------

  /** No watch of the run started on a connection that already had a list. */
  ghost predicate NoReWatch(acts: seq<Action>)
  {
    acts == [] || (NoReWatch(acts[..|acts| - 1]) &&
                   var a := acts[|acts| - 1]; a.StartWatch? ==> a.sock !in Run(acts[..|acts| - 1]).watching)
  }

  ghost predicate AllReporting(st: State)
  {
    forall s :: s in st.jobs && st.jobs[s].Dropping? ==> st.jobs[s].followup.None?
  }

  lemma StepReporting(st: State, a: Action)
    requires AllReporting(st) && (a.StartWatch? ==> a.sock !in st.watching)
    ensures AllReporting(Step(st, a)) && forall u :: !Swallows(st, a, u)
  {
  }

  lemma {:induction false} NoReWatchReports(acts: seq<Action>, u: User)
    requires NoReWatch(acts)
    ensures AllReporting(Run(acts)) && !Swallowed(acts, u)
  {
    if acts != [] {
      NoReWatchReports(acts[..|acts| - 1], u);
      StepReporting(Run(acts[..|acts| - 1]), acts[|acts| - 1]);
    }
  }

  lemma WatchEdgesExact(acts: seq<Action>, u: User)
    requires NoReWatch(acts) && !Owed(Run(acts), u)
    ensures LatestUp(Run(acts), u) <==> Has(Run(acts), u) != {}
  {
    NoReWatchReports(acts, u);
    WatchEdges(acts, u);
  }

  // ---------- and a re-watch does swallow an edge ----------

  lemma Advance(acts: seq<Action>, a: Action) returns (more: seq<Action>)
    ensures more == acts + [a] && Run(more) == Step(Run(acts), a)
  {
    more := acts + [a];
    assert more[..|acts|] == acts;
  }

  lemma WatchOne(s: SocketId, u: User) returns (acts: seq<Action>)
    ensures Run(acts) == State(map[u := {s}], map[s := [u]], map[], [(u, Up)])
  {
    acts := Advance([], StartWatch(s, [u]));
    assert Run(acts) == State(map[], map[], map[s := Adding([u], 0)], []);
    acts := Advance(acts, Tick(s));
    assert {} + {s} == {s} && [] + [(u, Up)] == [(u, Up)];
    assert Run(acts) == State(map[u := {s}], map[], map[s := Adding([u], 1)], [(u, Up)]);
    acts := Advance(acts, Tick(s));
  }

  /** Watching one user and then nobody: every call over, no watcher, and the latest report still "newly watched". */
  lemma ReWatchSwallows(s: SocketId, u: User) returns (acts: seq<Action>)
    ensures Run(acts) == State(map[], map[s := []], map[], [(u, Up)])
    ensures LatestUp(Run(acts), u) && Has(Run(acts), u) == {} && !Owed(Run(acts), u)
  {
    acts := WatchOne(s, u);
    acts := Advance(acts, StartWatch(s, []));
    acts := Advance(acts, Tick(s));
    assert {s} - {s} == {};
    assert Run(acts) == State(map[u := {}], map[], map[s := Dropping([u], 0, true, Some([]))], [(u, Up)]);
    acts := Advance(acts, Tick(s));
    assert Run(acts) == State(map[], map[], map[s := Dropping([u], 1, false, Some([]))], [(u, Up)]);
    acts := Advance(acts, Tick(s));
    acts := Advance(acts, Tick(s));
    assert Of([(u, Up)], u) == [Up] by {
      OfExtend([], (u, Up), u);
      assert [] + [(u, Up)] == [(u, Up)];
    }
  }

  // ---------- the two maps are inverse again once a connection's call is over ----------

  /** Whether `s` should be in the watcher set of `u`, given how far its call has got. */
  ghost predicate Expected(st: State, s: SocketId, u: User)
  {
    if s !in st.jobs then s in st.watching && u in st.watching[s]
    else
      match st.jobs[s]
      case Adding(list, next) => next <= |list| && u in list[..next]
      case Dropping(list, next, removed, _) =>
        next <= |list| && u in list && u !in list[..next] && !(removed && next < |list| && u == list[next])
  }

  ghost predicate JobOk(st: State, s: SocketId)
  {
    s in st.jobs ==>
      && s !in st.watching && st.jobs[s].next <= |st.jobs[s].list|
      && (st.jobs[s].Dropping? && st.jobs[s].removed ==> st.jobs[s].next < |st.jobs[s].list|)
  }

  /** Other connections' steps move this one in no set. */
  lemma OthersExpected(st: State, a: Action, s: SocketId, u: User)
    requires a.sock != s
    ensures s in Step(st, a).jobs <==> s in st.jobs
    ensures s in st.jobs ==> Step(st, a).jobs[s] == st.jobs[s]
    ensures s in Step(st, a).watching <==> s in st.watching
    ensures s in st.watching ==> Step(st, a).watching[s] == st.watching[s]
    ensures s in Has(Step(st, a), u) <==> s in Has(st, u)
  {
    if a.Tick? && a.sock in st.jobs {
      var j := st.jobs[a.sock];
      if j.next < |j.list| && j.list[j.next] != u {
        assert Has(Step(st, a), u) == Has(st, u);
      }
    }
  }

  lemma TickExpected(st: State, s: SocketId, u: User)
    requires s in st.jobs && JobOk(st, s) && (s in Has(st, u) <==> Expected(st, s, u))
    ensures var next := Step(st, Tick(s)); JobOk(next, s) && (s in Has(next, u) <==> Expected(next, s, u))
  {
    var j := st.jobs[s];
    if j.next < |j.list| {
      assert j.list[..j.next + 1] == j.list[..j.next] + [j.list[j.next]];
    } else {
      assert j.list[..j.next] == j.list;
    }
  }

  lemma StepExpected(st: State, a: Action, s: SocketId, u: User)
    requires JobOk(st, s) && (s in Has(st, u) <==> Expected(st, s, u))
    ensures JobOk(Step(st, a), s) && (s in Has(Step(st, a), u) <==> Expected(Step(st, a), s, u))
  {
    if a.sock != s {
      OthersExpected(st, a, s, u);
    } else if a.Tick? && s in st.jobs {
      TickExpected(st, s, u);
    }
  }

  lemma {:induction false} RunExpected(acts: seq<Action>, s: SocketId, u: User)
    ensures JobOk(Run(acts), s) && (s in Has(Run(acts), u) <==> Expected(Run(acts), s, u))
  {
    if acts != [] {
      RunExpected(acts[..|acts| - 1], s, u);
      StepExpected(Run(acts[..|acts| - 1]), acts[|acts| - 1], s, u);
    }
  }

  /** Over every interleaving, a connection with no call in progress is watching exactly the users on its list. */
  lemma IndexInverse(acts: seq<Action>, s: SocketId, u: User)
    requires s !in Run(acts).jobs
    ensures s in Has(Run(acts), u) <==> s in Run(acts).watching && u in Run(acts).watching[s]
  {
    RunExpected(acts, s, u);
  }

  // ---------- and the lists are those the calls asked for ----------

  /** The list socket `s` last asked to watch, by the calls it started while idle; none after an unwatch. */
  ghost function Wanted(acts: seq<Action>, s: SocketId): Option<seq<User>>
  {
    if acts == [] then None
    else
      var init, a := acts[..|acts| - 1], acts[|acts| - 1];
      if a.sock != s || s in Run(init).jobs then Wanted(init, s)
      else if a.StartWatch? then Some(a.list)
      else if a.StartUnwatch? then None
      else Wanted(init, s)
  }

  /** What a call in progress will leave as the socket's list. */
  ghost function Leaves(st: State, s: SocketId): Option<seq<User>>
  {
    if s in st.jobs then (if st.jobs[s].Adding? then Some(st.jobs[s].list) else st.jobs[s].followup)
    else if s in st.watching then Some(st.watching[s]) else None
  }

  lemma {:induction false} ListsAreWanted(acts: seq<Action>, s: SocketId)
    ensures Leaves(Run(acts), s) == Wanted(acts, s)
  {
    if acts != [] {
      ListsAreWanted(acts[..|acts| - 1], s);
      RunExpectedJob(acts[..|acts| - 1], s);
      StepLeaves(Run(acts[..|acts| - 1]), acts[|acts| - 1], s);
    }
  }

  lemma StepLeaves(st: State, a: Action, s: SocketId)
    requires s in st.jobs ==> s !in st.watching
    ensures Leaves(Step(st, a), s) ==
            if a.sock != s || s in st.jobs || a.Tick? then Leaves(st, s)
            else if a.StartWatch? then Some(a.list) else None
  {
  }

  /** A connection with a call in progress has no recorded list. */
  lemma {:induction false} RunExpectedJob(acts: seq<Action>, s: SocketId)
    ensures s in Run(acts).jobs ==> s !in Run(acts).watching
  {
    if acts != [] {
      RunExpectedJob(acts[..|acts| - 1], s);
    }
  }

  /**
   Over every interleaving, a connection with no call in progress is in the watcher set of
   exactly the users on the list it last asked for.
   */
  lemma WatchersExact(acts: seq<Action>, s: SocketId, u: User)
    requires s !in Run(acts).jobs
    ensures s in Has(Run(acts), u) <==> Wanted(acts, s).Some? && u in Wanted(acts, s).value
  {
    ListsAreWanted(acts, s);
    IndexInverse(acts, s, u);
  }
}

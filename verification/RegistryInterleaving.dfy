/**
 The channel registry under concurrency. A subscribe is one guarded step; an
 unsubscribe is two: a guarded removal, then, if that left the entry empty, a
 conditional prune of the entry. Any number of callers interleave.
 */
module RegistryInterleaving {
  import opened Prelude
  import opened ChannelSpec
  import opened Registry

  /** `owed[k]` counts unsubscribes of `k` between their removal and their prune. */
  datatype State = State(entries: map<Key, set<SocketId>>, owed: multiset<Key>, log: seq<(Key, Edge)>)

  datatype Action =
    | Subscribe(key: Key, sock: SocketId)
    | Remove(key: Key, sock: SocketId)
    | Prune(key: Key)

  ghost function At(st: State, k: Key): set<SocketId>
  {
    if k in st.entries then st.entries[k] else {}
  }

  ghost function EntriesAfter(st: State, a: Action): map<Key, set<SocketId>>
  {
    match a
    case Subscribe(k, s) => st.entries[k := At(st, k) + {s}]
    case Remove(k, s) => if k in st.entries then st.entries[k := st.entries[k] - {s}] else st.entries
    case Prune(k) => if k in st.owed && k in st.entries && st.entries[k] == {} then st.entries - {k} else st.entries
  }

  /** The guarded removal left the entry empty. */
  ghost predicate NowEmpty(st: State, k: Key, s: SocketId)
  {
    k in st.entries && st.entries[k] - {s} == {}
  }

  ghost function OwedAfter(st: State, a: Action): multiset<Key>
  {
    match a
    case Subscribe(_, _) => st.owed
    case Remove(k, s) => if NowEmpty(st, k, s) then st.owed + multiset{k} else st.owed
    case Prune(k) => st.owed - multiset{k}
  }

  /** `occupied` is "was empty and the count is now 1"; `vacated` is "now empty". */
  ghost function Reported(st: State, a: Action): seq<(Key, Edge)>
  {
    match a
    case Subscribe(k, s) => if At(st, k) == {} && |At(st, k) + {s}| == 1 then [(k, Up)] else []
    case Remove(k, s) => if NowEmpty(st, k, s) then [(k, Down)] else []
    case Prune(_) => []
  }

  ghost function Step(st: State, a: Action): State
  {
    State(EntriesAfter(st, a), OwedAfter(st, a), st.log + Reported(st, a))
  }

  ghost function Run(acts: seq<Action>): State
  {
    if acts == [] then State(map[], multiset{}, []) else Step(Run(acts[..|acts| - 1]), acts[|acts| - 1])
  }

  /** Who is subscribed by the calls alone: subscribes and removals in order, prunes ignored. */
  ghost function Subscribed(acts: seq<Action>, k: Key): set<SocketId>
  {
    if acts == [] then {} else SetAfter(Subscribed(acts[..|acts| - 1], k), acts[|acts| - 1], k)
  }

  ghost function SetAfter(before: set<SocketId>, a: Action, k: Key): set<SocketId>
  {
    if a.key != k || a.Prune? then before
    else if a.Subscribe? then before + {a.sock} else before - {a.sock}
  }

  lemma OtherKey(st: State, a: Action, k: Key)
    requires a.key != k
    ensures At(Step(st, a), k) == At(st, k)
  {
  }

  lemma OwnKey(st: State, a: Action)
    ensures At(Step(st, a), a.key) == SetAfter(At(st, a.key), a, a.key)
  {
    if a.Remove? && a.key !in st.entries {
      assert {} - {a.sock} == {};
    }
  }

  lemma StepSet(st: State, a: Action, k: Key)
    ensures At(Step(st, a), k) == SetAfter(At(st, k), a, k)
  {
    if a.key == k {
      OwnKey(st, a);
    } else {
      OtherKey(st, a, k);
    }
  }

  /** No interleaving loses or invents a subscriber: in particular no prune discards a live one. */
  lemma {:induction false} EntriesAreSubscribed(acts: seq<Action>, k: Key)
    ensures At(Run(acts), k) == Subscribed(acts, k)
  {
    if acts != [] {
      EntriesAreSubscribed(acts[..|acts| - 1], k);
      StepSet(Run(acts[..|acts| - 1]), acts[|acts| - 1], k);
    }
  }

  /** An empty entry exists only while some unsubscribe still owes its prune. */
  lemma {:induction false} EmptyEntryIsOwed(acts: seq<Action>, k: Key)
    ensures k in Run(acts).entries && Run(acts).entries[k] == {} ==> k in Run(acts).owed
  {
    if acts != [] {
      EmptyEntryIsOwed(acts[..|acts| - 1], k);
    }
  }

  /** The channel's occupied/vacated reports alternate and it has subscribers exactly between the two. */
  ghost predicate FaithfulFor(st: State, k: Key)
  {
    Alternating(Of(st.log, k)) && (At(st, k) != {} <==> Due(Of(st.log, k)) == Down)
  }

  /** A removal that finds an entry already emptied and not yet pruned. */
  ghost predicate Stray(st: State, a: Action)
  {
    a.Remove? && a.key in st.entries && st.entries[a.key] == {}
  }

  ghost predicate NoStray(acts: seq<Action>)
  {
    acts == [] || (NoStray(acts[..|acts| - 1]) && !Stray(Run(acts[..|acts| - 1]), acts[|acts| - 1]))
  }

  /** One step as channel `k` sees it: what it reports. */
  lemma StepReports(st: State, a: Action, k: Key)
    ensures var up := a.key == k && a.Subscribe? && At(st, k) == {};
            var down := a.key == k && a.Remove? && NowEmpty(st, k, a.sock);
            Of(Step(st, a).log, k) == Of(st.log, k) + (if up then [Up] else if down then [Down] else [])
  {
    if a.Subscribe? && At(st, a.key) == {} {
      assert At(st, a.key) + {a.sock} == {a.sock};
    }
    OfReport(st.log, Reported(st, a), k);
  }

  lemma StepFaithful(st: State, a: Action, k: Key)
    requires FaithfulFor(st, k) && !Stray(st, a)
    ensures FaithfulFor(Step(st, a), k)
  {
    StepReports(st, a, k);
    StepSet(st, a, k);
    var on, on' := At(st, k) != {}, At(Step(st, a), k) != {};
    BracketStep(Of(st.log, k), on, if on == on' then [] else if on' then [Up] else [Down], on');
  }

  lemma {:induction false} NoStrayFaithful(acts: seq<Action>, k: Key)
    requires NoStray(acts)
    ensures FaithfulFor(Run(acts), k)
  {
    if acts != [] {
      NoStrayFaithful(acts[..|acts| - 1], k);
      StepFaithful(Run(acts[..|acts| - 1]), acts[|acts| - 1], k);
    }
  }

  lemma StrayStep(st: State, a: Action)
    requires FaithfulFor(st, a.key) && Stray(st, a)
    ensures !Alternating(Of(Step(st, a).log, a.key))
  {
    assert NowEmpty(st, a.key, a.sock);
    StepReports(st, a, a.key);
    AlternatingExtend(Of(st.log, a.key), Down);
  }

  lemma StaysBroken(st: State, a: Action, k: Key)
    requires !Alternating(Of(st.log, k))
    ensures !Alternating(Of(Step(st, a).log, k))
  {
    StepReports(st, a, k);
    AlternatingExtend(Of(st.log, k), Up);
    AlternatingExtend(Of(st.log, k), Down);
    assert Of(st.log, k) + [] == Of(st.log, k);
  }

  lemma {:induction false} StrayBreaks(acts: seq<Action>) returns (k: Key)
    requires !NoStray(acts)
    ensures !Alternating(Of(Run(acts).log, k))
  {
    var init, a := acts[..|acts| - 1], acts[|acts| - 1];
    if NoStray(init) {
      k := a.key;
      NoStrayFaithful(init, k);
      StrayStep(Run(init), a);
    } else {
      k := StrayBreaks(init);
      StaysBroken(Run(init), a, k);
    }
  }

  /**
   Under every interleaving: each channel's reports alternate starting with
   occupied, bracketing its occupancy, if and only if no removal met an entry
   that was already empty.
   */
  lemma ReportsExact(acts: seq<Action>)
    ensures (forall k :: FaithfulFor(Run(acts), k)) <==> NoStray(acts)
  {
    if NoStray(acts) {
      forall k ensures FaithfulFor(Run(acts), k) {
        NoStrayFaithful(acts, k);
      }
    } else {
      var k := StrayBreaks(acts);
      assert !FaithfulFor(Run(acts), k);
    }
  }

  /** The failing family is not empty: a second removal before the first one's prune. */
  lemma SecondRemovalBreaks(k: Key, s: SocketId)
    ensures var acts := [Subscribe(k, s), Remove(k, s), Remove(k, s)];
            !NoStray(acts) && !FaithfulFor(Run(acts), k)
  {
    var two := [Subscribe(k, s), Remove(k, s)];
    EmptiedOnce(k, s);
    NoStrayFaithful(two, k);
    StrayStep(Run(two), Remove(k, s));
    Append(two, Remove(k, s));
    assert two + [Remove(k, s)] == [Subscribe(k, s), Remove(k, s), Remove(k, s)];
  }

  lemma EmptiedOnce(k: Key, s: SocketId)
    ensures var two := [Subscribe(k, s), Remove(k, s)];
            NoStray(two) && k in Run(two).entries && Run(two).entries[k] == {}
  {
    var none: seq<Action>, one := [], [Subscribe(k, s)];
    Append(none, Subscribe(k, s));
    assert none + [Subscribe(k, s)] == one;
    assert {} + {s} == {s} && {s} - {s} == {};
    assert Run(one).entries == map[k := {s}];
    Append(one, Remove(k, s));
    assert one + [Remove(k, s)] == [Subscribe(k, s), Remove(k, s)];
  }

  lemma Append(acts: seq<Action>, a: Action)
    ensures Run(acts + [a]) == Step(Run(acts), a)
    ensures NoStray(acts + [a]) <==> NoStray(acts) && !Stray(Run(acts), a)
  {
    assert (acts + [a])[..|acts|] == acts;
  }

  /** Every removal of the run names a socket subscribed at that moment. */
  ghost predicate RemovesSubscribed(acts: seq<Action>)
  {
    acts == [] || (RemovesSubscribed(acts[..|acts| - 1]) &&
                   var a := acts[|acts| - 1]; a.Remove? ==> a.sock in Subscribed(acts[..|acts| - 1], a.key))
  }

  /** Unsubscribing only subscribed sockets is enough, whatever the interleaving. */
  lemma {:induction false} SubscribedRemovalsFaithful(acts: seq<Action>)
    requires RemovesSubscribed(acts)
    ensures NoStray(acts) && forall k :: FaithfulFor(Run(acts), k)
  {
    if acts != [] {
      var init, a := acts[..|acts| - 1], acts[|acts| - 1];
      SubscribedRemovalsFaithful(init);
      if a.Remove? {
        EntriesAreSubscribed(init, a.key);
      }
    }
    ReportsExact(acts);
  }

  // ---------- the prunes still owed, from the actions alone ----------

  /** The removals that left `k` empty. */
  ghost function Emptied(acts: seq<Action>, k: Key): nat
  {
    if acts == [] then 0
    else
      var init, a := acts[..|acts| - 1], acts[|acts| - 1];
      Emptied(init, k) +
      (if a.Remove? && a.key == k && k in Run(init).entries && Subscribed(acts, k) == {} then 1 else 0)
  }

  /** The prunes of `k` carried out. */
  ghost function Pruned(acts: seq<Action>, k: Key): nat
  {
    if acts == [] then 0
    else
      var init, a := acts[..|acts| - 1], acts[|acts| - 1];
      Pruned(init, k) + (if a.Prune? && a.key == k && Pruned(init, k) < Emptied(init, k) then 1 else 0)
  }

  /** Every removal that emptied the entry owes one prune, and no one else does. */
  lemma {:induction false} OwedExact(acts: seq<Action>, k: Key)
    ensures Run(acts).owed[k] == Emptied(acts, k) - Pruned(acts, k)
  {
    if acts != [] {
      var init, a := acts[..|acts| - 1], acts[|acts| - 1];
      OwedExact(init, k);
      EntriesAreSubscribed(init, k);
      if a.Remove? && a.key == k {
        assert NowEmpty(Run(init), k, a.sock) <==> k in Run(init).entries && Subscribed(acts, k) == {};
      }
    }
  }

  /** Once every such removal has pruned, the registry holds exactly the occupied channels. */
  lemma SettledExact(acts: seq<Action>, k: Key)
    requires Emptied(acts, k) == Pruned(acts, k)
    ensures k in Run(acts).entries <==> Subscribed(acts, k) != {}
  {
    OwedExact(acts, k);
    EmptyEntryIsOwed(acts, k);
    EntriesAreSubscribed(acts, k);
  }
}

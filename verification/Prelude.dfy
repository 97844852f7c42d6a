/** Shared vocabulary: optional values, duplicate-free sequences and edge logs. */
module Prelude {

  datatype Option<+T> = None | Some(value: T)

  ghost predicate NoDup<T>(s: seq<T>)
  {
    forall i, j :: 0 <= i < j < |s| ==> s[i] != s[j]
  }

  /** `s` lists every element of `elems` exactly once, in some order. */
  ghost predicate Lists<T(!new)>(s: seq<T>, elems: set<T>)
  {
    NoDup(s) && (forall x :: x in s <==> x in elems)
  }

  lemma {:induction false} ListsLength<T(!new)>(s: seq<T>, elems: set<T>)
    requires Lists(s, elems)
    ensures |s| == |elems|
  {
    if s != [] {
      var x := s[|s| - 1];
      assert x !in s[..|s| - 1];
      assert s == s[..|s| - 1] + [x];
      ListsLength(s[..|s| - 1], elems - {x});
    }
  }

  /** A 0 -> 1 transition (`Up`) or a 1 -> 0 transition (`Down`) reported to a caller. */
  datatype Edge = Up | Down

  /** The edge that must come next in a log that alternates starting with `Up`. */
  function Due(log: seq<Edge>): Edge
  {
    if |log| % 2 == 0 then Up else Down
  }

  /** Every edge is the one that was due: `Up`, `Down`, `Up`, ... */
  ghost predicate Alternating(log: seq<Edge>)
  {
    log == [] || (Alternating(log[..|log| - 1]) && log[|log| - 1] == Due(log[..|log| - 1]))
  }

  lemma AlternatingExtend(log: seq<Edge>, e: Edge)
    ensures Alternating(log + [e]) <==> Alternating(log) && e == Due(log)
  {
    assert (log + [e])[..|log|] == log;
  }

  /** A log that brackets the condition `on` still does after reporting exactly how `on` changed. */
  lemma BracketStep(log: seq<Edge>, on: bool, e: seq<Edge>, on': bool)
    requires Alternating(log) && (on <==> Due(log) == Down)
    requires e == if on == on' then [] else if on' then [Up] else [Down]
    ensures Alternating(log + e) && (on' <==> Due(log + e) == Down)
  {
    if on == on' {
      assert log + e == log;
    } else if on' {
      AlternatingExtend(log, Up);
    } else {
      AlternatingExtend(log, Down);
    }
  }

  /** The edges of a shared log that concern `k`, in order. */
  ghost function Of<K(!new)>(log: seq<(K, Edge)>, k: K): seq<Edge>
  {
    if log == [] then []
    else
      var last := log[|log| - 1];
      Of(log[..|log| - 1], k) + (if last.0 == k then [last.1] else [])
  }

  lemma OfExtend<K(!new)>(log: seq<(K, Edge)>, e: (K, Edge), k: K)
    ensures Of(log + [e], k) == Of(log, k) + (if e.0 == k then [e.1] else [])
  {
    assert (log + [e])[..|log|] == log;
  }

  /** A step reports at most one edge. */
  lemma OfReport<K(!new)>(log: seq<(K, Edge)>, e: seq<(K, Edge)>, k: K)
    requires |e| <= 1
    ensures Of(log + e, k) == Of(log, k) + (if e != [] && e[0].0 == k then [e[0].1] else [])
  {
    if e == [] {
      assert log + e == log;
    } else {
      assert e == [e[0]];
      OfExtend(log, e[0], k);
    }
  }

  lemma CountNext<T>(s: seq<T>, x: T, y: T)
    ensures multiset(s + [x])[y] == multiset(s)[y] + (if x == y then 1 else 0)
  {
  }
}

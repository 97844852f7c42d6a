/**
 The app cache: three in-process maps (`pos`, `neg`, `dis`) over an optional shared
 second level (L2), in front of a driver that answers by id and by key.
 Lookups are sequential; each takes the faults it meets as a parameter.
 */
module AppCache {
  import opened Prelude

  type AppId(==, !new)
  type AppKey(==, !new)
  type Settings(==, !new)

  datatype App = App(id: AppId, key: AppKey, enabled: bool, settings: Settings)

  /** What a lookup is keyed by; the two kinds never share a cache entry. */
  datatype Alias = ById(id: AppId) | ByKey(key: AppKey)

  datatype Answer = Found(app: App) | Disabled | NotFound

  datatype Outcome = Ok(answer: Answer) | Failed

  // ---------- the driver ----------

  predicate Names(a: Alias, app: App)
  {
    match a
    case ById(id) => app.id == id
    case ByKey(key) => app.key == key
  }

  function AnswerOf(app: App): Answer
  {
    if app.enabled then Found(app) else Disabled
  }

  /** The first row the alias names. */
  function Resolve(rows: seq<App>, a: Alias): Answer
  {
    if rows == [] then NotFound
    else if Names(a, rows[0]) then AnswerOf(rows[0])
    else Resolve(rows[1..], a)
  }

  /** Ids and keys are unique across the driver's rows. */
  ghost predicate Unique(rows: seq<App>)
  {
    forall i, j :: 0 <= i < j < |rows| ==> rows[i].id != rows[j].id && rows[i].key != rows[j].key
  }

  lemma {:induction false} ResolveRow(rows: seq<App>, i: nat, a: Alias)
    requires Unique(rows) && i < |rows| && Names(a, rows[i])
    ensures Resolve(rows, a) == AnswerOf(rows[i])
  {
    if i > 0 {
      ResolveRow(rows[1..], i - 1, a);
    }
  }

  lemma {:induction false} ResolveSome(rows: seq<App>, a: Alias) returns (i: nat)
    requires Resolve(rows, a) != NotFound
    ensures i < |rows| && Names(a, rows[i]) && Resolve(rows, a) == AnswerOf(rows[i])
  {
    i := 0;
    if !Names(a, rows[0]) {
      i := ResolveSome(rows[1..], a);
      i := i + 1;
    }
  }

  /** The three answers: an enabled row with that name, a disabled one, or no row at all. */
  lemma ResolveExact(rows: seq<App>, a: Alias, app: App)
    requires Unique(rows)
    ensures Resolve(rows, a) == Found(app) <==> app in rows && Names(a, app) && app.enabled
    ensures Resolve(rows, a) == Disabled <==> exists i :: 0 <= i < |rows| && Names(a, rows[i]) && !rows[i].enabled
    ensures Resolve(rows, a) == NotFound <==> forall i :: 0 <= i < |rows| ==> !Names(a, rows[i])
  {
    if Resolve(rows, a) != NotFound {
      var i := ResolveSome(rows, a);
      assert Names(a, rows[i]);
    }
    forall i | 0 <= i < |rows| && Names(a, rows[i]) ensures Resolve(rows, a) == AnswerOf(rows[i]) {
      ResolveRow(rows, i, a);
    }
  }

  /** A found app is the answer under both of its aliases. */
  lemma FoundUnderBoth(rows: seq<App>, a: Alias)
    requires Unique(rows) && Resolve(rows, a).Found?
    ensures var app := Resolve(rows, a).app;
            && Names(a, app)
            && Resolve(rows, ById(app.id)) == Found(app)
            && Resolve(rows, ByKey(app.key)) == Found(app)
  {
    var i := ResolveSome(rows, a);
    ResolveRow(rows, i, ById(rows[i].id));
    ResolveRow(rows, i, ByKey(rows[i].key));
  }

  // ---------- the cache as a value ----------

  /** `l2` holds only `Found` and `Disabled`; a missing entry is a miss. */
  datatype Caches = Caches(pos: map<Alias, App>, neg: set<Alias>, dis: set<Alias>, l2: Option<map<Alias, Answer>>)

  /** How far an L2 `put` got: its id entry is written before its key entry. */
  datatype Put = Nothing | IdOnly | Both

  /** What goes wrong during one lookup. */
  datatype Faults = Faults(l2Get: bool, driver: bool, l2Put: Put, l2Mark: bool)

  function L2Answer(l2: Option<map<Alias, Answer>>, a: Alias, getFails: bool): Option<Answer>
  {
    if l2.Some? && !getFails && a in l2.value then Some(l2.value[a]) else None
  }

  function Stored(l2: Option<map<Alias, Answer>>, app: App, put: Put): Option<map<Alias, Answer>>
  {
    match l2
    case None => None
    case Some(m) =>
      match put
      case Nothing => Some(m)
      case IdOnly => Some(m[ById(app.id) := Found(app)])
      case Both => Some(m[ById(app.id) := Found(app)][ByKey(app.key) := Found(app)])
  }

  function Marked(l2: Option<map<Alias, Answer>>, a: Alias, fails: bool): Option<map<Alias, Answer>>
  {
    if l2.Some? && !fails then Some(l2.value[a := Disabled]) else l2
  }

  /** The L1 answer for an alias, in the order the maps are probed. */
  function L1(c: Caches, a: Alias): Option<Answer>
  {
    if a in c.neg then Some(NotFound)
    else if a in c.dis then Some(Disabled)
    else if a in c.pos then Some(Found(c.pos[a]))
    else None
  }

  /** What a miss in L1 brings back, and the L2 it leaves. */
  function Load(c: Caches, rows: seq<App>, a: Alias, f: Faults): (Outcome, Option<map<Alias, Answer>>)
  {
    match L2Answer(c.l2, a, f.l2Get)
    case Some(hit) => (Ok(hit), c.l2)
    case None =>
      if f.driver then (Failed, c.l2)
      else
        match Resolve(rows, a)
        case Found(app) => (Ok(Found(app)), Stored(c.l2, app, f.l2Put))
        case Disabled => (Ok(Disabled), Marked(c.l2, a, f.l2Mark))
        case NotFound => (Ok(NotFound), c.l2)
  }

  /** L1 with the loaded answer recorded under its alias. */
  function Recorded(c: Caches, a: Alias, answer: Answer): Caches
  {
    match answer
    case Found(app) => c.(pos := c.pos[a := app])
    case Disabled => c.(dis := c.dis + {a})
    case NotFound => c.(neg := c.neg + {a})
  }

  function Lookup(c: Caches, rows: seq<App>, a: Alias, f: Faults): (Caches, Outcome)
  {
    match L1(c, a)
    case Some(answer) => (c, Ok(answer))
    case None =>
      var (r, l2) := Load(c, rows, a, f);
      if r.Ok? then (Recorded(c.(l2 := l2), a, r.answer), r) else (c.(l2 := l2), r)
  }

  function Dropped(c: Caches, gone: set<Alias>): Caches
  {
    Caches(c.pos - gone, c.neg - gone, c.dis - gone, c.l2)
  }

  function Invalidated(c: Caches, id: AppId, key: AppKey, deleteFails: bool): Caches
  {
    var gone := {ById(id), ByKey(key)};
    var d := Dropped(c, gone);
    if d.l2.Some? && !deleteFails then d.(l2 := Some(d.l2.value - gone)) else d
  }

  // ---------- what holds of one cache ----------

  /** No alias is in two of the three maps, and L2 stores no negative answer. */
  ghost predicate Exclusive(c: Caches)
  {
    && (forall a :: a in c.pos ==> a !in c.neg && a !in c.dis)
    && (forall a :: a in c.neg ==> a !in c.dis)
    && (c.l2.Some? ==> forall a :: a in c.l2.value ==> c.l2.value[a] != NotFound)
  }

  /** Everything stored for the alias is the driver's current answer. */
  ghost predicate Fresh(c: Caches, rows: seq<App>, a: Alias)
  {
    && (a in c.pos ==> Resolve(rows, a) == Found(c.pos[a]))
    && (a in c.neg ==> Resolve(rows, a) == NotFound)
    && (a in c.dis ==> Resolve(rows, a) == Disabled)
    && L2Fresh(c.l2, rows, a)
  }

  ghost predicate L2Fresh(l2: Option<map<Alias, Answer>>, rows: seq<App>, a: Alias)
  {
    l2.Some? && a in l2.value ==> l2.value[a] == Resolve(rows, a)
  }

  /** How much of a write-through is there afterwards: nothing, the id entry, or both; every other entry is as it was. */
  lemma StoredExact(m: map<Alias, Answer>, app: App, put: Put, b: Alias)
    ensures Stored(Some(m), app, put).Some?
    ensures var after := Stored(Some(m), app, put).value;
            if (b == ById(app.id) && put != Nothing) || (b == ByKey(app.key) && put == Both)
            then b in after && after[b] == Found(app)
            else (b in after <==> b in m) && (b in m ==> after[b] == m[b])
  {
  }

  lemma LookupExclusive(c: Caches, rows: seq<App>, a: Alias, f: Faults)
    requires Exclusive(c)
    ensures Exclusive(Lookup(c, rows, a, f).0)
  {
  }

  /** A lookup keeps every fresh alias fresh, also the second one an L2 `put` writes. */
  lemma LookupFresh(c: Caches, rows: seq<App>, a: Alias, f: Faults, b: Alias)
    requires Unique(rows) && Fresh(c, rows, b)
    ensures Fresh(Lookup(c, rows, a, f).0, rows, b)
  {
    LoadFresh(c, rows, a, f, b);
  }

  lemma LoadFresh(c: Caches, rows: seq<App>, a: Alias, f: Faults, b: Alias)
    requires Unique(rows) && L2Fresh(c.l2, rows, b)
    ensures L2Fresh(Load(c, rows, a, f).1, rows, b)
    ensures L2Fresh(c.l2, rows, a) ==> Load(c, rows, a, f).0 in {Ok(Resolve(rows, a)), Failed}
  {
    if Resolve(rows, a).Found? {
      FoundUnderBoth(rows, a);
      StoredFresh(c.l2, rows, Resolve(rows, a).app, f.l2Put, b);
    }
  }

  lemma StoredFresh(l2: Option<map<Alias, Answer>>, rows: seq<App>, app: App, put: Put, b: Alias)
    requires Resolve(rows, ById(app.id)) == Found(app) && Resolve(rows, ByKey(app.key)) == Found(app)
    requires L2Fresh(l2, rows, b)
    ensures L2Fresh(Stored(l2, app, put), rows, b)
  {
    if l2.Some? && put.IdOnly? {
      assert Stored(l2, app, put).value == l2.value[ById(app.id) := Found(app)];
    }
  }

  /** A lookup fails exactly when neither level can answer and the driver fails, and then it stores nothing. */
  lemma FailureExact(c: Caches, rows: seq<App>, a: Alias, f: Faults)
    ensures Lookup(c, rows, a, f).1.Failed? <==>
            && a !in c.neg && a !in c.dis && a !in c.pos
            && !(c.l2.Some? && !f.l2Get && a in c.l2.value)
            && f.driver
    ensures Lookup(c, rows, a, f).1.Failed? ==> Lookup(c, rows, a, f).0 == c
  {
  }

  /** Where an answer comes from: L1, else L2 unless reading it fails, else the driver. */
  lemma LookupSource(c: Caches, rows: seq<App>, a: Alias, f: Faults)
    requires Exclusive(c) && Lookup(c, rows, a, f).1.Ok?
    ensures var answer := Lookup(c, rows, a, f).1.answer;
            if a in c.neg then answer == NotFound
            else if a in c.dis then answer == Disabled
            else if a in c.pos then answer == Found(c.pos[a])
            else if c.l2.Some? && a in c.l2.value && !f.l2Get then answer == c.l2.value[a]
            else answer == Resolve(rows, a)
  {
  }

  /** A lookup touches L1 only under its own alias. */
  lemma LookupOthers(c: Caches, rows: seq<App>, a: Alias, f: Faults, b: Alias)
    requires b != a
    ensures var after := Lookup(c, rows, a, f).0;
            && (b in after.neg <==> b in c.neg) && (b in after.dis <==> b in c.dis)
            && (b in after.pos <==> b in c.pos) && (b in c.pos ==> after.pos[b] == c.pos[b])
  {
  }

  /** And L2 only there or under the aliases of the app it found. */
  lemma LookupOthersL2(c: Caches, rows: seq<App>, a: Alias, f: Faults, b: Alias)
    requires b != a && !(Resolve(rows, a).Found? && Names(b, Resolve(rows, a).app))
    ensures L2Answer(Lookup(c, rows, a, f).0.l2, b, false) == L2Answer(c.l2, b, false)
  {
    LookupKeepsOthers(c, rows, a, f, b);
  }

  lemma LookupKeepsOthers(c: Caches, rows: seq<App>, a: Alias, f: Faults, b: Alias)
    requires b != a && !(Resolve(rows, a).Found? && Names(b, Resolve(rows, a).app))
    ensures L2Answer(Load(c, rows, a, f).1, b, false) == L2Answer(c.l2, b, false)
  {
  }

  /** An answer is remembered: the same lookup repeats it from L1, whatever the driver or the faults by then. */
  lemma LookupRemembered(c: Caches, rows: seq<App>, a: Alias, f: Faults, later: seq<App>, g: Faults)
    requires Exclusive(c) && Lookup(c, rows, a, f).1.Ok?
    ensures var (kept, r) := Lookup(c, rows, a, f); Lookup(kept, later, a, g) == (kept, r)
  {
    if L1(c, a).None? {
      assert L1(Lookup(c, rows, a, f).0, a) == Some(Lookup(c, rows, a, f).1.answer);
    }
  }

  /**
   A found app is shared: once a lookup has written it through, a manager with nothing in L1 over the same
   L2 serves it without its driver, under both aliases, or under the id alone when the write stopped there.
   */
  lemma WrittenThrough(c: Caches, rows: seq<App>, a: Alias, f: Faults, b: Alias, peer: Caches, g: Faults)
    requires c.l2.Some? && L1(c, a).None? && L2Answer(c.l2, a, f.l2Get).None?
    requires !f.driver && Resolve(rows, a).Found?
    requires Names(b, Resolve(rows, a).app) && (f.l2Put == Both || (f.l2Put == IdOnly && b.ById?))
    requires L1(peer, b).None? && peer.l2 == Lookup(c, rows, a, f).0.l2 && !g.l2Get
    ensures Lookup(peer, [], b, g).1 == Ok(Resolve(rows, a))
  {
    var app := Resolve(rows, a).app;
    assert peer.l2 == Stored(c.l2, app, f.l2Put);
    assert b == ById(app.id) || b == ByKey(app.key);
  }

  /** A disabled answer is shared too, under the alias it was asked for. */
  lemma MarkedThrough(c: Caches, rows: seq<App>, a: Alias, f: Faults, peer: Caches, g: Faults)
    requires c.l2.Some? && L1(c, a).None? && L2Answer(c.l2, a, f.l2Get).None?
    requires !f.driver && Resolve(rows, a).Disabled? && !f.l2Mark
    requires L1(peer, a).None? && peer.l2 == Lookup(c, rows, a, f).0.l2 && !g.l2Get
    ensures Lookup(peer, [], a, g).1 == Ok(Disabled)
  {
    assert peer.l2 == Marked(c.l2, a, false);
  }

  /**
   Lookups of an alias are the driver's answer whatever faults they meet exactly when
   no entry for it, at either level, differs from that answer.
   */
  lemma LookupExact(c: Caches, rows: seq<App>, a: Alias)
    requires Exclusive(c)
    ensures (forall f :: Lookup(c, rows, a, f).1 in {Ok(Resolve(rows, a)), Failed})
            <==> (match L1(c, a)
                  case Some(answer) => answer == Resolve(rows, a)
                  case None => L2Fresh(c.l2, rows, a))
  {
    var f := Faults(false, false, Both, false);
    assert Lookup(c, rows, a, f).1 == (match L1(c, a)
                                       case Some(answer) => Ok(answer)
                                       case None => Load(c, rows, a, f).0);
  }

  /** A stale alias becomes fresh by `invalidate` exactly when its L2 entry is gone or agreed already. */
  lemma InvalidateExact(c: Caches, rows: seq<App>, id: AppId, key: AppKey, deleteFails: bool, a: Alias)
    requires a == ById(id) || a == ByKey(key)
    ensures Fresh(Invalidated(c, id, key, deleteFails), rows, a)
            <==> (deleteFails ==> L2Fresh(c.l2, rows, a))
  {
  }

  /** And it leaves every other alias alone, at both levels. */
  lemma InvalidateOthers(c: Caches, id: AppId, key: AppKey, deleteFails: bool, b: Alias)
    requires b != ById(id) && b != ByKey(key)
    ensures var after := Invalidated(c, id, key, deleteFails);
            && (b in after.neg <==> b in c.neg) && (b in after.dis <==> b in c.dis)
            && (b in after.pos <==> b in c.pos) && (b in c.pos ==> after.pos[b] == c.pos[b])
            && L2Answer(after.l2, b, false) == L2Answer(c.l2, b, false)
  {
  }

  // ---------- runs ----------

  datatype Action =
    | Look(alias: Alias, faults: Faults)
    | Change(rows: seq<App>)
    | Invalidate(id: AppId, key: AppKey, deleteFails: bool)
    | EvictL1(gone: set<Alias>)
    | EvictL2(gone: set<Alias>)

  datatype World = World(caches: Caches, rows: seq<App>)

  ghost function Step(w: World, act: Action): World
  {
    match act
    case Look(a, f) => w.(caches := Lookup(w.caches, w.rows, a, f).0)
    case Change(rows) => if Unique(rows) then w.(rows := rows) else w
    case Invalidate(id, key, fails) => w.(caches := Invalidated(w.caches, id, key, fails))
    case EvictL1(gone) => w.(caches := Dropped(w.caches, gone))
    case EvictL2(gone) =>
      if w.caches.l2.Some? then w.(caches := w.caches.(l2 := Some(w.caches.l2.value - gone))) else w
  }

  ghost function Start(rows: seq<App>, withL2: bool): World
  {
    World(Caches(map[], {}, {}, if withL2 then Some(map[]) else None), rows)
  }

  ghost function Run(rows: seq<App>, withL2: bool, acts: seq<Action>): World
  {
    if acts == [] then Start(rows, withL2) else Step(Run(rows, withL2, acts[..|acts| - 1]), acts[|acts| - 1])
  }

  /** The driver's rows, from the changes alone. */
  ghost function Current(rows: seq<App>, acts: seq<Action>): seq<App>
  {
    if acts == [] then rows
    else
      var act := acts[|acts| - 1];
      if act.Change? && Unique(act.rows) then act.rows else Current(rows, acts[..|acts| - 1])
  }

  /** The driver's answer for `a` changed, and no invalidate naming it has worked at both levels since. */
  ghost predicate Owed(rows: seq<App>, withL2: bool, acts: seq<Action>, a: Alias)
  {
    if acts == [] then false
    else
      var init, act := acts[..|acts| - 1], acts[|acts| - 1];
      if act.Change? && Unique(act.rows) && Resolve(act.rows, a) != Resolve(Current(rows, init), a) then true
      else if act.Invalidate? && (a == ById(act.id) || a == ByKey(act.key)) && !(withL2 && act.deleteFails) then false
      else Owed(rows, withL2, init, a)
  }

  ghost predicate Sound(w: World, withL2: bool)
  {
    Unique(w.rows) && Exclusive(w.caches) && (w.caches.l2.Some? <==> withL2)
  }

  lemma StepSound(w: World, withL2: bool, act: Action)
    requires Sound(w, withL2)
    ensures Sound(Step(w, act), withL2)
  {
    if act.Look? {
      LookupExclusive(w.caches, w.rows, act.alias, act.faults);
    }
  }

  /** A step keeps an alias fresh unless it changes the driver's answer for it; a working invalidate makes it fresh. */
  lemma StepFresh(w: World, withL2: bool, act: Action, a: Alias)
    requires Sound(w, withL2)
    ensures Fresh(w.caches, w.rows, a) && Resolve(Step(w, act).rows, a) == Resolve(w.rows, a) ==>
              Fresh(Step(w, act).caches, Step(w, act).rows, a)
    ensures act.Invalidate? && (a == ById(act.id) || a == ByKey(act.key)) && !(withL2 && act.deleteFails) ==>
              Fresh(Step(w, act).caches, Step(w, act).rows, a)
  {
    if act.Look? && Fresh(w.caches, w.rows, a) {
      LookupFresh(w.caches, w.rows, act.alias, act.faults, a);
    }
  }

  lemma {:induction false} RunSound(rows: seq<App>, withL2: bool, acts: seq<Action>, a: Alias)
    requires Unique(rows)
    ensures Sound(Run(rows, withL2, acts), withL2) && Run(rows, withL2, acts).rows == Current(rows, acts)
    ensures !Owed(rows, withL2, acts, a) ==> Fresh(Run(rows, withL2, acts).caches, Current(rows, acts), a)
  {
    if acts != [] {
      var init, act := acts[..|acts| - 1], acts[|acts| - 1];
      RunSound(rows, withL2, init, a);
      StepSound(Run(rows, withL2, init), withL2, act);
      StepFresh(Run(rows, withL2, init), withL2, act, a);
    }
  }

  /**
   After every run of lookups, driver changes, invalidations and evictions at both levels,
   under every fault: an alias with no invalidation owed answers as the driver does now,
   or the lookup fails, and a synchronous hit is that same answer.
   */
  lemma Coherent(rows: seq<App>, withL2: bool, acts: seq<Action>, a: Alias, f: Faults)
    requires Unique(rows) && !Owed(rows, withL2, acts, a)
    ensures var w := Run(rows, withL2, acts);
            && Lookup(w.caches, w.rows, a, f).1 in {Ok(Resolve(Current(rows, acts), a)), Failed}
            && (!f.driver ==> Lookup(w.caches, w.rows, a, f).1.Ok?)
            && (L1(w.caches, a).Some? ==> L1(w.caches, a).value == Resolve(Current(rows, acts), a))
  {
    RunSound(rows, withL2, acts, a);
    FailureExact(Run(rows, withL2, acts).caches, Current(rows, acts), a, f);
  }

  /** In every run, invalidated or not, an alias is in at most one of the three maps. */
  lemma AlwaysExclusive(rows: seq<App>, withL2: bool, acts: seq<Action>, a: Alias)
    requires Unique(rows)
    ensures Exclusive(Run(rows, withL2, acts).caches)
  {
    RunSound(rows, withL2, acts, a);
  }

  // ---------- which aliases one edit affects ----------

  /** Replacing row `i` changes the answer of at most its id and key, old and new. */
  lemma {:induction false} EditAffects(rows: seq<App>, i: nat, app: App, a: Alias)
    requires i < |rows| && !Names(a, rows[i]) && !Names(a, app)
    ensures Resolve(rows[i := app], a) == Resolve(rows, a)
  {
    var edited := rows[i := app];
    if i == 0 {
      assert edited[1..] == rows[1..];
    } else {
      assert edited[1..] == rows[1..][i - 1 := app];
      EditAffects(rows[1..], i - 1, app, a);
    }
  }

  /**
   An edit of one row followed by working invalidations under its old and its new key
   leaves every alias that was fresh fresh.
   */
  lemma EditThenInvalidate(w: World, withL2: bool, i: nat, app: App, a: Alias)
    requires Sound(w, withL2) && i < |w.rows| && app.id == w.rows[i].id && Unique(w.rows[i := app])
    requires Fresh(w.caches, w.rows, a)
    ensures var w1 := Step(w, Change(w.rows[i := app]));
            var w2 := Step(w1, Invalidate(app.id, w.rows[i].key, false));
            var w3 := Step(w2, Invalidate(app.id, app.key, false));
            w3.rows == w.rows[i := app] && Fresh(w3.caches, w3.rows, a)
  {
    var w1 := Step(w, Change(w.rows[i := app]));
    var w2 := Step(w1, Invalidate(app.id, w.rows[i].key, false));
    StepSound(w, withL2, Change(w.rows[i := app]));
    StepSound(w1, withL2, Invalidate(app.id, w.rows[i].key, false));
    StepFresh(w, withL2, Change(w.rows[i := app]), a);
    StepFresh(w1, withL2, Invalidate(app.id, w.rows[i].key, false), a);
    StepFresh(w2, withL2, Invalidate(app.id, app.key, false), a);
    if !Names(a, w.rows[i]) && !Names(a, app) {
      EditAffects(w.rows, i, app, a);
    }
  }

  /** With the old key left out, a cached app is still served under it after the key was rotated. */
  lemma OldKeyStaysServed(app: App, key: AppKey)
    requires app.enabled && key != app.key
    ensures var acts := [Look(ByKey(app.key), Faults(false, false, Both, false)),
                         Change([app.(key := key)]),
                         Invalidate(app.id, key, false)];
            var w := Run([app], false, acts);
            && Lookup(w.caches, w.rows, ByKey(app.key), Faults(false, false, Both, false)).1 == Ok(Found(app))
            && Resolve(w.rows, ByKey(app.key)) == NotFound
  {
    var look := Look(ByKey(app.key), Faults(false, false, Both, false));
    var change, drop := Change([app.(key := key)]), Invalidate(app.id, key, false);
    assert [look, change, drop][..2] == [look, change];
    assert [look, change][..1] == [look];
    assert [look][..0] == [];
    assert Run([app], false, []) == Start([app], false);
    var w1 := Run([app], false, [look]);
    assert w1 == Step(Start([app], false), look);
    assert Resolve([app], ByKey(app.key)) == Found(app);
    assert w1.caches.pos == map[ByKey(app.key) := app];
    var w2 := Run([app], false, [look, change]);
    assert w2 == Step(w1, change) && w2.caches == w1.caches;
    assert Run([app], false, [look, change, drop]) == Step(w2, drop);
  }

  // ---------- the cache as the code keeps it ----------

  class CachingAppManager {
    var pos: map<Alias, App>
    var neg: set<Alias>
    var dis: set<Alias>
    var l2: Option<map<Alias, Answer>>

    constructor (withL2: bool)
      ensures View() == Start([], withL2).caches && pos == map[] && neg == {} && dis == {}
      ensures l2 == if withL2 then Some(map[]) else None
    {
      pos, neg, dis := map[], {}, {};
      l2 := if withL2 then Some(map[]) else None;
    }

    ghost function View(): Caches
      reads this
    {
      Caches(pos, neg, dis, l2)
    }

    /** The loader run on a miss: L2 first, its errors passed over; then the driver, written through. */
    method LoadMiss(rows: seq<App>, a: Alias, f: Faults) returns (r: Outcome)
      modifies this`l2
      ensures (r, l2) == old(Load(View(), rows, a, f))
    {
      if l2.Some? && !f.l2Get && a in l2.value {
        return Ok(l2.value[a]);
      }
      if f.driver {
        return Failed;
      }
      var answer := Resolve(rows, a);
      if answer.Found? {
        if l2.Some? && f.l2Put != Nothing {
          l2 := Some(l2.value[ById(answer.app.id) := answer]);
          if f.l2Put == Both {
            l2 := Some(l2.value[ByKey(answer.app.key) := answer]);
          }
        }
      } else if answer.Disabled? {
        if l2.Some? && !f.l2Mark {
          l2 := Some(l2.value[a := Disabled]);
        }
      }
      return Ok(answer);
    }

    /** `cached`: the three maps in turn, then the loader, whose answer goes to exactly one of them. */
    method Cached(rows: seq<App>, a: Alias, f: Faults) returns (r: Outcome)
      requires Unique(rows) && Exclusive(View())
      modifies this
      ensures (View(), r) == old(Lookup(View(), rows, a, f))
      ensures Exclusive(View())
      ensures r.Failed? ==> View() == old(View())
      ensures a in old(neg) ==> r == Ok(NotFound)
      ensures a in old(dis) ==> r == Ok(Disabled)
      ensures a in old(pos) ==> r == Ok(Found(old(pos)[a]))
      ensures r == Ok(NotFound) ==> a in neg
      ensures r == Ok(Disabled) ==> a in dis
      ensures r.Ok? && r.answer.Found? ==> a in pos && pos[a] == r.answer.app
      ensures old(Fresh(View(), rows, a)) ==> r == Ok(Resolve(rows, a)) || r == Failed
      ensures forall b :: old(Fresh(View(), rows, b)) ==> Fresh(View(), rows, b)
    {
      LookupExclusive(View(), rows, a, f);
      forall b | Fresh(View(), rows, b) ensures Fresh(Lookup(View(), rows, a, f).0, rows, b) {
        LookupFresh(View(), rows, a, f, b);
      }
      if a in neg {
        return Ok(NotFound);
      }
      if a in dis {
        return Ok(Disabled);
      }
      if a in pos {
        return Ok(Found(pos[a]));
      }
      r := LoadMiss(rows, a, f);
      if r == Ok(NotFound) {
        neg := neg + {a};
      } else if r == Ok(Disabled) {
        dis := dis + {a};
      } else if r.Ok? {
        pos := pos[a := r.answer.app];
      }
    }

    /** `by_key_cached`: L1 only, and never an error. */
    method ByKeyCached(key: AppKey) returns (r: Option<Outcome>)
      ensures r == match L1(View(), ByKey(key)) case Some(answer) => Some(Ok(answer)) case None => None
      ensures Exclusive(View()) ==>
                && (r == Some(Ok(NotFound)) <==> ByKey(key) in neg) && (r == Some(Ok(Disabled)) <==> ByKey(key) in dis)
                && (r.Some? && r.value.Ok? && r.value.answer.Found? <==> ByKey(key) in pos)
                && (ByKey(key) in pos ==> r == Some(Ok(Found(pos[ByKey(key)])))) && r != Some(Failed)
      ensures forall rows, f :: r.Some? ==> Lookup(View(), rows, ByKey(key), f).1 == r.value
    {
      var a := ByKey(key);
      if a in neg {
        return Some(Ok(NotFound));
      }
      if a in dis {
        return Some(Ok(Disabled));
      }
      if a in pos {
        return Some(Ok(Found(pos[a])));
      }
      return None;
    }

    /** `invalidate`: both aliases out of the three maps, then out of L2 unless the delete fails. */
    method Invalidate(id: AppId, key: AppKey, deleteFails: bool)
      modifies this
      ensures View() == old(Invalidated(View(), id, key, deleteFails))
      ensures L1(View(), ById(id)).None? && L1(View(), ByKey(key)).None?
      ensures forall rows, b :: old(Fresh(View(), rows, b)) ==> Fresh(View(), rows, b)
    {
      pos := pos - {ById(id)};
      pos := pos - {ByKey(key)};
      neg := neg - {ById(id)};
      neg := neg - {ByKey(key)};
      dis := dis - {ById(id)};
      dis := dis - {ByKey(key)};
      if l2.Some? && !deleteFails {
        l2 := Some(l2.value - {ById(id), ByKey(key)});
      }
      assert View() == old(Invalidated(View(), id, key, deleteFails));
    }
  }
}

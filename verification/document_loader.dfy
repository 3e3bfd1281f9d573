/** The single-flight document cache (jsonld/loader.go). Sections under the mutex, the
    call to the underlying loader, and closing an entry's channel are atomic steps. */
module DocumentLoader {

  type Url = string
  type Document = string

  /** What is known of a fetch; an entry is `closed` once its waiters may read it. */
  datatype Status = InFlight | Loaded(doc: Document) | Failed
  datatype Entry = Entry(url: Url, status: Status, closed: bool)

  /** The cache maps URLs to entries; entries outlive the map, since waiters keep them. */
  datatype Cache = Cache(entries: map<Url, nat>, heap: seq<Entry>)

  function Inserted(c: Cache, e: Entry): Cache {
    Cache(c.entries[e.url := |c.heap|], c.heap + [e])
  }

  function WithStatus(c: Cache, e: nat, status: Status): Cache
    requires e < |c.heap|
  {
    c.(heap := c.heap[e := c.heap[e].(status := status)])
  }

  function Closed(c: Cache, e: nat): Cache
    requires e < |c.heap|
  {
    c.(heap := c.heap[e := c.heap[e].(closed := true)])
  }

  function Forgotten(c: Cache, u: Url, e: nat): Cache {
    if u in c.entries && c.entries[u] == e then c.(entries := c.entries - {u}) else c
  }

  // ---------------------------------------------------------------------------
  // The protocol
  // ---------------------------------------------------------------------------

  type Thread = nat

  /** Where a caller is. `tried` are the failed entries this call has waited for. */
  datatype Pc =
    | Idle
    | Looking(url: Url, tried: set<nat>)
    | Waiting(url: Url, e: nat, tried: set<nat>)
    | Fetching(url: Url, e: nat)
    | Forgetting(url: Url, e: nat)
    | Closing(url: Url, e: nat)
    | ReturnedDoc(url: Url, doc: Document)
    | ReturnedError(url: Url, e: nat)

  datatype World = World(cache: Cache, pcs: map<Thread, Pc>, owner: map<nat, Thread>)

  datatype Action =
    | Call(u: Url) | Look | Wake | FetchOk(doc: Document) | FetchFails | Forget | Close | Finish
    | Add(u: Url, doc: Document)

  function At(w: World, t: Thread, cache: Cache, pc: Pc): World {
    w.(cache := cache, pcs := w.pcs[t := pc])
  }

  ghost predicate Step(w: World, t: Thread, a: Action, w': World) {
    t in w.pcs &&
    var pc, c := w.pcs[t], w.cache;
    match a
    case Call(u) => pc.Idle? && w' == At(w, t, c, Looking(u, {}))
    case Look =>
      pc.Looking? &&
      w' == if pc.url in c.entries then At(w, t, c, Waiting(pc.url, c.entries[pc.url], pc.tried))
            else At(w.(owner := w.owner[|c.heap| := t]), t, Inserted(c, Entry(pc.url, InFlight, false)), Fetching(pc.url, |c.heap|))
    case Wake =>
      pc.Waiting? && pc.e < |c.heap| && c.heap[pc.e].closed &&
      w' == if c.heap[pc.e].status.Loaded? then At(w, t, c, ReturnedDoc(pc.url, c.heap[pc.e].status.doc))
            else At(w, t, c, Looking(pc.url, pc.tried + {pc.e}))
    case FetchOk(doc) =>
      pc.Fetching? && pc.e < |c.heap| && w' == At(w, t, WithStatus(c, pc.e, Loaded(doc)), Closing(pc.url, pc.e))
    case FetchFails =>
      pc.Fetching? && pc.e < |c.heap| && w' == At(w, t, WithStatus(c, pc.e, Failed), Forgetting(pc.url, pc.e))
    case Forget => pc.Forgetting? && w' == At(w, t, Forgotten(c, pc.url, pc.e), Closing(pc.url, pc.e))
    case Close =>
      pc.Closing? && pc.e < |c.heap| &&
      w' == At(w, t, Closed(c, pc.e),
               if c.heap[pc.e].status.Loaded? then ReturnedDoc(pc.url, c.heap[pc.e].status.doc) else ReturnedError(pc.url, pc.e))
    case Finish => (pc.ReturnedDoc? || pc.ReturnedError?) && w' == At(w, t, c, Idle)
    case Add(u, doc) => pc.Idle? && w' == At(w, t, Inserted(c, Entry(u, Loaded(doc), true)), Idle)
  }

  ghost predicate Init(w: World) {
    w.cache == Cache(map[], []) && w.owner == map[] && forall t :: t in w.pcs ==> w.pcs[t] == Idle
  }

  datatype Event = Event(thread: Thread, action: Action)

  ghost predicate IsRun(ws: seq<World>, es: seq<Event>) {
    |ws| == |es| + 1 && forall i :: 0 <= i < |es| ==> Step(ws[i], es[i].thread, es[i].action, ws[i + 1])
  }

  // ---------------------------------------------------------------------------
  // The invariant
  // ---------------------------------------------------------------------------

  /** The map and the heap: entries sit under their own URL; one that failed and was
      published is no longer in the map; a URL loaded once stays cached for good. */
  ghost predicate CacheOk(c: Cache) {
    (forall u :: u in c.entries ==> c.entries[u] < |c.heap| && c.heap[c.entries[u]].url == u) &&
    (forall e :: 0 <= e < |c.heap| && c.heap[e].closed ==> !c.heap[e].status.InFlight? && !(c.heap[e].status.Failed? && InMap(c, e))) &&
    (forall e :: 0 <= e < |c.heap| && c.heap[e].status.Loaded? ==> Cached(c, c.heap[e].url))
  }

  ghost predicate InMap(c: Cache, e: nat) {
    e < |c.heap| && c.heap[e].url in c.entries && c.entries[c.heap[e].url] == e
  }

  ghost predicate Cached(c: Cache, u: Url) {
    u in c.entries && c.entries[u] < |c.heap| && c.heap[c.entries[u]].status.Loaded?
  }

  predicate OwnsEntry(pc: Pc) {
    pc.Fetching? || pc.Forgetting? || pc.Closing?
  }

  /** One caller: its entry is under its URL, and the phase says what the entry holds. */
  ghost predicate CallerOk(w: World, t: Thread)
    requires t in w.pcs
  {
    var c, pc := w.cache, w.pcs[t];
    (pc.Waiting? || OwnsEntry(pc) ==> pc.e < |c.heap| && c.heap[pc.e].url == pc.url) &&
    (OwnsEntry(pc) ==> pc.e in w.owner && w.owner[pc.e] == t && !c.heap[pc.e].closed) &&
    (pc.Fetching? ==> c.heap[pc.e].status.InFlight? && (InMap(c, pc.e) || Cached(c, pc.url))) &&
    (pc.Forgetting? ==> c.heap[pc.e].status.Failed?) &&
    (pc.Closing? ==> c.heap[pc.e].status.Loaded? || (c.heap[pc.e].status.Failed? && !InMap(c, pc.e))) &&
    (pc.Looking? || pc.Waiting? ==> forall e :: e in pc.tried ==> e < |c.heap| && c.heap[e].closed && c.heap[e].status.Failed?) &&
    (pc.Waiting? ==> pc.e !in pc.tried) &&
    (pc.ReturnedDoc? ==> WasLoaded(c, pc.url, pc.doc)) &&
    (pc.ReturnedError? ==> pc.e in w.owner && w.owner[pc.e] == t && WasRefused(c, pc.url, pc.e))
  }

  /** Some fetch of the URL, or AddDocument, gave this document. */
  ghost predicate WasLoaded(c: Cache, u: Url, doc: Document) {
    exists e :: 0 <= e < |c.heap| && c.heap[e].url == u && c.heap[e].status == Loaded(doc)
  }

  /** The fetch behind entry `e` of the URL failed. */
  ghost predicate WasRefused(c: Cache, u: Url, e: nat) {
    e < |c.heap| && c.heap[e].url == u && c.heap[e].status.Failed?
  }

  ghost predicate CallersOk(w: World) {
    forall t :: t in w.pcs ==> CallerOk(w, t)
  }

  /** Every entry that is not published has a caller at work on it. */
  ghost predicate NoOrphans(w: World) {
    (forall e :: e in w.owner ==> e < |w.cache.heap|) &&
    (forall e :: 0 <= e < |w.cache.heap| && !w.cache.heap[e].closed ==> AtWork(w, e))
  }

  ghost predicate AtWork(w: World, e: nat) {
    e in w.owner && w.owner[e] in w.pcs && OwnsEntry(w.pcs[w.owner[e]]) && w.pcs[w.owner[e]].e == e
  }

  ghost predicate Inv(w: World) {
    CacheOk(w.cache) && CallersOk(w) && NoOrphans(w)
  }

  /** How a step by the owner of entry `own` looks to everybody else. */
  ghost predicate Evolves(c: Cache, c': Cache, own: nat) {
    |c.heap| <= |c'.heap| &&
    (forall e :: 0 <= e < |c.heap| ==> c'.heap[e].url == c.heap[e].url && (e != own ==> c'.heap[e] == c.heap[e])) &&
    (forall e :: 0 <= e < |c.heap| && !c.heap[e].status.InFlight? ==> c'.heap[e].status == c.heap[e].status) &&
    (forall e: nat :: e < |c.heap| && InMap(c', e) ==> InMap(c, e)) &&
    (forall e: nat :: e < |c.heap| && e != own && InMap(c, e) ==> InMap(c', e) || Cached(c', c.heap[e].url)) &&
    (forall u :: Cached(c, u) ==> Cached(c', u))
  }

  ghost function Own(w: World, t: Thread): nat
    requires t in w.pcs
  {
    if OwnsEntry(w.pcs[t]) then w.pcs[t].e else |w.cache.heap|
  }

  lemma InsertKeeps(c: Cache, e: Entry)
    requires CacheOk(c) && (if e.status.Loaded? then true else e.url !in c.entries && e == Entry(e.url, InFlight, false))
    ensures CacheOk(Inserted(c, e)) && Evolves(c, Inserted(c, e), |c.heap|)
  {
    var c' := Inserted(c, e);
    forall i | 0 <= i < |c.heap| && c.heap[i].status.Loaded? ensures Cached(c', c.heap[i].url) {
      assert Cached(c, c.heap[i].url);
    }
    forall i | 0 <= i < |c'.heap| && c'.heap[i].closed ensures !(c'.heap[i].status.Failed? && InMap(c', i)) {
      if i < |c.heap| {
        assert InMap(c', i) ==> InMap(c, i);
      }
    }
  }

  lemma StatusKeeps(c: Cache, e: nat, status: Status)
    requires CacheOk(c) && e < |c.heap| && !c.heap[e].closed && c.heap[e].status.InFlight?
    requires status.Loaded? ==> InMap(c, e) || Cached(c, c.heap[e].url)
    ensures CacheOk(WithStatus(c, e, status)) && Evolves(c, WithStatus(c, e, status), e)
  {
    var c' := WithStatus(c, e, status);
    forall i | 0 <= i < |c'.heap| && c'.heap[i].status.Loaded? ensures Cached(c', c'.heap[i].url) {
      if i != e {
        assert Cached(c, c.heap[i].url);
      }
    }
    assert forall i :: InMap(c', i) ==> InMap(c, i);
  }

  lemma CloseKeeps(c: Cache, e: nat)
    requires CacheOk(c) && e < |c.heap| && (c.heap[e].status.Loaded? || (c.heap[e].status.Failed? && !InMap(c, e)))
    ensures CacheOk(Closed(c, e)) && Evolves(c, Closed(c, e), e)
  {
    var c' := Closed(c, e);
    forall i | 0 <= i < |c'.heap| && c'.heap[i].status.Loaded? ensures Cached(c', c'.heap[i].url) {
      assert Cached(c, c.heap[i].url);
    }
    assert forall i :: InMap(c', i) ==> InMap(c, i);
  }

  /** A failed fetch takes away only its own entry, never a cached document. */
  lemma ForgetKeeps(c: Cache, u: Url, e: nat)
    requires CacheOk(c) && e < |c.heap| && c.heap[e].url == u && c.heap[e].status.Failed?
    ensures CacheOk(Forgotten(c, u, e)) && !InMap(Forgotten(c, u, e), e)
    ensures forall v :: v in c.entries && c.entries[v] != e ==>
      v in Forgotten(c, u, e).entries && Forgotten(c, u, e).entries[v] == c.entries[v]
    ensures Evolves(c, Forgotten(c, u, e), e)
  {
    var c' := Forgotten(c, u, e);
    forall i | 0 <= i < |c'.heap| && c'.heap[i].status.Loaded? ensures Cached(c', c'.heap[i].url) {
      assert Cached(c, c.heap[i].url);
    }
    assert forall i :: InMap(c', i) ==> InMap(c, i);
  }

  lemma StepKeepsCache(w: World, t: Thread, a: Action, w': World)
    requires Inv(w) && Step(w, t, a, w')
    ensures CacheOk(w'.cache) && Evolves(w.cache, w'.cache, Own(w, t))
  {
    assert CallerOk(w, t);
    var pc, c := w.pcs[t], w.cache;
    match a {
      case Look => if pc.url !in c.entries { InsertKeeps(c, Entry(pc.url, InFlight, false)); }
      case FetchOk(doc) => StatusKeeps(c, pc.e, Loaded(doc));
      case FetchFails => StatusKeeps(c, pc.e, Failed);
      case Forget => ForgetKeeps(c, pc.url, pc.e);
      case Close => CloseKeeps(c, pc.e);
      case Add(u, doc) => InsertKeeps(c, Entry(u, Loaded(doc), true));
      case _ =>
    }
  }

  lemma OtherCallerStays(w: World, t: Thread, a: Action, w': World, u: Thread)
    requires Inv(w) && Step(w, t, a, w') && Evolves(w.cache, w'.cache, Own(w, t)) && u in w.pcs && u != t
    ensures CallerOk(w', u)
  {
    assert CallerOk(w, t) && CallerOk(w, u);
    assert w'.pcs[u] == w.pcs[u];
    assert forall e :: e in w.owner ==> e < |w.cache.heap| && e in w'.owner && w'.owner[e] == w.owner[e];
    var pc := w.pcs[u];
    if pc.ReturnedDoc? {
      LoadedStays(w.cache, w'.cache, Own(w, t), pc.url, pc.doc);
    }
    if pc.Looking? || pc.Waiting? {
      forall e | e in pc.tried ensures w'.cache.heap[e] == w.cache.heap[e] {
        assert e != Own(w, t);
      }
    }
  }

  lemma LoadedStays(c: Cache, c': Cache, own: nat, u: Url, doc: Document)
    requires Evolves(c, c', own) && WasLoaded(c, u, doc)
    ensures WasLoaded(c', u, doc)
  {
    var e :| 0 <= e < |c.heap| && c.heap[e].url == u && c.heap[e].status == Loaded(doc);
    assert c'.heap[e].url == u && c'.heap[e].status == Loaded(doc);
  }

  lemma StepKeepsCallers(w: World, t: Thread, a: Action, w': World)
    requires Inv(w) && Step(w, t, a, w')
    ensures CallersOk(w')
  {
    StepKeepsCache(w, t, a, w');
    forall u | u in w'.pcs ensures CallerOk(w', u) {
      if u == t {
        MoverStays(w, t, a, w');
      } else {
        OtherCallerStays(w, t, a, w', u);
      }
    }
  }

  lemma MoverStays(w: World, t: Thread, a: Action, w': World)
    requires Inv(w) && Step(w, t, a, w') && Evolves(w.cache, w'.cache, Own(w, t))
    ensures CallerOk(w', t)
  {
    assert CallerOk(w, t);
    var pc := w.pcs[t];
    if a.Forget? {
      ForgetKeeps(w.cache, pc.url, pc.e);
    }
  }

  lemma StepKeepsOwners(w: World, t: Thread, a: Action, w': World)
    requires Inv(w) && Step(w, t, a, w')
    ensures NoOrphans(w')
  {
    assert CallerOk(w, t);
    forall e | 0 <= e < |w'.cache.heap| && !w'.cache.heap[e].closed ensures AtWork(w', e) {
      if e < |w.cache.heap| {
        assert AtWork(w, e);
        assert CallerOk(w, w.owner[e]);
      }
    }
  }

  /** The invariant holds in every world of every run from the empty cache. */
  lemma {:induction false} RunsKeepInv(ws: seq<World>, es: seq<Event>, i: nat)
    requires IsRun(ws, es) && Init(ws[0]) && i < |ws|
    ensures Inv(ws[i])
  {
    if i > 0 {
      RunsKeepInv(ws, es, i - 1);
      var w, t, a := ws[i - 1], es[i - 1].thread, es[i - 1].action;
      assert Step(w, t, a, ws[i]);
      StepKeepsCache(w, t, a, ws[i]);
      StepKeepsCallers(w, t, a, ws[i]);
      StepKeepsOwners(w, t, a, ws[i]);
    }
  }

  // ---------------------------------------------------------------------------
  // What callers may rely on
  // ---------------------------------------------------------------------------

  ghost predicate OneFetchPerUrl(w: World) {
    forall t, u :: t in w.pcs && u in w.pcs && t != u && w.pcs[t].Fetching? && w.pcs[u].Fetching? ==>
      w.pcs[t].url != w.pcs[u].url
  }

  /** At most one call to the underlying loader per URL is in progress at any time. */
  lemma {:induction false} SingleFlight(ws: seq<World>, es: seq<Event>, i: nat)
    requires IsRun(ws, es) && Init(ws[0]) && i < |ws|
    ensures OneFetchPerUrl(ws[i])
  {
    if i > 0 {
      SingleFlight(ws, es, i - 1);
      RunsKeepInv(ws, es, i - 1);
      StepKeepsSingle(ws[i - 1], es[i - 1].thread, es[i - 1].action, ws[i]);
    }
  }

  lemma StepKeepsSingle(w: World, t: Thread, a: Action, w': World)
    requires Inv(w) && OneFetchPerUrl(w) && Step(w, t, a, w')
    ensures OneFetchPerUrl(w')
  {
    assert forall u :: u in w.pcs ==> CallerOk(w, u);
  }

  lemma {:induction false} StaysCached(ws: seq<World>, es: seq<Event>, i: nat, j: nat, u: Url)
    requires IsRun(ws, es) && Init(ws[0]) && i <= j < |ws| && Cached(ws[i].cache, u)
    ensures Cached(ws[j].cache, u)
    decreases j
  {
    if i < j {
      var k: nat := j - 1;
      StaysCached(ws, es, i, k, u);
      RunsKeepInv(ws, es, k);
      var w, e, w' := ws[k], es[k], ws[k + 1];
      assert Step(w, e.thread, e.action, w');
      StepKeepsCached(w, e.thread, e.action, w', u);
    }
  }

  lemma StepKeepsCached(w: World, t: Thread, a: Action, w': World, u: Url)
    requires Inv(w) && Step(w, t, a, w') && Cached(w.cache, u)
    ensures Cached(w'.cache, u)
  {
    StepKeepsCache(w, t, a, w');
  }

  /** The event starts a fetch of `u`. */
  ghost predicate StartsFetch(w: World, e: Event, w': World, u: Url) {
    e.action.Look? && e.thread in w'.pcs && w'.pcs[e.thread].Fetching? && w'.pcs[e.thread].url == u
  }

  /** Once a URL has been loaded, by a fetch or by AddDocument, it stays cached: whatever
      fails later, it is never fetched again. */
  lemma LoadedForGood(ws: seq<World>, es: seq<Event>, i: nat, j: nat, e: nat)
    requires IsRun(ws, es) && Init(ws[0]) && i <= j < |es|
    requires e < |ws[i].cache.heap| && ws[i].cache.heap[e].status.Loaded?
    ensures var u := ws[i].cache.heap[e].url; Cached(ws[j].cache, u) && !StartsFetch(ws[j], es[j], ws[j + 1], u)
  {
    RunsKeepInv(ws, es, i);
    StaysCached(ws, es, i, j, ws[i].cache.heap[e].url);
    assert Step(ws[j], es[j].thread, es[j].action, ws[j + 1]);
  }

  /** A caller that returns an error made the fetch itself and that fetch failed; one that
      returns a document returns one that was fetched or added for its URL; one that waits has
      not waited for this entry before; and what it waits for is being worked on. */
  lemma CallersAreServed(ws: seq<World>, es: seq<Event>, i: nat, t: Thread)
    requires IsRun(ws, es) && Init(ws[0]) && i < |ws| && t in ws[i].pcs
    ensures var w, pc := ws[i], ws[i].pcs[t];
      (pc.ReturnedError? ==> pc.e in w.owner && w.owner[pc.e] == t && WasRefused(w.cache, pc.url, pc.e)) &&
      (pc.ReturnedDoc? ==> WasLoaded(w.cache, pc.url, pc.doc)) &&
      (pc.Waiting? ==> pc.e !in pc.tried && pc.e < |w.cache.heap| && (w.cache.heap[pc.e].closed || AtWork(w, pc.e)))
  {
    RunsKeepInv(ws, es, i);
    assert CallerOk(ws[i], t);
  }

  // ---------------------------------------------------------------------------
  // The code
  // ---------------------------------------------------------------------------

  ghost predicate Safe(w: World) {
    Inv(w) && OneFetchPerUrl(w)
  }

  lemma StepKeepsSafe(w: World, t: Thread, a: Action, w': World)
    requires Safe(w) && Step(w, t, a, w')
    ensures Safe(w') && Evolves(w.cache, w'.cache, Own(w, t))
  {
    StepKeepsCache(w, t, a, w');
    StepKeepsCallers(w, t, a, w');
    StepKeepsOwners(w, t, a, w');
    StepKeepsSingle(w, t, a, w');
  }

  /** The loader, with one method per section of its two entry points. `pcs` says where every
      caller is and `owner` who made which entry; `t` is the calling thread. */
  class CachingLoader {
    var entries: map<Url, nat>
    var heap: seq<Entry>
    ghost var pcs: map<Thread, Pc>
    ghost var owner: map<nat, Thread>

    ghost function State(): World
      reads this
    {
      World(Cache(entries, heap), pcs, owner)
    }

    constructor (ghost threads: set<Thread>)
      ensures Init(State()) && Safe(State()) && pcs.Keys == threads
    {
      entries, heap, owner := map[], [], map[];
      pcs := map t | t in threads :: Idle;
    }

    /** What a caller does without touching the cache: it calls, or leaves with its result. */
    ghost method Move(t: Thread, a: Action, pc: Pc)
      requires Safe(State()) && Step(State(), t, a, At(State(), t, State().cache, pc))
      modifies this`pcs
      ensures Safe(State()) && Step(old(State()), t, a, State()) && pcs == old(pcs)[t := pc]
    {
      StepKeepsSafe(State(), t, a, At(State(), t, State().cache, pc));
      pcs := pcs[t := pc];
    }

    /** From now on the URL has this document, and what other URLs have is unchanged. */
    method AddDocument(u: Url, doc: Document, ghost t: Thread)
      requires Safe(State()) && t in pcs && pcs[t].Idle?
      modifies this
      ensures Safe(State()) && Step(old(State()), t, Add(u, doc), State()) && pcs == old(pcs)[t := Idle]
      ensures Cached(State().cache, u) && heap[entries[u]].status == Loaded(doc) && heap[entries[u]].closed
      ensures forall v :: v != u ==> (Cached(State().cache, v) <==> old(Cached(State().cache, v)))
    {
      entries := entries[u := |heap|];
      heap := heap + [Entry(u, Loaded(doc), true)];
      pcs := pcs[t := Idle];
      StepKeepsSafe(old(State()), t, Add(u, doc), State());
    }

    /** The first section of `LoadDocument`. An entry found is one the caller has not waited for
        yet; otherwise the caller, and no one else, is to fetch the URL. */
    method LookUp(u: Url, ghost t: Thread) returns (e: nat, found: bool)
      requires Safe(State()) && t in pcs && pcs[t].Looking? && pcs[t].url == u
      modifies this
      ensures Safe(State()) && Step(old(State()), t, Look, State())
      ensures pcs == old(pcs)[t := if found then Waiting(u, e, old(pcs)[t].tried) else Fetching(u, e)]
      ensures found ==> e !in old(pcs)[t].tried
      ensures !found ==> forall v :: v in pcs && v != t && pcs[v].Fetching? ==> pcs[v].url != u
      ensures old(Cached(State().cache, u)) ==> found
    {
      found := u in entries;
      if found {
        e := entries[u];
        pcs := pcs[t := Waiting(u, e, pcs[t].tried)];
      } else {
        e := |heap|;
        entries := entries[u := e];
        heap := heap + [Entry(u, InFlight, false)];
        pcs, owner := pcs[t := Fetching(u, e)], owner[e := t];
      }
      StepKeepsSafe(old(State()), t, Look, State());
      assert CallerOk(State(), t);
    }

    /** The result of the underlying loader is noted in the caller's own entry. */
    method Note(u: Url, e: nat, doc: Status, ghost t: Thread)
      requires Safe(State()) && t in pcs && pcs[t] == Fetching(u, e) && !doc.InFlight?
      modifies this
      ensures Safe(State()) && pcs == old(pcs)[t := if doc.Loaded? then Closing(u, e) else Forgetting(u, e)]
      ensures Step(old(State()), t, if doc.Loaded? then FetchOk(doc.doc) else FetchFails, State())
      ensures doc.Loaded? ==> Cached(State().cache, u)
    {
      assert CallerOk(State(), t);
      heap := heap[e := heap[e].(status := doc)];
      pcs := pcs[t := if doc.Loaded? then Closing(u, e) else Forgetting(u, e)];
      StepKeepsSafe(old(State()), t, if doc.Loaded? then FetchOk(doc.doc) else FetchFails, State());
      assert doc.Loaded? ==> heap[e].status.Loaded? && heap[e].url == u;
    }

    /** After a failed fetch the caller's entry is out of the map, and nobody else's entry is:
        whatever was cached stays cached. */
    method Forget(u: Url, e: nat, ghost t: Thread)
      requires Safe(State()) && t in pcs && pcs[t] == Forgetting(u, e)
      modifies this
      ensures Safe(State()) && Step(old(State()), t, Action.Forget, State()) && pcs == old(pcs)[t := Closing(u, e)]
      ensures !InMap(State().cache, e)
      ensures forall v :: v in old(entries) && old(entries)[v] != e ==> v in entries && entries[v] == old(entries)[v]
      ensures forall v :: old(Cached(State().cache, v)) ==> Cached(State().cache, v)
    {
      assert CallerOk(State(), t);
      if u in entries && entries[u] == e {
        entries := entries - {u};
      }
      pcs := pcs[t := Closing(u, e)];
      StepKeepsSafe(old(State()), t, Action.Forget, State());
    }

    /** Publishes the entry and returns what it holds: a document for the URL, or the error of
        the caller's own fetch. */
    method Close(u: Url, e: nat, ghost t: Thread) returns (r: Status)
      requires Safe(State()) && t in pcs && pcs[t] == Closing(u, e)
      modifies this
      ensures Safe(State()) && Step(old(State()), t, Action.Close, State())
      ensures pcs == old(pcs)[t := if r.Loaded? then ReturnedDoc(u, r.doc) else ReturnedError(u, e)]
      ensures r.Loaded? ==> Cached(State().cache, u)
      ensures !r.Loaded? ==> owner[e] == t && r.Failed?
    {
      assert CallerOk(State(), t);
      r := heap[e].status;
      heap := heap[e := heap[e].(closed := true)];
      pcs := pcs[t := if r.Loaded? then ReturnedDoc(u, r.doc) else ReturnedError(u, e)];
      StepKeepsSafe(old(State()), t, Action.Close, State());
      assert CallerOk(State(), t);
      assert heap[e].status == r && heap[e].url == u;
    }

    /** A waiter whose entry was published: its document, or another look. */
    method Wake(u: Url, e: nat, ghost t: Thread) returns (r: Status)
      requires Safe(State()) && t in pcs && pcs[t].Waiting? && pcs[t].url == u && pcs[t].e == e
      requires e < |heap| && heap[e].closed
      modifies this`pcs
      ensures Safe(State()) && Step(old(State()), t, Action.Wake, State())
      ensures pcs == old(pcs)[t := if r.Loaded? then ReturnedDoc(u, r.doc) else Looking(u, old(pcs)[t].tried + {e})]
      ensures r.Loaded? ==> Cached(State().cache, u)
      ensures !r.Loaded? ==> r.Failed? && !InMap(State().cache, e)
    {
      assert CallerOk(State(), t);
      r := heap[e].status;
      pcs := pcs[t := if r.Loaded? then ReturnedDoc(u, r.doc) else Looking(u, pcs[t].tried + {e})];
      StepKeepsSafe(old(State()), t, Action.Wake, State());
    }
  }

  // ---------------------------------------------------------------------------
  // The code under a scheduler
  // ---------------------------------------------------------------------------

  /** The step was made, or there is none to make. */
  ghost predicate Did(w: World, t: Thread, a: Action, w': World, done: bool) {
    if done then Step(w, t, a, w') else w' == w && forall v :: !Step(w, t, a, v)
  }

  predicate IsFetch(a: Action) {
    a.FetchOk? || a.FetchFails?
  }

  predicate IsEnd(a: Action) {
    a.Forget? || a.Close?
  }

  predicate IsSearch(a: Action) {
    a.Look? || a.Wake?
  }

  /** Callers of one loader; `at` is where each of them is. */
  class Callers {
    const loader: CachingLoader
    var at: map<Thread, Pc>

    ghost predicate Valid()
      reads this, loader
    {
      at == loader.pcs && Safe(loader.State())
    }

    constructor (threads: set<Thread>)
      ensures Valid() && Init(loader.State()) && at.Keys == threads && fresh(loader)
    {
      loader := new CachingLoader(threads);
      at := map t | t in threads :: Idle;
    }

    /** Runs one section of one caller, if it is there: exactly one step of the protocol, or
        nothing when the protocol has no such step. */
    method Do(t: Thread, a: Action) returns (done: bool)
      requires Valid()
      modifies this, loader
      ensures Valid() && at.Keys == old(at.Keys) && Did(old(loader.State()), t, a, loader.State(), done)
    {
      if t !in at {
        return false;
      }
      var pc := at[t];
      if IsFetch(a) {
        done := DoFetch(t, a);
      } else if IsEnd(a) {
        done := DoEnd(t, a);
      } else if IsSearch(a) {
        done := DoSearch(t, a);
      } else if a.Add? && pc == Idle {
        loader.AddDocument(a.u, a.doc, t);
        at, done := at[t := Idle], true;
      } else if a.Call? && pc == Idle {
        loader.Move(t, a, Looking(a.u, {}));
        at, done := at[t := Looking(a.u, {})], true;
      } else if a.Finish? && (pc.ReturnedDoc? || pc.ReturnedError?) {
        loader.Move(t, a, Idle);
        at, done := at[t := Idle], true;
      } else {
        done := false;
      }
    }

    method DoSearch(t: Thread, a: Action) returns (done: bool)
      requires Valid() && t in at && IsSearch(a)
      modifies this, loader
      ensures Valid() && at.Keys == old(at.Keys) && Did(old(loader.State()), t, a, loader.State(), done)
    {
      var pc := at[t];
      done := true;
      if a.Look? && pc.Looking? {
        var e, found := loader.LookUp(pc.url, t);
        at := at[t := if found then Waiting(pc.url, e, pc.tried) else Fetching(pc.url, e)];
      } else if a.Wake? && pc.Waiting? && pc.e < |loader.heap| && loader.heap[pc.e].closed {
        var r := loader.Wake(pc.url, pc.e, t);
        at := at[t := if r.Loaded? then ReturnedDoc(pc.url, r.doc) else Looking(pc.url, pc.tried + {pc.e})];
      } else {
        done := false;
      }
    }

    method DoFetch(t: Thread, a: Action) returns (done: bool)
      requires Valid() && t in at && IsFetch(a)
      modifies this, loader
      ensures Valid() && at.Keys == old(at.Keys) && Did(old(loader.State()), t, a, loader.State(), done)
    {
      var pc := at[t];
      done := pc.Fetching?;
      if done {
        loader.Note(pc.url, pc.e, if a.FetchOk? then Loaded(a.doc) else Failed, t);
        at := at[t := if a.FetchOk? then Closing(pc.url, pc.e) else Forgetting(pc.url, pc.e)];
      }
    }

    method DoEnd(t: Thread, a: Action) returns (done: bool)
      requires Valid() && t in at && IsEnd(a)
      modifies this, loader
      ensures Valid() && at.Keys == old(at.Keys) && Did(old(loader.State()), t, a, loader.State(), done)
    {
      var pc := at[t];
      done := true;
      if a.Forget? && pc.Forgetting? {
        loader.Forget(pc.url, pc.e, t);
        at := at[t := Closing(pc.url, pc.e)];
      } else if a.Close? && pc.Closing? {
        var r := loader.Close(pc.url, pc.e, t);
        at := at[t := if r.Loaded? then ReturnedDoc(pc.url, r.doc) else ReturnedError(pc.url, pc.e)];
      } else {
        done := false;
      }
    }

    /** Any schedule of calls, fetch results and additions: what the code does is a run of the
        protocol, so everything proved of runs holds of the code. */
    method Run(schedule: seq<Event>) returns (ghost ws: seq<World>, ghost es: seq<Event>)
      requires Valid()
      modifies this, loader
      ensures Valid() && IsRun(ws, es) && ws[0] == old(loader.State()) && ws[|ws| - 1] == loader.State()
      ensures forall e :: e in es ==> e in schedule
      ensures forall i :: 0 <= i < |ws| ==> Safe(ws[i])
    {
      ws, es := [loader.State()], [];
      for k := 0 to |schedule|
        invariant Valid() && IsRun(ws, es) && ws[0] == old(loader.State()) && ws[|ws| - 1] == loader.State()
        invariant forall e :: e in es ==> e in schedule
        invariant forall i :: 0 <= i < |ws| ==> Safe(ws[i])
      {
        var done := Do(schedule[k].thread, schedule[k].action);
        if done {
          RunExtends(ws, es, schedule[k], loader.State());
          ws, es := ws + [loader.State()], es + [schedule[k]];
        }
      }
    }
  }

  lemma RunExtends(ws: seq<World>, es: seq<Event>, e: Event, w: World)
    requires IsRun(ws, es) && Step(ws[|ws| - 1], e.thread, e.action, w)
    ensures IsRun(ws + [w], es + [e])
  {
    var ws', es' := ws + [w], es + [e];
    forall i | 0 <= i < |es'| ensures Step(ws'[i], es'[i].thread, es'[i].action, ws'[i + 1]) {
      if i < |es| {
        assert Step(ws[i], es[i].thread, es[i].action, ws[i + 1]);
      }
    }
  }
}

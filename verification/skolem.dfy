/** Skolem IRIs for blank nodes, by label or by the node's place in the graph
    (graph/skolem.go), for graphs without triple terms. */
module Skolem {
  import opened Common
  import opened StringOrder

  datatype Term = Iri(value: string) | Literal(text: string) | Blank(name: string)

  datatype Triple = Triple(s: Term, p: string, o: Term)

  /** How terms are written and strings hashed. Nothing below depends on either. */
  datatype Texts = Texts(n3: Term -> string, hash: string -> string)

  /** Signature refinement is bounded. */
  const ROUNDS: nat := 16

  type Signatures = map<string, string>

  // ---------------------------------------------------------------------------
  // Signatures
  // ---------------------------------------------------------------------------

  predicate Touches(t: Triple, name: string) {
    t.s == Blank(name) || t.o == Blank(name)
  }

  function NamesOf(t: Triple): set<string> {
    (if t.s.Blank? then {t.s.name} else {}) + (if t.o.Blank? then {t.o.name} else {})
  }

  function Names(ts: seq<Triple>): set<string> {
    if ts == [] then {} else NamesOf(ts[0]) + Names(ts[1..])
  }

  lemma {:induction false} NamesHolds(ts: seq<Triple>, t: Triple)
    requires t in ts
    ensures NamesOf(t) <= Names(ts)
  {
    if t != ts[0] {
      NamesHolds(ts[1..], t);
    }
  }

  lemma {:induction false} NamesFrom(ts: seq<Triple>, n: string) returns (t: Triple)
    requires n in Names(ts)
    ensures t in ts && n in NamesOf(t)
  {
    if n in NamesOf(ts[0]) {
      t := ts[0];
    } else {
      t := NamesFrom(ts[1..], n);
    }
  }

  /** A term as seen from node `self`. */
  function Repr(x: Texts, sig: Signatures, t: Term, self: string): string {
    if t.Blank? then
      if t.name == self then "@self" else "_:" + (if t.name in sig then sig[t.name] else "")
    else x.n3(t)
  }

  function Part(x: Texts, sig: Signatures, t: Triple, self: string): string {
    Repr(x, sig, t.s, self) + " " + x.n3(Iri(t.p)) + " " + Repr(x, sig, t.o, self)
  }

  /** The triples around a node, in graph order. */
  function Parts(x: Texts, sig: Signatures, ts: seq<Triple>, self: string): seq<string> {
    if ts == [] then []
    else (if Touches(ts[0], self) then [Part(x, sig, ts[0], self)] else []) + Parts(x, sig, ts[1..], self)
  }

  function Join(parts: seq<string>): string {
    if parts == [] then [] else if |parts| == 1 then parts[0] else parts[0] + "\n" + Join(parts[1..])
  }

  function Signature(x: Texts, sig: Signatures, ts: seq<Triple>, self: string): string {
    x.hash(Join(Sort(Parts(x, sig, ts, self))))
  }

  function Refine(x: Texts, ts: seq<Triple>, sig: Signatures): (r: Signatures)
    ensures r.Keys == sig.Keys
  {
    map n | n in sig :: Signature(x, sig, ts, n)
  }

  function Refiner(x: Texts, ts: seq<Triple>): Signatures -> Signatures {
    sig => Refine(x, ts, sig)
  }

  /** The refinement loop over a round `f`: it ends early once a round splits no class. */
  function Iterate(f: Signatures -> Signatures, sig: Signatures, classes: nat, round: nat): Signatures
    decreases ROUNDS - round
  {
    if round >= ROUNDS then sig
    else
      var next := f(sig);
      if |next.Values| == classes && round > 0 then next else Iterate(f, next, |next.Values|, round + 1)
  }

  function FinalSignatures(x: Texts, ts: seq<Triple>): (r: Signatures)
    ensures r.Keys == Names(ts)
  {
    var start: Signatures := map n | n in Names(ts) :: "";
    IterateKeys(Refiner(x, ts), start, 1, 0);
    Iterate(Refiner(x, ts), start, 1, 0)
  }

  lemma {:induction false} IterateKeys(f: Signatures -> Signatures, sig: Signatures, classes: nat, round: nat)
    requires forall s :: f(s).Keys == s.Keys
    ensures Iterate(f, sig, classes, round).Keys == sig.Keys
    decreases ROUNDS - round
  {
    if round < ROUNDS {
      var next := f(sig);
      IterateKeys(f, next, |next.Values|, round + 1);
    }
  }

  /** The nodes that share a signature with `name` and come before it. */
  function Earlier(sig: Signatures, name: string): set<string>
    requires name in sig
  {
    set n | n in sig && sig[n] == sig[name] && n != name && Le(n, name)
  }

  function Suffixed(s: string, k: nat): string {
    if k == 0 then s else s + "-" + Itoa(k)
  }

  /** Nodes that share a signature are numbered in label order. */
  function StableId(sig: Signatures, name: string): string
    requires name in sig
  {
    Suffixed(sig[name], |Earlier(sig, name)|)
  }

  function StableIds(x: Texts, ts: seq<Triple>): (r: map<string, string>)
    ensures r.Keys == Names(ts)
  {
    var sig := FinalSignatures(x, ts);
    map n | n in sig :: StableId(sig, n)
  }

  // ---------------------------------------------------------------------------
  // Renaming and reordering
  // ---------------------------------------------------------------------------

  type Renaming = map<string, string>

  ghost predicate Injective(pi: Renaming) {
    forall a, b :: a in pi && b in pi && pi[a] == pi[b] ==> a == b
  }

  function RenameTerm(pi: Renaming, t: Term): Term {
    if t.Blank? && t.name in pi then Blank(pi[t.name]) else t
  }

  function RenameTriple(pi: Renaming, t: Triple): Triple {
    Triple(RenameTerm(pi, t.s), t.p, RenameTerm(pi, t.o))
  }

  function RenameAll(pi: Renaming, ts: seq<Triple>): (r: seq<Triple>)
    ensures |r| == |ts| && forall i :: 0 <= i < |ts| ==> r[i] == RenameTriple(pi, ts[i])
  {
    if ts == [] then [] else [RenameTriple(pi, ts[0])] + RenameAll(pi, ts[1..])
  }

  /** The same graph with other labels, its triples in any order. */
  ghost predicate SameGraph(pi: Renaming, ts: seq<Triple>, us: seq<Triple>) {
    Injective(pi) && pi.Keys == Names(ts) && multiset(us) == multiset(RenameAll(pi, ts))
  }

  /** Signatures that follow the renaming. */
  ghost predicate Carried(pi: Renaming, sig: Signatures, sig': Signatures) {
    pi.Keys == sig.Keys && sig'.Keys == (set n | n in pi :: pi[n]) &&
    forall n :: n in sig ==> pi[n] in sig' && sig'[pi[n]] == sig[n]
  }

  lemma {:induction false} PartsRenamed(x: Texts, pi: Renaming, ts: seq<Triple>, sig: Signatures, sig': Signatures, self: string)
    requires Injective(pi) && Carried(pi, sig, sig') && self in pi
    requires forall t :: t in ts ==> NamesOf(t) <= pi.Keys
    ensures Parts(x, sig', RenameAll(pi, ts), pi[self]) == Parts(x, sig, ts, self)
  {
    if ts != [] {
      assert NamesOf(ts[0]) <= pi.Keys;
      PartsRenamed(x, pi, ts[1..], sig, sig', self);
      assert RenameAll(pi, ts)[1..] == RenameAll(pi, ts[1..]);
      PartsFirst(x, sig, ts, self);
      PartsFirst(x, sig', RenameAll(pi, ts), pi[self]);
      FirstPartRenamed(x, pi, ts[0], sig, sig', self);
    }
  }

  lemma FirstPartRenamed(x: Texts, pi: Renaming, t: Triple, sig: Signatures, sig': Signatures, self: string)
    requires Injective(pi) && Carried(pi, sig, sig') && self in pi && NamesOf(t) <= pi.Keys
    ensures FirstPart(x, sig', RenameTriple(pi, t), pi[self]) == FirstPart(x, sig, t, self)
  {
    assert Touches(RenameTriple(pi, t), pi[self]) <==> Touches(t, self);
  }

  lemma {:induction false} PartsConcat(x: Texts, sig: Signatures, a: seq<Triple>, b: seq<Triple>, self: string)
    ensures Parts(x, sig, a + b, self) == Parts(x, sig, a, self) + Parts(x, sig, b, self)
  {
    if a == [] {
      assert a + b == b;
    } else {
      PartsConcat(x, sig, a[1..], b, self);
      assert (a + b)[1..] == a[1..] + b;
      PartsFirst(x, sig, a, self);
      PartsFirst(x, sig, a + b, self);
      ConcatAssoc(FirstPart(x, sig, a[0], self), Parts(x, sig, a[1..], self), Parts(x, sig, b, self));
    }
  }

  function FirstPart(x: Texts, sig: Signatures, t: Triple, self: string): seq<string> {
    if Touches(t, self) then [Part(x, sig, t, self)] else []
  }

  lemma PartsFirst(x: Texts, sig: Signatures, ts: seq<Triple>, self: string)
    requires ts != []
    ensures Parts(x, sig, ts, self) == FirstPart(x, sig, ts[0], self) + Parts(x, sig, ts[1..], self)
  {
  }

  function Without(us: seq<Triple>, i: nat): (r: seq<Triple>)
    requires i < |us|
    ensures |r| == |us| - 1
  {
    us[..i] + us[i + 1..]
  }

  lemma WithoutContents(us: seq<Triple>, i: nat)
    requires i < |us|
    ensures multiset(Without(us, i)) == multiset(us) - multiset{us[i]}
  {
    assert us == us[..i] + [us[i]] + us[i + 1..];
  }

  /** Taking one triple out of the list takes out its part. */
  ghost predicate Additive(f: seq<Triple> -> multiset<string>) {
    forall us: seq<Triple>, i: nat {:trigger Without(us, i)} :: i < |us| ==> f(us) == f(Without(us, i)) + f([us[i]])
  }

  lemma {:induction false} AdditivePermuted(f: seq<Triple> -> multiset<string>, ts: seq<Triple>, us: seq<Triple>)
    requires Additive(f) && multiset(ts) == multiset(us)
    ensures f(ts) == f(us)
    decreases |ts|
  {
    if ts == [] {
      assert |multiset(us)| == 0 == |us|;
    } else {
      assert ts[0] in multiset(us);
      var i :| 0 <= i < |us| && us[i] == ts[0];
      WithoutContents(us, i);
      WithoutContents(ts, 0);
      AdditivePermuted(f, Without(ts, 0), Without(us, i));
    }
  }

  /** Which parts there are does not depend on the order of the triples. */
  lemma PartsPermuted(x: Texts, sig: Signatures, ts: seq<Triple>, us: seq<Triple>, self: string)
    requires multiset(ts) == multiset(us)
    ensures multiset(Parts(x, sig, ts, self)) == multiset(Parts(x, sig, us, self))
  {
    var f := (vs: seq<Triple>) => multiset(Parts(x, sig, vs, self));
    forall vs: seq<Triple>, i: nat | i < |vs| ensures f(vs) == f(Without(vs, i)) + f([vs[i]]) {
      PartsWithout(x, sig, vs, i, self);
    }
    AdditivePermuted(f, ts, us);
  }

  lemma PartsWithout(x: Texts, sig: Signatures, us: seq<Triple>, i: nat, self: string)
    requires i < |us|
    ensures multiset(Parts(x, sig, us, self)) ==
      multiset(Parts(x, sig, Without(us, i), self)) + multiset(Parts(x, sig, [us[i]], self))
  {
    var before, after := us[..i], us[i + 1..];
    assert us == before + [us[i]] + after;
    PartsConcat(x, sig, before, after, self);
    PartsConcat(x, sig, before + [us[i]], after, self);
    PartsConcat(x, sig, before, [us[i]], self);
  }

  lemma RefineCarried(x: Texts, pi: Renaming, ts: seq<Triple>, us: seq<Triple>, sig: Signatures, sig': Signatures)
    requires SameGraph(pi, ts, us) && Carried(pi, sig, sig')
    ensures Carried(pi, Refine(x, ts, sig), Refine(x, us, sig'))
  {
    forall t | t in ts ensures NamesOf(t) <= pi.Keys {
      NamesHolds(ts, t);
    }
    forall n | n in sig ensures Signature(x, sig', us, pi[n]) == Signature(x, sig, ts, n) {
      PartsRenamed(x, pi, ts, sig, sig', n);
      PartsPermuted(x, sig', us, RenameAll(pi, ts), pi[n]);
      SortDependsOnContents(Parts(x, sig', us, pi[n]), Parts(x, sig, ts, n));
    }
  }

  lemma CarriedValues(pi: Renaming, sig: Signatures, sig': Signatures)
    requires Carried(pi, sig, sig')
    ensures sig'.Values == sig.Values
  {
    forall v | v in sig.Values ensures v in sig'.Values {
      var n :| n in sig && sig[n] == v;
      assert sig'[pi[n]] == v;
    }
    forall v | v in sig'.Values ensures v in sig.Values {
      var m :| m in sig' && sig'[m] == v;
      var n :| n in pi && pi[n] == m;
      assert sig[n] == v;
    }
  }

  /** Rounds over the two graphs that keep signatures carried. */
  ghost predicate Alike(pi: Renaming, f: Signatures -> Signatures, f': Signatures -> Signatures) {
    forall sig, sig' {:trigger f(sig), f'(sig')} :: Carried(pi, sig, sig') ==> Carried(pi, f(sig), f'(sig'))
  }

  lemma {:induction false} IterateCarried(pi: Renaming, f: Signatures -> Signatures, f': Signatures -> Signatures,
                                          sig: Signatures, sig': Signatures, classes: nat, round: nat)
    requires Alike(pi, f, f') && Carried(pi, sig, sig')
    ensures Carried(pi, Iterate(f, sig, classes, round), Iterate(f', sig', classes, round))
    decreases ROUNDS - round
  {
    if round < ROUNDS {
      var next, next' := f(sig), f'(sig');
      CarriedValues(pi, next, next');
      if |next.Values| != classes || round == 0 {
        IterateCarried(pi, f, f', next, next', |next.Values|, round + 1);
      }
    }
  }

  lemma SameContents(us: seq<Triple>, rs: seq<Triple>, t: Triple)
    requires multiset(us) == multiset(rs) && t in rs
    ensures t in us
  {
    assert t in multiset(rs);
  }

  lemma NamesRenamed(pi: Renaming, ts: seq<Triple>, us: seq<Triple>)
    requires SameGraph(pi, ts, us)
    ensures Names(us) == (set n | n in pi :: pi[n])
  {
    forall m | m in Names(us) ensures m in (set n | n in pi :: pi[n]) {
      OldName(pi, ts, us, m);
    }
    forall n | n in pi ensures pi[n] in Names(us) {
      NewName(pi, ts, us, n);
    }
  }

  lemma OldName(pi: Renaming, ts: seq<Triple>, us: seq<Triple>, m: string)
    requires SameGraph(pi, ts, us) && m in Names(us)
    ensures exists n :: n in pi && pi[n] == m
  {
    var rs := RenameAll(pi, ts);
    var u := NamesFrom(us, m);
    SameContents(rs, us, u);
    var i :| 0 <= i < |rs| && rs[i] == u;
    NamesHolds(ts, ts[i]);
  }

  lemma NewName(pi: Renaming, ts: seq<Triple>, us: seq<Triple>, n: string)
    requires SameGraph(pi, ts, us) && n in pi
    ensures pi[n] in Names(us)
  {
    var rs := RenameAll(pi, ts);
    var t := NamesFrom(ts, n);
    var i :| 0 <= i < |ts| && ts[i] == t;
    RenamedName(pi, t, n);
    SameContents(us, rs, rs[i]);
    NamesHolds(us, rs[i]);
  }

  lemma RenamedName(pi: Renaming, t: Triple, n: string)
    requires n in NamesOf(t) && n in pi
    ensures pi[n] in NamesOf(RenameTriple(pi, t))
  {
  }

  /** Renaming the blank nodes and reordering the triples changes no node's signature. */
  lemma SignaturesInvariant(x: Texts, pi: Renaming, ts: seq<Triple>, us: seq<Triple>)
    requires SameGraph(pi, ts, us)
    ensures Carried(pi, FinalSignatures(x, ts), FinalSignatures(x, us))
  {
    NamesRenamed(pi, ts, us);
    var f, f' := Refiner(x, ts), Refiner(x, us);
    forall sig, sig' | Carried(pi, sig, sig') ensures Carried(pi, f(sig), f'(sig')) {
      RefineCarried(x, pi, ts, us, sig, sig');
    }
    IterateCarried(pi, f, f', map n | n in Names(ts) :: "", map n | n in Names(us) :: "", 1, 0);
  }

  // ---------------------------------------------------------------------------
  // Numbering the members of a class
  // ---------------------------------------------------------------------------

  function Class(sig: Signatures, s: string): set<string> {
    set n | n in sig && sig[n] == s
  }

  ghost function RankIn(c: set<string>, name: string): nat {
    |set n | n in c && n != name && Le(n, name)|
  }

  lemma RankIsEarlier(sig: Signatures, name: string)
    requires name in sig
    ensures |Earlier(sig, name)| == RankIn(Class(sig, sig[name]), name)
    ensures |Earlier(sig, name)| < |Class(sig, sig[name])|
  {
    var c := Class(sig, sig[name]);
    assert Earlier(sig, name) == set n | n in c && n != name && Le(n, name);
    assert c == (c - {name}) + {name};
    SubsetSize(Earlier(sig, name), c - {name});
  }

  lemma {:induction false} Last(c: set<string>) returns (m: string)
    requires c != {}
    ensures m in c && forall n :: n in c ==> Le(n, m)
    decreases |c|
  {
    var a :| a in c;
    if c == {a} {
      LeRefl(a);
      m := a;
    } else {
      assert c == (c - {a}) + {a};
      m := Last(c - {a});
      LeTotal(a, m);
      if Le(m, a) {
        forall n | n in c ensures Le(n, a) {
          if n == a {
            LeRefl(a);
          } else {
            LeTransitive(n, m, a);
          }
        }
        m := a;
      }
    }
  }

  /** Every number below the size of a class is taken by one of its members. */
  lemma {:induction false} Nth(c: set<string>, k: nat) returns (name: string)
    requires k < |c|
    ensures name in c && RankIn(c, name) == k
    decreases |c|
  {
    var m := Last(c);
    var rest := c - {m};
    if k == |rest| {
      name := m;
      assert (set n | n in c && n != m && Le(n, m)) == rest;
    } else {
      name := Nth(rest, k);
      forall n | n in c && n != name && Le(n, name) ensures n in rest {
        if n == m {
          LeAntisymmetric(m, name);
        }
      }
      assert (set n | n in c && n != name && Le(n, name)) == (set n | n in rest && n != name && Le(n, name));
    }
  }

  lemma {:induction false} ImageSize(pi: Renaming, c: set<string>)
    requires Injective(pi) && c <= pi.Keys
    ensures |set n | n in c :: pi[n]| == |c|
    decreases |c|
  {
    if c != {} {
      var a :| a in c;
      ImageSize(pi, c - {a});
      assert (set n | n in c :: pi[n]) == (set n | n in c - {a} :: pi[n]) + {pi[a]};
    }
  }

  lemma ClassCarried(pi: Renaming, sig: Signatures, sig': Signatures, s: string)
    requires Injective(pi) && Carried(pi, sig, sig')
    ensures |Class(sig', s)| == |Class(sig, s)|
  {
    ImageSize(pi, Class(sig, s));
    assert Class(sig', s) == set n | n in Class(sig, s) :: pi[n];
  }

  /** An id is taken exactly when its number is below the size of its class. */
  lemma IdsOfClasses(sig: Signatures, id: string)
    ensures Taken(sig, id) <==> exists s, k: nat :: k < |Class(sig, s)| && id == Suffixed(s, k)
  {
    if n :| n in sig && StableId(sig, n) == id {
      RankIsEarlier(sig, n);
      var s, k: nat := sig[n], |Earlier(sig, n)|;
      assert k < |Class(sig, s)| && id == Suffixed(s, k);
    }
    if s, k: nat :| k < |Class(sig, s)| && id == Suffixed(s, k) {
      var n := Nth(Class(sig, s), k);
      RankIsEarlier(sig, n);
      assert n in sig && StableId(sig, n) == id;
    }
  }

  /** The minted ids depend on the graph alone, not on its labels or the order of its
      triples. */
  lemma IdSetInvariant(x: Texts, pi: Renaming, ts: seq<Triple>, us: seq<Triple>)
    requires SameGraph(pi, ts, us)
    ensures StableIds(x, ts).Values == StableIds(x, us).Values
  {
    SignaturesInvariant(x, pi, ts, us);
    var sig, sig' := FinalSignatures(x, ts), FinalSignatures(x, us);
    IdValues(x, ts);
    IdValues(x, us);
    SameIdSet(pi, sig, sig');
  }

  ghost function IdSet(sig: Signatures): set<string> {
    set n | n in sig :: StableId(sig, n)
  }

  lemma IdValues(x: Texts, ts: seq<Triple>)
    ensures StableIds(x, ts).Values == IdSet(FinalSignatures(x, ts))
  {
    var sig, ids := FinalSignatures(x, ts), StableIds(x, ts);
    assert forall n :: n in sig ==> n in ids && ids[n] == StableId(sig, n);
  }

  lemma SameIdSet(pi: Renaming, sig: Signatures, sig': Signatures)
    requires Injective(pi) && Carried(pi, sig, sig')
    ensures IdSet(sig) == IdSet(sig')
  {
    forall id ensures id in IdSet(sig) <==> id in IdSet(sig') {
      TakenCarried(pi, sig, sig', id);
      assert id in IdSet(sig) <==> Taken(sig, id);
      assert id in IdSet(sig') <==> Taken(sig', id);
    }
  }

  /** A node whose surroundings are its own keeps its id in every relabelling. */
  lemma LoneNodeKeepsId(x: Texts, pi: Renaming, ts: seq<Triple>, us: seq<Triple>, n: string)
    requires SameGraph(pi, ts, us) && n in pi
    requires Class(FinalSignatures(x, ts), FinalSignatures(x, ts)[n]) == {n}
    ensures pi[n] in StableIds(x, us) && StableIds(x, us)[pi[n]] == StableIds(x, ts)[n]
  {
    SignaturesInvariant(x, pi, ts, us);
    LoneId(pi, FinalSignatures(x, ts), FinalSignatures(x, us), n);
  }

  lemma LoneId(pi: Renaming, sig: Signatures, sig': Signatures, n: string)
    requires Injective(pi) && Carried(pi, sig, sig') && n in pi && Class(sig, sig[n]) == {n}
    ensures pi[n] in sig' && StableId(sig', pi[n]) == StableId(sig, n)
  {
    ClassCarried(pi, sig, sig', sig[n]);
    RankIsEarlier(sig, n);
    RankIsEarlier(sig', pi[n]);
  }

  ghost predicate Taken(sig: Signatures, id: string) {
    exists n :: n in sig && StableId(sig, n) == id
  }

  lemma TakenCarried(pi: Renaming, sig: Signatures, sig': Signatures, id: string)
    requires Injective(pi) && Carried(pi, sig, sig')
    ensures Taken(sig, id) <==> Taken(sig', id)
  {
    forall s ensures |Class(sig', s)| == |Class(sig, s)| {
      ClassCarried(pi, sig, sig', s);
    }
    IdsOfClasses(sig, id);
    IdsOfClasses(sig', id);
  }

  // ---------------------------------------------------------------------------
  // Ids are injective
  // ---------------------------------------------------------------------------

  ghost predicate DashFree(x: Texts) {
    forall s :: '-' !in x.hash(s)
  }

  lemma {:induction false} IterateDashFree(f: Signatures -> Signatures, sig: Signatures, classes: nat, round: nat)
    requires forall s, n :: n in f(s) ==> '-' !in f(s)[n]
    requires round > 0 ==> forall n :: n in sig ==> '-' !in sig[n]
    ensures forall n :: n in Iterate(f, sig, classes, round) ==> '-' !in Iterate(f, sig, classes, round)[n]
    decreases ROUNDS - round
  {
    if round < ROUNDS {
      var next := f(sig);
      IterateDashFree(f, next, |next.Values|, round + 1);
    }
  }

  lemma SuffixedInjective(s: string, k: nat, s': string, k': nat)
    requires '-' !in s && '-' !in s' && Suffixed(s, k) == Suffixed(s', k')
    ensures s == s' && k == k'
  {
    DashInSuffixed(s, k);
    DashInSuffixed(s', k');
    if k > 0 {
      FirstSeparator('-', s, Itoa(k), s', Itoa(k'));
      ItoaInjective(k, k');
    }
  }

  lemma DashInSuffixed(s: string, k: nat)
    requires '-' !in s
    ensures '-' in Suffixed(s, k) <==> k > 0
  {
    if k > 0 {
      assert Suffixed(s, k)[|s|] == '-';
    }
  }

  /** No two nodes share an id, even when their hashes collide. */
  lemma StableIdsInjective(x: Texts, ts: seq<Triple>)
    requires DashFree(x)
    ensures Injective(StableIds(x, ts))
  {
    var sig := FinalSignatures(x, ts);
    IterateDashFree(Refiner(x, ts), map n | n in Names(ts) :: "", 1, 0);
    forall a, b | a in sig && b in sig && StableId(sig, a) == StableId(sig, b) ensures a == b {
      SuffixedInjective(sig[a], |Earlier(sig, a)|, sig[b], |Earlier(sig, b)|);
      if a != b {
        LeTotal(a, b);
        if Le(a, b) {
          EarlierGrows(sig, a, b);
        } else {
          EarlierGrows(sig, b, a);
        }
      }
    }
  }

  lemma EarlierGrows(sig: Signatures, a: string, b: string)
    requires a in sig && b in sig && sig[a] == sig[b] && a != b && Le(a, b)
    ensures |Earlier(sig, a)| < |Earlier(sig, b)|
  {
    forall n | n in Earlier(sig, a) ensures n in Earlier(sig, b) {
      LeTransitive(n, a, b);
      if n == b {
        LeAntisymmetric(a, b);
      }
    }
    SubsetSize(Earlier(sig, a) + {a}, Earlier(sig, b));
  }

  // ---------------------------------------------------------------------------
  // The id loop, as the code runs it
  // ---------------------------------------------------------------------------

  /** The indices of the triples around a node, among the first `n`. */
  function Incident(ts: seq<Triple>, self: string, n: nat): (r: seq<nat>)
    requires n <= |ts|
    ensures forall i :: 0 <= i < |r| ==> r[i] < n
  {
    if n == 0 then [] else Incident(ts, self, n - 1) + (if Touches(ts[n - 1], self) then [n - 1] else [])
  }

  ghost predicate IncidentOk(ts: seq<Triple>, incident: map<string, seq<nat>>, n: nat)
    requires n <= |ts|
  {
    (forall l :: l in incident <==> l in Names(ts[..n])) &&
    (forall l :: l in incident ==> incident[l] == Incident(ts, l, n))
  }

  lemma {:induction false} NamesSnoc(ts: seq<Triple>, t: Triple)
    ensures Names(ts + [t]) == Names(ts) + NamesOf(t)
  {
    if ts == [] {
      assert ts + [t] == [t];
      assert Names([t]) == NamesOf(t) + Names([t][1..]);
    } else {
      NamesSnoc(ts[1..], t);
      assert (ts + [t])[1..] == ts[1..] + [t];
    }
  }

  lemma {:induction false} NotIncident(ts: seq<Triple>, l: string, n: nat)
    requires n <= |ts| && l !in Names(ts[..n])
    ensures Incident(ts, l, n) == []
  {
    if n > 0 {
      NamesSnoc(ts[..n - 1], ts[n - 1]);
      assert ts[..n] == ts[..n - 1] + [ts[n - 1]];
      NotIncident(ts, l, n - 1);
    }
  }

  function AddIncident(incident: map<string, seq<nat>>, l: string, i: nat): map<string, seq<nat>> {
    incident[l := (if l in incident then incident[l] else []) + [i]]
  }

  method BuildIncident(ts: seq<Triple>) returns (incident: map<string, seq<nat>>)
    ensures IncidentOk(ts, incident, |ts|)
  {
    incident := map[];
    for i := 0 to |ts|
      invariant IncidentOk(ts, incident, i)
    {
      var t := ts[i];
      ghost var before := incident;
      if t.s.Blank? {
        incident := AddIncident(incident, t.s.name, i);
      }
      if t.o.Blank? && t.s != t.o {
        incident := AddIncident(incident, t.o.name, i);
      }
      NamesSnoc(ts[..i], t);
      assert ts[..i + 1] == ts[..i] + [t];
      forall l | l in incident ensures incident[l] == Incident(ts, l, i + 1) {
        if l !in before {
          NotIncident(ts, l, i);
        }
      }
    }
    assert ts[..|ts|] == ts;
  }

  lemma PartsSnoc(x: Texts, sig: Signatures, ts: seq<Triple>, self: string, n: nat)
    requires n < |ts|
    ensures Parts(x, sig, ts[..n + 1], self) ==
      Parts(x, sig, ts[..n], self) + (if Touches(ts[n], self) then [Part(x, sig, ts[n], self)] else [])
  {
    assert ts[..n + 1] == ts[..n] + [ts[n]];
    PartsConcat(x, sig, ts[..n], [ts[n]], self);
    assert Parts(x, sig, [ts[n]][1..], self) == [];
  }

  function PartsAt(x: Texts, sig: Signatures, ts: seq<Triple>, self: string, at: seq<nat>): (r: seq<string>)
    requires forall i :: 0 <= i < |at| ==> at[i] < |ts|
  {
    if at == [] then [] else PartsAt(x, sig, ts, self, at[..|at| - 1]) + [Part(x, sig, ts[at[|at| - 1]], self)]
  }

  lemma PartsAtSnoc(x: Texts, sig: Signatures, ts: seq<Triple>, self: string, at: seq<nat>, k: nat)
    requires (forall i :: 0 <= i < |at| ==> at[i] < |ts|) && k < |ts|
    ensures PartsAt(x, sig, ts, self, at + [k]) == PartsAt(x, sig, ts, self, at) + [Part(x, sig, ts[k], self)]
  {
    assert (at + [k])[..|at|] == at;
  }

  ghost predicate PartsFound(x: Texts, sig: Signatures, ts: seq<Triple>, self: string, n: nat) {
    n <= |ts| && PartsAt(x, sig, ts, self, Incident(ts, self, n)) == Parts(x, sig, ts[..n], self)
  }

  lemma {:induction false} PartsAtIncident(x: Texts, sig: Signatures, ts: seq<Triple>, self: string, n: nat)
    requires n <= |ts|
    ensures PartsFound(x, sig, ts, self, n)
  {
    if n == 0 {
      assert ts[..0] == [];
    } else {
      PartsAtIncident(x, sig, ts, self, n - 1);
      IncidentOneMore(x, sig, ts, self, n - 1, n);
    }
  }

  lemma IncidentOneMore(x: Texts, sig: Signatures, ts: seq<Triple>, self: string, n: nat, m: nat)
    requires n < |ts| && m == n + 1 && PartsFound(x, sig, ts, self, n)
    ensures PartsFound(x, sig, ts, self, m)
  {
    PartsSnoc(x, sig, ts, self, n);
    var at := Incident(ts, self, n);
    if Touches(ts[n], self) {
      assert Incident(ts, self, n + 1) == at + [n];
      PartsAtSnoc(x, sig, ts, self, at, n);
    } else {
      assert Incident(ts, self, n + 1) == at;
    }
  }

  method NodeSignature(x: Texts, sig: Signatures, ts: seq<Triple>, self: string, at: seq<nat>) returns (s: string)
    requires at == Incident(ts, self, |ts|)
    ensures s == Signature(x, sig, ts, self)
  {
    var parts: seq<string> := [];
    for k := 0 to |at|
      invariant parts == PartsAt(x, sig, ts, self, at[..k])
    {
      assert at[..k + 1][..k] == at[..k];
      parts := parts + [Part(x, sig, ts[at[k]], self)];
    }
    assert at[..|at|] == at;
    PartsAtIncident(x, sig, ts, self, |ts|);
    assert ts[..|ts|] == ts;
    s := x.hash(Join(Sort(parts)));
  }

  /** Every listed node has its incident triples at hand. */
  ghost predicate Located(ts: seq<Triple>, labels: seq<string>, incident: map<string, seq<nat>>) {
    forall k :: 0 <= k < |labels| ==> labels[k] in incident && incident[labels[k]] == Incident(ts, labels[k], |ts|)
  }

  method RefineAll(x: Texts, sig: Signatures, ts: seq<Triple>, labels: seq<string>, incident: map<string, seq<nat>>)
    returns (next: Signatures)
    requires Located(ts, labels, incident)
    requires sig.Keys == (set l | l in labels)
    ensures next == Refine(x, ts, sig)
  {
    next := map[];
    for k := 0 to |labels|
      invariant SignedUpTo(x, sig, ts, labels, k, next)
    {
      var s := NodeSignature(x, sig, ts, labels[k], incident[labels[k]]);
      SignedOneMore(x, sig, ts, labels, k, next);
      next := next[labels[k] := s];
    }
    assert labels[..|labels|] == labels;
    SameMap(next, Refine(x, ts, sig));
  }

  ghost predicate SignedUpTo(x: Texts, sig: Signatures, ts: seq<Triple>, labels: seq<string>, k: nat, next: Signatures)
    requires k <= |labels|
  {
    next.Keys == (set l | l in labels[..k]) && forall l :: l in next ==> next[l] == Signature(x, sig, ts, l)
  }

  lemma SignedOneMore(x: Texts, sig: Signatures, ts: seq<Triple>, labels: seq<string>, k: nat, next: Signatures)
    requires k < |labels| && SignedUpTo(x, sig, ts, labels, k, next)
    ensures SignedUpTo(x, sig, ts, labels, k + 1, next[labels[k] := Signature(x, sig, ts, labels[k])])
  {
    assert labels[..k + 1] == labels[..k] + [labels[k]];
  }

  lemma SameMap(a: Signatures, b: Signatures)
    requires a.Keys == b.Keys && forall n :: n in a.Keys ==> a[n] == b[n]
    ensures a == b
  {
  }

  /** The refinement loop from any state of its variables. */
  method RefineFrom(x: Texts, ts: seq<Triple>, labels: seq<string>, incident: map<string, seq<nat>>,
                    start: Signatures, classes0: nat, round0: nat) returns (sig: Signatures)
    requires Located(ts, labels, incident)
    requires start.Keys == (set l | l in labels) && round0 <= ROUNDS
    ensures sig == Iterate(Refiner(x, ts), start, classes0, round0)
  {
    ghost var f := Refiner(x, ts);
    sig := start;
    var classes: nat, round: nat := classes0, round0;
    while round < ROUNDS
      invariant round <= ROUNDS && sig.Keys == start.Keys
      invariant Iterate(f, start, classes0, round0) == Iterate(f, sig, classes, round)
    {
      var next := RefineAll(x, sig, ts, labels, incident);
      assert next == f(sig);
      sig := next;
      var n := |sig.Values|;
      if n == classes && round > 0 {
        break;
      }
      classes := n;
      round := round + 1;
    }
  }

  ghost predicate Listing(labels: seq<string>, names: set<string>) {
    Sorted(labels) && (forall i, j :: 0 <= i < j < |labels| ==> labels[i] != labels[j]) &&
    forall l :: l in labels <==> l in names
  }

  /** Numbers the nodes of each class in label order. */
  method NumberNodes(sig: Signatures, labels: seq<string>) returns (byLabel: map<string, string>)
    requires Listing(labels, sig.Keys)
    ensures byLabel == map n | n in sig :: StableId(sig, n)
  {
    byLabel := map[];
    var seen: map<string, nat> := map[];
    for k := 0 to |labels|
      invariant Numbered(sig, labels, k, byLabel)
      invariant Counted(sig, labels, k, seen)
    {
      var l := labels[k];
      DoneIsEarlier(sig, labels, k);
      var s := sig[l];
      var n := if s in seen then seen[s] else 0;
      CountOne(sig, labels, k, seen);
      seen := seen[s := n + 1];
      NumberedOneMore(sig, labels, k, byLabel);
      byLabel := byLabel[l := Suffixed(s, n)];
    }
    assert labels[..|labels|] == labels;
    SameMap(byLabel, map n | n in sig :: StableId(sig, n));
  }

  ghost predicate Numbered(sig: Signatures, labels: seq<string>, k: nat, byLabel: map<string, string>)
    requires k <= |labels|
  {
    byLabel.Keys == (set l | l in labels[..k]) && forall l :: l in byLabel ==> l in sig && byLabel[l] == StableId(sig, l)
  }

  lemma NumberedOneMore(sig: Signatures, labels: seq<string>, k: nat, byLabel: map<string, string>)
    requires k < |labels| && labels[k] in sig && Numbered(sig, labels, k, byLabel)
    ensures Numbered(sig, labels, k + 1, byLabel[labels[k] := StableId(sig, labels[k])])
  {
    assert labels[..k + 1] == labels[..k] + [labels[k]];
  }

  ghost predicate Counted(sig: Signatures, labels: seq<string>, k: nat, seen: map<string, nat>)
    requires k <= |labels|
  {
    forall s :: (if s in seen then seen[s] else 0) == |DoneIn(sig, labels, k, s)|
  }

  lemma CountOne(sig: Signatures, labels: seq<string>, k: nat, seen: map<string, nat>)
    requires Listing(labels, sig.Keys) && k < |labels| && labels[k] in sig && Counted(sig, labels, k, seen)
    ensures var s := sig[labels[k]];
      Counted(sig, labels, k + 1, seen[s := (if s in seen then seen[s] else 0) + 1])
      && (if s in seen then seen[s] else 0) == |DoneIn(sig, labels, k, s)|
  {
    forall r ensures |DoneIn(sig, labels, k + 1, r)| == |DoneIn(sig, labels, k, r)| + (if sig[labels[k]] == r then 1 else 0) {
      DoneGrows(sig, labels, k, r);
    }
  }

  /** The processed nodes with a signature. */
  ghost function DoneIn(sig: Signatures, labels: seq<string>, k: nat, s: string): set<string>
    requires k <= |labels|
  {
    set l | l in labels[..k] && l in sig && sig[l] == s
  }

  lemma DoneGrows(sig: Signatures, labels: seq<string>, k: nat, s: string)
    requires Listing(labels, sig.Keys) && k < |labels|
    ensures |DoneIn(sig, labels, k + 1, s)| == |DoneIn(sig, labels, k, s)| + (if sig[labels[k]] == s then 1 else 0)
  {
    assert labels[k] in labels && labels[k] !in labels[..k];
    assert labels[..k + 1] == labels[..k] + [labels[k]];
    assert DoneIn(sig, labels, k + 1, s) == DoneIn(sig, labels, k, s) + (if sig[labels[k]] == s then {labels[k]} else {});
  }

  lemma DoneIsEarlier(sig: Signatures, labels: seq<string>, k: nat)
    requires Listing(labels, sig.Keys) && k < |labels|
    ensures labels[k] in sig && DoneIn(sig, labels, k, sig[labels[k]]) == Earlier(sig, labels[k])
  {
    var l := labels[k];
    assert l in labels;
    forall n | n in Earlier(sig, l) ensures n in labels[..k] {
      var j :| 0 <= j < |labels| && labels[j] == n;
      if j > k {
        LeAntisymmetric(n, l);
      }
    }
    forall n | n in labels[..k] ensures n != l && Le(n, l) {
      var j :| 0 <= j < k && labels[j] == n;
    }
  }

  method ListNames(names: set<string>) returns (labels: seq<string>)
    ensures Listing(labels, names)
  {
    var todo := names;
    var listed: seq<string> := [];
    while todo != {}
      invariant todo <= names
      invariant forall l :: l in listed <==> l in names - todo
      invariant forall l :: multiset(listed)[l] <= 1
      decreases |todo|
    {
      var l :| l in todo;
      assert l !in listed;
      assert multiset(listed)[l] == 0;
      listed := listed + [l];
      todo := todo - {l};
    }
    labels := Sort(listed);
    SortSorted(listed);
    forall l ensures l in labels <==> l in names {
      assert l in labels <==> l in multiset(labels);
      assert l in listed <==> l in multiset(listed);
    }
    forall i, j | 0 <= i < j < |labels| ensures labels[i] != labels[j] {
      if labels[i] == labels[j] {
        TwiceListed(labels, i, j);
      }
    }
  }

  lemma TwiceListed(s: seq<string>, i: nat, j: nat)
    requires i < j < |s| && s[i] == s[j]
    ensures multiset(s)[s[i]] >= 2
  {
    assert s == s[..i] + [s[i]] + s[i + 1..j] + [s[j]] + s[j + 1..];
  }

  method Refined(x: Texts, ts: seq<Triple>, labels: seq<string>, incident: map<string, seq<nat>>) returns (sig: Signatures)
    requires IncidentOk(ts, incident, |ts|) && incident.Keys == Names(ts) == (set l | l in labels)
    ensures sig == FinalSignatures(x, ts)
  {
    LocatedLabels(ts, labels, incident);
    var start := map n | n in incident :: "";
    assert start == map n | n in Names(ts) :: "";
    sig := RefineFrom(x, ts, labels, incident, start, 1, 0);
  }

  lemma LocatedLabels(ts: seq<Triple>, labels: seq<string>, incident: map<string, seq<nat>>)
    requires IncidentOk(ts, incident, |ts|) && incident.Keys == (set l | l in labels)
    ensures Located(ts, labels, incident)
  {
    forall k | 0 <= k < |labels| ensures labels[k] in incident {
      assert labels[k] in labels;
    }
  }

  /** `stableBNodeIDs`: incident lists, refinement, numbering. */
  method StableBNodeIds(x: Texts, ts: seq<Triple>) returns (ids: map<string, string>)
    ensures ids == StableIds(x, ts)
  {
    var incident := BuildIncident(ts);
    assert ts[..|ts|] == ts;
    assert incident.Keys == Names(ts);
    var labels := ListNames(incident.Keys);
    var sig := Refined(x, ts, labels, incident);
    ids := NumberNodes(sig, labels);
  }
}

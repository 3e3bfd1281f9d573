/** Replacing blank nodes by Skolem IRIs and back (graph/skolem.go:60-134). */
module SkolemGraphs {
  import opened Skolem

  /** The id a blank node is minted from: its stable id, or its label. */
  function IdOf(ids: map<string, string>, name: string): string {
    if name in ids then ids[name] else name
  }

  function Mint(prefix: string, ids: map<string, string>, t: Term): Term {
    if t.Blank? then Iri(prefix + IdOf(ids, t.name)) else t
  }

  function MintTriple(prefix: string, ids: map<string, string>, t: Triple): Triple {
    Triple(Mint(prefix, ids, t.s), t.p, Mint(prefix, ids, t.o))
  }

  function GraphOf(ts: seq<Triple>): set<Triple> {
    set t | t in ts
  }

  function Skolemized(prefix: string, ids: map<string, string>, g: set<Triple>): set<Triple> {
    set t | t in g :: MintTriple(prefix, ids, t)
  }

  predicate Under(prefix: string, t: Term) {
    t.Iri? && prefix <= t.value
  }

  /** `names` are the fresh blank nodes handed out per Skolem IRI. */
  function Unmint(prefix: string, names: map<string, string>, t: Term): Term {
    if Under(prefix, t) && t.value in names then Blank(names[t.value]) else t
  }

  function UnmintTriple(prefix: string, names: map<string, string>, t: Triple): Triple {
    Triple(Unmint(prefix, names, t.s), t.p, Unmint(prefix, names, t.o))
  }

  function DeSkolemized(prefix: string, names: map<string, string>, g: set<Triple>): set<Triple> {
    set t | t in g :: UnmintTriple(prefix, names, t)
  }

  ghost predicate HasNode(g: set<Triple>, n: Term) {
    exists t :: t in g && (t.s == n || t.o == n)
  }

  /** One blank node for each IRI under the prefix, no two alike and none the graph already has. */
  ghost predicate FreshNames(prefix: string, g: set<Triple>, names: map<string, string>) {
    Injective(names) && (forall v :: v in names <==> prefix <= v && HasNode(g, Iri(v))) &&
    forall v :: v in names ==> !HasNode(g, Blank(names[v]))
  }

  function RenamedGraph(pi: Renaming, g: set<Triple>): set<Triple> {
    set t | t in g :: RenameTriple(pi, t)
  }

  /** The graphs differ in their blank node labels only. */
  ghost predicate Isomorphic(g: set<Triple>, h: set<Triple>) {
    exists pi: Renaming :: Injective(pi) && (forall n :: n in pi <==> HasNode(g, Blank(n))) && h == RenamedGraph(pi, g)
  }

  /** The ids tell the graph's blank nodes apart. */
  ghost predicate Separates(ids: map<string, string>, g: set<Triple>) {
    forall a, b :: HasNode(g, Blank(a)) && HasNode(g, Blank(b)) && IdOf(ids, a) == IdOf(ids, b) ==> a == b
  }

  // ---------------------------------------------------------------------------
  // Both ids separate
  // ---------------------------------------------------------------------------

  lemma LabelsSeparate(g: set<Triple>)
    ensures Separates(map[], g)
  {
  }

  lemma StableIdsSeparate(x: Texts, ts: seq<Triple>, g: set<Triple>)
    requires DashFree(x) && g == GraphOf(ts)
    ensures Separates(StableIds(x, ts), g)
  {
    var ids := StableIds(x, ts);
    StableIdsInjective(x, ts);
    forall a | HasNode(g, Blank(a)) ensures a in ids {
      NodesHaveNames(ts, g, a);
    }
  }

  lemma NodesHaveNames(ts: seq<Triple>, g: set<Triple>, a: string)
    requires g == GraphOf(ts) && HasNode(g, Blank(a))
    ensures a in Names(ts)
  {
    var t :| t in g && (t.s == Blank(a) || t.o == Blank(a));
    NamesHolds(ts, t);
    assert a in NamesOf(t);
  }

  // ---------------------------------------------------------------------------
  // The round trip
  // ---------------------------------------------------------------------------

  ghost predicate NothingUnder(prefix: string, g: set<Triple>) {
    forall t :: t in g ==> !Under(prefix, t.s) && !Under(prefix, t.o)
  }

  lemma MintedNode(prefix: string, ids: map<string, string>, g: set<Triple>, a: string)
    requires HasNode(g, Blank(a))
    ensures HasNode(Skolemized(prefix, ids, g), Iri(prefix + IdOf(ids, a)))
  {
    var t :| t in g && (t.s == Blank(a) || t.o == Blank(a));
    var m := MintTriple(prefix, ids, t);
    assert m in Skolemized(prefix, ids, g);
  }

  lemma TripleReturns(prefix: string, ids: map<string, string>, g: set<Triple>, names: map<string, string>, pi: Renaming, t: Triple)
    requires t in g && !Under(prefix, t.s) && !Under(prefix, t.o)
    requires forall n :: n in pi <==> HasNode(g, Blank(n))
    requires forall n :: n in pi ==> prefix + IdOf(ids, n) in names && pi[n] == names[prefix + IdOf(ids, n)]
    ensures UnmintTriple(prefix, names, MintTriple(prefix, ids, t)) == RenameTriple(pi, t)
  {
    NodeReturns(prefix, ids, g, names, pi, t, t.s);
    NodeReturns(prefix, ids, g, names, pi, t, t.o);
  }

  lemma NodeReturns(prefix: string, ids: map<string, string>, g: set<Triple>, names: map<string, string>, pi: Renaming, t: Triple, n: Term)
    requires t in g && (t.s == n || t.o == n) && !Under(prefix, n)
    requires forall n :: n in pi <==> HasNode(g, Blank(n))
    requires forall n :: n in pi ==> prefix + IdOf(ids, n) in names && pi[n] == names[prefix + IdOf(ids, n)]
    ensures Unmint(prefix, names, Mint(prefix, ids, n)) == RenameTerm(pi, n)
  {
    if n.Blank? {
      assert HasNode(g, Blank(n.name));
      assert n.name in pi;
    }
  }

  lemma ReturnsWhenNothingUnder(prefix: string, ids: map<string, string>, g: set<Triple>, names: map<string, string>)
    requires Separates(ids, g) && FreshNames(prefix, Skolemized(prefix, ids, g), names) && NothingUnder(prefix, g)
    ensures Isomorphic(g, DeSkolemized(prefix, names, Skolemized(prefix, ids, g)))
  {
    BlanksAreNodes(g);
    forall n | n in Blanks(g) ensures prefix + IdOf(ids, n) in names {
      MintedNode(prefix, ids, g, n);
    }
    var pi: Renaming := map n | n in Blanks(g) :: names[prefix + IdOf(ids, n)];
    RelabellingIsInjective(prefix, ids, g, names, pi);
    forall t | t in g ensures UnmintTriple(prefix, names, MintTriple(prefix, ids, t)) == RenameTriple(pi, t) {
      TripleReturns(prefix, ids, g, names, pi, t);
    }
    ImagesAgree(prefix, ids, g, names, pi);
  }

  ghost function Blanks(g: set<Triple>): set<string> {
    (set t | t in g && t.s.Blank? :: t.s.name) + (set t | t in g && t.o.Blank? :: t.o.name)
  }

  lemma BlanksAreNodes(g: set<Triple>)
    ensures forall n :: n in Blanks(g) <==> HasNode(g, Blank(n))
  {
    forall n ensures n in Blanks(g) <==> HasNode(g, Blank(n)) {
      if t :| t in g && (t.s == Blank(n) || t.o == Blank(n)) {
        assert n in Blanks(g);
      }
    }
  }

  lemma RelabellingIsInjective(prefix: string, ids: map<string, string>, g: set<Triple>, names: map<string, string>, pi: Renaming)
    requires Separates(ids, g) && Injective(names) && forall n :: n in pi <==> HasNode(g, Blank(n))
    requires forall n :: n in pi ==> prefix + IdOf(ids, n) in names && pi[n] == names[prefix + IdOf(ids, n)]
    ensures Injective(pi)
  {
    forall a, b | a in pi && b in pi && pi[a] == pi[b] ensures a == b {
      SamePrefix(prefix, IdOf(ids, a), IdOf(ids, b));
    }
  }

  lemma SamePrefix(prefix: string, a: string, b: string)
    requires prefix + a == prefix + b
    ensures a == b
  {
    assert (prefix + a)[|prefix|..] == a && (prefix + b)[|prefix|..] == b;
  }

  lemma ImagesAgree(prefix: string, ids: map<string, string>, g: set<Triple>, names: map<string, string>, pi: Renaming)
    requires forall t :: t in g ==> UnmintTriple(prefix, names, MintTriple(prefix, ids, t)) == RenameTriple(pi, t)
    ensures DeSkolemized(prefix, names, Skolemized(prefix, ids, g)) == RenamedGraph(pi, g)
  {
    var sk := Skolemized(prefix, ids, g);
    forall r | r in RenamedGraph(pi, g) ensures r in DeSkolemized(prefix, names, sk) {
      var t :| t in g && r == RenameTriple(pi, t);
      assert MintTriple(prefix, ids, t) in sk;
    }
  }

  /** Nothing under the prefix survives DeSkolemize. */
  lemma NoneLeftUnder(prefix: string, g: set<Triple>, names: map<string, string>)
    requires FreshNames(prefix, g, names)
    ensures NothingUnder(prefix, DeSkolemized(prefix, names, g))
  {
    forall r | r in DeSkolemized(prefix, names, g) ensures !Under(prefix, r.s) && !Under(prefix, r.o) {
      var t :| t in g && r == UnmintTriple(prefix, names, t);
      if Under(prefix, t.s) {
        assert HasNode(g, t.s);
      }
      if Under(prefix, t.o) {
        assert HasNode(g, t.o);
      }
    }
  }

  /** DeSkolemize undoes Skolemize, up to labels, exactly on the graphs in which no subject
      or object IRI already starts with the Skolem prefix. */
  lemma RoundTripIff(prefix: string, ids: map<string, string>, g: set<Triple>, names: map<string, string>)
    requires Separates(ids, g) && FreshNames(prefix, Skolemized(prefix, ids, g), names)
    ensures Isomorphic(g, DeSkolemized(prefix, names, Skolemized(prefix, ids, g))) <==> NothingUnder(prefix, g)
  {
    var back := DeSkolemized(prefix, names, Skolemized(prefix, ids, g));
    if NothingUnder(prefix, g) {
      ReturnsWhenNothingUnder(prefix, ids, g, names);
    }
    if Isomorphic(g, back) {
      var pi: Renaming :| Injective(pi) && (forall n :: n in pi <==> HasNode(g, Blank(n))) && back == RenamedGraph(pi, g);
      NoneLeftUnder(prefix, Skolemized(prefix, ids, g), names);
      forall t | t in g ensures !Under(prefix, t.s) && !Under(prefix, t.o) {
        assert RenameTriple(pi, t) in back;
      }
    }
  }

  // ---------------------------------------------------------------------------
  // The two operations
  // ---------------------------------------------------------------------------

  lemma OneMore(ts: seq<Triple>, i: nat, prefix: string, ids: map<string, string>, names: map<string, string>)
    requires i < |ts|
    ensures GraphOf(ts[..i + 1]) == GraphOf(ts[..i]) + {ts[i]}
    ensures Skolemized(prefix, ids, GraphOf(ts[..i + 1])) ==
      Skolemized(prefix, ids, GraphOf(ts[..i])) + {MintTriple(prefix, ids, ts[i])}
    ensures DeSkolemized(prefix, names, GraphOf(ts[..i + 1])) ==
      DeSkolemized(prefix, names, GraphOf(ts[..i])) + {UnmintTriple(prefix, names, ts[i])}
  {
    assert ts[..i + 1] == ts[..i] + [ts[i]];
    assert GraphOf(ts[..i + 1]) == GraphOf(ts[..i]) + {ts[i]};
  }

  method MintAll(ts: seq<Triple>, prefix: string, ids: map<string, string>) returns (out: set<Triple>)
    ensures out == Skolemized(prefix, ids, GraphOf(ts))
  {
    out := {};
    for i := 0 to |ts|
      invariant out == Skolemized(prefix, ids, GraphOf(ts[..i]))
    {
      OneMore(ts, i, prefix, ids, map[]);
      out := out + {MintTriple(prefix, ids, ts[i])};
    }
    assert ts[..|ts|] == ts;
  }

  /** Skolemize in label mode or stable mode. */
  method Skolemize(x: Texts, ts: seq<Triple>, prefix: string, stable: bool) returns (out: set<Triple>, ids: map<string, string>)
    ensures ids == if stable then StableIds(x, ts) else map[]
    ensures out == Skolemized(prefix, ids, GraphOf(ts))
  {
    ids := map[];
    if stable {
      ids := StableBNodeIds(x, ts);
    }
    out := MintAll(ts, prefix, ids);
  }

  ghost predicate Supply(newBNode: nat -> string) {
    forall i, j :: newBNode(i) == newBNode(j) ==> i == j
  }

  /** The supply makes up no label the graph has. */
  ghost predicate NewTo(newBNode: nat -> string, g: set<Triple>) {
    forall i :: !HasNode(g, Blank(newBNode(i)))
  }

  /** The memo table of DeSkolemize: its labels come from the supply, each used once. */
  ghost predicate Memo(newBNode: nat -> string, names: map<string, string>, used: nat) {
    Injective(names) && forall v :: v in names ==> exists i: nat :: i < used && names[v] == newBNode(i)
  }

  function UnderOf(prefix: string, t: Term): set<string> {
    if Under(prefix, t) then {t.value} else {}
  }

  method UnmintOne(prefix: string, newBNode: nat -> string, names: map<string, string>, used: nat, t: Term)
    returns (r: Term, names': map<string, string>, used': nat)
    requires Supply(newBNode) && Memo(newBNode, names, used)
    ensures Memo(newBNode, names', used')
    ensures r == Unmint(prefix, names', t)
    ensures names'.Keys == names.Keys + UnderOf(prefix, t) && Extends(names, names')
  {
    r, names', used' := t, names, used;
    if Under(prefix, t) {
      if t.value !in names {
        names' := names[t.value := newBNode(used)];
        used' := used + 1;
      }
      r := Blank(names'[t.value]);
    }
  }

  /** The subject and object IRIs under the prefix. */
  ghost function ValuesUnder(prefix: string, g: set<Triple>): set<string> {
    (set t | t in g && Under(prefix, t.s) :: t.s.value) + (set t | t in g && Under(prefix, t.o) :: t.o.value)
  }

  ghost predicate Extends(was: map<string, string>, now: map<string, string>) {
    was.Keys <= now.Keys && forall v :: v in was ==> now[v] == was[v]
  }

  method UnmintNodes(prefix: string, newBNode: nat -> string, names: map<string, string>, used: nat, t: Triple)
    returns (r: Triple, names': map<string, string>, used': nat)
    requires Supply(newBNode) && Memo(newBNode, names, used)
    ensures Memo(newBNode, names', used') && Extends(names, names')
    ensures r == UnmintTriple(prefix, names', t)
    ensures names'.Keys == names.Keys + UnderOf(prefix, t.s) + UnderOf(prefix, t.o)
  {
    var s, names1, used1 := UnmintOne(prefix, newBNode, names, used, t.s);
    var o, names2, used2 := UnmintOne(prefix, newBNode, names1, used1, t.o);
    r, names', used' := Triple(s, t.p, o), names2, used2;
  }

  /** DeSkolemize: the same IRI is always replaced by the same new blank node. */
  method DeSkolemize(ts: seq<Triple>, prefix: string, newBNode: nat -> string)
    returns (out: set<Triple>, names: map<string, string>)
    requires Supply(newBNode) && NewTo(newBNode, GraphOf(ts))
    ensures FreshNames(prefix, GraphOf(ts), names)
    ensures out == DeSkolemized(prefix, names, GraphOf(ts))
  {
    out, names := {}, map[];
    var used := 0;
    for i := 0 to |ts|
      invariant Memo(newBNode, names, used)
      invariant names.Keys == ValuesUnder(prefix, GraphOf(ts[..i]))
      invariant out == DeSkolemized(prefix, names, GraphOf(ts[..i]))
    {
      ghost var before := names;
      var r: Triple;
      r, names, used := UnmintNodes(prefix, newBNode, names, used, ts[i]);
      MemoGrows(prefix, before, names, GraphOf(ts[..i]));
      OneMore(ts, i, prefix, map[], names);
      ValuesUnderOneMore(prefix, GraphOf(ts[..i]), ts[i]);
      out := out + {r};
    }
    assert ts[..|ts|] == ts;
    KeysAreNodes(prefix, GraphOf(ts), names);
  }

  lemma ValuesUnderOneMore(prefix: string, g: set<Triple>, t: Triple)
    ensures ValuesUnder(prefix, g + {t}) == ValuesUnder(prefix, g) + UnderOf(prefix, t.s) + UnderOf(prefix, t.o)
  {
  }

  lemma MemoGrows(prefix: string, was: map<string, string>, now: map<string, string>, g: set<Triple>)
    requires was.Keys == ValuesUnder(prefix, g) && Extends(was, now)
    ensures DeSkolemized(prefix, now, g) == DeSkolemized(prefix, was, g)
  {
    forall t | t in g ensures UnmintTriple(prefix, now, t) == UnmintTriple(prefix, was, t) {
      assert Under(prefix, t.s) ==> t.s.value in was;
      assert Under(prefix, t.o) ==> t.o.value in was;
    }
  }

  lemma KeysAreNodes(prefix: string, g: set<Triple>, names: map<string, string>)
    requires names.Keys == ValuesUnder(prefix, g)
    ensures forall v :: v in names <==> prefix <= v && HasNode(g, Iri(v))
  {
    forall v ensures v in names <==> prefix <= v && HasNode(g, Iri(v)) {
      if v in names {
        if t :| t in g && Under(prefix, t.s) && t.s.value == v {
          assert t.s == Iri(v);
        } else {
          var t :| t in g && Under(prefix, t.o) && t.o.value == v;
          assert t.o == Iri(v);
        }
      }
      if prefix <= v && HasNode(g, Iri(v)) {
        var t :| t in g && (t.s == Iri(v) || t.o == Iri(v));
        assert Under(prefix, Iri(v));
      }
    }
  }

  // ---------------------------------------------------------------------------
  // There and back
  // ---------------------------------------------------------------------------

  lemma SkolemizedHasNoBlanks(prefix: string, ids: map<string, string>, g: set<Triple>, name: string)
    ensures !HasNode(Skolemized(prefix, ids, g), Blank(name))
  {
  }

  /** A graph read back from its store, in some order. */
  method Collect(g: set<Triple>) returns (ts: seq<Triple>)
    ensures GraphOf(ts) == g
  {
    ts := [];
    var todo := g;
    while todo != {}
      invariant todo <= g && GraphOf(ts) == g - todo
      decreases |todo|
    {
      var t :| t in todo;
      assert GraphOf(ts + [t]) == GraphOf(ts) + {t} && g - (todo - {t}) == (g - todo) + {t};
      ts := ts + [t];
      todo := todo - {t};
    }
  }

  /** Skolemize and then DeSkolemize, in either mode: an isomorphic graph comes back if and only
      if no subject or object IRI started with the prefix. */
  method ThereAndBack(x: Texts, ts: seq<Triple>, prefix: string, stable: bool, newBNode: nat -> string) returns (out: set<Triple>)
    requires (stable ==> DashFree(x)) && Supply(newBNode)
    ensures Isomorphic(GraphOf(ts), out) <==> NothingUnder(prefix, GraphOf(ts))
  {
    var g := GraphOf(ts);
    var sk, ids := Skolemize(x, ts, prefix, stable);
    forall i ensures !HasNode(sk, Blank(newBNode(i))) {
      SkolemizedHasNoBlanks(prefix, ids, g, newBNode(i));
    }
    var us := Collect(sk);
    var names: map<string, string>;
    out, names := DeSkolemize(us, prefix, newBNode);
    if stable {
      StableIdsSeparate(x, ts, g);
    } else {
      LabelsSeparate(g);
    }
    RoundTripIff(prefix, ids, g, names);
  }

  // ---------------------------------------------------------------------------
  // Stable output
  // ---------------------------------------------------------------------------

  lemma SameIds(x: Texts, pi: Renaming, ts: seq<Triple>, us: seq<Triple>, n: string)
    requires SameGraph(pi, ts, us) && Injective(FinalSignatures(x, ts)) && n in pi
    ensures IdOf(StableIds(x, us), pi[n]) == IdOf(StableIds(x, ts), n)
  {
    var sig := FinalSignatures(x, ts);
    assert Class(sig, sig[n]) == {n};
    LoneNodeKeepsId(x, pi, ts, us, n);
  }

  lemma SameMinted(prefix: string, x: Texts, pi: Renaming, ts: seq<Triple>, us: seq<Triple>, t: Triple)
    requires SameGraph(pi, ts, us) && Injective(FinalSignatures(x, ts)) && t in ts
    ensures MintTriple(prefix, StableIds(x, us), RenameTriple(pi, t)) == MintTriple(prefix, StableIds(x, ts), t)
  {
    NamesHolds(ts, t);
    if t.s.Blank? {
      assert t.s.name in NamesOf(t);
      SameIds(x, pi, ts, us, t.s.name);
    }
    if t.o.Blank? {
      assert t.o.name in NamesOf(t);
      SameIds(x, pi, ts, us, t.o.name);
    }
  }

  /** If refinement tells all blank nodes apart, the Skolemized graph is the same for every
      labelling of the blank nodes and every order of the triples. */
  lemma StableOutput(prefix: string, x: Texts, pi: Renaming, ts: seq<Triple>, us: seq<Triple>)
    requires SameGraph(pi, ts, us) && Injective(FinalSignatures(x, ts))
    ensures Skolemized(prefix, StableIds(x, us), GraphOf(us)) == Skolemized(prefix, StableIds(x, ts), GraphOf(ts))
  {
    var rs := RenameAll(pi, ts);
    SameMembers(us, rs);
    forall i | 0 <= i < |ts| ensures MintTriple(prefix, StableIds(x, us), rs[i]) == MintTriple(prefix, StableIds(x, ts), ts[i]) {
      SameMinted(prefix, x, pi, ts, us, ts[i]);
    }
    MintedAlike(prefix, StableIds(x, us), rs, StableIds(x, ts), ts);
    assert GraphOf(us) == GraphOf(rs);
  }

  lemma SameMembers(a: seq<Triple>, b: seq<Triple>)
    requires multiset(a) == multiset(b)
    ensures forall t :: t in a <==> t in b
  {
    forall t ensures t in a <==> t in b {
      assert t in a <==> t in multiset(a);
      assert t in b <==> t in multiset(b);
    }
  }

  lemma MintedAlike(prefix: string, ids: map<string, string>, ms: seq<Triple>, ids': map<string, string>, ns: seq<Triple>)
    requires |ms| == |ns| && forall i :: 0 <= i < |ms| ==> MintTriple(prefix, ids, ms[i]) == MintTriple(prefix, ids', ns[i])
    ensures Skolemized(prefix, ids, GraphOf(ms)) == Skolemized(prefix, ids', GraphOf(ns))
  {
    forall r | r in Skolemized(prefix, ids, GraphOf(ms)) ensures r in Skolemized(prefix, ids', GraphOf(ns)) {
      var t :| t in GraphOf(ms) && r == MintTriple(prefix, ids, t);
      var i :| 0 <= i < |ms| && ms[i] == t;
      assert ns[i] in GraphOf(ns);
    }
    forall r | r in Skolemized(prefix, ids', GraphOf(ns)) ensures r in Skolemized(prefix, ids, GraphOf(ms)) {
      var t :| t in GraphOf(ns) && r == MintTriple(prefix, ids', t);
      var i :| 0 <= i < |ns| && ns[i] == t;
      assert ms[i] in GraphOf(ms);
    }
  }
}

/** When the numbers that nodes with the same surroundings get do not show: exactly when those
    nodes are interchangeable (graph/skolem.go:44-48). */
module SkolemSymmetry {
  import opened Common
  import opened StringOrder
  import opened Skolem
  import opened SkolemGraphs

  /** A permutation of the blank nodes that refinement cannot see. */
  ghost predicate KeepsSignatures(sig: Signatures, swap: Renaming) {
    swap.Keys == sig.Keys && Injective(swap) && forall n {:trigger KeepsSignature(sig, swap, n)} :: n in swap ==> KeepsSignature(sig, swap, n)
  }

  ghost predicate KeepsSignature(sig: Signatures, swap: Renaming, n: string) {
    n in swap && n in sig && swap[n] in sig && sig[swap[n]] == sig[n]
  }

  /** Nodes that refinement cannot tell apart can be exchanged without changing the graph. */
  ghost predicate Interchangeable(x: Texts, ts: seq<Triple>) {
    forall swap :: KeepsSignatures(FinalSignatures(x, ts), swap) ==> RenamedGraph(swap, GraphOf(ts)) == GraphOf(ts)
  }

  // ---------------------------------------------------------------------------
  // Interchangeable nodes
  // ---------------------------------------------------------------------------

  /** The node that has among the old labels the number `n` has among the new ones. */
  ghost predicate IsPartner(sig: Signatures, sig': Signatures, pi: Renaming, n: string, m: string) {
    n in pi && pi[n] in sig' && n in sig && m in sig && sig'[pi[n]] == sig[m] == sig[n] &&
    |Earlier(sig, m)| == |Earlier(sig', pi[n])|
  }

  ghost predicate HasPartner(sig: Signatures, sig': Signatures, pi: Renaming, swap: Renaming, n: string) {
    n in swap && IsPartner(sig, sig', pi, n, swap[n])
  }

  ghost predicate ArePartners(sig: Signatures, sig': Signatures, pi: Renaming, swap: Renaming) {
    swap.Keys == pi.Keys &&
    forall n {:trigger HasPartner(sig, sig', pi, swap, n)} :: n in swap ==> HasPartner(sig, sig', pi, swap, n)
  }

  lemma PartnerExists(sig: Signatures, sig': Signatures, pi: Renaming, n: string) returns (m: string)
    requires Injective(pi) && Carried(pi, sig, sig') && n in pi
    ensures IsPartner(sig, sig', pi, n, m)
  {
    ClassCarried(pi, sig, sig', sig[n]);
    RankIsEarlier(sig', pi[n]);
    m := Nth(Class(sig, sig[n]), |Earlier(sig', pi[n])|);
    RankIsEarlier(sig, m);
  }

  lemma {:induction false} Partners(sig: Signatures, sig': Signatures, pi: Renaming, names: set<string>) returns (swap: Renaming)
    requires Injective(pi) && Carried(pi, sig, sig') && names <= pi.Keys
    ensures swap.Keys == names
    ensures forall n {:trigger HasPartner(sig, sig', pi, swap, n)} :: n in names ==> HasPartner(sig, sig', pi, swap, n)
    decreases |names|
  {
    if names == {} {
      swap := map[];
    } else {
      var n :| n in names;
      var rest := Partners(sig, sig', pi, names - {n});
      var m := PartnerExists(sig, sig', pi, n);
      swap := rest[n := m];
      OnePartnerMore(sig, sig', pi, names, rest, n, m);
    }
  }

  lemma OnePartnerMore(sig: Signatures, sig': Signatures, pi: Renaming, names: set<string>, rest: Renaming, n: string, m: string)
    requires n in names && rest.Keys == names - {n} && IsPartner(sig, sig', pi, n, m)
    requires forall k {:trigger HasPartner(sig, sig', pi, rest, k)} :: k in rest ==> HasPartner(sig, sig', pi, rest, k)
    ensures var swap := rest[n := m];
      forall k {:trigger HasPartner(sig, sig', pi, swap, k)} :: k in names ==> HasPartner(sig, sig', pi, swap, k)
  {
    var swap := rest[n := m];
    forall k | k in names ensures HasPartner(sig, sig', pi, swap, k) {
      if k != n {
        assert HasPartner(sig, sig', pi, rest, k);
      }
    }
  }

  lemma PartnersKeepSignatures(sig: Signatures, sig': Signatures, pi: Renaming, swap: Renaming)
    requires Injective(pi) && pi.Keys == sig.Keys && ArePartners(sig, sig', pi, swap)
    ensures KeepsSignatures(sig, swap)
  {
    forall a, b | a in swap && b in swap && swap[a] == swap[b] ensures a == b {
      assert HasPartner(sig, sig', pi, swap, a) && HasPartner(sig, sig', pi, swap, b);
      OneNumberEach(sig', pi[a], pi[b]);
    }
    forall n | n in swap ensures KeepsSignature(sig, swap, n) {
      assert HasPartner(sig, sig', pi, swap, n);
    }
  }

  lemma OneNumberEach(sig: Signatures, a: string, b: string)
    requires a in sig && b in sig && sig[a] == sig[b] && |Earlier(sig, a)| == |Earlier(sig, b)|
    ensures a == b
  {
    if a != b {
      LeTotal(a, b);
      if Le(a, b) {
        EarlierGrows(sig, a, b);
      } else {
        EarlierGrows(sig, b, a);
      }
    }
  }

  /** The relabelled graph is minted like the graph with partners in each other's place. */
  lemma MintedLikePartner(prefix: string, x: Texts, pi: Renaming, ts: seq<Triple>, us: seq<Triple>, swap: Renaming, t: Term)
    requires ArePartners(FinalSignatures(x, ts), FinalSignatures(x, us), pi, swap) && (t.Blank? ==> t.name in pi)
    ensures Mint(prefix, StableIds(x, us), RenameTerm(pi, t)) == Mint(prefix, StableIds(x, ts), RenameTerm(swap, t))
  {
    if t.Blank? {
      var n := t.name;
      var sig, sig' := FinalSignatures(x, ts), FinalSignatures(x, us);
      assert HasPartner(sig, sig', pi, swap, n);
      assert StableId(sig', pi[n]) == StableId(sig, swap[n]);
    }
  }

  lemma SwappedOutput(prefix: string, x: Texts, pi: Renaming, ts: seq<Triple>, us: seq<Triple>) returns (swap: Renaming)
    requires SameGraph(pi, ts, us)
    ensures KeepsSignatures(FinalSignatures(x, ts), swap)
    ensures Skolemized(prefix, StableIds(x, us), GraphOf(us)) == Skolemized(prefix, StableIds(x, ts), RenamedGraph(swap, GraphOf(ts)))
  {
    var sig, sig' := FinalSignatures(x, ts), FinalSignatures(x, us);
    SignaturesInvariant(x, pi, ts, us);
    swap := Partners(sig, sig', pi, pi.Keys);
    PartnersKeepSignatures(sig, sig', pi, swap);
    var rs, ss := RenameAll(pi, ts), RenameAll(swap, ts);
    forall i | 0 <= i < |ts| ensures MintTriple(prefix, StableIds(x, us), rs[i]) == MintTriple(prefix, StableIds(x, ts), ss[i]) {
      NamesHolds(ts, ts[i]);
      assert ts[i].s.Blank? ==> ts[i].s.name in NamesOf(ts[i]);
      assert ts[i].o.Blank? ==> ts[i].o.name in NamesOf(ts[i]);
      MintedLikePartner(prefix, x, pi, ts, us, swap, ts[i].s);
      MintedLikePartner(prefix, x, pi, ts, us, swap, ts[i].o);
    }
    MintedAlike(prefix, StableIds(x, us), rs, StableIds(x, ts), ss);
    SameMembers(us, rs);
    assert GraphOf(us) == GraphOf(rs);
    RenamedMembers(swap, ts);
  }

  lemma RenamedMembers(pi: Renaming, ts: seq<Triple>)
    ensures GraphOf(RenameAll(pi, ts)) == RenamedGraph(pi, GraphOf(ts))
  {
    var rs := RenameAll(pi, ts);
    forall t | t in RenamedGraph(pi, GraphOf(ts)) ensures t in GraphOf(rs) {
      var u :| u in GraphOf(ts) && t == RenameTriple(pi, u);
      var i :| 0 <= i < |ts| && ts[i] == u;
      assert rs[i] in rs;
    }
    forall t | t in GraphOf(rs) ensures t in RenamedGraph(pi, GraphOf(ts)) {
      var i :| 0 <= i < |rs| && rs[i] == t;
      assert ts[i] in GraphOf(ts);
    }
  }

  // ---------------------------------------------------------------------------
  // Nodes that are not
  // ---------------------------------------------------------------------------

  ghost predicate Into(f: Renaming, cod: set<string>, n: string) {
    n in f && f[n] in cod
  }

  ghost predicate AllInto(f: Renaming, cod: set<string>) {
    forall n {:trigger Into(f, cod, n)} :: n in f ==> Into(f, cod, n)
  }

  lemma SwapIsInto(sig: Signatures, swap: Renaming)
    requires KeepsSignatures(sig, swap)
    ensures AllInto(swap, sig.Keys)
  {
    forall n | n in swap ensures Into(swap, sig.Keys, n) {
      assert KeepsSignature(sig, swap, n);
    }
  }

  /** An injective map between sets of one size reaches everything. */
  lemma Preimage(dom: set<string>, cod: set<string>, f: Renaming, m: string) returns (n: string)
    requires f.Keys == dom && Injective(f) && |dom| == |cod| && m in cod && AllInto(f, cod)
    ensures n in dom && f[n] == m
  {
    var image := set n | n in dom :: f[n];
    ImageSize(f, dom);
    forall k | k in image ensures k in cod {
      var n' :| n' in dom && f[n'] == k;
      assert Into(f, cod, n');
    }
    SameSizeSame(image, cod);
    n :| n in dom && f[n] == m;
  }

  lemma KeysCarried(dom: set<string>, cod: set<string>, pi: Renaming, sig: Signatures, sig': Signatures)
    requires pi.Keys == dom && Injective(pi) && |dom| == |cod| && Carried(pi, sig, sig') && AllInto(pi, cod)
    ensures sig'.Keys == cod
  {
    ImageSize(pi, dom);
    assert sig'.Keys == set n | n in dom :: pi[n];
    forall k | k in sig'.Keys ensures k in cod {
      var n :| n in dom && pi[n] == k;
      assert Into(pi, cod, n);
    }
    SameSizeSame(sig'.Keys, cod);
  }

  ghost predicate CarriedAt(sig: Signatures, sig': Signatures, swap: Renaming, n: string) {
    n in swap && n in sig && swap[n] in sig' && sig'[swap[n]] == sig[n]
  }

  /** `Carried`, said of one node at a time. */
  ghost predicate CarriedEach(sig: Signatures, sig': Signatures, swap: Renaming) {
    sig'.Keys == sig.Keys && forall n {:trigger CarriedAt(sig, sig', swap, n)} :: n in swap ==> CarriedAt(sig, sig', swap, n)
  }

  lemma EachIsCarried(sig: Signatures, sig': Signatures, swap: Renaming)
    requires Carried(swap, sig, sig')
    ensures forall n {:trigger CarriedAt(sig, sig', swap, n)} :: n in swap ==> CarriedAt(sig, sig', swap, n)
  {
  }

  lemma SwapCarries(sig: Signatures, sig': Signatures, swap: Renaming)
    requires KeepsSignatures(sig, swap) && Carried(swap, sig, sig')
    ensures CarriedEach(sig, sig', swap)
  {
    assert sig'.Keys == sig.Keys by {
      SwapIsInto(sig, swap);
      KeysCarried(swap.Keys, sig.Keys, swap, sig, sig');
    }
    EachIsCarried(sig, sig', swap);
  }

  lemma SameSignature(sig: Signatures, sig': Signatures, swap: Renaming, m: string)
    requires KeepsSignatures(sig, swap) && CarriedEach(sig, sig', swap) && m in sig
    ensures m in sig' && sig'[m] == sig[m]
  {
    var n := SwapReaches(sig, swap, m);
    assert KeepsSignature(sig, swap, n) && CarriedAt(sig, sig', swap, n);
  }

  lemma SwapReaches(sig: Signatures, swap: Renaming, m: string) returns (n: string)
    requires KeepsSignatures(sig, swap) && m in sig
    ensures n in swap && swap[n] == m
  {
    SwapIsInto(sig, swap);
    n := Preimage(swap.Keys, sig.Keys, swap, m);
  }

  lemma SameSignatures(sig: Signatures, sig': Signatures, swap: Renaming)
    requires KeepsSignatures(sig, swap) && CarriedEach(sig, sig', swap)
    ensures sig' == sig
  {
    forall m | m in sig ensures m in sig' && sig'[m] == sig[m] {
      SameSignature(sig, sig', swap, m);
    }
  }

  lemma RelabelledSignatures(x: Texts, ts: seq<Triple>, us: seq<Triple>, swap: Renaming)
    requires us == RenameAll(swap, ts) && KeepsSignatures(FinalSignatures(x, ts), swap)
    ensures CarriedEach(FinalSignatures(x, ts), FinalSignatures(x, us), swap)
  {
    SignaturesInvariant(x, swap, ts, us);
    SwapCarries(FinalSignatures(x, ts), FinalSignatures(x, us), swap);
  }

  /** Relabelling by a permutation that keeps the signatures keeps every label's id. */
  lemma SameLabelSameId(x: Texts, ts: seq<Triple>, us: seq<Triple>, swap: Renaming)
    requires us == RenameAll(swap, ts) && KeepsSignatures(FinalSignatures(x, ts), swap)
    ensures SameGraph(swap, ts, us) && StableIds(x, us) == StableIds(x, ts)
  {
    assert FinalSignatures(x, us) == FinalSignatures(x, ts) by {
      RelabelledSignatures(x, ts, us, swap);
      SameSignatures(FinalSignatures(x, ts), FinalSignatures(x, us), swap);
    }
    IdsFollow(x, ts, us);
  }

  lemma IdsFollow(x: Texts, ts: seq<Triple>, us: seq<Triple>)
    requires FinalSignatures(x, us) == FinalSignatures(x, ts)
    ensures StableIds(x, us) == StableIds(x, ts)
  {
  }

  lemma SameSizeSame(a: set<string>, b: set<string>)
    requires a <= b && |a| == |b|
    ensures a == b
  {
    assert b == a + (b - a);
  }

  lemma MintSeparates(prefix: string, ids: map<string, string>, a: Term, b: Term)
    requires Injective(ids) && !Under(prefix, a) && !Under(prefix, b) && Mint(prefix, ids, a) == Mint(prefix, ids, b)
    requires (a.Blank? ==> a.name in ids) && (b.Blank? ==> b.name in ids)
    ensures a == b
  {
    if a.Blank? && b.Blank? {
      assert (prefix + ids[a.name])[|prefix|..] == ids[a.name] && (prefix + ids[b.name])[|prefix|..] == ids[b.name];
    }
  }

  ghost predicate Known(ids: map<string, string>, g: set<Triple>) {
    forall t :: t in g ==> NamesOf(t) <= ids.Keys
  }

  lemma SkolemizedSeparates(prefix: string, ids: map<string, string>, g: set<Triple>, h: set<Triple>)
    requires Injective(ids) && NothingUnder(prefix, g) && NothingUnder(prefix, h) && Known(ids, g) && Known(ids, h)
    requires Skolemized(prefix, ids, g) == Skolemized(prefix, ids, h)
    ensures g <= h
  {
    forall t | t in g ensures t in h {
      assert MintTriple(prefix, ids, t) in Skolemized(prefix, ids, h);
      var u :| u in h && MintTriple(prefix, ids, u) == MintTriple(prefix, ids, t);
      assert NamesOf(t) <= ids.Keys && NamesOf(u) <= ids.Keys;
      MintSeparates(prefix, ids, t.s, u.s);
      MintSeparates(prefix, ids, t.o, u.o);
    }
  }

  lemma KnownAfter(ids: map<string, string>, sig: Signatures, swap: Renaming, t: Term)
    requires KeepsSignatures(sig, swap) && ids.Keys == sig.Keys && (t.Blank? ==> t.name in ids)
    ensures RenameTerm(swap, t).Blank? ==> RenameTerm(swap, t).name in ids
  {
    if t.Blank? {
      assert KeepsSignature(sig, swap, t.name);
    }
  }

  lemma SwapIsKnown(prefix: string, ids: map<string, string>, sig: Signatures, g: set<Triple>, swap: Renaming)
    requires KeepsSignatures(sig, swap) && ids.Keys == sig.Keys && Known(ids, g) && NothingUnder(prefix, g)
    ensures Known(ids, RenamedGraph(swap, g)) && NothingUnder(prefix, RenamedGraph(swap, g))
  {
    forall u | u in RenamedGraph(swap, g) ensures NamesOf(u) <= ids.Keys && !Under(prefix, u.s) && !Under(prefix, u.o) {
      var t :| t in g && u == RenameTriple(swap, t);
      assert NamesOf(t) <= ids.Keys;
      assert t.s.Blank? ==> t.s.name in NamesOf(t);
      assert t.o.Blank? ==> t.o.name in NamesOf(t);
      KnownAfter(ids, sig, swap, t.s);
      KnownAfter(ids, sig, swap, t.o);
    }
  }

  lemma SwapShows(prefix: string, x: Texts, ts: seq<Triple>, swap: Renaming)
    requires DashFree(x) && NothingUnder(prefix, GraphOf(ts)) && KeepsSignatures(FinalSignatures(x, ts), swap)
    requires Skolemized(prefix, StableIds(x, ts), RenamedGraph(swap, GraphOf(ts))) == Skolemized(prefix, StableIds(x, ts), GraphOf(ts))
    ensures RenamedGraph(swap, GraphOf(ts)) == GraphOf(ts)
  {
    var ids, g := StableIds(x, ts), GraphOf(ts);
    StableIdsInjective(x, ts);
    forall t | t in g ensures NamesOf(t) <= ids.Keys {
      NamesHolds(ts, t);
    }
    SwapIsKnown(prefix, ids, FinalSignatures(x, ts), g, swap);
    SkolemizedSeparates(prefix, ids, g, RenamedGraph(swap, g));
    SkolemizedSeparates(prefix, ids, RenamedGraph(swap, g), g);
  }

  /** The Skolemized graph is the same for every labelling of the blank nodes and every order of
      the triples. */
  ghost predicate OutputIsStable(prefix: string, x: Texts, ts: seq<Triple>) {
    forall pi, us :: SameGraph(pi, ts, us) ==>
      Skolemized(prefix, StableIds(x, us), GraphOf(us)) == Skolemized(prefix, StableIds(x, ts), GraphOf(ts))
  }

  /** That is so exactly when nodes with the same surroundings are interchangeable. */
  lemma StableOutputIff(prefix: string, x: Texts, ts: seq<Triple>)
    requires DashFree(x) && NothingUnder(prefix, GraphOf(ts))
    ensures OutputIsStable(prefix, x, ts) <==> Interchangeable(x, ts)
  {
    if Interchangeable(x, ts) {
      forall pi, us | SameGraph(pi, ts, us)
        ensures Skolemized(prefix, StableIds(x, us), GraphOf(us)) == Skolemized(prefix, StableIds(x, ts), GraphOf(ts))
      {
        var swap := SwappedOutput(prefix, x, pi, ts, us);
      }
    }
    if OutputIsStable(prefix, x, ts) {
      forall swap | KeepsSignatures(FinalSignatures(x, ts), swap) ensures RenamedGraph(swap, GraphOf(ts)) == GraphOf(ts) {
        SameLabelSameId(x, ts, RenameAll(swap, ts), swap);
        RenamedMembers(swap, ts);
        SwapShows(prefix, x, ts, swap);
      }
    }
  }
}

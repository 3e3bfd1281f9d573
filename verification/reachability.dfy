/** Answering a repetition with one reachability query of the store, through a cache
    (paths/reachability.go, paths/reach_cache.go, store/reachability.go). */
module Reachability {
  import opened Common
  import opened Closures
  import opened Paths
  import SrlKeys
  import SrlRules
  import StringOrder

  /** A path reduced to a set of predicates, a direction and a polarity. */
  datatype FlatSpec = FlatSpec(preds: seq<Iri>, inverse: bool, negated: bool)

  // ---------------------------------------------------------------------------
  // Flattening
  // ---------------------------------------------------------------------------

  function Flatten(p: Path): Option<FlatSpec>
    decreases p, 1
  {
    match p
    case Link(iri) => Some(FlatSpec([iri], false, false))
    case Inverse(arg) =>
      var inner := Flatten(arg);
      if inner.None? then None else Some(inner.value.(inverse := !inner.value.inverse))
    case Negated(excluded) => Some(FlatSpec(excluded, false, true))
    case Alternative(args) => FlattenAlternatives(args)
    case _ => None
  }

  /** All alternatives flat, none negated, all in one direction. */
  function FlattenAlternatives(args: seq<Path>): Option<FlatSpec>
    decreases args, 0
  {
    if args == [] then None
    else
      var first := Flatten(args[0]);
      if first.None? || first.value.negated then None
      else if |args| == 1 then first
      else
        var rest := FlattenAlternatives(args[1..]);
        if rest.None? || rest.value.inverse != first.value.inverse then None
        else Some(FlatSpec(first.value.preds + rest.value.preds, first.value.inverse, false))
  }

  /** The edges a store follows for a query; no predicates means any predicate. */
  predicate Allows(spec: FlatSpec, q: Iri) {
    spec.preds == [] || (if spec.negated then q !in spec.preds else q in spec.preds)
  }

  ghost predicate FlatEdge(spec: FlatSpec, g: set<Triple>, s: Term, o: Term) {
    exists q :: Allows(spec, q) && (if spec.inverse then Triple(o, q, s) else Triple(s, q, o)) in g
  }

  /** Flattening keeps the relation of the path, on every graph. */
  lemma {:induction false} FlattenPreserves(p: Path, g: set<Triple>, s: Term, o: Term)
    requires Flatten(p).Some?
    ensures FlatEdge(Flatten(p).value, g, s, o) <==> Rel(p, g, s, o)
    ensures !Flatten(p).value.negated ==> Flatten(p).value.preds != []
    decreases p, 1
  {
    match p {
      case Link(iri) =>
        if Rel(p, g, s, o) {
          assert Allows(Flatten(p).value, iri);
        }
      case Inverse(arg) =>
        FlattenPreserves(arg, g, o, s);
        FlipEdge(Flatten(arg).value, g, s, o);
      case Negated(excluded) =>
        if q :| q !in excluded && Triple(s, q, o) in g {
          assert Allows(Flatten(p).value, q);
        }
      case Alternative(args) =>
        FlattenAlternativesPreserves(args, g, s, o);
    }
  }

  lemma FlipEdge(spec: FlatSpec, g: set<Triple>, s: Term, o: Term)
    ensures FlatEdge(spec.(inverse := !spec.inverse), g, s, o) <==> FlatEdge(spec, g, o, s)
  {
    var flipped := spec.(inverse := !spec.inverse);
    if q :| Allows(spec, q) && (if spec.inverse then Triple(s, q, o) else Triple(o, q, s)) in g {
      assert Allows(flipped, q);
    }
    if q :| Allows(flipped, q) && (if flipped.inverse then Triple(o, q, s) else Triple(s, q, o)) in g {
      assert Allows(spec, q);
    }
  }

  lemma {:induction false} FlattenAlternativesPreserves(args: seq<Path>, g: set<Triple>, s: Term, o: Term)
    requires FlattenAlternatives(args).Some?
    ensures FlatEdge(FlattenAlternatives(args).value, g, s, o) <==> exists i :: 0 <= i < |args| && Rel(args[i], g, s, o)
    ensures !FlattenAlternatives(args).value.negated && FlattenAlternatives(args).value.preds != []
    decreases args, 0
  {
    FlattenPreserves(args[0], g, s, o);
    if |args| > 1 {
      FlattenAlternativesPreserves(args[1..], g, s, o);
      var a, b := Flatten(args[0]).value, FlattenAlternatives(args[1..]).value;
      MergeEdges(a, b, g, s, o);
      if i :| 0 <= i < |args| && Rel(args[i], g, s, o) {
        if i > 0 {
          assert args[1..][i - 1] == args[i];
        }
      }
      if j :| 0 <= j < |args[1..]| && Rel(args[1..][j], g, s, o) {
        assert Rel(args[j + 1], g, s, o);
      }
    }
  }

  lemma MergeEdges(a: FlatSpec, b: FlatSpec, g: set<Triple>, s: Term, o: Term)
    requires !a.negated && !b.negated && a.preds != [] && b.preds != [] && a.inverse == b.inverse
    ensures FlatEdge(FlatSpec(a.preds + b.preds, a.inverse, false), g, s, o) <==> FlatEdge(a, g, s, o) || FlatEdge(b, g, s, o)
  {
    var c := FlatSpec(a.preds + b.preds, a.inverse, false);
    assert forall q :: Allows(c, q) <==> Allows(a, q) || Allows(b, q);
  }

  // ---------------------------------------------------------------------------
  // The store
  // ---------------------------------------------------------------------------

  /** The graphs of a store by their names. */
  type Dataset = Option<Term> -> set<Triple>

  datatype Query = Query(start: Term, spec: FlatSpec, context: Option<Term>)

  ghost predicate FlatChain(spec: FlatSpec, g: set<Triple>, w: seq<Term>) {
    |w| >= 2 && forall i :: 0 <= i < |w| - 1 ==> FlatEdge(spec, g, w[i], w[i + 1])
  }

  ghost predicate FlatReach(spec: FlatSpec, g: set<Triple>, a: Term, b: Term) {
    exists w :: FlatChain(spec, g, w) && w[0] == a && w[|w| - 1] == b
  }

  /** What `Reachable` promises: the nodes at distance one or more, each once. */
  ghost predicate Answers(db: Dataset, q: Query, nodes: seq<Term>) {
    (forall n :: n in nodes <==> FlatReach(q.spec, db(q.context), q.start, n)) &&
    forall i, j :: 0 <= i < j < |nodes| ==> nodes[i] != nodes[j]
  }

  lemma ReachStep(spec: FlatSpec, g: set<Triple>, a: Term, b: Term)
    requires FlatEdge(spec, g, a, b)
    ensures FlatReach(spec, g, a, b)
  {
    var w := [a, b];
    assert FlatChain(spec, g, w) && w[0] == a && w[|w| - 1] == b;
  }

  lemma ReachExtend(spec: FlatSpec, g: set<Triple>, a: Term, b: Term, c: Term)
    requires FlatReach(spec, g, a, b) && FlatEdge(spec, g, b, c)
    ensures FlatReach(spec, g, a, c)
  {
    var w :| FlatChain(spec, g, w) && w[0] == a && w[|w| - 1] == b;
    var v := w + [c];
    forall i | 0 <= i < |v| - 1 ensures FlatEdge(spec, g, v[i], v[i + 1]) {
      if i < |w| - 1 {
        assert FlatEdge(spec, g, w[i], w[i + 1]);
      }
    }
    assert FlatChain(spec, g, v) && v[0] == a && v[|v| - 1] == c;
  }

  lemma {:induction false} ChainStaysIn(spec: FlatSpec, g: set<Triple>, s: set<Term>, w: seq<Term>, k: nat)
    requires FlatChain(spec, g, w) && 0 < k < |w|
    requires forall b :: FlatEdge(spec, g, w[0], b) ==> b in s
    requires forall a, b :: a in s && FlatEdge(spec, g, a, b) ==> b in s
    ensures w[k] in s
  {
    assert FlatEdge(spec, g, w[k - 1], w[k - 1 + 1]);
    if k > 1 {
      ChainStaysIn(spec, g, s, w, k - 1);
    }
  }

  lemma EdgeEnds(spec: FlatSpec, g: set<Triple>, a: Term, b: Term)
    requires FlatEdge(spec, g, a, b)
    ensures b in Nodes(g)
  {
    var q :| Allows(spec, q) && (if spec.inverse then Triple(b, q, a) else Triple(a, q, b)) in g;
    var t := if spec.inverse then Triple(b, q, a) else Triple(a, q, b);
    assert t in g && (t.s == b || t.o == b);
  }

  /** The nodes one edge away. */
  method EdgesFrom(spec: FlatSpec, g: set<Triple>, node: Term) returns (nexts: set<Term>)
    ensures forall b :: b in nexts <==> FlatEdge(spec, g, node, b)
  {
    nexts := if spec.inverse then set t | t in g && Allows(spec, t.p) && t.o == node :: t.s
             else set t | t in g && Allows(spec, t.p) && t.s == node :: t.o;
    forall b ensures b in nexts <==> FlatEdge(spec, g, node, b) {
      if FlatEdge(spec, g, node, b) {
        var q :| Allows(spec, q) && (if spec.inverse then Triple(b, q, node) else Triple(node, q, b)) in g;
        var t := if spec.inverse then Triple(b, q, node) else Triple(node, q, b);
        assert t in g && t.p == q;
      }
    }
  }

  /** A store: it declines, or traverses breadth first. */
  method Reachable(db: Dataset, q: Query) returns (r: Option<seq<Term>>)
    ensures r.Some? ==> Answers(db, q, r.value)
  {
    var declines: bool := *;
    if declines {
      return None;
    }
    var result := Traverse(db(q.context), q);
    r := Some(result);
  }

  /** A search in progress: what was emitted is reachable, and every edge from an expanded node
      leads to an emitted one. */
  ghost predicate Searching(g: set<Triple>, q: Query, expanded: set<Term>, frontier: set<Term>, emitted: set<Term>) {
    q.start in expanded + frontier && expanded !! frontier &&
    expanded + frontier == emitted + {q.start} && emitted <= Nodes(g) && AllReached(g, q, emitted) &&
    EdgesEmitted(g, q, expanded, emitted)
  }

  ghost predicate AllReached(g: set<Triple>, q: Query, emitted: set<Term>) {
    forall n :: n in emitted ==> FlatReach(q.spec, g, q.start, n)
  }

  ghost predicate EdgesEmitted(g: set<Triple>, q: Query, expanded: set<Term>, emitted: set<Term>) {
    forall a, b :: a in expanded && FlatEdge(q.spec, g, a, b) ==> b in emitted
  }

  lemma EdgesReached(g: set<Triple>, q: Query, node: Term, emitted: set<Term>, nexts: set<Term>)
    requires AllReached(g, q, emitted) && (node in emitted || node == q.start)
    requires forall b :: b in nexts <==> FlatEdge(q.spec, g, node, b)
    ensures AllReached(g, q, emitted + nexts) && nexts <= Nodes(g)
  {
    forall b | b in nexts ensures FlatReach(q.spec, g, q.start, b) && b in Nodes(g) {
      EdgeEnds(q.spec, g, node, b);
      if node in emitted {
        ReachExtend(q.spec, g, q.start, node, b);
      } else {
        ReachStep(q.spec, g, node, b);
      }
    }
  }

  lemma SearchStep(g: set<Triple>, q: Query, expanded: set<Term>, frontier: set<Term>, emitted: set<Term>, node: Term, nexts: set<Term>)
    requires Searching(g, q, expanded, frontier, emitted) && node in frontier
    requires forall b :: b in nexts <==> FlatEdge(q.spec, g, node, b)
    ensures var done := expanded + {node}; Searching(g, q, done, (frontier + nexts) - done, emitted + nexts)
  {
    EdgesReached(g, q, node, emitted, nexts);
  }

  lemma SearchComplete(g: set<Triple>, q: Query, expanded: set<Term>, emitted: set<Term>)
    requires Searching(g, q, expanded, {}, emitted)
    ensures forall n :: n in emitted <==> FlatReach(q.spec, g, q.start, n)
  {
    forall n | FlatReach(q.spec, g, q.start, n) ensures n in emitted {
      var w :| FlatChain(q.spec, g, w) && w[0] == q.start && w[|w| - 1] == n;
      ChainStaysIn(q.spec, g, emitted, w, |w| - 1);
    }
  }

  lemma FewerToExpand(all: set<Term>, expanded: set<Term>, node: Term)
    requires node in all && node !in expanded
    ensures |all - (expanded + {node})| < |all - expanded|
  {
    assert all - (expanded + {node}) == (all - expanded) - {node};
  }

  method Traverse(g: set<Triple>, q: Query) returns (result: seq<Term>)
    ensures forall n :: n in result <==> FlatReach(q.spec, g, q.start, n)
    ensures forall i, j :: 0 <= i < j < |result| ==> result[i] != result[j]
  {
    var expanded: set<Term> := {};
    var frontier := {q.start};
    var emitted: set<Term> := {};
    ghost var all := Nodes(g) + {q.start};
    while frontier != {}
      invariant Searching(g, q, expanded, frontier, emitted)
      decreases |all - expanded|
    {
      var node :| node in frontier;
      var nexts := EdgesFrom(q.spec, g, node);
      SearchStep(g, q, expanded, frontier, emitted, node, nexts);
      FewerToExpand(all, expanded, node);
      expanded := expanded + {node};
      frontier := (frontier + nexts) - expanded;
      emitted := emitted + nexts;
    }
    SearchComplete(g, q, expanded, emitted);
    result := ListTerms(emitted);
  }

  method ListTerms(s: set<Term>) returns (r: seq<Term>)
    ensures forall n :: n in r <==> n in s
    ensures forall i, j :: 0 <= i < j < |r| ==> r[i] != r[j]
  {
    r := [];
    var todo := s;
    while todo != {}
      invariant todo <= s && forall n :: n in r <==> n in s - todo
      invariant forall i, j :: 0 <= i < j < |r| ==> r[i] != r[j]
      decreases |todo|
    {
      var n :| n in todo;
      assert n !in r && s - (todo - {n}) == (s - todo) + {n};
      r := r + [n];
      todo := todo - {n};
    }
  }

  // ---------------------------------------------------------------------------
  // The cache
  // ---------------------------------------------------------------------------

  /** How terms and predicates are written in a key. */
  datatype Keys = Keys(term: Term -> string, iri: Iri -> string)

  const NUL: char := '\0'

  function Followed(k: Keys, a: Term, rest: string): string {
    k.term(a) + [NUL] + rest
  }

  /** The key of a term shows where it ends, even if the text of a literal contains the separator;
      predicates are IRIs and cannot contain it. */
  ghost predicate GoodKeys(k: Keys) {
    (forall a, b, u, v :: Followed(k, a, u) == Followed(k, b, v) ==> a == b) && (forall a :: "" < k.term(a) && k.term(a)[0] != NUL) &&
    (forall a, b :: k.iri(a) == k.iri(b) ==> a == b) && (forall a :: NUL !in k.iri(a))
  }

  /** Keys without the separator are good. */
  lemma NulFreeKeysAreGood(k: Keys)
    requires (forall a, b :: k.term(a) == k.term(b) ==> a == b) && (forall a :: NUL !in k.term(a) && k.term(a) != "")
    requires (forall a, b :: k.iri(a) == k.iri(b) ==> a == b) && (forall a :: NUL !in k.iri(a))
    ensures GoodKeys(k)
  {
    forall a, b, u, v | Followed(k, a, u) == Followed(k, b, v) ensures a == b {
      StringOrder.FirstSeparator(NUL, k.term(a), u, k.term(b), v);
    }
    forall a ensures "" < k.term(a) && k.term(a)[0] != NUL {
      assert k.term(a)[0] in k.term(a);
    }
  }

  /** A quoted literal shows where it ends whatever its text: the quote that closes it is found, and
      what comes before the separator is its language or datatype. */
  lemma QuotedShowsItsEnd(lex: string, suffix: string, rest: string, lex': string, suffix': string, rest': string)
    requires NUL !in suffix && NUL !in suffix'
    requires "\"" + SrlRules.Escape(lex) + "\"" + (suffix + [NUL] + rest) == "\"" + SrlRules.Escape(lex') + "\"" + (suffix' + [NUL] + rest')
    ensures lex == lex' && suffix == suffix' && rest == rest'
  {
    var key := "\"" + SrlRules.Escape(lex) + "\"" + (suffix + [NUL] + rest);
    var n := QuotedEnd(key, lex, suffix + [NUL] + rest);
    var n' := QuotedEnd(key, lex', suffix' + [NUL] + rest');
    SameQuoted(key, SrlRules.Escape(lex), suffix + [NUL] + rest, SrlRules.Escape(lex'), suffix' + [NUL] + rest', '"');
    EscapeInjective(lex, lex');
    StringOrder.FirstSeparator(NUL, suffix, rest, suffix', rest');
  }

  lemma QuotedEnd(key: string, lex: string, tail: string) returns (n: nat)
    requires key == "\"" + SrlRules.Escape(lex) + "\"" + tail
    ensures n == SrlKeys.ClosingQuote(key, 1) == 1 + |SrlRules.Escape(lex)|
  {
    SrlKeys.ClosingQuoteFound("\"", lex, tail);
    n := 1 + |SrlRules.Escape(lex)|;
  }

  lemma SameQuoted(key: string, text: string, tail: string, text': string, tail': string, quote: char)
    requires key == [quote] + text + [quote] + tail == [quote] + text' + [quote] + tail' && |text| == |text'|
    ensures text == text' && tail == tail'
  {
    assert key[1..1 + |text|] == text && key[1..1 + |text|] == text';
    assert key[2 + |text|..] == tail && key[2 + |text|..] == tail';
  }

  lemma EscapeInjective(a: string, b: string)
    requires SrlRules.Escape(a) == SrlRules.Escape(b)
    ensures a == b
  {
    SrlKeys.UnescapeEscape(a);
    SrlKeys.UnescapeEscape(b);
  }

  function ContextKey(k: Keys, c: Option<Term>): string {
    if c.None? then "" else k.term(c.value)
  }

  function JoinNul(parts: seq<string>): string {
    if |parts| == 0 then "" else if |parts| == 1 then parts[0] else parts[0] + [NUL] + JoinNul(parts[1..])
  }

  function Flags(spec: FlatSpec): string {
    (if spec.inverse then "i" else "") + (if spec.negated then "n" else "")
  }

  /** MaxDepth is always 0 here. */
  function KeyParts(k: Keys, q: Query): (r: seq<string>)
    ensures |r| == 2 + |q.spec.preds|
  {
    [Flags(q.spec), "0"] + seq(|q.spec.preds|, i requires 0 <= i < |q.spec.preds| => k.iri(q.spec.preds[i]))
  }

  function ReachKey(k: Keys, q: Query): string {
    Followed(k, q.start, ContextKey(k, q.context) + [NUL] + JoinNul(KeyParts(k, q)))
  }

  ghost predicate NulFree(parts: seq<string>) {
    forall i :: 0 <= i < |parts| ==> NUL !in parts[i]
  }

  lemma JoinNulSplits(a: seq<string>)
    requires NulFree(a) && a != []
    ensures NUL in JoinNul(a) <==> |a| > 1
  {
    if |a| > 1 {
      assert JoinNul(a)[|a[0]|] == NUL;
    }
  }

  lemma {:induction false} JoinNulInjective(a: seq<string>, b: seq<string>)
    requires NulFree(a) && NulFree(b) && a != [] && b != [] && JoinNul(a) == JoinNul(b)
    ensures a == b
  {
    JoinNulSplits(a);
    JoinNulSplits(b);
    if |a| > 1 {
      StringOrder.FirstSeparator(NUL, a[0], JoinNul(a[1..]), b[0], JoinNul(b[1..]));
      JoinNulInjective(a[1..], b[1..]);
      assert a == [a[0]] + a[1..] && b == [b[0]] + b[1..];
    }
  }

  /** Different queries have different keys, so the cache never answers one with another. */
  lemma ReachKeyInjective(k: Keys, q: Query, r: Query)
    requires GoodKeys(k) && ReachKey(k, q) == ReachKey(k, r)
    ensures q == r
  {
    var a, b := JoinNul(KeyParts(k, q)), JoinNul(KeyParts(k, r));
    FollowedInjective(k, q.start, ContextKey(k, q.context) + [NUL] + a, r.start, ContextKey(k, r.context) + [NUL] + b);
    ContextInjective(k, q.context, a, r.context, b);
    PartsAreNulFree(k, q);
    PartsAreNulFree(k, r);
    JoinNulInjective(KeyParts(k, q), KeyParts(k, r));
    PartsInjective(k, q, r);
  }

  lemma FollowedInjective(k: Keys, a: Term, u: string, b: Term, v: string)
    requires GoodKeys(k) && Followed(k, a, u) == Followed(k, b, v)
    ensures a == b && u == v
  {
    var n := |k.term(a)| + 1;
    assert Followed(k, a, u)[n..] == u && Followed(k, a, v)[n..] == v;
  }

  lemma ContextInjective(k: Keys, c: Option<Term>, u: string, d: Option<Term>, v: string)
    requires GoodKeys(k) && ContextKey(k, c) + [NUL] + u == ContextKey(k, d) + [NUL] + v
    ensures c == d && u == v
  {
    var x, y := ContextKey(k, c) + [NUL] + u, ContextKey(k, d) + [NUL] + v;
    assert c.None? ==> x[0] == NUL;
    assert d.None? ==> y[0] == NUL;
    assert c.Some? ==> x[0] == k.term(c.value)[0];
    assert d.Some? ==> y[0] == k.term(d.value)[0];
    if c.Some? {
      FollowedInjective(k, c.value, u, d.value, v);
    } else {
      assert x[1..] == u && y[1..] == v;
    }
  }

  lemma PartsAreNulFree(k: Keys, q: Query)
    requires GoodKeys(k)
    ensures NulFree(KeyParts(k, q))
  {
    var a := KeyParts(k, q);
    forall i | 0 <= i < |a| ensures NUL !in a[i] {
      if i >= 2 {
        assert a[i] == k.iri(q.spec.preds[i - 2]);
      }
    }
  }

  lemma PartsInjective(k: Keys, q: Query, r: Query)
    requires GoodKeys(k) && KeyParts(k, q) == KeyParts(k, r) && q.start == r.start && q.context == r.context
    ensures q == r
  {
    var a, b := KeyParts(k, q), KeyParts(k, r);
    assert a[0] == b[0];
    FlagsInjective(q.spec, r.spec);
    PredicatesInjective(k, q, r);
  }

  lemma PredicatesInjective(k: Keys, q: Query, r: Query)
    requires GoodKeys(k) && KeyParts(k, q) == KeyParts(k, r)
    ensures q.spec.preds == r.spec.preds
  {
    var a, b := KeyParts(k, q), KeyParts(k, r);
    assert |q.spec.preds| == |a| - 2 == |b| - 2 == |r.spec.preds|;
    forall i | 0 <= i < |q.spec.preds| ensures q.spec.preds[i] == r.spec.preds[i] {
      assert a[2 + i] == k.iri(q.spec.preds[i]) && b[2 + i] == k.iri(r.spec.preds[i]);
    }
  }

  lemma FlagsInjective(a: FlatSpec, b: FlatSpec)
    requires Flags(a) == Flags(b)
    ensures a.inverse == b.inverse && a.negated == b.negated
  {
    assert a.inverse && !a.negated ==> Flags(a) == "i" && Flags(a)[0] == 'i';
    assert b.inverse && !b.negated ==> Flags(b) == "i" && Flags(b)[0] == 'i';
    assert !a.inverse && a.negated ==> Flags(a)[0] == 'n';
    assert !b.inverse && b.negated ==> Flags(b)[0] == 'n';
    assert |Flags(a)| == (if a.inverse then 1 else 0) + (if a.negated then 1 else 0);
    assert |Flags(b)| == (if b.inverse then 1 else 0) + (if b.negated then 1 else 0);
  }

  class ReachCache {
    var m: map<string, seq<Term>>

    constructor ()
      ensures m == map[]
    {
      m := map[];
    }

    /** Every cached answer is right, for whichever graph of the dataset it was asked. */
    ghost predicate Valid(k: Keys, db: Dataset)
      reads this
    {
      forall q :: ReachKey(k, q) in m ==> Answers(db, q, m[ReachKey(k, q)])
    }

    /** Answers from the cache or from the store; a refusal is not remembered. */
    method Ask(k: Keys, db: Dataset, q: Query) returns (r: Option<seq<Term>>)
      requires GoodKeys(k) && Valid(k, db)
      modifies this
      ensures Valid(k, db) && (r.Some? ==> Answers(db, q, r.value))
      ensures r.None? ==> m == old(m)
    {
      var key := ReachKey(k, q);
      if key in m {
        return Some(m[key]);
      }
      r := Reachable(db, q);
      if r.Some? {
        m := m[key := r.value];
        forall q' | ReachKey(k, q') in m ensures Answers(db, q', m[ReachKey(k, q')]) {
          if ReachKey(k, q') == key {
            ReachKeyInjective(k, q', q);
          }
        }
      }
    }
  }

  /** What a path evaluation works with: the store, whether it can answer reachability queries,
      and the cache of its answers. */
  class Backend {
    const db: Dataset
    const pushes: bool
    const keys: Keys
    const cache: ReachCache

    constructor (db: Dataset, pushes: bool, keys: Keys, cache: ReachCache)
      ensures this.db == db && this.pushes == pushes && this.keys == keys && this.cache == cache
    {
      this.db, this.pushes, this.keys, this.cache := db, pushes, keys, cache;
    }

    /** `g` is the graph named `c`, and the cache, if used, holds only right answers. */
    ghost predicate Ready(g: set<Triple>, c: Option<Term>)
      reads cache
    {
      g == db(c) && (pushes ==> GoodKeys(keys) && cache.Valid(keys, db))
    }
  }

  // ---------------------------------------------------------------------------
  // The pushdown
  // ---------------------------------------------------------------------------

  function Flipped(spec: FlatSpec): FlatSpec {
    spec.(inverse := !spec.inverse)
  }

  /** The pairs a pushed-down repetition emits. */
  ghost predicate Pushed(spec: FlatSpec, g: set<Triple>, subj: Option<Term>, obj: Option<Term>, s: Term, o: Term) {
    if subj.Some? then s == subj.value && Fits(obj, o) && FlatReach(spec, g, s, o)
    else obj.Some? && o == obj.value && FlatReach(Flipped(spec), g, o, s)
  }

  /** Emits the pairs at distance one or more, or emits nothing and declines. */
  method EvalViaStore(p: Path, g: set<Triple>, st: Backend, c: Option<Term>, subj: Option<Term>, obj: Option<Term>, was: seq<Pair>)
    returns (handled: bool, out: seq<Pair>)
    requires p.Repeat? && st.Ready(g, c) && Distinct(was)
    modifies st.cache
    ensures st.Ready(g, c) && Distinct(out) && (!handled ==> out == was)
    ensures handled ==> st.pushes && p.more && Flatten(p.arg).Some? && (subj.Some? || obj.Some?)
    ensures handled ==> forall s, o :: (s, o) in out <==> (s, o) in was || Pushed(Flatten(p.arg).value, g, subj, obj, s, o)
  {
    handled, out := false, was;
    var flat := Flatten(p.arg);
    if !p.more || !st.pushes || flat.None? || (subj.None? && obj.None?) {
      return;
    }
    var q := if subj.Some? then Query(subj.value, flat.value, c) else Query(obj.value, Flipped(flat.value), c);
    var reached := st.cache.Ask(st.keys, st.db, q);
    if reached.None? {
      return;
    }
    handled := true;
    if subj.Some? {
      out := EmitForward(subj.value, obj, reached.value, was);
    } else {
      out := EmitBackward(obj.value, reached.value, was);
    }
  }

  method EmitForward(a: Term, obj: Option<Term>, reached: seq<Term>, was: seq<Pair>) returns (out: seq<Pair>)
    requires Distinct(was)
    ensures Distinct(out) && forall s, o :: (s, o) in out <==> (s, o) in was || (s == a && Fits(obj, o) && o in reached)
  {
    out := was;
    for i := 0 to |reached|
      invariant Distinct(out) && forall s, o :: (s, o) in out <==> (s, o) in was || (s == a && Fits(obj, o) && o in reached[..i])
    {
      assert reached[..i + 1] == reached[..i] + [reached[i]];
      if Fits(obj, reached[i]) {
        out := Emit(out, (a, reached[i]));
      }
    }
    assert reached[..|reached|] == reached;
  }

  method EmitBackward(b: Term, reached: seq<Term>, was: seq<Pair>) returns (out: seq<Pair>)
    requires Distinct(was)
    ensures Distinct(out) && forall s, o :: (s, o) in out <==> (s, o) in was || (o == b && s in reached)
  {
    out := was;
    for i := 0 to |reached|
      invariant Distinct(out) && forall s, o :: (s, o) in out <==> (s, o) in was || (o == b && s in reached[..i])
    {
      assert reached[..i + 1] == reached[..i] + [reached[i]];
      out := Emit(out, (reached[i], b));
    }
    assert reached[..|reached|] == reached;
  }

  lemma FlatChainIsChain(p: Path, g: set<Triple>, w: seq<Term>)
    requires Flatten(p).Some?
    ensures FlatChain(Flatten(p).value, g, w) <==> RelChain(p, g, w)
  {
    forall s, o ensures FlatEdge(Flatten(p).value, g, s, o) <==> Rel(p, g, s, o) {
      FlattenPreserves(p, g, s, o);
    }
  }

  lemma FlatReachIsChained(p: Path, g: set<Triple>, a: Term, b: Term)
    requires Flatten(p).Some?
    ensures FlatReach(Flatten(p).value, g, a, b) <==> Chained(p, g, a, b)
  {
    forall w ensures FlatChain(Flatten(p).value, g, w) <==> RelChain(p, g, w) {
      FlatChainIsChain(p, g, w);
    }
  }

  /** Turning the specification round turns the reached pairs round. */
  lemma FlippedReach(spec: FlatSpec, g: set<Triple>, a: Term, b: Term)
    requires FlatReach(spec, g, a, b)
    ensures FlatReach(Flipped(spec), g, b, a)
  {
    var w :| FlatChain(spec, g, w) && w[0] == a && w[|w| - 1] == b;
    FlipChain(spec, g, w);
  }

  lemma FlipChain(spec: FlatSpec, g: set<Triple>, w: seq<Term>)
    requires FlatChain(spec, g, w)
    ensures FlatChain(Flipped(spec), g, Reversed(w))
  {
    var v := Reversed(w);
    forall i | 0 <= i < |v| - 1 ensures FlatEdge(Flipped(spec), g, v[i], v[i + 1]) {
      var j := |w| - 2 - i;
      assert FlatEdge(spec, g, w[j], w[j + 1]);
      FlipEdge(spec, g, w[j + 1], w[j]);
    }
  }

  /** Where the endpoints fit and no two steps meet in a literal, the pushdown emits what the
      local traversal would: the two may stand in for each other at any time, a store declining
      included. */
  lemma PushedIsReach(p: Path, g: set<Triple>, subj: Option<Term>, obj: Option<Term>, s: Term, o: Term)
    requires p.Repeat? && p.more && Flatten(p.arg).Some? && Fitting(p, g, subj, obj)
    ensures Pushed(Flatten(p.arg).value, g, subj, obj, s, o) <==>
      if subj.Some? then s == subj.value && Fits(obj, o) && Forward(p.arg, g, true, s, o)
      else obj.Some? && o == obj.value && Backward(p.arg, g, true, o, s)
  {
    var spec := Flatten(p.arg).value;
    FlatReachIsChained(p.arg, g, s, o);
    FlippedBothWays(spec, g, s, o);
    if subj.Some? && s == subj.value {
      ForwardIsRel(p.arg, g, true, s, o);
    } else if subj.None? && obj.Some? && o == obj.value {
      BackwardIsRel(p.arg, g, true, o, s);
    }
  }

  lemma FlippedBothWays(spec: FlatSpec, g: set<Triple>, a: Term, b: Term)
    ensures FlatReach(Flipped(spec), g, b, a) <==> FlatReach(spec, g, a, b)
  {
    if FlatReach(spec, g, a, b) {
      FlippedReach(spec, g, a, b);
    }
    if FlatReach(Flipped(spec), g, b, a) {
      FlippedReach(Flipped(spec), g, b, a);
      assert Flipped(Flipped(spec)) == spec;
    }
  }

  lemma InverseLinkFlattens(p: Iri)
    ensures Flatten(Inverse(Link(p))) == Some(FlatSpec([p], true, false))
  {
    assert Flatten(Link(p)) == Some(FlatSpec([p], false, false));
  }

  /** The pairs the local traversal emits from the bound end. */
  ghost predicate Walked(arg: Path, g: set<Triple>, subj: Option<Term>, obj: Option<Term>, s: Term, o: Term) {
    if subj.Some? then s == subj.value && Fits(obj, o) && Forward(arg, g, true, s, o)
    else obj.Some? && o == obj.value && Backward(arg, g, true, o, s)
  }

  /** It makes no difference whether the store answers or declines: for every repetition that can
      be pushed down and all endpoints, unbound or in the graph, the pairs are the same. */
  ghost predicate PushdownAgrees(g: set<Triple>) {
    forall arg, subj, obj, s, o {:trigger Walked(arg, g, subj, obj, s, o)} ::
      Flatten(arg).Some? && EndOk(g, subj) && EndOk(g, obj) && !IsLiteral(subj) ==>
        (Pushed(Flatten(arg).value, g, subj, obj, s, o) <==> Walked(arg, g, subj, obj, s, o))
  }

  /** That is so exactly on graphs without literals. */
  lemma PushdownAgreesIffLiteralFree(g: set<Triple>)
    requires forall t :: t in g ==> IsSubject(t.s)
    ensures PushdownAgrees(g) <==> LiteralFree(g)
  {
    if LiteralFree(g) {
      forall arg, subj, obj, s, o | Flatten(arg).Some? && EndOk(g, subj) && EndOk(g, obj)
        ensures Pushed(Flatten(arg).value, g, subj, obj, s, o) <==> Walked(arg, g, subj, obj, s, o)
      {
        var p := Repeat(arg, false, true);
        LiteralFreeFits(p, g, subj, obj);
        PushedIsReach(p, g, subj, obj, s, o);
      }
    } else {
      var l :| l in Nodes(g) && !IsSubject(l);
      var t :| t in g && (t.s == l || t.o == l);
      assert t == Triple(t.s, t.p, l);
      LiteralGoesRound(g, t.s, t.p, l);
      assert Walked(Inverse(Link(t.p)), g, None, Some(l), l, l);
    }
  }

  /** A literal object reaches itself over an inverse step, locally but not in the store. */
  lemma LiteralGoesRound(g: set<Triple>, s: Term, p: Iri, l: Term)
    requires (forall t :: t in g ==> IsSubject(t.s)) && Triple(s, p, l) in g && !IsSubject(l)
    ensures var arg := Inverse(Link(p));
      Flatten(arg).Some? && Backward(arg, g, true, l, l) && !Pushed(Flatten(arg).value, g, None, Some(l), l, l)
  {
    var arg := Inverse(Link(p));
    assert Yields(Link(p), g, None, None, s, l);
    assert Yields(arg, g, None, Some(l), l, s);
    assert StepTo(arg, g, l, l);
    var w := [l, l];
    assert WalkTo(arg, g, w) && w[0] == l && w[|w| - 1] == l;
    InverseLinkFlattens(p);
    var spec := Flipped(Flatten(arg).value);
    assert forall b :: !FlatEdge(spec, g, l, b);
    NothingReached(spec, g, l, l);
  }

  /** With literals the two differ: asked for what reaches a literal over an inverse step, the
      local traversal forgets the literal and answers with the others, the store does not. */
  lemma PushdownDiffersAtLiterals(s: Term, p: Iri, l: Term, m: Term)
    requires IsSubject(s) && !IsSubject(l) && !IsSubject(m) && l != m
    ensures var g := {Triple(s, p, l), Triple(s, p, m)};
      var arg := Inverse(Link(p));
      Flatten(arg).Some? && Backward(arg, g, true, l, m) && !Pushed(Flatten(arg).value, g, None, Some(l), m, l)
  {
    var g := {Triple(s, p, l), Triple(s, p, m)};
    var arg := Inverse(Link(p));
    assert Yields(Link(p), g, None, None, s, m);
    assert Yields(arg, g, None, Some(l), m, s);
    assert StepTo(arg, g, l, m);
    var w := [l, m];
    assert WalkTo(arg, g, w) && w[0] == l && w[|w| - 1] == m;
    InverseLinkFlattens(p);
    var spec := Flipped(Flatten(arg).value);
    assert forall b :: !FlatEdge(spec, g, l, b);
    NothingReached(spec, g, l, m);
  }

  lemma NothingReached(spec: FlatSpec, g: set<Triple>, a: Term, b: Term)
    requires forall c :: !FlatEdge(spec, g, a, c)
    ensures !FlatReach(spec, g, a, b)
  {
    forall w | FlatChain(spec, g, w) ensures w[0] != a {
      assert FlatEdge(spec, g, w[0], w[0 + 1]);
    }
  }
}

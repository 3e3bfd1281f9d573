/** Evaluating a rule set over a graph of terms: the terms go into the engine as keys, and the
    keys it adds are decoded and written to the graph that is returned (shacl/srl_eval.go,
    shacl/rdf.go). */
module SrlGraphs {
  import opened Common
  import opened Stratification
  import opened SrlRules
  import opened SrlKeys
  import opened SrlModels
  import opened SrlBounds
  import opened SrlEngine
  import opened SrlTerms
  import opened SrlKinds

  /** `Panics` is the panic on a subject that is a literal, or on a key without its closing quote,
      which only BIND can have made. */
  datatype Result = Refused | Panics | Inferred(added: set<DataTriple>)

  function EncodeTriple(t: DataTriple): Ground {
    Ground(Encode(t.s), Encode(t.p), Encode(t.o))
  }

  function Encoded(ts: set<DataTriple>): set<Ground> {
    set t | t in ts :: EncodeTriple(t)
  }

  function DecodeTriple(g: Ground): Option<DataTriple> {
    match (Decode(g.s), Decode(g.p), Decode(g.o))
    case (Some(s), Some(p), Some(o)) => Some(DataTriple(s, p, o))
    case _ => None
  }

  /** The key of some term of a data graph. */
  ghost predicate IsKey(key: string) {
    exists d :: Encode(d) == key
  }

  ghost predicate AreKeys(g: Ground) {
    IsKey(g.s) && IsKey(g.p) && IsKey(g.o)
  }

  lemma KeyReturns(key: string)
    requires IsKey(key)
    ensures Decode(key).Some? && Encode(Decode(key).value) == key
  {
    var d :| Encode(d) == key;
    RoundTrip(d);
    assert Encode(Canonical(d)) == Encode(d);
  }

  lemma TripleReturns(g: Ground)
    requires AreKeys(g)
    ensures DecodeTriple(g).Some? && EncodeTriple(DecodeTriple(g).value) == g
  {
    KeyReturns(g.s);
    KeyReturns(g.p);
    KeyReturns(g.o);
  }

  // ---------------------------------------------------------------------------
  // Rules whose constants are terms of a data graph
  // ---------------------------------------------------------------------------

  predicate IsTerm(t: Term) {
    t.Variable? || Constant(t).Some?
  }

  predicate IsTermPattern(p: Pattern) {
    IsTerm(p.s) && IsTerm(p.p) && IsTerm(p.o)
  }

  predicate IsGround(p: Pattern) {
    Constant(p.s).Some? && Constant(p.p).Some? && Constant(p.o).Some?
  }

  /** No triple terms in heads and DATA blocks, and no variables in the latter. */
  predicate PlainTerms(rules: seq<Rule>, blocks: seq<seq<Pattern>>) {
    (forall i :: 0 <= i < |rules| ==> forall k :: 0 <= k < |rules[i].head| ==> IsTermPattern(rules[i].head[k])) &&
    (forall i :: 0 <= i < |blocks| ==> forall k :: 0 <= k < |blocks[i]| ==> IsGround(blocks[i][k]))
  }

  lemma ConstantIsKey(t: Term)
    requires Constant(t).Some?
    ensures IsKey(TermKey(t))
  {
    assert TermKey(t) == Encode(Constant(t).value);
  }

  lemma {:induction false} PatternsAreKeys(ps: seq<Pattern>)
    requires forall k :: 0 <= k < |ps| ==> IsGround(ps[k])
    ensures forall g :: g in PatternKeys(ps) ==> AreKeys(g)
  {
    if ps != [] {
      PatternsAreKeys(ps[..|ps| - 1]);
      var p := ps[|ps| - 1];
      ConstantIsKey(p.s);
      ConstantIsKey(p.p);
      ConstantIsKey(p.o);
    }
  }

  lemma {:induction false} BlocksAreKeys(blocks: seq<seq<Pattern>>)
    requires forall i :: 0 <= i < |blocks| ==> forall k :: 0 <= k < |blocks[i]| ==> IsGround(blocks[i][k])
    ensures forall g :: g in BlockTriples(blocks) ==> AreKeys(g)
  {
    if blocks != [] {
      BlocksAreKeys(blocks[..|blocks| - 1]);
      PatternsAreKeys(blocks[|blocks| - 1]);
    }
  }

  lemma KeysOfAreKeys(rules: seq<Rule>, blocks: seq<seq<Pattern>>, data: set<Ground>)
    requires PlainTerms(rules, blocks) && forall g :: g in data ==> AreKeys(g)
    ensures forall key :: key in KeysOf(rules, data) ==> IsKey(key)
  {
    forall key | key in HeadKeys(rules) ensures IsKey(key) {
      var i, k :| 0 <= i < |rules| && 0 <= k < |rules[i].head| && key in PatternConstants(rules[i].head[k]);
      var p := rules[i].head[k];
      assert IsTermPattern(p);
      var t :| t in {p.s, p.p, p.o} && key in TermKeys(t);
      ConstantIsKey(t);
    }
  }

  lemma DataAreKeys(data: set<DataTriple>)
    ensures forall g :: g in Encoded(data) ==> AreKeys(g)
  {
  }

  /** Without BIND every triple the engine holds at the end decodes to the term triple it
      encodes. */
  lemma RunAreKeys(x: Expressions, rules: seq<Rule>, blocks: seq<seq<Pattern>>, level: Level, data: set<DataTriple>, s: nat)
    requires BindFree(rules) && PlainTerms(rules, blocks)
    ensures forall g :: g in CappedRun(x, rules, level, Lift(Encoded(data) + BlockTriples(blocks)), s) ==> AreKeys(g)
  {
    var all := Encoded(data) + BlockTriples(blocks);
    DataAreKeys(data);
    BlocksAreKeys(blocks);
    KeysOfAreKeys(rules, blocks, all);
    BindFreeStays(x, rules, all);
    CappedRunOver(x, rules, level, all, KeysOf(rules, all), s);
  }

  // ---------------------------------------------------------------------------
  // Writing what was inferred
  // ---------------------------------------------------------------------------

  /** The labels of blank nodes that are written without one, by triple and position. */
  type NewLabels = (Ground, bool) -> string

  ghost predicate AreLabels(newLabel: NewLabels) {
    forall g, o :: newLabel(g, o) != ""
  }

  /** The triple can be decoded and its subject is no literal. */
  predicate Writable(g: Ground) {
    DecodeTriple(g).Some? && !DecodeTriple(g).value.s.LiteralTerm?
  }

  function Written(newLabel: NewLabels, g: Ground): DataTriple
    requires Writable(g)
  {
    StoredTriple(DecodeTriple(g).value, newLabel(g, false), newLabel(g, true)).value
  }

  predicate SubjectKey(key: string) {
    Decode(key).Some? && Encode(Decode(key).value) == key && SubjectKept(Decode(key).value)
  }

  predicate PredicateKey(key: string) {
    Decode(key).Some? && Encode(Decode(key).value) == key && Decode(key).value.IriTerm?
  }

  predicate ObjectKey(key: string) {
    Decode(key).Some? && Encode(Decode(key).value) == key && ObjectKept(Decode(key).value)
  }

  /** Keys of a triple that RDF allows, whose literal has a language tag the library knows. */
  predicate Kept(g: Ground) {
    SubjectKey(g.s) && PredicateKey(g.p) && ObjectKey(g.o)
  }

  lemma DecodedIsCanonical(key: string)
    requires Decode(key).Some? && Encode(Decode(key).value) == key
    ensures Decode(key).value == Canonical(Decode(key).value)
  {
    RoundTrip(Decode(key).value);
  }

  /** A kept triple is written as it is. */
  lemma KeptIsWritten(newLabel: NewLabels, g: Ground)
    requires Kept(g) && AreLabels(newLabel)
    ensures Writable(g) && EncodeTriple(Written(newLabel, g)) == g
  {
    DecodedIsCanonical(g.s);
    DecodedIsCanonical(g.p);
    DecodedIsCanonical(g.o);
    TripleKeptIff(DecodeTriple(g).value, newLabel(g, false), newLabel(g, true));
  }

  lemma CanonicalKept(t: DataTerm)
    ensures ObjectKept(t) ==> ObjectKey(Encode(t))
    ensures SubjectKept(t) ==> SubjectKey(Encode(t))
    ensures t.IriTerm? ==> PredicateKey(Encode(t))
  {
    RoundTrip(t);
    assert Encode(Canonical(t)) == Encode(t);
  }

  lemma KeptTripleHasKeptKeys(t: DataTriple)
    requires TripleKept(t)
    ensures Kept(EncodeTriple(t))
  {
    CanonicalKept(t.s);
    CanonicalKept(t.p);
    CanonicalKept(t.o);
  }

  /** Whatever is written is a kept triple, so a triple that is not kept is lost. */
  lemma WrittenIsKept(newLabel: NewLabels, g: Ground)
    requires Writable(g) && AreLabels(newLabel)
    ensures Kept(EncodeTriple(Written(newLabel, g)))
  {
    StoredTripleIsKept(DecodeTriple(g).value, newLabel(g, false), newLabel(g, true));
    KeptTripleHasKeptKeys(Written(newLabel, g));
  }

  /** All of `keys` is written, in any order, unless one of them cannot be. */
  method WriteAll(keys: set<Ground>, newLabel: NewLabels) returns (r: Option<set<DataTriple>>)
    ensures r.Some? <==> forall g :: g in keys ==> Writable(g)
    ensures r.Some? ==> r.value == set g | g in keys :: Written(newLabel, g)
  {
    var todo := keys;
    var out: set<DataTriple> := {};
    while todo != {}
      invariant todo <= keys && forall g :: g in keys - todo ==> Writable(g)
      invariant out == set g | g in keys - todo :: Written(newLabel, g)
      decreases |todo|
    {
      var g :| g in todo;
      if !Writable(g) {
        return None;
      }
      assert keys - (todo - {g}) == (keys - todo) + {g};
      todo, out := todo - {g}, out + {Written(newLabel, g)};
    }
    assert keys - todo == keys;
    r := Some(out);
  }

  /** With the data, what was written encodes to what was inferred exactly when every inferred
      triple is kept. */
  lemma WrittenAllIff(data: set<Ground>, keys: set<Ground>, newLabel: NewLabels, out: set<DataTriple>)
    requires data !! keys && AreLabels(newLabel)
    requires (forall g :: g in keys ==> Writable(g)) && out == set g | g in keys :: Written(newLabel, g)
    ensures data + Encoded(out) == data + keys <==> forall g :: g in keys ==> Kept(g)
  {
    forall h | h in Encoded(out) ensures Kept(h) {
      var t :| t in out && EncodeTriple(t) == h;
      var g :| g in keys && Written(newLabel, g) == t;
      WrittenIsKept(newLabel, g);
    }
    if g :| g in keys && !Kept(g) {
      assert g !in data + Encoded(out);
    } else {
      AllWritten(keys, newLabel, out);
    }
  }

  lemma AllWritten(keys: set<Ground>, newLabel: NewLabels, out: set<DataTriple>)
    requires AreLabels(newLabel) && forall g :: g in keys ==> Kept(g) && Writable(g)
    requires out == set g | g in keys :: Written(newLabel, g)
    ensures Encoded(out) == keys
  {
    forall g | g in keys ensures EncodeTriple(Written(newLabel, g)) == g {
      KeptIsWritten(newLabel, g);
    }
    forall g | g in keys ensures g in Encoded(out) {
      assert Written(newLabel, g) in out;
    }
  }

  // ---------------------------------------------------------------------------
  // The entry point
  // ---------------------------------------------------------------------------

  /** `keys` are the triples in the engine at the end that are not in the data graph. */
  ghost predicate Adds(x: Expressions, rules: seq<Rule>, blocks: seq<seq<Pattern>>, data: set<DataTriple>, keys: set<Ground>) {
    WellFormed(DepsOf(rules)) && Levels(DepsOf(rules)).Accepted? && Encoded(data) !! keys &&
    var level := Levels(DepsOf(rules)).level;
    Lift(Encoded(data) + keys) == CappedRun(x, rules, level, Lift(Encoded(data) + BlockTriples(blocks)), Top(level))
  }

  predicate AllWritable(keys: set<Ground>) {
    forall g :: g in keys ==> Writable(g)
  }

  predicate AllKept(keys: set<Ground>) {
    forall g :: g in keys ==> Kept(g)
  }

  predicate LiteralSubject(g: Ground) {
    Decode(g.s).Some? && Decode(g.s).value.LiteralTerm?
  }

  /** The engine is sure to find the model, as a caller can check beforehand. */
  ghost predicate ModelIsSure(rules: seq<Rule>, blocks: seq<seq<Pattern>>, data: set<DataTriple>) {
    !HasNotCycle(DepsOf(rules)) && AllAnalysable(rules) && SurelySettles(rules, Encoded(data) + BlockTriples(blocks))
  }

  /** What is promised of the terms returned: with the data they encode to the one stable model
      of the rules over the data. */
  ghost predicate CompletesModel(x: Expressions, rules: seq<Rule>, blocks: seq<seq<Pattern>>, data: set<DataTriple>, r: Result) {
    r.Inferred? &&
    OnlyStableModel(x, rules, Lift(Encoded(data) + BlockTriples(blocks)), Lift(Encoded(data) + Encoded(r.added)))
  }

  function KeptKinds(): Kinds {
    Kinds(SubjectKey, PredicateKey, ObjectKey)
  }

  /** All triples derived can be written, as a caller can check beforehand: there is no BIND, the
      data and the DATA blocks are RDF, and heads take subjects from subjects and predicates from
      predicates. */
  predicate StaysRdf(rules: seq<Rule>, blocks: seq<seq<Pattern>>, data: set<DataTriple>) {
    RulesKeep(KeptKinds(), rules) && forall g :: g in Encoded(data) + BlockTriples(blocks) ==> Kept(g)
  }

  lemma StaysRdfKeeps(x: Expressions, rules: seq<Rule>, blocks: seq<seq<Pattern>>, level: Level, data: set<DataTriple>, s: nat)
    requires StaysRdf(rules, blocks, data)
    ensures forall g :: g in CappedRun(x, rules, level, Lift(Encoded(data) + BlockTriples(blocks)), s) ==> Kept(g)
  {
    var kinds, start := KeptKinds(), Lift(Encoded(data) + BlockTriples(blocks));
    forall g | g in start ensures kinds.Has(g) {
      assert Kept(g);
    }
    RunKinds(x, kinds, rules, level, start, s);
    forall g | g in CappedRun(x, rules, level, start, s) ensures Kept(g) {
      assert kinds.Has(g);
    }
  }

  /** Where it is sure to, the engine finds the model. */
  lemma SureModel(x: Expressions, rules: seq<Rule>, blocks: seq<seq<Pattern>>, data: set<DataTriple>, keys: set<Ground>)
    requires ModelIsSure(rules, blocks, data) && Adds(x, rules, blocks, data, keys)
    ensures OnlyStableModel(x, rules, Lift(Encoded(data) + BlockTriples(blocks)), Lift(Encoded(data) + keys))
  {
    LevelsCorrectIffNoNotCycle(DepsOf(rules));
    RunIsModel(x, rules, Levels(DepsOf(rules)).level, Encoded(data) + BlockTriples(blocks), false);
  }

  /** So whatever follows from its result is in it. */
  lemma DerivedIsAdded(x: Expressions, rules: seq<Rule>, blocks: seq<seq<Pattern>>, data: set<DataTriple>, keys: set<Ground>, i: nat, g: Ground)
    requires ModelIsSure(rules, blocks, data) && Adds(x, rules, blocks, data, keys) && g !in Encoded(data) && i < |rules|
    requires var model := Lift(Encoded(data) + keys); Derives(x, rules[i], model, model, g)
    ensures g in keys
  {
    SureModel(x, rules, blocks, data, keys);
    assert i in Indices(|rules|) && g in Lift(Encoded(data) + keys);
  }

  /** Without BIND the only thing that cannot be written is a literal as a subject. */
  lemma WritableIff(x: Expressions, rules: seq<Rule>, blocks: seq<seq<Pattern>>, data: set<DataTriple>, keys: set<Ground>)
    requires BindFree(rules) && PlainTerms(rules, blocks) && Adds(x, rules, blocks, data, keys)
    ensures AllWritable(keys) <==> forall g :: g in keys ==> !LiteralSubject(g)
  {
    var level := Levels(DepsOf(rules)).level;
    RunAreKeys(x, rules, blocks, level, data, Top(level));
    forall g | g in keys ensures Writable(g) <==> !LiteralSubject(g) {
      assert g in Lift(Encoded(data) + keys);
      TripleReturns(g);
    }
  }

  /** The graph written completes the model exactly when every inferred triple is kept. */
  lemma CompletesIff(x: Expressions, rules: seq<Rule>, blocks: seq<seq<Pattern>>, data: set<DataTriple>, keys: set<Ground>,
                     newLabel: NewLabels, r: Result)
    requires Encoded(data) !! keys && AreLabels(newLabel) && Writes(keys, newLabel, r)
    requires OnlyStableModel(x, rules, Lift(Encoded(data) + BlockTriples(blocks)), Lift(Encoded(data) + keys))
    ensures CompletesModel(x, rules, blocks, data, r) <==> AllKept(keys)
  {
    if r.Inferred? {
      WrittenAllIff(Encoded(data), keys, newLabel, r.added);
      LiftInjective(Encoded(data) + keys, Encoded(data) + Encoded(r.added));
    } else {
      var g :| g in keys && !Writable(g);
      assert Kept(g) ==> Writable(g);
    }
  }

  /** What writing `keys` comes to. */
  ghost predicate Writes(keys: set<Ground>, newLabel: NewLabels, r: Result) {
    if AllWritable(keys) then r == Inferred(set g | g in keys :: Written(newLabel, g)) else r == Panics
  }

  lemma LiftInjective(a: set<Ground>, b: set<Ground>)
    ensures Lift(a) == Lift(b) <==> a == b
  {
    if Lift(a) == Lift(b) {
      forall g ensures g in a <==> g in b {
        assert g in Lift(a) <==> g in Lift(b);
      }
    }
  }

  /** A graph is returned exactly when every inferred triple can be written, which without BIND
      means that none has a literal as its subject. Where the engine is sure to find the model,
      the graph completes it exactly when every inferred triple is kept, and that is sure when
      rules and data stay RDF. */
  method EvalRuleSet(x: Expressions, rules: seq<Rule>, blocks: seq<seq<Pattern>>, data: set<DataTriple>, newLabel: NewLabels)
    returns (r: Result, ghost keys: set<Ground>)
    requires AreLabels(newLabel)
    ensures WellFormed(DepsOf(rules))
    ensures r.Refused? <==> Levels(DepsOf(rules)).NotStratifiable?
    ensures !r.Refused? ==> Adds(x, rules, blocks, data, keys) && Writes(keys, newLabel, r)
    ensures !r.Refused? && BindFree(rules) && PlainTerms(rules, blocks) ==>
      (r.Inferred? <==> forall g :: g in keys ==> !LiteralSubject(g))
    ensures ModelIsSure(rules, blocks, data) ==>
      !r.Refused? && (CompletesModel(x, rules, blocks, data, r) <==> AllKept(keys))
    ensures ModelIsSure(rules, blocks, data) && StaysRdf(rules, blocks, data) ==> CompletesModel(x, rules, blocks, data, r)
  {
    keys := {};
    var engine := new Engine(x);
    var inferred, uncut := engine.Evaluate(rules, Encoded(data), blocks);
    if inferred.None? {
      return Refused, {};
    }
    keys := inferred.value;
    assert Encoded(data) + keys == engine.triples;
    assert Adds(x, rules, blocks, data, keys);
    var added := WriteAll(inferred.value, newLabel);
    r := if added.None? then Panics else Inferred(added.value);
    Conclude(x, rules, blocks, data, keys, newLabel, r);
  }

  lemma Conclude(x: Expressions, rules: seq<Rule>, blocks: seq<seq<Pattern>>, data: set<DataTriple>, keys: set<Ground>,
                 newLabel: NewLabels, r: Result)
    requires Adds(x, rules, blocks, data, keys) && AreLabels(newLabel) && Writes(keys, newLabel, r)
    ensures BindFree(rules) && PlainTerms(rules, blocks) ==> (r.Inferred? <==> forall g :: g in keys ==> !LiteralSubject(g))
    ensures ModelIsSure(rules, blocks, data) ==> (CompletesModel(x, rules, blocks, data, r) <==> AllKept(keys))
    ensures StaysRdf(rules, blocks, data) ==> AllKept(keys)
  {
    if BindFree(rules) && PlainTerms(rules, blocks) {
      WritableIff(x, rules, blocks, data, keys);
    }
    if ModelIsSure(rules, blocks, data) {
      SureModel(x, rules, blocks, data, keys);
      CompletesIff(x, rules, blocks, data, keys, newLabel, r);
    }
    if StaysRdf(rules, blocks, data) {
      var level := Levels(DepsOf(rules)).level;
      StaysRdfKeeps(x, rules, blocks, level, data, Top(level));
      assert forall g :: g in keys ==> g in Lift(Encoded(data) + keys);
    }
  }
}

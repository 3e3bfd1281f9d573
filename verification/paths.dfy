/** SPARQL property paths: what a path means, and what evaluating it yields
    (paths/paths.go). */
module Paths {
  import opened Common
  import opened Closures

  datatype Path =
    | Link(iri: Iri)
    | Inverse(arg: Path)
    | Sequence(args: seq<Path>)
    | Alternative(args: seq<Path>)
    | Repeat(arg: Path, zero: bool, more: bool)
    | Negated(excluded: seq<Iri>)

  predicate Fits(end: Option<Term>, t: Term) {
    end.None? || end.value == t
  }

  // ---------------------------------------------------------------------------
  // The relation a path denotes (section 18.4 of SPARQL 1.1 Query)
  // ---------------------------------------------------------------------------

  ghost predicate Rel(p: Path, g: set<Triple>, s: Term, o: Term)
    decreases p, 1
  {
    match p
    case Link(iri) => Triple(s, iri, o) in g
    case Negated(excluded) => exists q :: q !in excluded && Triple(s, q, o) in g
    case Inverse(arg) => Rel(arg, g, o, s)
    case Sequence(args) => RelSeq(args, g, s, o)
    case Alternative(args) => exists i :: 0 <= i < |args| && Rel(args[i], g, s, o)
    case Repeat(arg, zero, more) =>
      || (zero && s == o && s in Nodes(g))
      || (!more && Rel(arg, g, s, o))
      || (more && exists w :: RelChain(arg, g, w) && w[0] == s && w[|w| - 1] == o)
  }

  ghost predicate RelSeq(args: seq<Path>, g: set<Triple>, s: Term, o: Term)
    decreases args, 0
  {
    if |args| == 0 then false
    else if |args| == 1 then Rel(args[0], g, s, o)
    else exists m :: Rel(args[0], g, s, m) && RelSeq(args[1..], g, m, o)
  }

  /** One or more steps. */
  ghost predicate RelChain(arg: Path, g: set<Triple>, w: seq<Term>)
    decreases arg, 2
  {
    |w| >= 2 && forall i :: 0 <= i < |w| - 1 ==> Rel(arg, g, w[i], w[i + 1])
  }

  // ---------------------------------------------------------------------------
  // The pairs evaluation yields, on any graph
  // ---------------------------------------------------------------------------

  /** An object as a subject: `eval` of an inverse path drops a literal here. */
  function AsSubject(end: Option<Term>): Option<Term> {
    if end.Some? && IsSubject(end.value) then end else None
  }

  ghost predicate Yields(p: Path, g: set<Triple>, subj: Option<Term>, obj: Option<Term>, s: Term, o: Term)
    decreases p, 1
  {
    match p
    case Link(iri) => Triple(s, iri, o) in g && Fits(subj, s) && Fits(obj, o)
    case Negated(excluded) => (exists q :: q !in excluded && Triple(s, q, o) in g) && Fits(subj, s) && Fits(obj, o)
    case Inverse(arg) => Yields(arg, g, AsSubject(obj), subj, o, s)
    case Sequence(args) => YieldsSeq(args, g, subj, obj, s, o)
    case Alternative(args) => exists i :: 0 <= i < |args| && Yields(args[i], g, subj, obj, s, o)
    case Repeat(arg, zero, more) =>
      match (subj, obj)
      case (Some(a), _) =>
        s == a && Fits(obj, o) && ((zero && o == a) || Forward(arg, g, more, a, o))
      case (None, Some(b)) =>
        o == b && ((zero && s == b) || Backward(arg, g, more, b, s))
      case (None, None) =>
        s in Nodes(g) && ((zero && s == o) || (IsSubject(s) && Forward(arg, g, more, s, o)))
  }

  ghost predicate YieldsSeq(args: seq<Path>, g: set<Triple>, subj: Option<Term>, obj: Option<Term>, s: Term, o: Term)
    decreases args, 0
  {
    if |args| == 0 then false
    else if |args| == 1 then Yields(args[0], g, subj, obj, s, o)
    else exists m, x :: IsSubject(m) && Yields(args[0], g, subj, None, s, m) && YieldsSeq(args[1..], g, Some(m), obj, x, o)
  }

  /** One step of the forward traversal from a node. */
  ghost predicate StepFrom(arg: Path, g: set<Triple>, a: Term, b: Term)
    decreases arg, 2
  {
    exists x :: Yields(arg, g, Some(a), None, x, b)
  }

  /** One step of the backward traversal to a node. */
  ghost predicate StepTo(arg: Path, g: set<Triple>, b: Term, a: Term)
    decreases arg, 2
  {
    exists y :: Yields(arg, g, None, Some(b), a, y)
  }

  /** A walk of the forward traversal; it never continues from a literal. */
  ghost predicate WalkFrom(arg: Path, g: set<Triple>, w: seq<Term>)
    decreases arg, 3
  {
    |w| >= 2 && (forall i :: 0 <= i < |w| - 1 ==> StepFrom(arg, g, w[i], w[i + 1])) &&
    forall i :: 0 < i < |w| - 1 ==> IsSubject(w[i])
  }

  ghost predicate WalkTo(arg: Path, g: set<Triple>, w: seq<Term>)
    decreases arg, 3
  {
    |w| >= 2 && forall i :: 0 <= i < |w| - 1 ==> StepTo(arg, g, w[i], w[i + 1])
  }

  ghost predicate Forward(arg: Path, g: set<Triple>, more: bool, a: Term, o: Term)
    decreases arg, 4
  {
    if more then exists w :: WalkFrom(arg, g, w) && w[0] == a && w[|w| - 1] == o else StepFrom(arg, g, a, o)
  }

  ghost predicate Backward(arg: Path, g: set<Triple>, more: bool, b: Term, s: Term)
    decreases arg, 4
  {
    if more then exists w :: WalkTo(arg, g, w) && w[0] == b && w[|w| - 1] == s else StepTo(arg, g, b, s)
  }

  // ---------------------------------------------------------------------------
  // Where evaluation yields the relation
  // ---------------------------------------------------------------------------

  /** An endpoint that is unbound or a node of the graph. */
  ghost predicate EndOk(g: set<Triple>, end: Option<Term>) {
    end.None? || end.value in Nodes(g)
  }

  ghost predicate StartsAtSubjects(p: Path, g: set<Triple>)
    decreases p, 2
  {
    forall s, o :: Rel(p, g, s, o) ==> IsSubject(s)
  }

  /** No two steps of the path meet in a literal: the code does not go on from one. */
  ghost predicate Smooth(p: Path, g: set<Triple>)
    decreases p, 3
  {
    match p
    case Link(_) => true
    case Negated(_) => true
    case Inverse(arg) => Smooth(arg, g)
    case Sequence(args) => SmoothSeq(args, g)
    case Alternative(args) => forall i :: 0 <= i < |args| ==> Smooth(args[i], g)
    case Repeat(arg, zero, more) => Smooth(arg, g) && StartsAtSubjects(arg, g)
  }

  ghost predicate SmoothSeq(args: seq<Path>, g: set<Triple>)
    decreases args, 2
  {
    args == [] || (Smooth(args[0], g) && (|args| > 1 ==> NoLiteralJoint(args, g) && SmoothSeq(args[1..], g)))
  }

  ghost predicate NoLiteralJoint(args: seq<Path>, g: set<Triple>)
    requires |args| > 1
    decreases args, 1
  {
    forall s, m, o :: Rel(args[0], g, s, m) && RelSeq(args[1..], g, m, o) ==> IsSubject(m)
  }

  /** A literal object given to the path is not handed to an inverse, which would forget it.
      `bound` tells that the subject is given too. */
  predicate TakesLiteral(p: Path, bound: bool)
    decreases p
  {
    match p
    case Link(_) => true
    case Negated(_) => true
    case Inverse(_) => false
    case Sequence(args) => args == [] || TakesLiteral(args[|args| - 1], bound || |args| > 1)
    case Alternative(args) => forall i :: 0 <= i < |args| ==> TakesLiteral(args[i], bound)
    case Repeat(arg, zero, more) => bound || TakesLiteral(arg, false)
  }

  predicate IsLiteral(end: Option<Term>) {
    end.Some? && !IsSubject(end.value)
  }

  /** Endpoints the code can work with: nodes of the graph, the subject no literal, and a
      literal object only where the path takes one. */
  ghost predicate EndsFit(p: Path, g: set<Triple>, subj: Option<Term>, obj: Option<Term>) {
    EndOk(g, subj) && EndOk(g, obj) && !IsLiteral(subj) && (IsLiteral(obj) ==> TakesLiteral(p, subj.Some?))
  }

  ghost predicate Fitting(p: Path, g: set<Triple>, subj: Option<Term>, obj: Option<Term>) {
    Smooth(p, g) && EndsFit(p, g, subj, obj)
  }

  ghost predicate FittingSeq(args: seq<Path>, g: set<Triple>, subj: Option<Term>, obj: Option<Term>) {
    SmoothSeq(args, g) && EndsFit(Sequence(args), g, subj, obj)
  }

  lemma {:induction false} RelNodes(p: Path, g: set<Triple>, s: Term, o: Term)
    requires Rel(p, g, s, o)
    ensures s in Nodes(g) && o in Nodes(g)
    decreases p, 1
  {
    match p {
      case Link(iri) =>
        var t := Triple(s, iri, o);
        assert t.s == s && t.o == o;
      case Negated(excluded) =>
        var q :| q !in excluded && Triple(s, q, o) in g;
        var t := Triple(s, q, o);
        assert t.s == s && t.o == o;
      case Inverse(arg) => RelNodes(arg, g, o, s);
      case Sequence(args) => RelSeqNodes(args, g, s, o);
      case Alternative(args) =>
        var i :| 0 <= i < |args| && Rel(args[i], g, s, o);
        RelNodes(args[i], g, s, o);
      case Repeat(arg, zero, more) =>
        if zero && s == o && s in Nodes(g) {
        } else if !more {
          RelNodes(arg, g, s, o);
        } else {
          var w :| RelChain(arg, g, w) && w[0] == s && w[|w| - 1] == o;
          RelNodes(arg, g, w[0], w[1]);
          RelNodes(arg, g, w[|w| - 2], w[|w| - 2 + 1]);
        }
    }
  }

  lemma {:induction false} RelSeqNodes(args: seq<Path>, g: set<Triple>, s: Term, o: Term)
    requires RelSeq(args, g, s, o)
    ensures s in Nodes(g) && o in Nodes(g)
    decreases args, 0
  {
    if |args| == 1 {
      RelNodes(args[0], g, s, o);
    } else {
      var m :| Rel(args[0], g, s, m) && RelSeq(args[1..], g, m, o);
      RelNodes(args[0], g, s, m);
      RelSeqNodes(args[1..], g, m, o);
    }
  }

  /** On any graph, where no two steps of the path meet in a literal and the endpoints fit,
      evaluation yields exactly the pairs of the relation that fit the endpoints. */
  lemma {:induction false} YieldsIsRel(p: Path, g: set<Triple>, subj: Option<Term>, obj: Option<Term>, s: Term, o: Term)
    requires Fitting(p, g, subj, obj)
    ensures Yields(p, g, subj, obj, s, o) <==> Rel(p, g, s, o) && Fits(subj, s) && Fits(obj, o)
    decreases p, 1
  {
    match p {
      case Link(iri) =>
      case Negated(excluded) =>
      case Inverse(arg) => YieldsIsRel(arg, g, AsSubject(obj), subj, o, s);
      case Sequence(args) => YieldsSeqIsRel(args, g, subj, obj, s, o);
      case Alternative(args) =>
        forall i | 0 <= i < |args|
          ensures Yields(args[i], g, subj, obj, s, o) <==> Rel(args[i], g, s, o) && Fits(subj, s) && Fits(obj, o)
        {
          assert Fitting(args[i], g, subj, obj);
          YieldsIsRel(args[i], g, subj, obj, s, o);
        }
      case Repeat(arg, zero, more) => RepeatIsRel(p, g, subj, obj, s, o);
    }
  }

  lemma YieldedMiddle(args: seq<Path>, g: set<Triple>, subj: Option<Term>, obj: Option<Term>, s: Term, o: Term) returns (m: Term, x: Term)
    requires |args| > 1 && YieldsSeq(args, g, subj, obj, s, o)
    ensures IsSubject(m) && Yields(args[0], g, subj, None, s, m) && YieldsSeq(args[1..], g, Some(m), obj, x, o)
  {
    m, x :| IsSubject(m) && Yields(args[0], g, subj, None, s, m) && YieldsSeq(args[1..], g, Some(m), obj, x, o);
  }

  lemma RelatedMiddle(args: seq<Path>, g: set<Triple>, s: Term, o: Term) returns (m: Term)
    requires |args| > 1 && RelSeq(args, g, s, o)
    ensures Rel(args[0], g, s, m) && RelSeq(args[1..], g, m, o)
  {
    m :| Rel(args[0], g, s, m) && RelSeq(args[1..], g, m, o);
  }

  lemma FromWitness(arg: Path, g: set<Triple>, a: Term, b: Term) returns (x: Term)
    requires StepFrom(arg, g, a, b)
    ensures Yields(arg, g, Some(a), None, x, b)
  {
    x :| Yields(arg, g, Some(a), None, x, b);
  }

  lemma ToWitness(arg: Path, g: set<Triple>, b: Term, a: Term) returns (y: Term)
    requires StepTo(arg, g, b, a)
    ensures Yields(arg, g, None, Some(b), a, y)
  {
    y :| Yields(arg, g, None, Some(b), a, y);
  }

  lemma {:induction false} YieldsSeqIsRel(args: seq<Path>, g: set<Triple>, subj: Option<Term>, obj: Option<Term>, s: Term, o: Term)
    requires FittingSeq(args, g, subj, obj)
    ensures YieldsSeq(args, g, subj, obj, s, o) <==> RelSeq(args, g, s, o) && Fits(subj, s) && Fits(obj, o)
    decreases args, 0, 1
  {
    if |args| == 1 {
      YieldsIsRel(args[0], g, subj, obj, s, o);
    } else if |args| > 1 {
      if YieldsSeq(args, g, subj, obj, s, o) {
        YieldedIsRelated(args, g, subj, obj, s, o);
      }
      if RelSeq(args, g, s, o) && Fits(subj, s) && Fits(obj, o) {
        RelatedIsYielded(args, g, subj, obj, s, o);
      }
    }
  }

  lemma YieldedIsRelated(args: seq<Path>, g: set<Triple>, subj: Option<Term>, obj: Option<Term>, s: Term, o: Term)
    requires |args| > 1 && FittingSeq(args, g, subj, obj) && YieldsSeq(args, g, subj, obj, s, o)
    ensures RelSeq(args, g, s, o) && Fits(subj, s) && Fits(obj, o)
    decreases args, 0, 0
  {
    var m, x := YieldedMiddle(args, g, subj, obj, s, o);
    YieldsIsRel(args[0], g, subj, None, s, m);
    RelNodes(args[0], g, s, m);
    RestFits(args, g, subj, obj, m);
    YieldsSeqIsRel(args[1..], g, Some(m), obj, x, o);
    RelatedThrough(args, g, s, m, o);
  }

  lemma RelatedIsYielded(args: seq<Path>, g: set<Triple>, subj: Option<Term>, obj: Option<Term>, s: Term, o: Term)
    requires |args| > 1 && FittingSeq(args, g, subj, obj) && RelSeq(args, g, s, o) && Fits(subj, s) && Fits(obj, o)
    ensures YieldsSeq(args, g, subj, obj, s, o)
    decreases args, 0, 0
  {
    var m := RelatedMiddle(args, g, s, o);
    RelNodes(args[0], g, s, m);
    YieldsIsRel(args[0], g, subj, None, s, m);
    RestFits(args, g, subj, obj, m);
    YieldsSeqIsRel(args[1..], g, Some(m), obj, m, o);
    YieldedThrough(args, g, subj, obj, s, m, o);
  }

  /** The rest of a sequence, from a node in the middle. */
  lemma RestFits(args: seq<Path>, g: set<Triple>, subj: Option<Term>, obj: Option<Term>, m: Term)
    requires |args| > 1 && FittingSeq(args, g, subj, obj) && m in Nodes(g) && IsSubject(m)
    ensures FittingSeq(args[1..], g, Some(m), obj)
  {
    var rest := args[1..];
    assert rest[|rest| - 1] == args[|args| - 1];
  }

  lemma RelatedThrough(args: seq<Path>, g: set<Triple>, s: Term, m: Term, o: Term)
    requires |args| > 1 && Rel(args[0], g, s, m) && RelSeq(args[1..], g, m, o)
    ensures RelSeq(args, g, s, o)
  {
  }

  lemma YieldedThrough(args: seq<Path>, g: set<Triple>, subj: Option<Term>, obj: Option<Term>, s: Term, m: Term, o: Term)
    requires |args| > 1 && IsSubject(m) && Yields(args[0], g, subj, None, s, m) && YieldsSeq(args[1..], g, Some(m), obj, m, o)
    ensures YieldsSeq(args, g, subj, obj, s, o)
  {
  }

  /** A node the forward or the backward traversal can expand. */
  ghost predicate CanExpand(arg: Path, g: set<Triple>, back: bool, n: Term) {
    n in Nodes(g) && Smooth(arg, g) && if back then IsSubject(n) || TakesLiteral(arg, false) else IsSubject(n)
  }

  lemma {:induction false} StepFromIsRel(arg: Path, g: set<Triple>, a: Term, b: Term)
    requires CanExpand(arg, g, false, a)
    ensures StepFrom(arg, g, a, b) <==> Rel(arg, g, a, b)
    decreases arg, 2
  {
    if StepFrom(arg, g, a, b) {
      var x := FromWitness(arg, g, a, b);
      YieldsIsRel(arg, g, Some(a), None, x, b);
    }
    YieldsIsRel(arg, g, Some(a), None, a, b);
  }

  lemma {:induction false} StepToIsRel(arg: Path, g: set<Triple>, a: Term, b: Term)
    requires CanExpand(arg, g, true, a)
    ensures StepTo(arg, g, a, b) <==> Rel(arg, g, b, a)
    decreases arg, 2
  {
    if StepTo(arg, g, a, b) {
      var y := ToWitness(arg, g, a, b);
      YieldsIsRel(arg, g, None, Some(a), b, y);
    }
    YieldsIsRel(arg, g, None, Some(a), b, a);
  }

  ghost predicate Chained(arg: Path, g: set<Triple>, s: Term, o: Term)
    decreases arg, 5
  {
    exists w :: RelChain(arg, g, w) && w[0] == s && w[|w| - 1] == o
  }

  lemma {:induction false} WalkFromIsChain(arg: Path, g: set<Triple>, w: seq<Term>, n: nat)
    requires WalkFrom(arg, g, w) && CanExpand(arg, g, false, w[0]) && n < |w|
    ensures w[n] in Nodes(g) && forall i :: 0 <= i < n ==> Rel(arg, g, w[i], w[i + 1])
    decreases arg, 3, n
  {
    if n > 0 {
      WalkFromIsChain(arg, g, w, n - 1);
      assert StepFrom(arg, g, w[n - 1], w[n - 1 + 1]);
      StepFromIsRel(arg, g, w[n - 1], w[n]);
      RelNodes(arg, g, w[n - 1], w[n]);
    }
  }

  lemma {:induction false} WalkToIsChain(arg: Path, g: set<Triple>, w: seq<Term>, n: nat)
    requires WalkTo(arg, g, w) && CanExpand(arg, g, true, w[0]) && StartsAtSubjects(arg, g) && n < |w|
    ensures w[n] in Nodes(g) && (n > 0 ==> IsSubject(w[n])) && forall i :: 0 <= i < n ==> Rel(arg, g, w[i + 1], w[i])
    decreases arg, 3, n
  {
    if n > 0 {
      WalkToIsChain(arg, g, w, n - 1);
      assert StepTo(arg, g, w[n - 1], w[n - 1 + 1]);
      StepToIsRel(arg, g, w[n - 1], w[n]);
      RelNodes(arg, g, w[n], w[n - 1]);
    }
  }

  lemma ForwardIsRel(arg: Path, g: set<Triple>, more: bool, a: Term, o: Term)
    requires CanExpand(arg, g, false, a) && StartsAtSubjects(arg, g)
    ensures Forward(arg, g, more, a, o) <==> if more then Chained(arg, g, a, o) else Rel(arg, g, a, o)
    decreases arg, 6
  {
    if !more {
      StepFromIsRel(arg, g, a, o);
    } else {
      if w :| WalkFrom(arg, g, w) && w[0] == a && w[|w| - 1] == o {
        WalkFromIsChain(arg, g, w, |w| - 1);
        assert RelChain(arg, g, w);
      }
      if w :| RelChain(arg, g, w) && w[0] == a && w[|w| - 1] == o {
        ChainIsWalk(arg, g, w);
      }
    }
  }

  lemma ChainIsWalk(arg: Path, g: set<Triple>, w: seq<Term>)
    requires RelChain(arg, g, w) && Smooth(arg, g) && StartsAtSubjects(arg, g)
    ensures WalkFrom(arg, g, w)
    decreases arg, 5
  {
    forall i | 0 <= i < |w| - 1 ensures StepFrom(arg, g, w[i], w[i + 1]) && IsSubject(w[i]) {
      assert Rel(arg, g, w[i], w[i + 1]);
      RelNodes(arg, g, w[i], w[i + 1]);
      StepFromIsRel(arg, g, w[i], w[i + 1]);
    }
  }

  lemma BackwardIsRel(arg: Path, g: set<Triple>, more: bool, b: Term, s: Term)
    requires CanExpand(arg, g, true, b) && StartsAtSubjects(arg, g)
    ensures Backward(arg, g, more, b, s) <==> if more then Chained(arg, g, s, b) else Rel(arg, g, s, b)
    decreases arg, 6
  {
    if !more {
      StepToIsRel(arg, g, b, s);
    } else {
      if w :| WalkTo(arg, g, w) && w[0] == b && w[|w| - 1] == s {
        WalkReversed(arg, g, w);
      }
      if w :| RelChain(arg, g, w) && w[0] == s && w[|w| - 1] == b {
        ChainReversed(arg, g, w);
      }
    }
  }

  lemma WalkReversed(arg: Path, g: set<Triple>, w: seq<Term>)
    requires WalkTo(arg, g, w) && CanExpand(arg, g, true, w[0]) && StartsAtSubjects(arg, g)
    ensures var v := Reversed(w); RelChain(arg, g, v) && v[0] == w[|w| - 1] && v[|v| - 1] == w[0]
    decreases arg, 5
  {
    WalkToIsChain(arg, g, w, |w| - 1);
    var v := Reversed(w);
    forall i | 0 <= i < |v| - 1 ensures Rel(arg, g, v[i], v[i + 1]) {
      var j := |w| - 2 - i;
      assert Rel(arg, g, w[j + 1], w[j]);
    }
  }

  lemma ChainReversed(arg: Path, g: set<Triple>, w: seq<Term>)
    requires RelChain(arg, g, w) && CanExpand(arg, g, true, w[|w| - 1]) && StartsAtSubjects(arg, g)
    ensures var v := Reversed(w); WalkTo(arg, g, v) && v[0] == w[|w| - 1] && v[|v| - 1] == w[0]
    decreases arg, 5
  {
    var v := Reversed(w);
    forall i | 0 <= i < |v| - 1 ensures StepTo(arg, g, v[i], v[i + 1]) {
      var j := |w| - 2 - i;
      assert Rel(arg, g, w[j], w[j + 1]);
      RelNodes(arg, g, w[j], w[j + 1]);
      if j < |w| - 2 {
        assert Rel(arg, g, w[j + 1], w[j + 1 + 1]);
      }
      StepToIsRel(arg, g, w[j + 1], w[j]);
    }
  }

  function Reversed(w: seq<Term>): (v: seq<Term>)
    ensures |v| == |w| && forall i :: 0 <= i < |w| ==> v[i] == w[|w| - 1 - i]
  {
    seq(|w|, i requires 0 <= i < |w| => w[|w| - 1 - i])
  }

  lemma RepeatRel(p: Path, g: set<Triple>, s: Term, o: Term)
    requires p.Repeat?
    ensures Rel(p, g, s, o) <==>
      (p.zero && s == o && s in Nodes(g)) || (if p.more then Chained(p.arg, g, s, o) else Rel(p.arg, g, s, o))
  {
  }

  /** What a repetition yields, by the endpoints given. */
  lemma RepeatYields(p: Path, g: set<Triple>, subj: Option<Term>, obj: Option<Term>, s: Term, o: Term)
    requires p.Repeat?
    ensures Yields(p, g, subj, obj, s, o) <==>
      if subj.Some? then s == subj.value && Fits(obj, o) && ((p.zero && o == s) || Forward(p.arg, g, p.more, s, o))
      else if obj.Some? then o == obj.value && ((p.zero && s == o) || Backward(p.arg, g, p.more, o, s))
      else s in Nodes(g) && ((p.zero && s == o) || (IsSubject(s) && Forward(p.arg, g, p.more, s, o)))
  {
  }

  lemma RepeatIsRel(p: Path, g: set<Triple>, subj: Option<Term>, obj: Option<Term>, s: Term, o: Term)
    requires p.Repeat? && Fitting(p, g, subj, obj)
    ensures Yields(p, g, subj, obj, s, o) <==> Rel(p, g, s, o) && Fits(subj, s) && Fits(obj, o)
    decreases p, 0
  {
    RepeatYields(p, g, subj, obj, s, o);
    RepeatRel(p, g, s, o);
    RepeatReached(p, g, subj, obj, s, o);
  }

  lemma RepeatReached(p: Path, g: set<Triple>, subj: Option<Term>, obj: Option<Term>, s: Term, o: Term)
    requires p.Repeat? && Fitting(p, g, subj, obj)
    ensures var steps := if p.more then Chained(p.arg, g, s, o) else Rel(p.arg, g, s, o);
      (subj.Some? && s == subj.value ==> (Forward(p.arg, g, p.more, s, o) <==> steps)) &&
      (subj.None? && obj.Some? && o == obj.value ==> (Backward(p.arg, g, p.more, o, s) <==> steps)) &&
      (subj.None? && obj.None? ==> (s in Nodes(g) && IsSubject(s) && Forward(p.arg, g, p.more, s, o) <==> steps))
    decreases p.arg, 8
  {
    if subj.Some? && s == subj.value {
      ForwardIsRel(p.arg, g, p.more, s, o);
    } else if subj.None? && obj.Some? && o == obj.value {
      BackwardIsRel(p.arg, g, p.more, o, s);
    } else if subj.None? && obj.None? {
      OpenRepeat(p.arg, g, p.more, s, o);
    }
  }

  /** With both ends open the traversal starts at the subjects among the nodes. */
  lemma OpenRepeat(arg: Path, g: set<Triple>, more: bool, s: Term, o: Term)
    requires Smooth(arg, g) && StartsAtSubjects(arg, g)
    ensures s in Nodes(g) && IsSubject(s) && Forward(arg, g, more, s, o) <==> if more then Chained(arg, g, s, o) else Rel(arg, g, s, o)
    decreases arg, 7
  {
    if if more then Chained(arg, g, s, o) else Rel(arg, g, s, o) {
      RepeatStarts(arg, g, more, s, o);
    }
    if s in Nodes(g) && IsSubject(s) {
      ForwardIsRel(arg, g, more, s, o);
    }
  }

  lemma RepeatStarts(arg: Path, g: set<Triple>, more: bool, s: Term, o: Term)
    requires StartsAtSubjects(arg, g) && if more then Chained(arg, g, s, o) else Rel(arg, g, s, o)
    ensures IsSubject(s) && s in Nodes(g)
  {
    if more {
      var w :| RelChain(arg, g, w) && w[0] == s && w[|w| - 1] == o;
      assert Rel(arg, g, w[0], w[0 + 1]);
      RelNodes(arg, g, w[0], w[1]);
    } else {
      RelNodes(arg, g, s, o);
    }
  }

  // ---------------------------------------------------------------------------
  // Graphs without literals, and what literals do
  // ---------------------------------------------------------------------------

  ghost predicate LiteralFree(g: set<Triple>) {
    forall n :: n in Nodes(g) ==> IsSubject(n)
  }

  /** Without literals every path and every endpoint fit. */
  lemma {:induction false} LiteralFreeIsSmooth(p: Path, g: set<Triple>)
    requires LiteralFree(g)
    ensures Smooth(p, g)
    decreases p, 1
  {
    match p {
      case Link(_) =>
      case Negated(_) =>
      case Inverse(arg) => LiteralFreeIsSmooth(arg, g);
      case Sequence(args) => LiteralFreeIsSmoothSeq(args, g);
      case Alternative(args) =>
        forall i | 0 <= i < |args| ensures Smooth(args[i], g) {
          LiteralFreeIsSmooth(args[i], g);
        }
      case Repeat(arg, zero, more) =>
        LiteralFreeIsSmooth(arg, g);
        forall s, o | Rel(arg, g, s, o) ensures IsSubject(s) {
          RelNodes(arg, g, s, o);
        }
    }
  }

  lemma {:induction false} LiteralFreeIsSmoothSeq(args: seq<Path>, g: set<Triple>)
    requires LiteralFree(g)
    ensures SmoothSeq(args, g)
    decreases args, 0
  {
    if args != [] {
      LiteralFreeIsSmooth(args[0], g);
      if |args| > 1 {
        LiteralFreeIsSmoothSeq(args[1..], g);
        forall s, m, o | Rel(args[0], g, s, m) && RelSeq(args[1..], g, m, o) ensures IsSubject(m) {
          RelNodes(args[0], g, s, m);
        }
      }
    }
  }

  lemma LiteralFreeFits(p: Path, g: set<Triple>, subj: Option<Term>, obj: Option<Term>)
    requires LiteralFree(g) && EndOk(g, subj) && EndOk(g, obj)
    ensures Fitting(p, g, subj, obj)
  {
    LiteralFreeIsSmooth(p, g);
  }

  /** Evaluation yields the relation, for every path and endpoint. */
  ghost predicate Faithful(g: set<Triple>) {
    forall p, subj, obj, s, o {:trigger Yields(p, g, subj, obj, s, o)} :: EndOk(g, subj) && EndOk(g, obj) ==>
      (Yields(p, g, subj, obj, s, o) <==> Rel(p, g, s, o) && Fits(subj, s) && Fits(obj, o))
  }

  /** For all paths at once, literals are exactly what breaks it: an inverse path asked for a
      literal object forgets the endpoint and answers for every object. */
  lemma FaithfulIffLiteralFree(g: set<Triple>)
    requires forall t :: t in g ==> IsSubject(t.s)
    ensures Faithful(g) <==> LiteralFree(g)
  {
    if LiteralFree(g) {
      forall p, subj, obj, s, o | EndOk(g, subj) && EndOk(g, obj)
        ensures Yields(p, g, subj, obj, s, o) <==> Rel(p, g, s, o) && Fits(subj, s) && Fits(obj, o)
      {
        LiteralFreeFits(p, g, subj, obj);
        YieldsIsRel(p, g, subj, obj, s, o);
      }
    } else {
      var l :| l in Nodes(g) && !IsSubject(l);
      var t :| t in g && (t.s == l || t.o == l);
      assert t == Triple(t.s, t.p, l);
      var p := Inverse(Link(t.p));
      assert Yields(Link(t.p), g, None, None, t.s, l);
      assert Yields(p, g, None, Some(l), l, t.s) && !Fits(Some(l), t.s);
    }
  }

  /** A sequence loses what it should keep at a literal: on one triple with a literal object,
      p followed by any repetition that may be empty relates the two, and yields nothing. */
  lemma SequenceDropsLiteral(s: Term, p: Iri, l: Term, q: Path)
    requires !IsSubject(l) && q.Repeat? && q.zero
    ensures var g := {Triple(s, p, l)};
      Rel(Sequence([Link(p), q]), g, s, l) && !Yields(Sequence([Link(p), q]), g, None, None, s, l)
  {
    var g := {Triple(s, p, l)};
    var args := [Link(p), q];
    var t := Triple(s, p, l);
    assert t in g && t.o in Nodes(g);
    assert args[1..] == [q];
    assert Rel(q, g, l, l) && RelSeq(args[1..], g, l, l);
    RelatedThrough(args, g, s, l, l);
    assert forall m :: Yields(args[0], g, None, None, s, m) ==> m == l;
    if YieldsSeq(args, g, None, None, s, l) {
      var m, x := YieldedMiddle(args, g, None, None, s, l);
    }
  }

  // ---------------------------------------------------------------------------
  // Where the yielded terms come from
  // ---------------------------------------------------------------------------

  ghost function Ends(subj: Option<Term>, obj: Option<Term>): set<Term> {
    (if subj.Some? then {subj.value} else {}) + (if obj.Some? then {obj.value} else {})
  }

  /** Evaluation makes up no terms: what it yields is in the graph or was asked for. */
  lemma {:induction false} YieldsKnown(p: Path, g: set<Triple>, subj: Option<Term>, obj: Option<Term>, s: Term, o: Term)
    requires Yields(p, g, subj, obj, s, o)
    ensures s in Nodes(g) + Ends(subj, obj) && o in Nodes(g) + Ends(subj, obj)
    decreases p, 1
  {
    match p {
      case Link(iri) =>
        var t := Triple(s, iri, o);
        assert t.s == s && t.o == o;
      case Negated(excluded) =>
        var q :| q !in excluded && Triple(s, q, o) in g;
        var t := Triple(s, q, o);
        assert t.s == s && t.o == o;
      case Inverse(arg) => YieldsKnown(arg, g, AsSubject(obj), subj, o, s);
      case Sequence(args) => YieldsSeqKnown(args, g, subj, obj, s, o);
      case Alternative(args) =>
        var i :| 0 <= i < |args| && Yields(args[i], g, subj, obj, s, o);
        YieldsKnown(args[i], g, subj, obj, s, o);
      case Repeat(arg, zero, more) =>
        if subj.Some? || obj.None? {
          if o != s {
            ForwardKnown(arg, g, more, s, o);
          }
        } else if s != o {
          BackwardKnown(arg, g, more, o, s);
        }
    }
  }

  lemma {:induction false} YieldsSeqKnown(args: seq<Path>, g: set<Triple>, subj: Option<Term>, obj: Option<Term>, s: Term, o: Term)
    requires YieldsSeq(args, g, subj, obj, s, o)
    ensures s in Nodes(g) + Ends(subj, obj) && o in Nodes(g) + Ends(subj, obj)
    decreases args, 0
  {
    if |args| == 1 {
      YieldsKnown(args[0], g, subj, obj, s, o);
    } else {
      var m, x := YieldedMiddle(args, g, subj, obj, s, o);
      YieldsKnown(args[0], g, subj, None, s, m);
      YieldsSeqKnown(args[1..], g, Some(m), obj, x, o);
    }
  }

  lemma {:induction false} StepsKnown(arg: Path, g: set<Triple>, a: Term, b: Term)
    ensures StepFrom(arg, g, a, b) || StepTo(arg, g, a, b) ==> b in Nodes(g) + {a}
    decreases arg, 2
  {
    if StepFrom(arg, g, a, b) {
      var x := FromWitness(arg, g, a, b);
      YieldsKnown(arg, g, Some(a), None, x, b);
    }
    if StepTo(arg, g, a, b) {
      var y := ToWitness(arg, g, a, b);
      YieldsKnown(arg, g, None, Some(a), b, y);
    }
  }

  lemma {:induction false} WalksKnown(arg: Path, g: set<Triple>, w: seq<Term>, n: nat)
    requires n < |w| && (WalkFrom(arg, g, w) || WalkTo(arg, g, w))
    ensures w[n] in Nodes(g) + {w[0]}
    decreases arg, 3, n
  {
    if n > 0 {
      WalksKnown(arg, g, w, n - 1);
      assert StepFrom(arg, g, w[n - 1], w[n - 1 + 1]) || StepTo(arg, g, w[n - 1], w[n - 1 + 1]);
      StepsKnown(arg, g, w[n - 1], w[n]);
    }
  }

  lemma ForwardKnown(arg: Path, g: set<Triple>, more: bool, a: Term, o: Term)
    requires Forward(arg, g, more, a, o)
    ensures o in Nodes(g) + {a}
    decreases arg, 4
  {
    if more {
      var w :| WalkFrom(arg, g, w) && w[0] == a && w[|w| - 1] == o;
      WalksKnown(arg, g, w, |w| - 1);
    } else {
      StepsKnown(arg, g, a, o);
    }
  }

  lemma BackwardKnown(arg: Path, g: set<Triple>, more: bool, b: Term, s: Term)
    requires Backward(arg, g, more, b, s)
    ensures s in Nodes(g) + {b}
    decreases arg, 4
  {
    if more {
      var w :| WalkTo(arg, g, w) && w[0] == b && w[|w| - 1] == s;
      WalksKnown(arg, g, w, |w| - 1);
    } else {
      StepsKnown(arg, g, b, s);
    }
  }

  // ---------------------------------------------------------------------------
  // Streams of pairs
  // ---------------------------------------------------------------------------

  type Pair = (Term, Term)

  ghost predicate Distinct(out: seq<Pair>) {
    forall i, j :: 0 <= i < j < |out| ==> out[i] != out[j]
  }

  /** `emit`: a pair already done is not yielded again. */
  function Emit(out: seq<Pair>, x: Pair): (r: seq<Pair>)
    ensures forall y :: y in r <==> y in out || y == x
    ensures Distinct(out) ==> Distinct(r)
  {
    if x in out then out else out + [x]
  }
}

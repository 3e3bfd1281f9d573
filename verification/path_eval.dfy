/** The path evaluator (paths/paths.go): structural composition, and for repetitions a
    depth-first traversal with a `seen` set. The stream of pairs is the sequence of
    yields of an evaluation that is neither cancelled nor stopped by its consumer. */
module PathEval {
  import opened Common
  import opened Closures
  import opened Paths
  import opened Reachability

  // ---------------------------------------------------------------------------
  // Both directions of the traversal at once
  // ---------------------------------------------------------------------------

  ghost predicate Step(arg: Path, g: set<Triple>, back: bool, a: Term, b: Term) {
    if back then StepTo(arg, g, a, b) else StepFrom(arg, g, a, b)
  }

  ghost predicate Reach(arg: Path, g: set<Triple>, back: bool, more: bool, a: Term, b: Term) {
    if back then Backward(arg, g, more, a, b) else Forward(arg, g, more, a, b)
  }

  /** The traversal goes on from a node: backwards from any, forwards not from a literal. */
  predicate Continues(back: bool, b: Term) {
    back || IsSubject(b)
  }

  function Oriented(back: bool, origin: Term, b: Term): Pair {
    if back then (b, origin) else (origin, b)
  }

  /** A node the traversal may stand on. */
  ghost predicate OnWay(p: Path, g: set<Triple>, back: bool, origin: Term, n: Term)
    requires p.Repeat?
  {
    n == origin || (p.more && Continues(back, n) && Reach(p.arg, g, back, true, origin, n))
  }

  lemma StepFromWay(p: Path, g: set<Triple>, back: bool, origin: Term, n: Term, b: Term)
    requires p.Repeat? && OnWay(p, g, back, origin, n) && Step(p.arg, g, back, n, b)
    ensures Reach(p.arg, g, back, p.more, origin, b)
  {
    if p.more {
      var w := if n == origin then [origin] else WayTo(p, g, back, origin, n);
      var v := w + [b];
      assert v[0] == origin && v[|v| - 1] == b;
      if back {
        forall i | 0 <= i < |v| - 1 ensures StepTo(p.arg, g, v[i], v[i + 1]) {
          if i < |w| - 1 {
            assert StepTo(p.arg, g, w[i], w[i + 1]);
          }
        }
        assert WalkTo(p.arg, g, v);
      } else {
        forall i | 0 <= i < |v| - 1 ensures StepFrom(p.arg, g, v[i], v[i + 1]) {
          if i < |w| - 1 {
            assert StepFrom(p.arg, g, w[i], w[i + 1]);
          }
        }
        forall i | 0 < i < |v| - 1 ensures IsSubject(v[i]) {
          if i < |w| - 1 {
            assert IsSubject(w[i]);
          }
        }
        assert WalkFrom(p.arg, g, v);
      }
    }
  }

  ghost function WayTo(p: Path, g: set<Triple>, back: bool, origin: Term, n: Term): (w: seq<Term>)
    requires p.Repeat? && p.more && Reach(p.arg, g, back, true, origin, n)
    ensures |w| >= 2 && w[0] == origin && w[|w| - 1] == n
    ensures if back then WalkTo(p.arg, g, w) else WalkFrom(p.arg, g, w)
  {
    if back then var w :| WalkTo(p.arg, g, w) && w[0] == origin && w[|w| - 1] == n; w
    else var w :| WalkFrom(p.arg, g, w) && w[0] == origin && w[|w| - 1] == n; w
  }

  /** Everything one step from `n` has been emitted, and visited where that matters. */
  ghost predicate Expanded(p: Path, g: set<Triple>, back: bool, origin: Term, obj: Option<Term>, n: Term, seen: set<Term>, out: seq<Pair>)
    requires p.Repeat?
  {
    forall b :: Step(p.arg, g, back, n, b) ==> Handled(p, back, origin, obj, b, seen, out)
  }

  ghost predicate Handled(p: Path, back: bool, origin: Term, obj: Option<Term>, b: Term, seen: set<Term>, out: seq<Pair>)
    requires p.Repeat?
  {
    (Fits(obj, b) ==> Oriented(back, origin, b) in out) && (p.more && Continues(back, b) ==> b in seen)
  }

  /** A traversal that has expanded all it saw has emitted everything reachable. */
  lemma TraversalComplete(p: Path, g: set<Triple>, back: bool, origin: Term, obj: Option<Term>, seen: set<Term>, out: seq<Pair>, o: Term)
    requires p.Repeat? && origin in seen && Reach(p.arg, g, back, p.more, origin, o) && Fits(obj, o)
    requires forall n :: n in seen ==> Expanded(p, g, back, origin, obj, n, seen, out)
    ensures Oriented(back, origin, o) in out
  {
    assert Expanded(p, g, back, origin, obj, origin, seen, out);
    if p.more {
      var w := WayTo(p, g, back, origin, o);
      WalkStaysSeen(p, g, back, origin, obj, seen, out, w, |w| - 2);
      assert Step(p.arg, g, back, w[|w| - 2], w[|w| - 2 + 1]);
      assert Expanded(p, g, back, origin, obj, w[|w| - 2], seen, out);
      assert Handled(p, back, origin, obj, o, seen, out);
    } else {
      assert Step(p.arg, g, back, origin, o);
    }
  }

  lemma {:induction false} WalkStaysSeen(p: Path, g: set<Triple>, back: bool, origin: Term, obj: Option<Term>, seen: set<Term>, out: seq<Pair>, w: seq<Term>, k: nat)
    requires p.Repeat? && p.more && k < |w| - 1 && w[0] in seen
    requires if back then WalkTo(p.arg, g, w) else WalkFrom(p.arg, g, w)
    requires forall n :: n in seen ==> Expanded(p, g, back, origin, obj, n, seen, out)
    ensures w[k] in seen
  {
    if k > 0 {
      WalkStaysSeen(p, g, back, origin, obj, seen, out, w, k - 1);
      assert Expanded(p, g, back, origin, obj, w[k - 1], seen, out);
      assert Step(p.arg, g, back, w[k - 1], w[k - 1 + 1]);
    }
  }

  /** What a traversal has emitted: reachable from the origin and fitting the object. */
  ghost predicate Sound(p: Path, g: set<Triple>, back: bool, origin: Term, obj: Option<Term>, x: Pair)
    requires p.Repeat?
  {
    exists b :: x == Oriented(back, origin, b) && Fits(obj, b) && Reach(p.arg, g, back, p.more, origin, b)
  }

  lemma SoundPair(p: Path, g: set<Triple>, back: bool, origin: Term, obj: Option<Term>, s: Term, o: Term)
    requires p.Repeat?
    ensures Sound(p, g, back, origin, obj, (s, o)) <==>
      if back then o == origin && Fits(obj, s) && Backward(p.arg, g, p.more, origin, s)
      else s == origin && Fits(obj, o) && Forward(p.arg, g, p.more, origin, o)
  {
    if back && o == origin {
      assert (s, o) == Oriented(back, origin, s);
    }
    if !back && s == origin {
      assert (s, o) == Oriented(back, origin, o);
    }
  }

  ghost predicate AllSound(p: Path, g: set<Triple>, back: bool, origin: Term, obj: Option<Term>, was: seq<Pair>, now: seq<Pair>)
    requires p.Repeat?
  {
    forall x :: x in now && x !in was ==> Sound(p, g, back, origin, obj, x)
  }

  ghost function Space(g: set<Triple>, origin: Term): set<Term> {
    Nodes(g) + {origin}
  }

  // ---------------------------------------------------------------------------
  // The evaluator
  // ---------------------------------------------------------------------------

  /** Every path: exactly the pairs `Yields` describes, and a repetition yields none of them
      twice. With a store that answers no reachability queries this holds on every graph; with
      one that does, asked through the cache by every repetition inside the path, it holds where
      the path and the endpoints fit. */
  method Eval(p: Path, g: set<Triple>, st: Backend, c: Option<Term>, subj: Option<Term>, obj: Option<Term>) returns (out: seq<Pair>)
    requires st.Ready(g, c) && (st.pushes ==> Fitting(p, g, subj, obj))
    modifies st.cache
    ensures st.Ready(g, c)
    ensures forall s, o :: (s, o) in out <==> Yields(p, g, subj, obj, s, o)
    ensures p.Repeat? ==> Distinct(out)
    decreases p, 2, 0
  {
    match p {
      case Link(iri) =>
        out := MatchTriples(g, subj, obj, q => q == iri);
      case Negated(excluded) =>
        out := MatchTriples(g, subj, obj, q => q !in excluded);
      case Inverse(arg) =>
        var inner := Eval(arg, g, st, c, AsSubject(obj), subj);
        out := Swap(inner);
      case Sequence(args) =>
        out := EvalSeq(args, g, st, c, subj, obj);
      case Alternative(args) =>
        out := [];
        for i := 0 to |args|
          invariant st.Ready(g, c)
          invariant forall s, o :: (s, o) in out <==> exists j :: 0 <= j < i && Yields(args[j], g, subj, obj, s, o)
        {
          assert st.pushes ==> Fitting(args[i], g, subj, obj);
          var more := Eval(args[i], g, st, c, subj, obj);
          out := out + more;
        }
      case Repeat(arg, zero, more) =>
        out := EvalRepeat(p, g, st, c, subj, obj);
    }
  }

  method MatchTriples(g: set<Triple>, subj: Option<Term>, obj: Option<Term>, ok: Iri -> bool) returns (out: seq<Pair>)
    ensures forall s, o :: (s, o) in out <==> (exists q :: ok(q) && Triple(s, q, o) in g) && Fits(subj, s) && Fits(obj, o)
  {
    out := [];
    var todo := g;
    while todo != {}
      invariant todo <= g
      invariant forall s, o :: (s, o) in out <==>
        (exists q :: ok(q) && Triple(s, q, o) in g - todo) && Fits(subj, s) && Fits(obj, o)
      decreases |todo|
    {
      var t :| t in todo;
      ghost var before, left := out, todo;
      if ok(t.p) && Fits(subj, t.s) && Fits(obj, t.o) {
        out := out + [(t.s, t.o)];
      }
      todo := todo - {t};
      forall s, o ensures (s, o) in out <==>
        (exists q :: ok(q) && Triple(s, q, o) in g - todo) && Fits(subj, s) && Fits(obj, o)
      {
        assert t == Triple(t.s, t.p, t.o);
        assert forall q :: Triple(s, q, o) in g - todo <==> Triple(s, q, o) in g - left || Triple(s, q, o) == t;
      }
    }
  }

  function Swap(ps: seq<Pair>): (r: seq<Pair>)
    ensures forall s, o :: (s, o) in r <==> (o, s) in ps
  {
    if ps == [] then [] else [(ps[0].1, ps[0].0)] + Swap(ps[1..])
  }

  method EvalSeq(args: seq<Path>, g: set<Triple>, st: Backend, c: Option<Term>, subj: Option<Term>, obj: Option<Term>) returns (out: seq<Pair>)
    requires st.Ready(g, c) && (st.pushes ==> FittingSeq(args, g, subj, obj))
    modifies st.cache
    ensures st.Ready(g, c)
    ensures forall s, o :: (s, o) in out <==> YieldsSeq(args, g, subj, obj, s, o)
    decreases args, 1, 0
  {
    out := [];
    if |args| == 0 {
      return;
    }
    if |args| == 1 {
      out := Eval(args[0], g, st, c, subj, obj);
      return;
    }
    var first := Eval(args[0], g, st, c, subj, None);
    for i := 0 to |first|
      invariant st.Ready(g, c)
      invariant forall s, o :: (s, o) in out <==> exists j :: 0 <= j < i && Joins(args, g, obj, first[j], s, o)
    {
      var (s1, mid) := first[i];
      if IsSubject(mid) {
        assert (s1, mid) in first;
        MiddleFits(args, g, st.pushes, subj, obj, s1, mid);
        var rest := EvalSeq(args[1..], g, st, c, Some(mid), obj);
        var joined := WithSubject(s1, rest);
        forall s, o ensures (s, o) in joined <==> Joins(args, g, obj, first[i], s, o) {
        }
        out := out + joined;
      }
    }
    forall s, o ensures (s, o) in out <==> YieldsSeq(args, g, subj, obj, s, o) {
      JoinedIsYielded(args, g, subj, obj, first, s, o);
    }
  }

  /** The node in the middle of a sequence is one of the graph, so the rest fits from it. */
  lemma MiddleFits(args: seq<Path>, g: set<Triple>, pushes: bool, subj: Option<Term>, obj: Option<Term>, s: Term, m: Term)
    requires |args| > 1 && (pushes ==> FittingSeq(args, g, subj, obj)) && Yields(args[0], g, subj, None, s, m) && IsSubject(m)
    ensures pushes ==> FittingSeq(args[1..], g, Some(m), obj)
  {
    if pushes {
      YieldsKnown(args[0], g, subj, None, s, m);
      RestFits(args, g, subj, obj, m);
    }
  }

  function WithSubject(s1: Term, ps: seq<Pair>): (r: seq<Pair>)
    ensures forall s, o :: (s, o) in r <==> s == s1 && exists x :: (x, o) in ps
  {
    if ps == [] then []
    else
      var rest := WithSubject(s1, ps[1..]);
      assert forall x, o :: (x, o) in ps <==> (x, o) == ps[0] || (x, o) in ps[1..];
      assert (ps[0].0, ps[0].1) == ps[0];
      [(s1, ps[0].1)] + rest
  }

  /** The pairs one pair of the first step contributes. */
  ghost predicate Joins(args: seq<Path>, g: set<Triple>, obj: Option<Term>, pair: Pair, s: Term, o: Term)
    requires |args| > 1
  {
    s == pair.0 && IsSubject(pair.1) && exists x :: YieldsSeq(args[1..], g, Some(pair.1), obj, x, o)
  }

  lemma JoinedIsYielded(args: seq<Path>, g: set<Triple>, subj: Option<Term>, obj: Option<Term>, first: seq<Pair>, s: Term, o: Term)
    requires |args| > 1 && forall a, b :: (a, b) in first <==> Yields(args[0], g, subj, None, a, b)
    ensures (exists j :: 0 <= j < |first| && Joins(args, g, obj, first[j], s, o)) <==> YieldsSeq(args, g, subj, obj, s, o)
  {
    if j :| 0 <= j < |first| && Joins(args, g, obj, first[j], s, o) {
      var x :| YieldsSeq(args[1..], g, Some(first[j].1), obj, x, o);
      assert (first[j].0, first[j].1) in first;
    }
    if YieldsSeq(args, g, subj, obj, s, o) {
      var m, x := YieldedMiddle(args, g, subj, obj, s, o);
      assert (s, m) in first;
      var j :| 0 <= j < |first| && first[j] == (s, m);
      assert Joins(args, g, obj, first[j], s, o);
    }
  }

  /** The zero-length pair of a bound endpoint, then the store if it answers, else the local
      traversal from the bound end; with both ends open, the traversal from every node. */
  method EvalRepeat(p: Path, g: set<Triple>, st: Backend, c: Option<Term>, subj: Option<Term>, obj: Option<Term>) returns (out: seq<Pair>)
    requires p.Repeat? && st.Ready(g, c) && (st.pushes ==> Fitting(p, g, subj, obj))
    modifies st.cache
    ensures st.Ready(g, c)
    ensures (forall s, o :: (s, o) in out <==> Yields(p, g, subj, obj, s, o)) && Distinct(out)
    decreases p, 1, 0
  {
    if subj.None? && obj.None? {
      out := FromAllNodes(p, g, st, c);
      return;
    }
    out := ZeroPairs(p, subj, obj);
    ghost var zeros := out;
    var handled: bool;
    handled, out := EvalViaStore(p, g, st, c, subj, obj, out);
    if !handled {
      out := FromEnd(p, g, st, c, subj, obj, out);
    }
    forall s, o ensures (s, o) in out <==> Yields(p, g, subj, obj, s, o) {
      RepeatYields(p, g, subj, obj, s, o);
      if handled {
        PushedIsReach(p, g, subj, obj, s, o);
      }
    }
  }

  /** What the local traversal from the bound end reaches. */
  ghost predicate Traversed(p: Path, g: set<Triple>, subj: Option<Term>, obj: Option<Term>, s: Term, o: Term)
    requires p.Repeat?
  {
    if subj.Some? then s == subj.value && Fits(obj, o) && Forward(p.arg, g, p.more, s, o)
    else obj.Some? && o == obj.value && Backward(p.arg, g, p.more, o, s)
  }

  /** The local traversal from the bound end. */
  method FromEnd(p: Path, g: set<Triple>, st: Backend, c: Option<Term>, subj: Option<Term>, obj: Option<Term>, was: seq<Pair>) returns (out: seq<Pair>)
    requires p.Repeat? && st.Ready(g, c) && (st.pushes ==> Fitting(p, g, subj, obj)) && (subj.Some? || obj.Some?) && Distinct(was)
    modifies st.cache
    ensures st.Ready(g, c) && Distinct(out)
    ensures forall s, o :: (s, o) in out <==> (s, o) in was || Traversed(p, g, subj, obj, s, o)
    decreases p, 0, 2, 0, 0
  {
    if subj.Some? {
      out := From(p, g, st, c, false, subj.value, obj, was);
      forall s, o ensures Sound(p, g, false, subj.value, obj, (s, o)) <==> s == subj.value && Fits(obj, o) && Forward(p.arg, g, p.more, s, o) {
        SoundPair(p, g, false, subj.value, obj, s, o);
      }
    } else {
      out := From(p, g, st, c, true, obj.value, None, was);
      forall s, o ensures Sound(p, g, true, obj.value, None, (s, o)) <==> o == obj.value && Backward(p.arg, g, p.more, o, s) {
        SoundPair(p, g, true, obj.value, None, s, o);
      }
    }
  }

  /** The zero-length pair of a bound endpoint. */
  method ZeroPairs(p: Path, subj: Option<Term>, obj: Option<Term>) returns (out: seq<Pair>)
    requires p.Repeat?
    ensures Distinct(out) && forall s, o :: (s, o) in out <==>
      p.zero && s == o && (if subj.Some? then subj.value == s && Fits(obj, s) else obj.Some? && obj.value == s)
  {
    out := [];
    if p.zero {
      if subj.Some? && Fits(obj, subj.value) {
        out := [(subj.value, subj.value)];
      } else if subj.None? && obj.Some? {
        out := [(obj.value, obj.value)];
      }
    }
  }

  /** A node a traversal over a reachability store may stand on. */
  ghost predicate CanWalk(p: Path, g: set<Triple>, back: bool, n: Term)
    requires p.Repeat?
  {
    CanExpand(p.arg, g, back, n) && StartsAtSubjects(p.arg, g)
  }

  lemma NextCanWalk(p: Path, g: set<Triple>, back: bool, n: Term, b: Term)
    requires p.Repeat? && CanWalk(p, g, back, n) && Step(p.arg, g, back, n, b) && Continues(back, b)
    ensures CanWalk(p, g, back, b)
  {
    if back {
      StepToIsRel(p.arg, g, n, b);
      RelNodes(p.arg, g, b, n);
    } else {
      StepFromIsRel(p.arg, g, n, b);
      RelNodes(p.arg, g, n, b);
    }
  }

  /** A whole traversal from one node: emits exactly what is reachable. */
  method From(p: Path, g: set<Triple>, st: Backend, c: Option<Term>, back: bool, origin: Term, obj: Option<Term>, was: seq<Pair>)
    returns (out: seq<Pair>)
    requires p.Repeat? && Distinct(was) && st.Ready(g, c) && (st.pushes ==> CanWalk(p, g, back, origin))
    modifies st.cache
    ensures st.Ready(g, c) && Distinct(out)
    ensures forall x :: x in out <==> x in was || Sound(p, g, back, origin, obj, x)
    decreases p, 0, 1, 0, 0
  {
    var seen: set<Term>;
    seen, out := Visit(p, g, st, c, back, origin, origin, obj, {}, was);
    forall x | Sound(p, g, back, origin, obj, x) ensures x in out {
      var b :| x == Oriented(back, origin, b) && Fits(obj, b) && Reach(p.arg, g, back, p.more, origin, b);
      TraversalComplete(p, g, back, origin, obj, seen, out, b);
    }
  }

  /** The state of a traversal that entered `node`: nothing unsound was emitted, and every
      other node seen since is fully expanded. */
  ghost predicate Progress(p: Path, g: set<Triple>, back: bool, origin: Term, obj: Option<Term>, node: Term,
                           seen0: set<Term>, out0: seq<Pair>, seen: set<Term>, out: seq<Pair>)
    requires p.Repeat?
  {
    seen0 + {node} <= seen <= Space(g, origin) &&
    Distinct(out) && Extends(out0, out) && AllSound(p, g, back, origin, obj, out0, out) &&
    forall n :: n in seen && n !in seen0 && n != node ==> Expanded(p, g, back, origin, obj, n, seen, out)
  }

  ghost predicate Extends(was: seq<Pair>, now: seq<Pair>) {
    forall x :: x in was ==> x in now
  }

  /** `fwdFrom` and `bwdTo`: expands a node unless it was seen. */
  method Visit(p: Path, g: set<Triple>, st: Backend, c: Option<Term>, back: bool, origin: Term, node: Term, obj: Option<Term>,
               seen: set<Term>, out: seq<Pair>)
    returns (seen': set<Term>, out': seq<Pair>)
    requires p.Repeat? && OnWay(p, g, back, origin, node) && Distinct(out)
    requires st.Ready(g, c) && (st.pushes ==> CanWalk(p, g, back, node))
    requires seen <= Space(g, origin) && node in Space(g, origin)
    modifies st.cache
    ensures st.Ready(g, c) && seen + {node} <= seen' <= Space(g, origin)
    ensures Distinct(out') && Extends(out, out') && AllSound(p, g, back, origin, obj, out, out')
    ensures forall n :: n in seen' && n !in seen ==> Expanded(p, g, back, origin, obj, n, seen', out')
    decreases p, 0, 0, |Space(g, origin) - seen|, 0
  {
    seen', out' := seen, out;
    if node in seen {
      return;
    }
    seen' := seen + {node};
    var nexts := Neighbours(p, g, st, c, back, node);
    for i := 0 to |nexts|
      invariant st.Ready(g, c)
      invariant Progress(p, g, back, origin, obj, node, seen, out, seen', out')
      invariant forall j :: 0 <= j < i ==> Handled(p, back, origin, obj, nexts[j], seen', out')
    {
      assert nexts[i] in nexts;
      SpaceShrinks(g, origin, seen, node, seen');
      seen', out' := Follow(p, g, st, c, back, origin, node, nexts[i], obj, seen', out', seen, out);
    }
    assert Expanded(p, g, back, origin, obj, node, seen', out');
  }

  lemma SpaceShrinks(g: set<Triple>, origin: Term, seen: set<Term>, node: Term, now: set<Term>)
    requires node in Space(g, origin) && node !in seen && seen + {node} <= now
    ensures |Space(g, origin) - now| < |Space(g, origin) - seen|
  {
    assert Space(g, origin) - seen == (Space(g, origin) - (seen + {node})) + {node};
    SubsetSize(Space(g, origin) - now, Space(g, origin) - (seen + {node}));
  }

  /** One neighbour: emit it if it fits, then go on from it. */
  method Follow(p: Path, g: set<Triple>, st: Backend, c: Option<Term>, back: bool, origin: Term, node: Term, b: Term, obj: Option<Term>,
                seen: set<Term>, out: seq<Pair>, ghost seen0: set<Term>, ghost out0: seq<Pair>)
    returns (seen': set<Term>, out': seq<Pair>)
    requires st.Ready(g, c) && p.Repeat? && (st.pushes ==> CanWalk(p, g, back, node))
    requires OnWay(p, g, back, origin, node) && Step(p.arg, g, back, node, b)
    requires Progress(p, g, back, origin, obj, node, seen0, out0, seen, out)
    modifies st.cache
    ensures st.Ready(g, c) && Progress(p, g, back, origin, obj, node, seen0, out0, seen', out')
    ensures seen <= seen' && Extends(out, out') && Handled(p, back, origin, obj, b, seen', out')
    decreases p, 0, 0, |Space(g, origin) - seen|, 1
  {
    StepFromWay(p, g, back, origin, node, b);
    StepsKnown(p.arg, g, node, b);
    seen', out' := seen, out;
    if Fits(obj, b) {
      out' := Emit(out', Oriented(back, origin, b));
      assert Sound(p, g, back, origin, obj, Oriented(back, origin, b));
    }
    if p.more && Continues(back, b) {
      ghost var emitted := out';
      if st.pushes {
        NextCanWalk(p, g, back, node, b);
      }
      seen', out' := Visit(p, g, st, c, back, origin, b, obj, seen', out');
      VisitKeepsProgress(p, g, back, origin, obj, node, seen0, out0, seen, out, emitted, seen', out');
    }
  }

  lemma VisitKeepsProgress(p: Path, g: set<Triple>, back: bool, origin: Term, obj: Option<Term>, node: Term,
                           seen0: set<Term>, out0: seq<Pair>, seen: set<Term>, out: seq<Pair>, emitted: seq<Pair>,
                           seen': set<Term>, out': seq<Pair>)
    requires p.Repeat? && Progress(p, g, back, origin, obj, node, seen0, out0, seen, out)
    requires AllSound(p, g, back, origin, obj, out0, emitted) && Extends(out, emitted)
    requires seen <= seen' <= Space(g, origin)
    requires Distinct(out') && Extends(emitted, out') && AllSound(p, g, back, origin, obj, emitted, out')
    requires forall n :: n in seen' && n !in seen ==> Expanded(p, g, back, origin, obj, n, seen', out')
    ensures Progress(p, g, back, origin, obj, node, seen0, out0, seen', out')
  {
    forall n | n in seen' && n !in seen0 && n != node ensures Expanded(p, g, back, origin, obj, n, seen', out') {
      if n in seen {
        assert Expanded(p, g, back, origin, obj, n, seen, out);
      }
    }
  }

  method Neighbours(p: Path, g: set<Triple>, st: Backend, c: Option<Term>, back: bool, node: Term) returns (nexts: seq<Term>)
    requires p.Repeat? && st.Ready(g, c) && (st.pushes ==> CanWalk(p, g, back, node))
    modifies st.cache
    ensures st.Ready(g, c)
    ensures forall b :: b in nexts <==> Step(p.arg, g, back, node, b)
    decreases p, 0, 0, 0, 0
  {
    var pairs: seq<Pair>;
    if back {
      pairs := Eval(p.arg, g, st, c, None, Some(node));
      nexts := seq(|pairs|, i requires 0 <= i < |pairs| => pairs[i].0);
    } else {
      pairs := Eval(p.arg, g, st, c, Some(node), None);
      nexts := seq(|pairs|, i requires 0 <= i < |pairs| => pairs[i].1);
    }
    forall b ensures b in nexts <==> Step(p.arg, g, back, node, b) {
      if b in nexts {
        var i :| 0 <= i < |nexts| && nexts[i] == b;
        assert (pairs[i].0, pairs[i].1) in pairs;
      }
      if Step(p.arg, g, back, node, b) {
        if back {
          var y := ToWitness(p.arg, g, node, b);
          var i :| 0 <= i < |pairs| && pairs[i] == (b, y);
          assert nexts[i] == b;
        } else {
          var x := FromWitness(p.arg, g, node, b);
          var i :| 0 <= i < |pairs| && pairs[i] == (x, b);
          assert nexts[i] == b;
        }
      }
    }
  }

  method FromAllNodes(p: Path, g: set<Triple>, st: Backend, c: Option<Term>) returns (out: seq<Pair>)
    requires p.Repeat? && st.Ready(g, c) && (st.pushes ==> Fitting(p, g, None, None))
    modifies st.cache
    ensures st.Ready(g, c)
    ensures (forall s, o :: (s, o) in out <==> Yields(p, g, None, None, s, o)) && Distinct(out)
    decreases p, 0, 2, 0, 0
  {
    var nodes := ListNodes(g);
    out := Reflexive(p, nodes);
    ghost var zeros := out;
    for i := 0 to |nodes|
      invariant st.Ready(g, c) && Distinct(out)
      invariant forall s, o :: (s, o) in out <==>
        (s, o) in zeros || (s in nodes[..i] && IsSubject(s) && Forward(p.arg, g, p.more, s, o))
    {
      assert nodes[..i + 1] == nodes[..i] + [nodes[i]];
      if IsSubject(nodes[i]) {
        ghost var before := out;
        assert nodes[i] in nodes;
        out := From(p, g, st, c, false, nodes[i], None, out);
        forall s, o ensures (s, o) in out <==> (s, o) in before || (s == nodes[i] && Forward(p.arg, g, p.more, s, o)) {
          SoundPair(p, g, false, nodes[i], None, s, o);
        }
      }
    }
    assert nodes[..|nodes|] == nodes;
    forall s, o ensures (s, o) in out <==> Yields(p, g, None, None, s, o) {
      RepeatYields(p, g, None, None, s, o);
    }
  }

  method Reflexive(p: Path, nodes: seq<Term>) returns (out: seq<Pair>)
    requires p.Repeat?
    ensures Distinct(out) && forall s, o :: (s, o) in out <==> p.zero && s == o && s in nodes
  {
    out := [];
    if p.zero {
      for i := 0 to |nodes|
        invariant Distinct(out) && forall s, o :: (s, o) in out <==> s == o && s in nodes[..i]
      {
        assert nodes[..i + 1] == nodes[..i] + [nodes[i]];
        out := Emit(out, (nodes[i], nodes[i]));
      }
      assert nodes[..|nodes|] == nodes;
    }
  }

  method ListNodes(g: set<Triple>) returns (nodes: seq<Term>)
    ensures forall n :: n in nodes <==> n in Nodes(g)
  {
    nodes := [];
    var todo := g;
    while todo != {}
      invariant todo <= g
      invariant forall n :: n in nodes <==> n in Nodes(g - todo)
      decreases |todo|
    {
      var t :| t in todo;
      assert g - (todo - {t}) == (g - todo) + {t};
      assert Nodes((g - todo) + {t}) == Nodes(g - todo) + {t.s, t.o};
      nodes := nodes + [t.s, t.o];
      todo := todo - {t};
    }
    assert g - todo == g;
  }

  /** A path from outside: where the path and the endpoints fit, and so on every graph without
      literals, the pairs are those of the path's relation that fit the endpoints, whether the
      store answers reachability queries, declines them or cannot, and whatever the cache holds
      from earlier evaluations. */
  method EvalPath(p: Path, st: Backend, c: Option<Term>, subj: Option<Term>, obj: Option<Term>) returns (out: seq<Pair>)
    requires st.Ready(st.db(c), c)
    requires Fitting(p, st.db(c), subj, obj) || (LiteralFree(st.db(c)) && EndOk(st.db(c), subj) && EndOk(st.db(c), obj))
    modifies st.cache
    ensures st.Ready(st.db(c), c)
    ensures forall s, o :: (s, o) in out <==> Rel(p, st.db(c), s, o) && Fits(subj, s) && Fits(obj, o)
  {
    var g := st.db(c);
    if LiteralFree(g) && EndOk(g, subj) && EndOk(g, obj) {
      LiteralFreeFits(p, g, subj, obj);
    }
    out := Eval(p, g, st, c, subj, obj);
    forall s, o ensures Yields(p, g, subj, obj, s, o) <==> Rel(p, g, s, o) && Fits(subj, s) && Fits(obj, o) {
      YieldsIsRel(p, g, subj, obj, s, o);
    }
  }
}

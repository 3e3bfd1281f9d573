/** The guard that stops recursive SHACL shapes from validating themselves for ever, and the
    stack of one-element slices its runs hand out (shacl/shapes.go, shacl/validator.go). */
module RecursionGuards {
  import opened Common
  import opened Closures

  const GUARD_SCAN_DEPTH := 32

  datatype GuardKey = GuardKey(shape: Term, node: Term)

  /** A slice of capacity one: the array it was cut from and its position. */
  datatype Slice = Slice(arr: array<Option<Term>>, at: nat)

  datatype Holding = Holding(slice: Slice, t: Term)

  ghost function Keys(s: seq<GuardKey>): set<GuardKey> {
    set k | k in s
  }

  ghost predicate Distinct(s: seq<GuardKey>) {
    forall i, j :: 0 <= i < j < |s| ==> s[i] != s[j]
  }

  // ---------------------------------------------------------------------------
  // A nested run
  // ---------------------------------------------------------------------------

  /** A constraint, or a property shape at one value node, as what it does: it looks at its value
      nodes, has (shape, node) pairs validated and goes on by whether they conform, and ends with
      a verdict. `tested` pairs are only asked about, as sh:and, sh:or and sh:not do. References
      may be cyclic. */
  datatype Plan =
    | Verdict(violated: bool)
    | Read(next: Plan)
    | Ask(k: GuardKey, tested: bool, conforms: Plan, violates: Plan)
  {
    function Size(): nat {
      match this
      case Verdict(_) => 0
      case Read(next) => 1 + next.Size()
      case Ask(_, _, yes, no) => 1 + yes.Size() + no.Size()
    }
  }

  /** What a shape has its node checked for, in order. A node shape hands its constraints a slice
      with the focus node; a property shape does not. */
  datatype Body = Body(property: bool, items: seq<Plan>)

  type Shapes = map<GuardKey, Body>

  /** What a run observes: a pair already in progress, or a constraint of a pair and the value it
      finds in its slice. */
  datatype Event = Skipped(k: GuardKey) | Checked(k: GuardKey, read: Option<Term>)

  datatype Findings = Findings(events: seq<Event>, violated: bool)

  /** A quick run stops after the first constraint that is violated. A full run does not, but the
      pairs that are only asked about are run quickly. A plain run would have no quick part at
      all. */
  datatype Mode = Plain | Full | Quick {
    function Within(tested: bool): Mode {
      if tested && !Plain? then Quick else this
    }
  }

  function ItemsOf(shapes: Shapes, k: GuardKey): seq<Plan> {
    if k in shapes then shapes[k].items else []
  }

  function ValueOf(shapes: Shapes, k: GuardKey): Option<Term> {
    if k in shapes && shapes[k].property then None else Some(k.node)
  }

  lemma FewerLeft(shapes: Shapes, busy: set<GuardKey>, k: GuardKey)
    ensures k !in busy && k in shapes ==> |shapes.Keys - (busy + {k})| < |shapes.Keys - busy|
    ensures k !in shapes ==> |shapes.Keys - (busy + {k})| == |shapes.Keys - busy|
  {
    var left := shapes.Keys - busy;
    assert shapes.Keys - (busy + {k}) == left - {k};
  }

  /** The run as a plain set of the pairs in progress would have it. */
  function Trace(shapes: Shapes, mode: Mode, busy: set<GuardKey>, k: GuardKey): Findings
    decreases |shapes.Keys - busy|, 0, 1
  {
    if k in busy then Findings([Skipped(k)], false)
    else
      FewerLeft(shapes, busy, k);
      TraceItems(shapes, mode, busy + {k}, k, ItemsOf(shapes, k))
  }

  function TraceItems(shapes: Shapes, mode: Mode, busy: set<GuardKey>, k: GuardKey, items: seq<Plan>): Findings
    decreases |shapes.Keys - busy|, |items|, 0
  {
    if items == [] then Findings([], false)
    else
      var before := TraceItems(shapes, mode, busy, k, items[..|items| - 1]);
      if mode.Quick? && before.violated then before
      else
        var next := TracePlan(shapes, mode, busy, k, items[|items| - 1]);
        Findings(before.events + next.events, before.violated || next.violated)
  }

  function TracePlan(shapes: Shapes, mode: Mode, busy: set<GuardKey>, k: GuardKey, plan: Plan): Findings
    decreases |shapes.Keys - busy|, 0, 2 + plan.Size()
  {
    match plan
    case Verdict(violated) => Findings([], violated)
    case Read(next) =>
      var rest := TracePlan(shapes, mode, busy, k, next);
      Findings([Checked(k, ValueOf(shapes, k))] + rest.events, rest.violated)
    case Ask(j, tested, yes, no) =>
      var inner := Trace(shapes, mode.Within(tested), busy, j);
      var rest := TracePlan(shapes, mode, busy, k, if inner.violated then no else yes);
      Findings(inner.events + rest.events, rest.violated)
  }

  lemma TraceUnfolds(shapes: Shapes, mode: Mode, busy: set<GuardKey>, k: GuardKey)
    ensures Trace(shapes, mode, busy, k) ==
      if k in busy then Findings([Skipped(k)], false) else TraceItems(shapes, mode, busy + {k}, k, ItemsOf(shapes, k))
  {
  }

  lemma AskUnfolds(shapes: Shapes, mode: Mode, busy: set<GuardKey>, k: GuardKey, plan: Plan)
    requires plan.Ask?
    ensures var inner := Trace(shapes, mode.Within(plan.tested), busy, plan.k);
      var rest := TracePlan(shapes, mode, busy, k, if inner.violated then plan.violates else plan.conforms);
      TracePlan(shapes, mode, busy, k, plan) == Findings(inner.events + rest.events, rest.violated)
  {
  }

  /** One more item; once a quick run has found a violation, nothing more happens. */
  lemma TraceOneMore(shapes: Shapes, mode: Mode, busy: set<GuardKey>, k: GuardKey, items: seq<Plan>, i: nat)
    requires i < |items|
    ensures var before, next := TraceItems(shapes, mode, busy, k, items[..i]), TracePlan(shapes, mode, busy, k, items[i]);
      TraceItems(shapes, mode, busy, k, items[..i + 1]) ==
        if mode.Quick? && before.violated then before
        else Findings(before.events + next.events, before.violated || next.violated)
  {
    var more := items[..i + 1];
    assert more[..|more| - 1] == items[..i] && more[|more| - 1] == items[i];
  }

  lemma {:induction false} TraceStopped(shapes: Shapes, busy: set<GuardKey>, k: GuardKey, items: seq<Plan>, i: nat, n: nat)
    requires i <= n <= |items| && TraceItems(shapes, Quick, busy, k, items[..i]).violated
    ensures TraceItems(shapes, Quick, busy, k, items[..n]) == TraceItems(shapes, Quick, busy, k, items[..i])
    decreases n
  {
    if i < n {
      TraceStopped(shapes, busy, k, items, i, n - 1);
      TraceOneMore(shapes, Quick, busy, k, items, n - 1);
    }
  }

  // ---------------------------------------------------------------------------
  // The verdict does not depend on the mode
  // ---------------------------------------------------------------------------

  /** No mode changes a verdict: not even one that a negation turns round, on references of any
      shape. */
  lemma {:induction false} ModeIsInvisible(shapes: Shapes, mode: Mode, busy: set<GuardKey>, k: GuardKey)
    ensures Trace(shapes, mode, busy, k).violated == Trace(shapes, Plain, busy, k).violated
    decreases |shapes.Keys - busy|, 0, 1
  {
    TraceUnfolds(shapes, mode, busy, k);
    TraceUnfolds(shapes, Plain, busy, k);
    if k !in busy {
      FewerLeft(shapes, busy, k);
      ItemsAgree(shapes, mode, busy + {k}, k, ItemsOf(shapes, k), |ItemsOf(shapes, k)|);
      assert ItemsOf(shapes, k)[..|ItemsOf(shapes, k)|] == ItemsOf(shapes, k);
    }
  }

  lemma {:induction false} ItemsAgree(shapes: Shapes, mode: Mode, busy: set<GuardKey>, k: GuardKey, items: seq<Plan>, n: nat)
    requires n <= |items|
    ensures TraceItems(shapes, mode, busy, k, items[..n]).violated == TraceItems(shapes, Plain, busy, k, items[..n]).violated
    decreases |shapes.Keys - busy|, n, 0
  {
    if n == 0 {
      assert items[..0] == [];
    } else {
      ItemsAgree(shapes, mode, busy, k, items, n - 1);
      TraceOneMore(shapes, mode, busy, k, items, n - 1);
      TraceOneMore(shapes, Plain, busy, k, items, n - 1);
      PlansAgree(shapes, mode, busy, k, items[n - 1]);
    }
  }

  lemma {:induction false} PlansAgree(shapes: Shapes, mode: Mode, busy: set<GuardKey>, k: GuardKey, plan: Plan)
    ensures TracePlan(shapes, mode, busy, k, plan).violated == TracePlan(shapes, Plain, busy, k, plan).violated
    decreases |shapes.Keys - busy|, 0, 2 + plan.Size()
  {
    match plan
    case Verdict(_) =>
    case Read(next) => PlansAgree(shapes, mode, busy, k, next);
    case Ask(j, tested, yes, no) =>
      ModeIsInvisible(shapes, mode.Within(tested), busy, j);
      AskUnfolds(shapes, mode, busy, k, plan);
      AskUnfolds(shapes, Plain, busy, k, plan);
      PlansAgree(shapes, mode, busy, k, yes);
      PlansAgree(shapes, mode, busy, k, no);
  }

  // ---------------------------------------------------------------------------
  // A quick run leaves out, and does nothing else
  // ---------------------------------------------------------------------------

  /** `a` is `b` with some events left out. */
  ghost predicate LeavesOut(a: seq<Event>, b: seq<Event>)
    decreases b
  {
    a == [] || (b != [] && ((a[0] == b[0] && LeavesOut(a[1..], b[1..])) || LeavesOut(a, b[1..])))
  }

  lemma {:induction false} LeavesOutNothing(a: seq<Event>)
    ensures LeavesOut(a, a)
  {
    if a != [] {
      LeavesOutNothing(a[1..]);
    }
  }

  lemma {:induction false} LeavesOutBoth(a: seq<Event>, b: seq<Event>, c: seq<Event>, d: seq<Event>)
    requires LeavesOut(a, b) && LeavesOut(c, d)
    ensures LeavesOut(a + c, b + d)
    decreases b
  {
    if b == [] {
      assert a + c == c && b + d == d;
    } else {
      assert (b + d)[1..] == b[1..] + d;
      if a != [] && a[0] == b[0] && LeavesOut(a[1..], b[1..]) {
        LeavesOutBoth(a[1..], b[1..], c, d);
        assert (a + c)[1..] == a[1..] + c;
      } else if a != [] {
        LeavesOutBoth(a, b[1..], c, d);
      } else {
        LeavesOutBoth([], b[1..], c, d);
        assert [] + c == a + c == c;
        if c == [] {
        } else {
          assert LeavesOut(c, (b + d)[1..]);
        }
      }
    }
  }

  ghost predicate Shortens(quick: Findings, full: Findings) {
    quick.violated == full.violated && LeavesOut(quick.events, full.events)
  }

  /** A quick run observes what the full one does, some of it left out, and comes to the same
      verdict. */
  lemma {:induction false} QuickLeavesOut(shapes: Shapes, busy: set<GuardKey>, k: GuardKey)
    ensures Shortens(Trace(shapes, Quick, busy, k), Trace(shapes, Full, busy, k))
    decreases |shapes.Keys - busy|, 0, 1
  {
    TraceUnfolds(shapes, Quick, busy, k);
    TraceUnfolds(shapes, Full, busy, k);
    if k in busy {
      LeavesOutNothing([Skipped(k)]);
    } else {
      FewerLeft(shapes, busy, k);
      QuickItems(shapes, busy + {k}, k, ItemsOf(shapes, k), |ItemsOf(shapes, k)|);
      assert ItemsOf(shapes, k)[..|ItemsOf(shapes, k)|] == ItemsOf(shapes, k);
    }
  }

  lemma {:induction false} QuickItems(shapes: Shapes, busy: set<GuardKey>, k: GuardKey, items: seq<Plan>, n: nat)
    requires n <= |items|
    ensures Shortens(TraceItems(shapes, Quick, busy, k, items[..n]), TraceItems(shapes, Full, busy, k, items[..n]))
    decreases |shapes.Keys - busy|, n, 0
  {
    if n == 0 {
      assert items[..0] == [];
    } else {
      QuickItems(shapes, busy, k, items, n - 1);
      TraceOneMore(shapes, Quick, busy, k, items, n - 1);
      TraceOneMore(shapes, Full, busy, k, items, n - 1);
      QuickPlan(shapes, busy, k, items[n - 1]);
      var quick, full := TraceItems(shapes, Quick, busy, k, items[..n - 1]), TraceItems(shapes, Full, busy, k, items[..n - 1]);
      var quick', full' := TracePlan(shapes, Quick, busy, k, items[n - 1]), TracePlan(shapes, Full, busy, k, items[n - 1]);
      if quick.violated {
        LeavesOutBoth(quick.events, full.events, [], full'.events);
        assert quick.events + [] == quick.events;
      } else {
        LeavesOutBoth(quick.events, full.events, quick'.events, full'.events);
      }
    }
  }

  lemma {:induction false} QuickPlan(shapes: Shapes, busy: set<GuardKey>, k: GuardKey, plan: Plan)
    ensures Shortens(TracePlan(shapes, Quick, busy, k, plan), TracePlan(shapes, Full, busy, k, plan))
    decreases |shapes.Keys - busy|, 0, 2 + plan.Size()
  {
    match plan
    case Verdict(_) =>
    case Read(next) =>
      QuickPlan(shapes, busy, k, next);
      var read := [Checked(k, ValueOf(shapes, k))];
      LeavesOutNothing(read);
      LeavesOutBoth(read, read, TracePlan(shapes, Quick, busy, k, next).events, TracePlan(shapes, Full, busy, k, next).events);
    case Ask(j, tested, yes, no) =>
      AskUnfolds(shapes, Quick, busy, k, plan);
      AskUnfolds(shapes, Full, busy, k, plan);
      var quick, full := Trace(shapes, Quick, busy, j), Trace(shapes, Full.Within(tested), busy, j);
      if tested {
        LeavesOutNothing(quick.events);
      } else {
        QuickLeavesOut(shapes, busy, j);
      }
      var rest := if quick.violated then no else yes;
      QuickPlan(shapes, busy, k, rest);
      LeavesOutBoth(quick.events, full.events, TracePlan(shapes, Quick, busy, k, rest).events, TracePlan(shapes, Full, busy, k, rest).events);
  }

  // ---------------------------------------------------------------------------
  // The logical constraints
  // ---------------------------------------------------------------------------

  type Verdicts = GuardKey -> bool

  /** What a plan comes to when `v` tells which pairs are violated. */
  function Decide(plan: Plan, v: Verdicts): bool {
    match plan
    case Verdict(violated) => violated
    case Read(next) => Decide(next, v)
    case Ask(k, _, yes, no) => if v(k) then Decide(no, v) else Decide(yes, v)
  }

  ghost function PlainVerdicts(shapes: Shapes, busy: set<GuardKey>): Verdicts {
    k => Trace(shapes, Plain, busy, k).violated
  }

  /** In every mode a constraint comes to what the plain verdicts make of it. */
  lemma {:induction false} PlanDecides(shapes: Shapes, mode: Mode, busy: set<GuardKey>, k: GuardKey, plan: Plan)
    ensures TracePlan(shapes, mode, busy, k, plan).violated == Decide(plan, PlainVerdicts(shapes, busy))
    decreases plan
  {
    match plan
    case Verdict(_) =>
    case Read(next) => PlanDecides(shapes, mode, busy, k, next);
    case Ask(j, tested, yes, no) =>
      ModeIsInvisible(shapes, mode.Within(tested), busy, j);
      AskUnfolds(shapes, mode, busy, k, plan);
      PlanDecides(shapes, mode, busy, k, yes);
      PlanDecides(shapes, mode, busy, k, no);
  }

  /** sh:and at one value node: on to `bad` at the first pair that does not conform. */
  function All(ks: seq<GuardKey>, good: Plan, bad: Plan): Plan {
    if ks == [] then good else Ask(ks[0], true, All(ks[1..], good, bad), bad)
  }

  /** sh:or at one value node: on to `good` at the first pair that conforms. */
  function Any(ks: seq<GuardKey>, good: Plan, bad: Plan): Plan {
    if ks == [] then bad else Ask(ks[0], true, good, Any(ks[1..], good, bad))
  }

  /** sh:xone at one value node, with the pairs that conform counted. */
  function One(ks: seq<GuardKey>, count: nat, good: Plan, bad: Plan): Plan {
    if ks == [] then (if count == 1 then good else bad)
    else Ask(ks[0], false, One(ks[1..], count + 1, good, bad), One(ks[1..], count, good, bad))
  }

  datatype Logic = LogicalAnd | LogicalOr | LogicalXone

  function At(op: Logic, ks: seq<GuardKey>, good: Plan, bad: Plan): Plan {
    match op
    case LogicalAnd => All(ks, good, bad)
    case LogicalOr => Any(ks, good, bad)
    case LogicalXone => One(ks, 0, good, bad)
  }

  /** The constraint goes through all value nodes, each with its pairs, whatever it finds. */
  function Over(op: Logic, groups: seq<seq<GuardKey>>, violated: bool): Plan {
    if groups == [] then Verdict(violated)
    else At(op, groups[0], Over(op, groups[1..], violated), Over(op, groups[1..], true))
  }

  /** sh:not and sh:node: one pair for each value node. */
  function Each(ks: seq<GuardKey>, negated: bool, violated: bool): Plan {
    if ks == [] then Verdict(violated)
    else
      var on, off := Each(ks[1..], negated, violated), Each(ks[1..], negated, true);
      Ask(ks[0], negated, if negated then off else on, if negated then on else off)
  }

  function Conforming(v: Verdicts, ks: seq<GuardKey>): nat {
    if ks == [] then 0 else (if v(ks[0]) then 0 else 1) + Conforming(v, ks[1..])
  }

  /** What SHACL says of one value node. */
  predicate Meets(op: Logic, v: Verdicts, ks: seq<GuardKey>) {
    match op
    case LogicalAnd => forall k :: k in ks ==> !v(k)
    case LogicalOr => exists k :: k in ks && !v(k)
    case LogicalXone => Conforming(v, ks) == 1
  }

  lemma {:induction false} AllDecides(v: Verdicts, ks: seq<GuardKey>, good: Plan, bad: Plan)
    ensures Decide(All(ks, good, bad), v) == Decide(if Meets(LogicalAnd, v, ks) then good else bad, v)
  {
    if ks != [] {
      AllDecides(v, ks[1..], good, bad);
      assert forall k :: k in ks <==> k == ks[0] || k in ks[1..];
    }
  }

  lemma {:induction false} AnyDecides(v: Verdicts, ks: seq<GuardKey>, good: Plan, bad: Plan)
    ensures Decide(Any(ks, good, bad), v) == Decide(if Meets(LogicalOr, v, ks) then good else bad, v)
  {
    if ks != [] {
      AnyDecides(v, ks[1..], good, bad);
      assert forall k :: k in ks <==> k == ks[0] || k in ks[1..];
      assert ks[0] in ks;
    }
  }

  lemma {:induction false} OneDecides(v: Verdicts, ks: seq<GuardKey>, count: nat, good: Plan, bad: Plan)
    ensures Decide(One(ks, count, good, bad), v) == Decide(if count + Conforming(v, ks) == 1 then good else bad, v)
  {
    if ks != [] {
      OneDecides(v, ks[1..], count + 1, good, bad);
      OneDecides(v, ks[1..], count, good, bad);
    }
  }

  lemma AtDecides(op: Logic, v: Verdicts, ks: seq<GuardKey>, good: Plan, bad: Plan)
    ensures Decide(At(op, ks, good, bad), v) == Decide(if Meets(op, v, ks) then good else bad, v)
  {
    match op
    case LogicalAnd => AllDecides(v, ks, good, bad);
    case LogicalOr => AnyDecides(v, ks, good, bad);
    case LogicalXone => OneDecides(v, ks, 0, good, bad);
  }

  lemma {:induction false} OverDecides(op: Logic, v: Verdicts, groups: seq<seq<GuardKey>>, violated: bool)
    ensures Decide(Over(op, groups, violated), v) <==> violated || exists ks :: ks in groups && !Meets(op, v, ks)
  {
    if groups != [] {
      OverDecides(op, v, groups[1..], violated);
      OverDecides(op, v, groups[1..], true);
      AtDecides(op, v, groups[0], Over(op, groups[1..], violated), Over(op, groups[1..], true));
      assert forall ks :: ks in groups <==> ks == groups[0] || ks in groups[1..];
      assert groups[0] in groups;
    }
  }

  lemma {:induction false} EachDecides(v: Verdicts, ks: seq<GuardKey>, negated: bool, violated: bool)
    ensures Decide(Each(ks, negated, violated), v) <==> violated || exists k :: k in ks && v(k) != negated
  {
    if ks != [] {
      EachDecides(v, ks[1..], negated, violated);
      EachDecides(v, ks[1..], negated, true);
      assert forall k :: k in ks <==> k == ks[0] || k in ks[1..];
      assert ks[0] in ks;
    }
  }

  /** In every mode sh:and, sh:or and sh:xone are violated exactly when some value node does not
      meet them, and sh:node and sh:not when some pair does not or does conform, all by runs
      without a quick part. */
  lemma LogicIsLogic(shapes: Shapes, mode: Mode, busy: set<GuardKey>, k: GuardKey, op: Logic, groups: seq<seq<GuardKey>>, ks: seq<GuardKey>, negated: bool)
    ensures TracePlan(shapes, mode, busy, k, Over(op, groups, false)).violated <==>
      exists g :: g in groups && !Meets(op, PlainVerdicts(shapes, busy), g)
    ensures TracePlan(shapes, mode, busy, k, Each(ks, negated, false)).violated <==>
      exists j :: j in ks && Trace(shapes, Plain, busy, j).violated != negated
  {
    var v := PlainVerdicts(shapes, busy);
    PlanDecides(shapes, mode, busy, k, Over(op, groups, false));
    OverDecides(op, v, groups, false);
    PlanDecides(shapes, mode, busy, k, Each(ks, negated, false));
    EachDecides(v, ks, negated, false);
    assert forall j :: v(j) == Trace(shapes, Plain, busy, j).violated;
  }

  // ---------------------------------------------------------------------------
  // The guard
  // ---------------------------------------------------------------------------

  class RecursionGuard {
    var stack: seq<GuardKey>
    var active: Option<set<GuardKey>>
    var values: array<Option<Term>>
    var len: nat
    var quick: bool
    /** The slices handed out and not yet released, with the terms they were given. */
    ghost var held: seq<Holding>

    ghost function Busy(): set<GuardKey>
      reads this`stack
    {
      Keys(stack)
    }

    ghost predicate StackValid()
      reads this`stack, this`active
    {
      Distinct(stack) && (active.Some? ==> active.value == Busy() && |stack| > GUARD_SCAN_DEPTH / 2) &&
      (active.None? ==> |stack| <= GUARD_SCAN_DEPTH)
    }

    /** Every slice still holds its term, wherever growth has left it. */
    ghost predicate SlicesHold()
      reads this`values, this`len, this`held, values, set h | h in held :: h.slice.arr
    {
      |held| == len <= values.Length &&
      forall i :: 0 <= i < |held| ==>
        held[i].slice.at == i < held[i].slice.arr.Length && held[i].slice.arr[i] == Some(held[i].t) && values[i] == Some(held[i].t)
    }

    constructor ()
      ensures StackValid() && SlicesHold() && stack == [] && held == [] && fresh(values) && !quick
    {
      stack, active, values, len, quick, held := [], None, new Option<Term>[0], 0, false, [];
    }

    /** Answers as a set of the pairs in progress would, and adds the pair to it. */
    method Enter(k: GuardKey) returns (ok: bool)
      requires StackValid()
      modifies this`stack, this`active
      ensures StackValid() && ok == (k !in old(Busy()))
      ensures stack == if ok then old(stack) + [k] else old(stack)
      ensures Busy() == old(Busy()) + {k}
      ensures old(SlicesHold()) ==> SlicesHold()
    {
      if active.None? {
        for i := 0 to |stack|
          invariant k !in stack[..i]
        {
          if stack[i] == k {
            return false;
          }
        }
        stack := stack + [k];
        if |stack| > GUARD_SCAN_DEPTH {
          var all: set<GuardKey> := {};
          for i := 0 to |stack|
            invariant all == set x | x in stack[..i]
          {
            all := all + {stack[i]};
          }
          active := Some(all);
        }
        return true;
      }
      if k in active.value {
        return false;
      }
      active := Some(active.value + {k});
      stack := stack + [k];
      return true;
    }

    /** Takes back the latest pair entered and not left. */
    method Leave()
      requires StackValid() && stack != []
      modifies this`stack, this`active
      ensures StackValid() && stack == old(stack[..|stack| - 1])
      ensures Busy() == old(Busy()) - {old(stack[|stack| - 1])}
      ensures old(SlicesHold()) ==> SlicesHold()
    {
      var top := stack[|stack| - 1];
      stack := stack[..|stack| - 1];
      assert old(stack) == stack + [top];
      if active.Some? {
        active := Some(active.value - {top});
        if |stack| <= GUARD_SCAN_DEPTH / 2 {
          active := None;
        }
      }
    }

    /** A slice holding only `t`. Slices handed out before keep their terms; growing moves later
        slots to a new array and writes to none of the old ones. */
    method PushSingle(t: Term) returns (s: Slice)
      requires SlicesHold()
      modifies this`values, this`len, this`held, values
      ensures SlicesHold() && held == old(held) + [Holding(s, t)]
      ensures values == old(values) || fresh(values)
    {
      var n := len;
      if n == values.Length {
        var grown := new Option<Term>[2 * n + 8](_ => None);
        for i := 0 to n
          invariant forall j :: 0 <= j < i ==> grown[j] == values[j]
          modifies grown
        {
          grown[i] := values[i];
        }
        values := grown;
      }
      values[n] := Some(t);
      len := n + 1;
      s := Slice(values, n);
      held := held + [Holding(s, t)];
    }

    /** Releases the latest slice; every other slice keeps its term. */
    method PopSingle()
      requires SlicesHold() && held != []
      modifies this`len, this`held, values
      ensures SlicesHold() && held == old(held[..|held| - 1])
    {
      var n := len - 1;
      values[n] := None;
      len := n;
      held := held[..n];
    }

    function CurrentMode(): Mode
      reads this`quick
    {
      if quick then Quick else Full
    }

    /** A whole nested run. On references of any shape it ends, meets exactly the events of a
        plain set of in-progress pairs, has every constraint of a node shape find the focus node
        it was given in its slice, whatever ran before it, and leaves the guard as it found it. */
    method Run(shapes: Shapes, k: GuardKey) returns (r: Findings)
      requires StackValid() && SlicesHold()
      modifies this, values
      ensures StackValid() && SlicesHold() && stack == old(stack) && held == old(held) && quick == old(quick)
      ensures values == old(values) || fresh(values)
      ensures r == Trace(shapes, old(CurrentMode()), old(Busy()), k)
      decreases |shapes.Keys - Busy()|, 0, 4
    {
      ghost var busy, mode := Busy(), CurrentMode();
      FewerLeft(shapes, busy, k);
      var ok := Enter(k);
      if ok {
        r := RunAndLeave(shapes, k, busy);
      } else {
        r := Findings([Skipped(k)], false);
      }
      assert r == Trace(shapes, mode, busy, k);
    }

    /** The rest of the run of a pair that has just been entered. */
    method RunAndLeave(shapes: Shapes, k: GuardKey, ghost busy: set<GuardKey>) returns (r: Findings)
      requires StackValid() && SlicesHold() && stack != [] && k !in busy && Busy() == busy + {k}
      modifies this, values
      ensures StackValid() && SlicesHold() && stack == old(stack)[..|old(stack)| - 1] && held == old(held) && quick == old(quick)
      ensures values == old(values) || fresh(values)
      ensures r == Trace(shapes, old(CurrentMode()), busy, k)
      decreases |shapes.Keys - Busy()|, |ItemsOf(shapes, k)|, 3
    {
      TraceUnfolds(shapes, CurrentMode(), busy, k);
      r := RunEntered(shapes, k);
      Leave();
    }

    /** The constraints of an entered pair: a node shape pushes its slice first and pops it when
        they have run, a property shape has none. */
    method RunEntered(shapes: Shapes, k: GuardKey) returns (r: Findings)
      requires StackValid() && SlicesHold()
      modifies this, values
      ensures StackValid() && SlicesHold() && stack == old(stack) && held == old(held) && quick == old(quick)
      ensures values == old(values) || fresh(values)
      ensures r == TraceItems(shapes, old(CurrentMode()), old(Busy()), k, ItemsOf(shapes, k))
      decreases |shapes.Keys - Busy()|, |ItemsOf(shapes, k)|, 2
    {
      if ValueOf(shapes, k).None? {
        r := RunItems(shapes, k, None, ItemsOf(shapes, k));
      } else {
        var s := PushSingle(k.node);
        r := RunItems(shapes, k, Some(s), ItemsOf(shapes, k));
        PopSingle();
      }
    }

    /** The slice is the latest one handed out, for the focus node, or there is none. */
    ghost predicate Holds(shapes: Shapes, k: GuardKey, slice: Option<Slice>)
      reads this`held
    {
      if slice.None? then ValueOf(shapes, k).None?
      else ValueOf(shapes, k) == Some(k.node) && held != [] && held[|held| - 1] == Holding(slice.value, k.node)
    }

    method RunItems(shapes: Shapes, k: GuardKey, slice: Option<Slice>, items: seq<Plan>) returns (r: Findings)
      requires StackValid() && SlicesHold() && Holds(shapes, k, slice)
      modifies this, values
      ensures StackValid() && SlicesHold() && stack == old(stack) && held == old(held) && quick == old(quick)
      ensures values == old(values) || fresh(values)
      ensures r == TraceItems(shapes, old(CurrentMode()), old(Busy()), k, items)
      decreases |shapes.Keys - Busy()|, |items|, 1
    {
      r := Findings([], false);
      for i := 0 to |items|
        invariant StackValid() && SlicesHold() && stack == old(stack) && held == old(held) && quick == old(quick)
        invariant values == old(values) || fresh(values)
        invariant r == TraceItems(shapes, old(CurrentMode()), old(Busy()), k, items[..i])
      {
        TraceOneMore(shapes, old(CurrentMode()), old(Busy()), k, items, i);
        if quick && r.violated {
          TraceStopped(shapes, old(Busy()), k, items, i, |items|);
          assert items[..|items|] == items;
          return;
        }
        var found := RunPlan(shapes, k, slice, items[i]);
        r := Findings(r.events + found.events, r.violated || found.violated);
      }
      assert items[..|items|] == items;
    }

    /** One constraint: it reads the slice, has pairs run or asks about them, and goes on by what
        it hears. */
    method RunPlan(shapes: Shapes, k: GuardKey, slice: Option<Slice>, plan: Plan) returns (r: Findings)
      requires StackValid() && SlicesHold() && Holds(shapes, k, slice)
      modifies this, values
      ensures StackValid() && SlicesHold() && stack == old(stack) && held == old(held) && quick == old(quick)
      ensures values == old(values) || fresh(values)
      ensures r == TracePlan(shapes, old(CurrentMode()), old(Busy()), k, plan)
      decreases |shapes.Keys - Busy()|, 0, 7 + plan.Size()
    {
      ghost var mode, busy := CurrentMode(), Busy();
      match plan
      case Verdict(violated) =>
        r := Findings([], violated);
      case Read(next) =>
        var read := if slice.None? then None else slice.value.arr[slice.value.at];
        var rest := RunPlan(shapes, k, slice, next);
        r := Findings([Checked(k, read)] + rest.events, rest.violated);
        assert r == TracePlan(shapes, mode, busy, k, plan);
      case Ask(j, tested, yes, no) =>
        AskUnfolds(shapes, mode, busy, k, plan);
        var inner := RunAsked(shapes, j, tested);
        var branch := if inner.violated then no else yes;
        var rest := RunPlan(shapes, k, slice, branch);
        r := Findings(inner.events + rest.events, rest.violated);
        assert r == TracePlan(shapes, mode, busy, k, plan);
    }

    /** One pair, run as the constraint wants it. */
    method RunAsked(shapes: Shapes, k: GuardKey, tested: bool) returns (r: Findings)
      requires StackValid() && SlicesHold()
      modifies this, values
      ensures StackValid() && SlicesHold() && stack == old(stack) && held == old(held) && quick == old(quick)
      ensures values == old(values) || fresh(values)
      ensures r == Trace(shapes, old(CurrentMode()).Within(tested), old(Busy()), k)
      decreases |shapes.Keys - Busy()|, 0, 6
    {
      if tested {
        var conforms, events := NodeConforms(shapes, k);
        r := Findings(events, !conforms);
      } else {
        r := Run(shapes, k);
      }
    }

    /** Whether the pair has no violation, found by a quick run. */
    method NodeConforms(shapes: Shapes, k: GuardKey) returns (conforms: bool, events: seq<Event>)
      requires StackValid() && SlicesHold()
      modifies this, values
      ensures StackValid() && SlicesHold() && stack == old(stack) && held == old(held) && quick == old(quick)
      ensures values == old(values) || fresh(values)
      ensures Findings(events, !conforms) == Trace(shapes, Quick, old(Busy()), k)
      ensures conforms == !Trace(shapes, Plain, old(Busy()), k).violated
      decreases |shapes.Keys - Busy()|, 0, 5
    {
      ModeIsInvisible(shapes, Quick, Busy(), k);
      var prev := quick;
      quick := true;
      var r := Run(shapes, k);
      quick := prev;
      return !r.violated, r.events;
    }
  }
}

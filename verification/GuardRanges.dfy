/**
 The ranges of environment values, inferred from the guards at their read
 sites: a comparison becomes bounds, and the bounds of all sites are merged
 into the range that start-up enforces.

 Numbers are reals, so there are no NaNs and no rounding.
 */
module GuardRanges {
  import opened Orders
  import opened Wrappers

  // Comparisons ---------------------------------------------------------------------

  datatype Op = Lt | LtE | Gt | GtE | OtherOp(id: nat)

  /** Any other expression or operator is only known by a number; its meaning is left open. */
  datatype Expr = Name(path: string) | Number(number: real) | Minus(inner: Expr) | OtherExpr(id: nat)

  datatype Meaning = Meaning(value: string -> real, other: nat -> real, relation: (nat, real, real) -> bool)

  function Eval(m: Meaning, e: Expr): real {
    match e
    case Name(path) => m.value(path)
    case Number(number) => number
    case Minus(inner) => -Eval(m, inner)
    case OtherExpr(id) => m.other(id)
  }

  predicate Compares(m: Meaning, op: Op, a: real, b: real) {
    match op
    case Lt => a < b
    case LtE => a <= b
    case Gt => a > b
    case GtE => a >= b
    case OtherOp(id) => m.relation(id, a, b)
  }

  function Mirrored(op: Op): Op {
    match op
    case Lt => Gt
    case LtE => GtE
    case Gt => Lt
    case GtE => LtE
    case OtherOp(_) => op
  }

  function Inverted(op: Op): Op {
    match op
    case Lt => GtE
    case LtE => Gt
    case Gt => LtE
    case GtE => Lt
    case OtherOp(_) => op
  }

  /** Mirroring swaps the operands, inverting negates; each undoes itself and they commute. */
  lemma MirrorInvert(m: Meaning, op: Op, a: real, b: real)
    requires !op.OtherOp?
    ensures Compares(m, Mirrored(op), b, a) <==> Compares(m, op, a, b)
    ensures Compares(m, Inverted(op), a, b) <==> !Compares(m, op, a, b)
    ensures Mirrored(Mirrored(op)) == op && Inverted(Inverted(op)) == op
    ensures Mirrored(Inverted(op)) == Inverted(Mirrored(op))
  {
  }

  // Bounds ------------------------------------------------------------------------------

  datatype Side = Minimum | Maximum

  datatype Bound = Bound(path: string, side: Side, limit: real, strict: bool)

  predicate Within(side: Side, limit: real, strict: bool, v: real) {
    match side
    case Minimum => if strict then v > limit else v >= limit
    case Maximum => if strict then v < limit else v <= limit
  }

  ghost predicate Meets(m: Meaning, b: Bound) {
    Within(b.side, b.limit, b.strict, m.value(b.path))
  }

  function TargetPath(e: Expr): Option<string> {
    if e.Name? then Some(e.path) else None
  }

  function LiteralNumber(e: Expr): Option<real> {
    match e
    case Number(number) => Some(number)
    case Minus(inner) => (match LiteralNumber(inner) case None => None case Some(v) => Some(-v))
    case _ => None
  }

  lemma {:induction false} LiteralIsValue(m: Meaning, e: Expr)
    ensures LiteralNumber(e).Some? ==> Eval(m, e) == LiteralNumber(e).value
  {
    if e.Minus? {
      LiteralIsValue(m, e.inner);
    }
  }

  /** What an operator that must hold says about its left operand. */
  function HoldingBound(op: Op): Option<(Side, bool)> {
    match op
    case GtE => Some((Minimum, false))
    case Gt => Some((Minimum, true))
    case LtE => Some((Maximum, false))
    case Lt => Some((Maximum, true))
    case OtherOp(_) => None
  }

  /** The bound of one link of a comparison: the link must hold, or must not. */
  function LinkBound(left: Expr, op: Op, right: Expr, holds: bool): Option<Bound> {
    var straight := TargetPath(left).Some? && LiteralNumber(right).Some?;
    var path := if straight then TargetPath(left) else TargetPath(right);
    var literal := if straight then LiteralNumber(right) else LiteralNumber(left);
    var mirrored := if straight then op else Mirrored(op);
    if path.None? || literal.None? then None
    else
      var kind := if holds then mirrored else Inverted(mirrored);
      match HoldingBound(kind)
      case None => None
      case Some((side, strict)) => Some(Bound(path.value, side, literal.value, strict))
  }

  /** A bound says exactly what its link says. */
  lemma LinkBoundExact(m: Meaning, left: Expr, op: Op, right: Expr, holds: bool)
    requires LinkBound(left, op, right, holds).Some?
    ensures Meets(m, LinkBound(left, op, right, holds).value) <==>
      (Compares(m, op, Eval(m, left), Eval(m, right)) <==> holds)
  {
    LiteralIsValue(m, left);
    LiteralIsValue(m, right);
  }

  // Comparisons with any number of links ---------------------------------------------------

  datatype Link = Link(op: Op, right: Expr)

  datatype Compare = Compare(left: Expr, links: seq<Link>)

  function LeftOf(c: Compare, k: nat): Expr
    requires k < |c.links|
  {
    if k == 0 then c.left else c.links[k - 1].right
  }

  /** A chained comparison holds when all its links do. */
  ghost predicate Holds(m: Meaning, c: Compare) {
    forall k :: 0 <= k < |c.links| ==> LinkHolds(m, c, k)
  }

  ghost predicate LinkHolds(m: Meaning, c: Compare, k: nat)
    requires k < |c.links|
  {
    Compares(m, c.links[k].op, Eval(m, LeftOf(c, k)), Eval(m, c.links[k].right))
  }

  /** The operands of a comparison, in the order they are written. */
  ghost function Operands(c: Compare): (r: seq<Expr>)
    ensures |r| == |c.links| + 1
  {
    [c.left] + seq(|c.links|, k requires 0 <= k < |c.links| => c.links[k].right)
  }

  /** Operator `k` holds between its neighbours. */
  ghost predicate Between(m: Meaning, c: Compare, k: nat)
    requires k < |c.links|
  {
    Compares(m, c.links[k].op, Eval(m, Operands(c)[k]), Eval(m, Operands(c)[k + 1]))
  }

  /** A comparison holds when every operator does. */
  lemma ChainHolds(m: Meaning, c: Compare)
    ensures Holds(m, c) <==> forall k :: 0 <= k < |c.links| ==> Between(m, c, k)
  {
    forall k | 0 <= k < |c.links|
      ensures LinkHolds(m, c, k) <==> Between(m, c, k)
    {
    }
  }

  function BoundAt(c: Compare, k: nat, holds: bool): Option<Bound>
    requires k < |c.links|
  {
    LinkBound(LeftOf(c, k), c.links[k].op, c.links[k].right, holds)
  }

  /** The bounds of the first `n` links, in their order; a link that is not recognised gives none. */
  ghost function BoundsUpTo(c: Compare, n: nat, holds: bool): seq<Bound>
    requires n <= |c.links|
  {
    if n == 0 then []
    else
      var bound := BoundAt(c, n - 1, holds);
      BoundsUpTo(c, n - 1, holds) + if bound.Some? then [bound.value] else []
  }

  lemma {:induction false} BoundsAreLinks(c: Compare, n: nat, holds: bool, b: Bound)
    requires n <= |c.links|
    ensures b in BoundsUpTo(c, n, holds) <==> exists k :: 0 <= k < n && BoundAt(c, k, holds) == Some(b)
  {
    if n > 0 {
      BoundsAreLinks(c, n - 1, holds, b);
    }
  }

  /** The bounds are those of the recognised links, in their order. */
  method CompareBounds(c: Compare, holds: bool) returns (bounds: seq<Bound>)
    ensures bounds == BoundsUpTo(c, |c.links|, holds)
    ensures forall b :: b in bounds <==> exists k :: 0 <= k < |c.links| && BoundAt(c, k, holds) == Some(b)
  {
    bounds := [];
    for k := 0 to |c.links|
      invariant bounds == BoundsUpTo(c, k, holds)
    {
      var bound := BoundAt(c, k, holds);
      if bound.Some? {
        bounds := bounds + [bound.value];
      }
    }
    forall b
      ensures b in bounds <==> exists k :: 0 <= k < |c.links| && BoundAt(c, k, holds) == Some(b)
    {
      BoundsAreLinks(c, |c.links|, holds, b);
    }
  }

  // Guards ------------------------------------------------------------------------------------

  datatype Test = Plain(compare: Compare) | Negated(compare: Compare) | OtherTest(id: nat)

  datatype Statement = If(test: Test, raises: bool) | OtherStatement

  /** Whether a test is true; tests other than comparisons may be either. */
  ghost predicate True(m: Meaning, truth: nat -> bool, test: Test) {
    match test
    case Plain(c) => Holds(m, c)
    case Negated(c) => !Holds(m, c)
    case OtherTest(id) => truth(id)
  }

  /** The statement does not raise. */
  ghost predicate Passes(m: Meaning, truth: nat -> bool, s: Statement) {
    !(s.If? && s.raises && True(m, truth, s.test))
  }

  /** The comparison a statement is read from, and whether it must hold for the statement to pass. */
  function ReadFrom(s: Statement): Option<(Compare, bool)> {
    if !s.If? || !s.raises || s.test.OtherTest? then None
    else if s.test.Negated? then Some((s.test.compare, true))
    else if |s.test.compare.links| == 1 then Some((s.test.compare, false))
    else None
  }

  ghost predicate BoundOf(s: Statement, b: Bound) {
    && ReadFrom(s).Some?
    && var (c, holds) := ReadFrom(s).value;
       exists k :: 0 <= k < |c.links| && BoundAt(c, k, holds) == Some(b)
  }

  /** Every link of the statement's comparison was recognised. */
  ghost predicate FullyRead(s: Statement) {
    && ReadFrom(s).Some?
    && var (c, holds) := ReadFrom(s).value;
       forall k :: 0 <= k < |c.links| ==> BoundAt(c, k, holds).Some?
  }

  /** The bounds of that comparison, in the order of its links. */
  ghost function BoundsIn(s: Statement): seq<Bound> {
    var read := ReadFrom(s);
    if read.None? then [] else BoundsUpTo(read.value.0, |read.value.0.links|, read.value.1)
  }

  // What a guard is read as ------------------------------------------------------------------

  /** A number written out, under any number of minus signs. */
  predicate Written(e: Expr) {
    e.Number? || (e.Minus? && Written(e.inner))
  }

  /** The link orders a name and a number written out, either way round. */
  predicate Recognised(c: Compare, k: nat)
    requires k < |c.links|
  {
    var left, right := LeftOf(c, k), c.links[k].right;
    && !c.links[k].op.OtherOp?
    && ((left.Name? && Written(right)) || (Written(left) && right.Name?))
  }

  /** The bound is on the name in the link, and values meet it if and only if they make the link hold, or fail. */
  ghost predicate Says(c: Compare, k: nat, holds: bool, b: Bound)
    requires k < |c.links| && Recognised(c, k)
  {
    && b.path == (if LeftOf(c, k).Name? then LeftOf(c, k).path else c.links[k].right.path)
    && forall m :: Meets(m, b) <==> (LinkHolds(m, c, k) <==> holds)
  }

  /** There is one such bound. */
  lemma SaysOne(c: Compare, k: nat, holds: bool, a: Bound, b: Bound)
    requires k < |c.links| && Recognised(c, k) && Says(c, k, holds, a) && Says(c, k, holds, b)
    ensures a == b
  {
    forall v: real
      ensures Within(a.side, a.limit, a.strict, v) <==> Within(b.side, b.limit, b.strict, v)
    {
      var m := Meaning(path => v, id => 0.0, (id, x, y) => false);
      assert Meets(m, a) <==> Meets(m, b);
    }
    HalfLines(a, b);
  }

  /** A half-line has one way to be written down. */
  lemma HalfLines(a: Bound, b: Bound)
    requires a.path == b.path
    requires forall v: real :: Within(a.side, a.limit, a.strict, v) <==> Within(b.side, b.limit, b.strict, v)
    ensures a == b
  {
    var low := if a.limit < b.limit then a.limit else b.limit;
    var high := if a.limit < b.limit then b.limit else a.limit;
    assert Within(a.side, a.limit, a.strict, low - 1.0) <==> Within(b.side, b.limit, b.strict, low - 1.0);
    assert Within(a.side, a.limit, a.strict, (low + high) / 2.0) <==>
           Within(b.side, b.limit, b.strict, (low + high) / 2.0);
  }

  /** The recognised links among the first `n`. */
  ghost function Places(c: Compare, n: nat): (r: seq<nat>)
    requires n <= |c.links|
    ensures forall j :: 0 <= j < |r| ==> r[j] < n && Recognised(c, r[j])
  {
    if n == 0 then [] else Places(c, n - 1) + if Recognised(c, n - 1) then [n - 1] else []
  }

  /** One bound for each recognised link, in their order. */
  ghost predicate ReadsLinks(c: Compare, n: nat, holds: bool, bounds: seq<Bound>)
    requires n <= |c.links|
  {
    && |bounds| == |Places(c, n)|
    && forall j :: 0 <= j < |bounds| ==> Says(c, Places(c, n)[j], holds, bounds[j])
  }

  /**
   What a statement is read as. A raising comparison of one link must not hold; a
   raising negated comparison must hold, link by link; nothing else is a bound.
   */
  ghost predicate ReadsGuard(s: Statement, bounds: seq<Bound>) {
    match s
    case If(Plain(c), true) => if |c.links| == 1 then ReadsLinks(c, 1, false, bounds) else bounds == []
    case If(Negated(c), true) => ReadsLinks(c, |c.links|, true, bounds)
    case _ => bounds == []
  }

  lemma {:induction false} LiteralIsWritten(e: Expr)
    ensures LiteralNumber(e).Some? <==> Written(e)
  {
    if e.Minus? {
      LiteralIsWritten(e.inner);
    }
  }

  lemma BoundAtSays(c: Compare, k: nat, holds: bool)
    requires k < |c.links|
    ensures BoundAt(c, k, holds).Some? <==> Recognised(c, k)
    ensures Recognised(c, k) ==> Says(c, k, holds, BoundAt(c, k, holds).value)
  {
    var left, op, right := LeftOf(c, k), c.links[k].op, c.links[k].right;
    LiteralIsWritten(left);
    LiteralIsWritten(right);
    if Recognised(c, k) {
      var b := BoundAt(c, k, holds).value;
      forall m
        ensures Meets(m, b) <==> (LinkHolds(m, c, k) <==> holds)
      {
        LinkBoundExact(m, left, op, right, holds);
      }
    }
  }

  lemma {:induction false} LinksRead(c: Compare, n: nat, holds: bool)
    requires n <= |c.links|
    ensures ReadsLinks(c, n, holds, BoundsUpTo(c, n, holds))
  {
    if n > 0 {
      LinksRead(c, n - 1, holds);
      BoundAtSays(c, n - 1, holds);
    }
  }

  lemma GuardRead(s: Statement)
    ensures ReadsGuard(s, BoundsIn(s))
  {
    match s
    case If(Plain(c), true) => if |c.links| == 1 { LinksRead(c, 1, false); }
    case If(Negated(c), true) => LinksRead(c, |c.links|, true);
    case _ =>
  }

  /** A link of a raising statement says the bound. */
  ghost predicate SaysIn(s: Statement, b: Bound) {
    match s
    case If(Plain(c), true) => |c.links| == 1 && Recognised(c, 0) && Says(c, 0, false, b)
    case If(Negated(c), true) => exists k :: 0 <= k < |c.links| && Recognised(c, k) && Says(c, k, true, b)
    case _ => false
  }

  lemma BoundAtOnly(c: Compare, k: nat, holds: bool, b: Bound)
    requires k < |c.links|
    ensures BoundAt(c, k, holds) == Some(b) <==> Recognised(c, k) && Says(c, k, holds, b)
  {
    BoundAtSays(c, k, holds);
    if Recognised(c, k) && Says(c, k, holds, b) {
      SaysOne(c, k, holds, BoundAt(c, k, holds).value, b);
    }
  }

  /** The bounds of a statement are those its links say, and no others. */
  lemma BoundOfSays(s: Statement, b: Bound)
    ensures BoundOf(s, b) <==> SaysIn(s, b)
  {
    if ReadFrom(s).Some? {
      var (c, holds) := ReadFrom(s).value;
      forall k | 0 <= k < |c.links|
        ensures BoundAt(c, k, holds) == Some(b) <==> Recognised(c, k) && Says(c, k, holds, b)
      {
        BoundAtOnly(c, k, holds, b);
      }
      if holds && BoundOf(s, b) {
        var k :| 0 <= k < |c.links| && BoundAt(c, k, holds) == Some(b);
        assert Says(c, k, true, b);
      }
    }
  }

  /** The commonest guard: the one bound read from it says when the statement does not raise. */
  lemma PlainGuard(truth: nat -> bool, left: Expr, op: Op, right: Expr)
    requires Recognised(Compare(left, [Link(op, right)]), 0)
    ensures var s := If(Plain(Compare(left, [Link(op, right)])), true);
      && |BoundsIn(s)| == 1
      && forall m :: Meets(m, BoundsIn(s)[0]) <==> Passes(m, truth, s)
  {
    var c := Compare(left, [Link(op, right)]);
    var s := If(Plain(c), true);
    GuardRead(s);
    assert Places(c, 1) == Places(c, 0) + [0];
    forall m
      ensures Meets(m, BoundsIn(s)[0]) <==> Passes(m, truth, s)
    {
      assert Says(c, Places(c, 1)[0], false, BoundsIn(s)[0]);
      assert Holds(m, c) <==> LinkHolds(m, c, 0);
    }
  }

  /** The bounds of a guard are those of the comparison it is read from, in the order of its links. */
  method StatementBounds(s: Statement) returns (bounds: seq<Bound>)
    ensures bounds == BoundsIn(s) && ReadsGuard(s, bounds)
    ensures forall b :: b in bounds <==> BoundOf(s, b)
  {
    GuardRead(s);
    if !s.If? || !s.raises {
      return [];
    }
    match s.test
    case OtherTest(_) =>
      return [];
    case Negated(c) =>
      bounds := CompareBounds(c, true);
    case Plain(c) =>
      if |c.links| != 1 {
        return [];
      }
      bounds := CompareBounds(c, false);
  }

  /** A value that passes a guard meets every bound read from it. */
  lemma BoundsSound(m: Meaning, truth: nat -> bool, s: Statement, b: Bound)
    requires Passes(m, truth, s) && BoundOf(s, b)
    ensures Meets(m, b)
  {
    var (c, holds) := ReadFrom(s).value;
    var k :| 0 <= k < |c.links| && BoundAt(c, k, holds) == Some(b);
    LinkBoundExact(m, LeftOf(c, k), c.links[k].op, c.links[k].right, holds);
    assert holds ==> LinkHolds(m, c, k);
    assert !holds ==> !LinkHolds(m, c, 0);
  }

  /** A fully read guard passes exactly the values that meet its bounds. */
  lemma BoundsExact(m: Meaning, truth: nat -> bool, s: Statement)
    requires FullyRead(s)
    ensures Passes(m, truth, s) <==> forall b :: BoundOf(s, b) ==> Meets(m, b)
  {
    var (c, holds) := ReadFrom(s).value;
    forall b | Passes(m, truth, s) && BoundOf(s, b)
      ensures Meets(m, b)
    {
      BoundsSound(m, truth, s, b);
    }
    if forall b :: BoundOf(s, b) ==> Meets(m, b) {
      forall k | 0 <= k < |c.links|
        ensures LinkHolds(m, c, k) <==> holds
      {
        var b := BoundAt(c, k, holds).value;
        assert BoundOf(s, b);
        LinkBoundExact(m, LeftOf(c, k), c.links[k].op, c.links[k].right, holds);
      }
      assert !holds ==> !LinkHolds(m, c, 0);
    }
  }

  // Merging ------------------------------------------------------------------------------------

  /** One guard on a variable, as observed at a read site. */
  datatype Guard = Guard(side: Side, limit: real, strict: bool)

  datatype Range = Range(minimum: Option<real>, maximum: Option<real>)

  predicate Whole(v: real) {
    v == v.Floor as real
  }

  /** The inclusive limit a guard is recorded with; a strict one needs a next integer to name. */
  function Effective(g: Guard, integer: bool): Option<real> {
    if !g.strict then Some(g.limit)
    else if !integer || !Whole(g.limit) then None
    else Some(g.limit + if g.side == Minimum then 1.0 else -1.0)
  }

  /**
   A guard is recorded unless it is strict and not about integers with a whole
   limit; it is recorded with the inclusive limit that accepts the same values.
   */
  lemma EffectiveExact(g: Guard, integer: bool)
    ensures Effective(g, integer).Some? <==> (g.strict ==> integer && Whole(g.limit))
    ensures Effective(g, integer).Some? ==>
      forall v: real :: (integer ==> Whole(v)) ==>
        (Within(g.side, g.limit, g.strict, v) <==> Within(g.side, Effective(g, integer).value, false, v))
    ensures Effective(g, integer).Some? && integer && Whole(g.limit) ==> Whole(Effective(g, integer).value)
  {
    if g.strict && integer && Whole(g.limit) {
      var n := g.limit.Floor;
      assert (n + 1) as real == g.limit + 1.0 && (n - 1) as real == g.limit - 1.0;
      forall v: real | Whole(v)
        ensures Within(g.side, g.limit, true, v) <==> Within(g.side, Effective(g, integer).value, false, v)
      {
        NextWhole(g.limit, v);
      }
    }
  }

  ghost function Recorded(observed: seq<Guard>, integer: bool, side: Side): set<real> {
    set g | g in observed && g.side == side && Effective(g, integer).Some? :: Effective(g, integer).value
  }

  /** The widest of some limits: the least minimum, the greatest maximum. */
  ghost predicate Widest(limits: set<real>, side: Side, x: Option<real>) {
    if limits == {} then x == None
    else
      && x.Some? && x.value in limits
      && forall y :: y in limits ==> if side == Minimum then x.value <= y else y <= x.value
  }

  function Crossing(low: Option<real>, high: Option<real>): Range {
    if low.Some? && high.Some? && low.value > high.value then Range(None, None) else Range(low, high)
  }

  ghost predicate Merged(observed: seq<Guard>, integer: bool, r: Range) {
    exists low, high ::
      && Widest(Recorded(observed, integer, Minimum), Minimum, low)
      && Widest(Recorded(observed, integer, Maximum), Maximum, high)
      && r == Crossing(low, high)
  }

  function Wider(side: Side, current: Option<real>, limit: real): real {
    if current.None? then limit
    else if side == Minimum then if limit < current.value then limit else current.value
    else if limit > current.value then limit else current.value
  }

  lemma RecordedNext(observed: seq<Guard>, g: Guard, integer: bool, side: Side)
    ensures Recorded(observed + [g], integer, side) == Recorded(observed, integer, side) +
      if g.side == side && Effective(g, integer).Some? then {Effective(g, integer).value} else {}
  {
  }

  lemma WidestNext(limits: set<real>, side: Side, x: Option<real>, limit: real)
    requires Widest(limits, side, x)
    ensures Widest(limits + {limit}, side, Some(Wider(side, x, limit)))
  {
  }

  /** Collapses the observed guards into the widest recorded limits; crossed limits give no range. */
  method MergeBounds(observed: seq<Guard>, integer: bool) returns (r: Range)
    ensures Merged(observed, integer, r)
  {
    var low, high: Option<real> := None, None;
    for k := 0 to |observed|
      invariant Widest(Recorded(observed[..k], integer, Minimum), Minimum, low)
      invariant Widest(Recorded(observed[..k], integer, Maximum), Maximum, high)
    {
      var g := observed[k];
      assert observed[..k + 1] == observed[..k] + [g];
      RecordedNext(observed[..k], g, integer, Minimum);
      RecordedNext(observed[..k], g, integer, Maximum);
      var limit := Effective(g, integer);
      if limit.None? {
        continue;
      }
      if g.side == Minimum {
        WidestNext(Recorded(observed[..k], integer, Minimum), Minimum, low, limit.value);
        low := Some(Wider(Minimum, low, limit.value));
      } else {
        WidestNext(Recorded(observed[..k], integer, Maximum), Maximum, high, limit.value);
        high := Some(Wider(Maximum, high, limit.value));
      }
    }
    assert observed[..|observed|] == observed;
    r := Crossing(low, high);
  }

  /** The merged range depends only on which guards were observed, not on their order or number. */
  lemma MergeOrder(a: seq<Guard>, b: seq<Guard>, integer: bool, r: Range, q: Range)
    requires Elems(a) == Elems(b) && Merged(a, integer, r) && Merged(b, integer, q)
    ensures r == q
  {
    forall side: Side
      ensures Recorded(a, integer, side) == Recorded(b, integer, side)
    {
      assert forall g :: g in a <==> g in Elems(a);
      assert forall g :: g in b <==> g in Elems(b);
    }
  }

  // What start-up may refuse ----------------------------------------------------------------

  predicate Accepts(g: Guard, v: real) {
    Within(g.side, g.limit, g.strict, v)
  }

  /** A value start-up refuses on one side of the range. */
  predicate Refused(r: Range, side: Side, v: real) {
    match side
    case Minimum => r.minimum.Some? && v < r.minimum.value
    case Maximum => r.maximum.Some? && v > r.maximum.value
  }

  /** Start-up refuses only what every guard on that side refuses. */
  ghost predicate OnlyUseless(observed: seq<Guard>, integer: bool, r: Range) {
    forall v: real, g :: (integer ==> Whole(v)) && g in observed && Refused(r, g.side, v) ==> !Accepts(g, v)
  }

  /** The value closest to the limit of a strict guard that it accepts; for reals, the limit it comes close to. */
  function Nearest(g: Guard, integer: bool): real {
    if !integer then g.limit
    else if g.side == Minimum then (g.limit.Floor + 1) as real
    else (-(-g.limit).Floor - 1) as real
  }

  /** A guard left out of the merge accepts values the merged range refuses. */
  predicate Outside(g: Guard, integer: bool, r: Range) {
    Effective(g, integer).None? && Refused(r, g.side, Nearest(g, integer))
  }

  /** The limit `y` shuts out `v` on this side. */
  predicate Narrower(side: Side, y: real, v: real) {
    if side == Minimum then v < y else v > y
  }

  /** There are limits on both sides, and every minimum lies above every maximum. */
  ghost predicate Crossed(observed: seq<Guard>, integer: bool) {
    && Recorded(observed, integer, Minimum) != {} && Recorded(observed, integer, Maximum) != {}
    && forall low, high ::
         low in Recorded(observed, integer, Minimum) && high in Recorded(observed, integer, Maximum) ==> low > high
  }

  /**
   A guard without an inclusive form is overruled by the other guards: they have
   limits on its side, all of them shut out the nearest value it accepts, and the
   limits do not cross.
   */
  ghost predicate Overruled(observed: seq<Guard>, integer: bool, g: Guard) {
    && Effective(g, integer).None?
    && Recorded(observed, integer, g.side) != {}
    && (forall y :: y in Recorded(observed, integer, g.side) ==> Narrower(g.side, y, Nearest(g, integer)))
    && !Crossed(observed, integer)
  }

  lemma CrossedIff(observed: seq<Guard>, integer: bool, low: Option<real>, high: Option<real>)
    requires Widest(Recorded(observed, integer, Minimum), Minimum, low)
    requires Widest(Recorded(observed, integer, Maximum), Maximum, high)
    ensures Crossed(observed, integer) <==> low.Some? && high.Some? && low.value > high.value
  {
  }

  lemma WidestNarrower(limits: set<real>, side: Side, x: Option<real>, v: real)
    requires Widest(limits, side, x)
    ensures limits != {} && (forall y :: y in limits ==> Narrower(side, y, v)) <==>
      x.Some? && Narrower(side, x.value, v)
  {
  }

  /** Which guards the merged range contradicts is settled by the guards alone. */
  lemma OutsideIffOverruled(observed: seq<Guard>, integer: bool, r: Range, g: Guard)
    requires Merged(observed, integer, r)
    ensures Outside(g, integer, r) <==> Overruled(observed, integer, g)
  {
    var low, high :|
      && Widest(Recorded(observed, integer, Minimum), Minimum, low)
      && Widest(Recorded(observed, integer, Maximum), Maximum, high)
      && r == Crossing(low, high);
    CrossedIff(observed, integer, low, high);
    var widest := if g.side == Minimum then low else high;
    WidestNarrower(Recorded(observed, integer, g.side), g.side, widest, Nearest(g, integer));
  }

  /** A recorded limit is at or inside the merged range. */
  lemma RecordedInside(observed: seq<Guard>, integer: bool, r: Range, g: Guard, v: real)
    requires Merged(observed, integer, r) && g in observed && Effective(g, integer).Some? && Refused(r, g.side, v)
    ensures Refused(Range(Effective(g, integer), Effective(g, integer)), g.side, v)
  {
    var low, high :|
      && Widest(Recorded(observed, integer, Minimum), Minimum, low)
      && Widest(Recorded(observed, integer, Maximum), Maximum, high)
      && r == Crossing(low, high);
    assert Effective(g, integer).value in Recorded(observed, integer, g.side);
  }

  /** The integers above and below a number. */
  lemma WholeGap(a: real, v: real)
    requires Whole(v)
    ensures v > a <==> v >= (a.Floor + 1) as real
    ensures v < a <==> v <= (-(-a).Floor - 1) as real
  {
    var n := v.Floor;
    assert (-n) as real == -(n as real);
    RealOrder(n, a.Floor + 1);
    RealOrder(-(-a).Floor - 1, n);
  }

  lemma RealOrder(m: int, n: int)
    ensures m as real >= n as real <==> m >= n
  {
  }

  /** There is nothing between neighbouring integers. */
  lemma NextWhole(a: real, v: real)
    requires Whole(a) && Whole(v)
    ensures v < a + 1.0 ==> v <= a
    ensures v > a - 1.0 ==> v >= a
  {
    var m, n := a.Floor, v.Floor;
    assert (m + 1) as real == a + 1.0 && (m - 1) as real == a - 1.0;
    RealOrder(n, m + 1);
    RealOrder(m - 1, n);
  }

  lemma RefusedByRecorded(observed: seq<Guard>, integer: bool, r: Range, g: Guard, v: real)
    requires Merged(observed, integer, r) && g in observed && (integer ==> Whole(v))
    requires Refused(r, g.side, v) && Effective(g, integer).Some?
    ensures !Accepts(g, v)
  {
    RecordedInside(observed, integer, r, g, v);
    if g.strict {
      NextWhole(g.limit, v);
    }
  }

  lemma RefusedByDropped(integer: bool, r: Range, g: Guard, v: real)
    requires integer ==> Whole(v)
    requires Refused(r, g.side, v) && Effective(g, integer).None? && !Refused(r, g.side, Nearest(g, integer))
    ensures !Accepts(g, v)
  {
    if integer {
      WholeGap(g.limit, v);
    }
  }

  /** A value outside the merged range is refused by every guard on that side that is not overruled. */
  lemma RefusedByGuard(observed: seq<Guard>, integer: bool, r: Range, g: Guard, v: real)
    requires Merged(observed, integer, r) && g in observed && (integer ==> Whole(v))
    requires Refused(r, g.side, v) && !Overruled(observed, integer, g)
    ensures !Accepts(g, v)
  {
    OutsideIffOverruled(observed, integer, r, g);
    if Effective(g, integer).Some? {
      RefusedByRecorded(observed, integer, r, g, v);
    } else {
      RefusedByDropped(integer, r, g, v);
    }
  }

  /** A guard the merged range contradicts accepts a refused value. */
  lemma OutsideAccepts(g: Guard, integer: bool, r: Range) returns (v: real)
    requires Outside(g, integer, r)
    ensures (integer ==> Whole(v)) && Refused(r, g.side, v) && Accepts(g, v)
  {
    if integer {
      v := Nearest(g, integer);
      WholeGap(g.limit, v);
    } else if g.side == Minimum {
      v := (g.limit + r.minimum.value) / 2.0;
    } else {
      v := (g.limit + r.maximum.value) / 2.0;
    }
  }

  /** The promise holds exactly when no guard that was left out is overruled by the others. */
  lemma OnlyUselessIff(observed: seq<Guard>, integer: bool, r: Range)
    requires Merged(observed, integer, r)
    ensures OnlyUseless(observed, integer, r) <==> forall g :: g in observed ==> !Overruled(observed, integer, g)
  {
    if forall g :: g in observed ==> !Overruled(observed, integer, g) {
      forall v: real, g | (integer ==> Whole(v)) && g in observed && Refused(r, g.side, v)
        ensures !Accepts(g, v)
      {
        RefusedByGuard(observed, integer, r, g, v);
      }
    }
    if g :| g in observed && Overruled(observed, integer, g) {
      OutsideIffOverruled(observed, integer, r, g);
      var v := OutsideAccepts(g, integer, r);
      assert Accepts(g, v);
    }
  }

  /** One site needs at least five, another anything above zero: start-up refuses three, which the second can use. */
  lemma StrictGuardOverruled()
    ensures var observed := [Guard(Minimum, 5.0, false), Guard(Minimum, 0.0, true)];
      Merged(observed, false, Range(Some(5.0), None)) && !OnlyUseless(observed, false, Range(Some(5.0), None))
  {
    var observed := [Guard(Minimum, 5.0, false), Guard(Minimum, 0.0, true)];
    assert Recorded(observed, false, Minimum) == {5.0};
    assert Recorded(observed, false, Maximum) == {};
    assert Widest(Recorded(observed, false, Minimum), Minimum, Some(5.0));
    assert Widest(Recorded(observed, false, Maximum), Maximum, None);
    assert Refused(Range(Some(5.0), None), observed[1].side, 3.0) && Accepts(observed[1], 3.0);
  }

  // From the read sites to the range -------------------------------------------------------

  /** A function body, and the variables its names hold. */
  datatype Scope = Scope(targets: map<string, string>, body: seq<Statement>)

  function GuardOf(b: Bound): Guard {
    Guard(b.side, b.limit, b.strict)
  }

  /** A statement of the scope bounds the variable. */
  ghost predicate Bounds(scope: Scope, key: string, s: Statement, b: Bound) {
    s in scope.body && SaysIn(s, b) && b.path in scope.targets && scope.targets[b.path] == key
  }

  ghost predicate ObservedIn(scopes: seq<Scope>, key: string, g: Guard) {
    exists scope, s, b :: scope in scopes && Bounds(scope, key, s, b) && GuardOf(b) == g
  }

  /** The guard on the variable that a bound is, if it is one. */
  function GuardOn(targets: map<string, string>, key: string): Bound -> seq<Guard> {
    (b: Bound) => if b.path in targets && targets[b.path] == key then [GuardOf(b)] else []
  }

  ghost function StatementGuards(targets: map<string, string>, key: string): Statement -> seq<Guard> {
    (s: Statement) => Flat(GuardOn(targets, key), BoundsIn(s), |BoundsIn(s)|)
  }

  ghost function ScopeGuards(key: string): Scope -> seq<Guard> {
    (scope: Scope) => Flat(StatementGuards(scope.targets, key), scope.body, |scope.body|)
  }

  /** The guards of all statements of all function bodies, in their order. */
  ghost function Observed(scopes: seq<Scope>, key: string): seq<Guard> {
    Flat(ScopeGuards(key), scopes, |scopes|)
  }

  method CollectStatement(s: Statement, targets: map<string, string>, key: string) returns (guards: seq<Guard>)
    ensures guards == StatementGuards(targets, key)(s)
  {
    var bounds := StatementBounds(s);
    guards := CollectGuards(bounds, targets, key, GuardOn(targets, key));
  }

  method CollectGuards(bounds: seq<Bound>, targets: map<string, string>, key: string, ghost guard: Bound -> seq<Guard>)
      returns (guards: seq<Guard>)
    requires guard == GuardOn(targets, key)
    ensures guards == Flat(guard, bounds, |bounds|)
  {
    guards := [];
    for k := 0 to |bounds|
      invariant guards == Flat(guard, bounds, k)
    {
      var b := bounds[k];
      if b.path in targets && targets[b.path] == key {
        guards := guards + [GuardOf(b)];
      }
    }
  }

  method CollectScope(scope: Scope, key: string) returns (guards: seq<Guard>)
    ensures guards == ScopeGuards(key)(scope)
  {
    guards := CollectBody(scope.body, scope.targets, key, StatementGuards(scope.targets, key));
  }

  method CollectBody(body: seq<Statement>, targets: map<string, string>, key: string,
      ghost collect: Statement -> seq<Guard>)
      returns (guards: seq<Guard>)
    requires collect == StatementGuards(targets, key)
    ensures guards == Flat(collect, body, |body|)
  {
    guards := [];
    for k := 0 to |body|
      invariant guards == Flat(collect, body, k)
    {
      var more := CollectStatement(body[k], targets, key);
      guards := guards + more;
    }
  }

  /** Every guard on the variable in any function body is observed, in order, and nothing else. */
  method ModuleBounds(scopes: seq<Scope>, key: string) returns (observed: seq<Guard>)
    ensures observed == Observed(scopes, key)
    ensures forall g :: g in observed <==> ObservedIn(scopes, key, g)
  {
    ghost var collect := ScopeGuards(key);
    observed := [];
    for k := 0 to |scopes|
      invariant observed == Flat(collect, scopes, k)
    {
      var more := CollectScope(scopes[k], key);
      observed := observed + more;
    }
    forall g
      ensures g in observed <==> ObservedIn(scopes, key, g)
    {
      ObservedExact(scopes, key, g);
    }
  }

  lemma StatementExact(scope: Scope, key: string, s: Statement, g: Guard)
    requires s in scope.body
    ensures g in StatementGuards(scope.targets, key)(s) <==> exists b :: Bounds(scope, key, s, b) && GuardOf(b) == g
  {
    var guard, bounds := GuardOn(scope.targets, key), BoundsIn(s);
    FlatElems(guard, bounds, |bounds|, g);
    BoundsInExact(s);
    forall b
      ensures BoundOf(s, b) <==> SaysIn(s, b)
    {
      BoundOfSays(s, b);
    }
    if b :| Bounds(scope, key, s, b) && GuardOf(b) == g {
      var k :| 0 <= k < |bounds| && bounds[k] == b;
      assert g in guard(bounds[k]);
    }
    if k :| 0 <= k < |bounds| && g in guard(bounds[k]) {
      assert Bounds(scope, key, s, bounds[k]) && GuardOf(bounds[k]) == g;
    }
  }

  lemma BoundsInExact(s: Statement)
    ensures forall b :: b in BoundsIn(s) <==> BoundOf(s, b)
  {
    if ReadFrom(s).Some? {
      var (c, holds) := ReadFrom(s).value;
      forall b
        ensures b in BoundsIn(s) <==> BoundOf(s, b)
      {
        BoundsAreLinks(c, |c.links|, holds, b);
      }
    }
  }

  lemma ScopeExact(scope: Scope, key: string, g: Guard)
    ensures g in ScopeGuards(key)(scope) <==> exists s, b :: Bounds(scope, key, s, b) && GuardOf(b) == g
  {
    var collect := StatementGuards(scope.targets, key);
    FlatElems(collect, scope.body, |scope.body|, g);
    forall k | 0 <= k < |scope.body|
      ensures g in collect(scope.body[k]) <==> exists b :: Bounds(scope, key, scope.body[k], b) && GuardOf(b) == g
    {
      StatementExact(scope, key, scope.body[k], g);
    }
    if s, b :| Bounds(scope, key, s, b) && GuardOf(b) == g {
      var k :| 0 <= k < |scope.body| && scope.body[k] == s;
      assert g in collect(scope.body[k]);
    }
  }

  lemma ObservedExact(scopes: seq<Scope>, key: string, g: Guard)
    ensures g in Observed(scopes, key) <==> ObservedIn(scopes, key, g)
  {
    var collect := ScopeGuards(key);
    FlatElems(collect, scopes, |scopes|, g);
    forall k | 0 <= k < |scopes|
      ensures g in collect(scopes[k]) <==> exists s, b :: Bounds(scopes[k], key, s, b) && GuardOf(b) == g
    {
      ScopeExact(scopes[k], key, g);
    }
    if ObservedIn(scopes, key, g) {
      var scope, s, b :| scope in scopes && Bounds(scope, key, s, b) && GuardOf(b) == g;
      var k :| 0 <= k < |scopes| && scopes[k] == scope;
      assert g in collect(scopes[k]);
    }
  }

  /**
   From a read site to start-up: a value with which a statement that bounds the
   variable passes is not refused on that side, unless the statement's guard was
   left out and is overruled by the others.
   */
  lemma UsableNotRefused(m: Meaning, truth: nat -> bool, scopes: seq<Scope>, key: string, observed: seq<Guard>,
      integer: bool, r: Range, scope: Scope, s: Statement, b: Bound)
    requires (forall g :: g in observed <==> ObservedIn(scopes, key, g)) && Merged(observed, integer, r)
    requires scope in scopes && Bounds(scope, key, s, b) && Passes(m, truth, s)
    requires (integer ==> Whole(m.value(b.path))) && !Overruled(observed, integer, GuardOf(b))
    ensures !Refused(r, b.side, m.value(b.path))
  {
    BoundOfSays(s, b);
    BoundsSound(m, truth, s, b);
    assert ObservedIn(scopes, key, GuardOf(b));
    if Refused(r, b.side, m.value(b.path)) {
      RefusedByGuard(observed, integer, r, GuardOf(b), m.value(b.path));
    }
  }
}

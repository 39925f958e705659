/**
  `parsePathToSegments` from `src/utils/graph.js`: the interpreter that turns the `d`
  attribute of an SVG path (path data, section 8.3 of SVG 1.1 Second Edition) into the
  straight segments the wall test works on. The data is cut into commands at the command
  letters, each command's numbers are read with the pattern `-?[\d.]+` and `Number`, and
  the commands are run in order over a pen holding the current point, the start of the
  subpath and the last control point. Lines, horizontal and vertical lines and closepath
  each add straight segments; every complete group of a curve command adds ten segments
  along the curve; arcs are skipped.

  Numbers are what JavaScript computes here: a finite value or NaN (which a missing
  number, `undefined`, becomes as soon as it is added to something).
*/
module SvgPath {
  import opened JsText

  // ---------------------------------------------------------------------------------------
  // Numbers
  // ---------------------------------------------------------------------------------------

  /** A JavaScript number as this code can produce it: finite or NaN. */
  datatype Num = Fin(v: real) | NaN

  function Add(a: Num, b: Num): Num {
    if a.Fin? && b.Fin? then Fin(a.v + b.v) else NaN
  }

  function Sub(a: Num, b: Num): Num {
    if a.Fin? && b.Fin? then Fin(a.v - b.v) else NaN
  }

  function Mul(a: Num, b: Num): Num {
    if a.Fin? && b.Fin? then Fin(a.v * b.v) else NaN
  }

  /** `x || 0`: NaN, zero and `undefined` all become 0. */
  function OrZero(a: Num): Num {
    if a.NaN? then Fin(0.0) else a
  }

  /** `a !== b` on numbers: NaN differs from every number, itself included. */
  predicate Differs(a: Num, b: Num) {
    a.NaN? || b.NaN? || a.v != b.v
  }

  /** `nums[i]` once it is added to a number: a missing entry gives NaN. */
  function At(nums: seq<Num>, i: nat): Num {
    if i < |nums| then nums[i] else NaN
  }

  // ---------------------------------------------------------------------------------------
  // Cutting the data into commands
  // ---------------------------------------------------------------------------------------

  /** The letters of `/[MLHVCSQTAZ][^MLHVCSQTAZ]*\/gi`, in either case. */
  predicate IsCommandLetter(c: char) {
    c in {'M', 'L', 'H', 'V', 'C', 'S', 'Q', 'T', 'A', 'Z', 'm', 'l', 'h', 'v', 'c', 's', 'q', 't', 'a', 'z'}
  }

  /** A match of the command pattern: a command letter and the characters up to the next one. */
  predicate IsCommand(chunk: string) {
    |chunk| > 0 && IsCommandLetter(chunk[0]) && forall k :: 1 <= k < |chunk| ==> !IsCommandLetter(chunk[k])
  }

  /** The first command letter at or after `i`, or `|d|`. */
  function NextCommand(d: string, i: nat): (j: nat)
    requires i <= |d|
    ensures i <= j <= |d|
    ensures j < |d| ==> IsCommandLetter(d[j])
    ensures forall k :: i <= k < j ==> !IsCommandLetter(d[k])
    decreases |d| - i
  {
    if i == |d| || IsCommandLetter(d[i]) then i else NextCommand(d, i + 1)
  }

  /** The global matches of the command pattern from position `i` on. */
  function CommandsFrom(d: string, i: nat): (r: seq<string>)
    requires i <= |d|
    ensures forall k :: 0 <= k < |r| ==> IsCommand(r[k])
    decreases |d| - i
  {
    var j := NextCommand(d, i);
    if j == |d| then []
    else
      var e := NextCommand(d, j + 1);
      [d[j..e]] + CommandsFrom(d, e)
  }

  /** `pathD.match(/[MLHVCSQTAZ][^MLHVCSQTAZ]*\/gi) || []` */
  function Commands(d: string): (r: seq<string>)
    ensures forall k :: 0 <= k < |r| ==> IsCommand(r[k])
  {
    CommandsFrom(d, 0)
  }

  function Concat(parts: seq<string>): string {
    if parts == [] then [] else parts[0] + Concat(parts[1..])
  }

  /** Nothing from the first command letter on is dropped: the commands put together give back the data. */
  lemma {:induction false} CommandsCover(d: string, i: nat)
    requires i <= |d|
    ensures Concat(CommandsFrom(d, i)) == d[NextCommand(d, i)..]
    decreases |d| - i
  {
    var j := NextCommand(d, i);
    if j < |d| {
      var e := NextCommand(d, j + 1);
      CommandsCover(d, e);
      var r := CommandsFrom(d, i);
      var rest := CommandsFrom(d, e);
      assert r == [d[j..e]] + rest;
      assert r[0] == d[j..e] && r[1..] == rest;
      assert Concat(r) == d[j..e] + Concat(rest);
      assert NextCommand(d, e) == e;
      assert d[j..] == d[j..e] + d[e..];
    }
  }

  // ---------------------------------------------------------------------------------------
  // Reading a command's numbers
  // ---------------------------------------------------------------------------------------

  predicate IsNumChar(c: char) {
    '0' <= c <= '9' || c == '.'
  }

  /** A match of `-?[\d.]+`. */
  predicate IsNumberToken(t: string) {
    && |t| > 0
    && (t[0] == '-' ==> |t| > 1)
    && forall k :: 0 <= k < |t| && !(k == 0 && t[0] == '-') ==> IsNumChar(t[k])
  }

  /** The end of the run of digits and dots that starts at `i`. */
  function RunEnd(s: string, i: nat): (j: nat)
    requires i <= |s|
    ensures i <= j <= |s|
    ensures j < |s| ==> !IsNumChar(s[j])
    ensures forall k :: i <= k < j ==> IsNumChar(s[k])
    decreases |s| - i
  {
    if i == |s| || !IsNumChar(s[i]) then i else RunEnd(s, i + 1)
  }

  /**
    The global matches of `-?[\d.]+` from position `i` on: a `-` starts a match only when a
    digit or dot follows it, and every match takes the longest run.
  */
  function TokensFrom(s: string, i: nat): (r: seq<string>)
    requires i <= |s|
    ensures forall k :: 0 <= k < |r| ==> IsNumberToken(r[k])
    decreases |s| - i
  {
    if i == |s| then []
    else if s[i] == '-' && i + 1 < |s| && IsNumChar(s[i + 1]) then
      var e := RunEnd(s, i + 1);
      [s[i..e]] + TokensFrom(s, e)
    else if IsNumChar(s[i]) then
      var e := RunEnd(s, i);
      [s[i..e]] + TokensFrom(s, e)
    else TokensFrom(s, i + 1)
  }

  function CountDots(s: string): nat {
    if s == [] then 0 else (if s[0] == '.' then 1 else 0) + CountDots(s[1..])
  }

  function DigitValue(c: char): nat {
    if '0' <= c <= '9' then c as int - '0' as int else 0
  }

  /** The value of a string of decimal digits. */
  function DigitsValue(s: string): nat {
    if s == [] then 0 else 10 * DigitsValue(s[..|s| - 1]) + DigitValue(s[|s| - 1])
  }

  function Pow10(n: nat): (p: nat)
    ensures p > 0
  {
    if n == 0 then 1 else 10 * Pow10(n - 1)
  }

  function DotIndex(s: string): (i: nat)
    ensures i <= |s|
    ensures i < |s| ==> s[i] == '.'
  {
    if s == [] || s[0] == '.' then 0 else 1 + DotIndex(s[1..])
  }

  predicate HasDigit(s: string) {
    exists k :: 0 <= k < |s| && '0' <= s[k] <= '9'
  }

  /** The digits and at most one dot of a token, as a decimal fraction. */
  function DecimalValue(s: string): real {
    var i := DotIndex(s);
    var frac := if i < |s| then s[i + 1..] else [];
    DigitsValue(s[..i]) as real + DigitsValue(frac) as real / Pow10(|frac|) as real
  }

  /** `Number(token)` for a match of `-?[\d.]+`: NaN with two dots or without a digit. */
  function Number(t: string): (n: Num)
    requires IsNumberToken(t)
    ensures n.NaN? <==> CountDots(if t[0] == '-' then t[1..] else t) > 1 || !HasDigit(if t[0] == '-' then t[1..] else t)
  {
    var negative := t[0] == '-';
    var body := if negative then t[1..] else t;
    if CountDots(body) > 1 || !HasDigit(body) then NaN
    else if negative then Fin(-DecimalValue(body))
    else Fin(DecimalValue(body))
  }

  /** A token and the same token with a leading `-` read as opposite numbers. */
  lemma NumberNegated(t: string)
    requires IsNumberToken(t) && t[0] != '-'
    ensures IsNumberToken("-" + t)
    ensures Number("-" + t) == (if Number(t).NaN? then NaN else Fin(-Number(t).v))
  {
    var m := "-" + t;
    assert m[1..] == t;
  }

  /** `cmd.slice(1).trim().match(/-?[\d.]+/g)?.map(Number) || []` */
  function Numbers(cmd: string): (nums: seq<Num>)
    requires |cmd| > 0
  {
    var tokens := TokensFrom(cmd[1..], 0);
    seq(|tokens|, k requires 0 <= k < |tokens| => Number(tokens[k]))
  }

  // ---------------------------------------------------------------------------------------
  // The pen and the segments
  // ---------------------------------------------------------------------------------------

  datatype Point = Point(x: Num, y: Num)

  /** `{ x1, y1, x2, y2 }`: a straight segment from `from` to `to`. */
  datatype Segment = Segment(from: Point, to: Point)

  /** `currentX/currentY`, `startX/startY` and `prevControlX/prevControlY`. */
  datatype Pen = Pen(cur: Point, start: Point, ctrl: Point)

  /** The pen together with the segments pushed so far. */
  datatype Out = Out(pen: Pen, segs: seq<Segment>)

  const Origin: Point := Point(Fin(0.0), Fin(0.0))
  const StartPen: Pen := Pen(Origin, Origin, Origin)

  /** `(isRelative ? current : 0)` */
  function Base(rel: bool, c: Num): Num {
    if rel then c else Fin(0.0)
  }

  /** A coordinate pair of a command, offset by the current point when the command is relative. */
  function Offset(rel: bool, cur: Point, x: Num, y: Num): Point {
    Point(Add(Base(rel, cur.x), x), Add(Base(rel, cur.y), y))
  }

  /** `2 * current - prevControl` */
  function Reflect(cur: Point, ctrl: Point): Point {
    Point(Sub(Mul(Fin(2.0), cur.x), ctrl.x), Sub(Mul(Fin(2.0), cur.y), ctrl.y))
  }

  /** The segments run on from `from` to `to`, each starting where the one before ended. */
  predicate Chain(segs: seq<Segment>, from: Point, to: Point) {
    if segs == [] then from == to
    else
      && segs[0].from == from
      && segs[|segs| - 1].to == to
      && forall k :: 0 <= k < |segs| - 1 ==> segs[k].to == segs[k + 1].from
  }

  /** `o'` keeps the segments of `o` and adds a chain from `o`'s current point to its own. */
  predicate Extends(o: Out, o': Out) {
    o.segs <= o'.segs && Chain(o'.segs[|o.segs|..], o.pen.cur, o'.pen.cur)
  }

  lemma ChainJoin(a: seq<Segment>, b: seq<Segment>, p: Point, q: Point, r: Point)
    requires Chain(a, p, q) && Chain(b, q, r)
    ensures Chain(a + b, p, r)
  {
    if a != [] && b != [] {
      var ab := a + b;
      forall k | 0 <= k < |ab| - 1
        ensures ab[k].to == ab[k + 1].from
      {
        if k < |a| - 1 {
          assert ab[k] == a[k] && ab[k + 1] == a[k + 1];
        } else if k == |a| - 1 {
          assert ab[k] == a[|a| - 1] && ab[k + 1] == b[0];
        } else {
          assert ab[k] == b[k - |a|] && ab[k + 1] == b[k - |a| + 1];
        }
      }
    } else if a == [] {
      assert a + b == b;
    } else {
      assert a + b == a;
    }
  }

  lemma ExtendsTrans(o1: Out, o2: Out, o3: Out)
    requires Extends(o1, o2) && Extends(o2, o3)
    ensures Extends(o1, o3)
  {
    var s1, s2, s3 := o1.segs, o2.segs, o3.segs;
    assert s3[|s1|..] == s2[|s1|..] + s3[|s2|..];
    ChainJoin(s2[|s1|..], s3[|s2|..], o1.pen.cur, o2.pen.cur, o3.pen.cur);
  }

  lemma ExtendsByChain(o: Out, pen': Pen, added: seq<Segment>)
    requires Chain(added, o.pen.cur, pen'.cur)
    ensures Extends(o, Out(pen', o.segs + added))
  {
    assert (o.segs + added)[|o.segs|..] == added;
  }

  // ---------------------------------------------------------------------------------------
  // Curves flattened into ten segments
  // ---------------------------------------------------------------------------------------

  /** `steps = 10` */
  const Steps: nat := 10

  /** `i / steps` */
  function StepT(i: nat): real {
    i as real / Steps as real
  }

  /** `bezierPoint(p0, p1, p2, p3, t)`: one coordinate of a cubic Bézier curve. */
  function BezierPoint(p0: Num, p1: Num, p2: Num, p3: Num, t: real): Num {
    var u := 1.0 - t;
    Add(Add(Add(Mul(Fin(u * u * u), p0), Mul(Fin(3.0 * u * u * t), p1)), Mul(Fin(3.0 * u * t * t), p2)), Mul(Fin(t * t * t), p3))
  }

  /** `quadBezierPoint(p0, p1, p2, t)`: one coordinate of a quadratic Bézier curve. */
  function QuadBezierPoint(p0: Num, p1: Num, p2: Num, t: real): Num {
    var u := 1.0 - t;
    Add(Add(Mul(Fin(u * u), p0), Mul(Fin(2.0 * u * t), p1)), Mul(Fin(t * t), p2))
  }

  function CubicAt(a: Point, b: Point, c: Point, d: Point, t: real): Point {
    Point(BezierPoint(a.x, b.x, c.x, d.x, t), BezierPoint(a.y, b.y, c.y, d.y, t))
  }

  function QuadAt(a: Point, b: Point, c: Point, t: real): Point {
    Point(QuadBezierPoint(a.x, b.x, c.x, t), QuadBezierPoint(a.y, b.y, c.y, t))
  }

  /** Segment `i` joins the curve points at `t = i / 10` and `t = (i + 1) / 10`. */
  function CubicSegments(a: Point, b: Point, c: Point, d: Point): (r: seq<Segment>)
    ensures |r| == Steps
  {
    seq(Steps, i requires 0 <= i < Steps => Segment(CubicAt(a, b, c, d, StepT(i)), CubicAt(a, b, c, d, StepT(i + 1))))
  }

  function QuadSegments(a: Point, b: Point, c: Point): (r: seq<Segment>)
    ensures |r| == Steps
  {
    seq(Steps, i requires 0 <= i < Steps => Segment(QuadAt(a, b, c, StepT(i)), QuadAt(a, b, c, StepT(i + 1))))
  }

  /** `approximateCubicBezier(x1, y1, x2, y2, x3, y3, x4, y4)` */
  method ApproximateCubic(a: Point, b: Point, c: Point, d: Point) returns (segs: seq<Segment>)
    ensures segs == CubicSegments(a, b, c, d)
  {
    segs := [];
    for i := 0 to Steps
      invariant segs == CubicSegments(a, b, c, d)[..i]
    {
      var t1 := i as real / Steps as real;
      var t2 := (i + 1) as real / Steps as real;
      var p1 := BezierPoint(a.x, b.x, c.x, d.x, t1);
      var q1 := BezierPoint(a.y, b.y, c.y, d.y, t1);
      var p2 := BezierPoint(a.x, b.x, c.x, d.x, t2);
      var q2 := BezierPoint(a.y, b.y, c.y, d.y, t2);
      segs := segs + [Segment(Point(p1, q1), Point(p2, q2))];
    }
  }

  /** `approximateQuadraticBezier(x1, y1, x2, y2, x3, y3)` */
  method ApproximateQuadratic(a: Point, b: Point, c: Point) returns (segs: seq<Segment>)
    ensures segs == QuadSegments(a, b, c)
  {
    segs := [];
    for i := 0 to Steps
      invariant segs == QuadSegments(a, b, c)[..i]
    {
      var t1 := i as real / Steps as real;
      var t2 := (i + 1) as real / Steps as real;
      var p1 := QuadBezierPoint(a.x, b.x, c.x, t1);
      var q1 := QuadBezierPoint(a.y, b.y, c.y, t1);
      var p2 := QuadBezierPoint(a.x, b.x, c.x, t2);
      var q2 := QuadBezierPoint(a.y, b.y, c.y, t2);
      segs := segs + [Segment(Point(p1, q1), Point(p2, q2))];
    }
  }

  predicate FinitePoint(p: Point) {
    p.x.Fin? && p.y.Fin?
  }

  /** At `t = 0` and `t = 1` a cubic Bézier coordinate is its first and its last point. */
  lemma BezierEnds(p0: real, p1: real, p2: real, p3: real)
    ensures BezierPoint(Fin(p0), Fin(p1), Fin(p2), Fin(p3), 0.0) == Fin(p0)
    ensures BezierPoint(Fin(p0), Fin(p1), Fin(p2), Fin(p3), 1.0) == Fin(p3)
  {
  }

  /** At `t = 0` and `t = 1` a quadratic Bézier coordinate is its first and its last point. */
  lemma QuadBezierEnds(p0: real, p1: real, p2: real)
    ensures QuadBezierPoint(Fin(p0), Fin(p1), Fin(p2), 0.0) == Fin(p0)
    ensures QuadBezierPoint(Fin(p0), Fin(p1), Fin(p2), 1.0) == Fin(p2)
  {
  }

  /** Ten segments joining successive points of any curve run on from its point at 0 to its point at 10. */
  lemma SampledChain(r: seq<Segment>, pt: nat -> Point)
    requires |r| == Steps
    requires forall i :: 0 <= i < Steps ==> r[i] == Segment(pt(i), pt(i + 1))
    ensures Chain(r, pt(0), pt(Steps))
  {
    assert r[0] == Segment(pt(0), pt(1));
    assert r[Steps - 1] == Segment(pt(Steps - 1), pt(Steps));
    forall k | 0 <= k < |r| - 1
      ensures r[k].to == r[k + 1].from
    {
      assert r[k] == Segment(pt(k), pt(k + 1));
      assert r[k + 1] == Segment(pt(k + 1), pt(k + 2));
    }
  }

  /** The ten segments of a cubic run on from the curve's start to its end, which are its end points when all four points are finite. */
  lemma CubicChain(a: Point, b: Point, c: Point, d: Point)
    ensures Chain(CubicSegments(a, b, c, d), CubicAt(a, b, c, d, 0.0), CubicAt(a, b, c, d, 1.0))
    ensures FinitePoint(a) && FinitePoint(b) && FinitePoint(c) && FinitePoint(d) ==>
      CubicAt(a, b, c, d, 0.0) == a && CubicAt(a, b, c, d, 1.0) == d
  {
    var pt := (i: nat) => CubicAt(a, b, c, d, StepT(i));
    SampledChain(CubicSegments(a, b, c, d), pt);
    assert StepT(0) == 0.0 && StepT(Steps) == 1.0;
    if FinitePoint(a) && FinitePoint(b) && FinitePoint(c) && FinitePoint(d) {
      BezierEnds(a.x.v, b.x.v, c.x.v, d.x.v);
      BezierEnds(a.y.v, b.y.v, c.y.v, d.y.v);
    }
  }

  /** The same for a quadratic. */
  lemma QuadChain(a: Point, b: Point, c: Point)
    ensures Chain(QuadSegments(a, b, c), QuadAt(a, b, c, 0.0), QuadAt(a, b, c, 1.0))
    ensures FinitePoint(a) && FinitePoint(b) && FinitePoint(c) ==> QuadAt(a, b, c, 0.0) == a && QuadAt(a, b, c, 1.0) == c
  {
    var pt := (i: nat) => QuadAt(a, b, c, StepT(i));
    SampledChain(QuadSegments(a, b, c), pt);
    assert StepT(0) == 0.0 && StepT(Steps) == 1.0;
    if FinitePoint(a) && FinitePoint(b) && FinitePoint(c) {
      QuadBezierEnds(a.x.v, b.x.v, c.x.v);
      QuadBezierEnds(a.y.v, b.y.v, c.y.v);
    }
  }

  // ---------------------------------------------------------------------------------------
  // The commands, as functions of the pen
  // ---------------------------------------------------------------------------------------

  /** The coordinates of `M`: `(base) + (nums[0] || 0)` and `(base) + (nums[1] || 0)`. */
  function MoveTo(o: Out, rel: bool, nums: seq<Num>): (r: Out) {
    var p := Offset(rel, o.pen.cur, OrZero(At(nums, 0)), OrZero(At(nums, 1)));
    Out(o.pen.(cur := p, start := p), o.segs)
  }

  /** One pass of the `L` loop (or of the implicit `L` after `M`) at index `i`. */
  function LineAt(o: Out, rel: bool, nums: seq<Num>, i: nat): Out
    requires i < |nums|
  {
    var p := Offset(rel, o.pen.cur, nums[i], OrZero(At(nums, i + 1)));
    Out(o.pen.(cur := p), o.segs + [Segment(o.pen.cur, p)])
  }

  /** `for (let i = from; i < nums.length; i += 2)` over `LineAt`. */
  function Lines(o: Out, rel: bool, nums: seq<Num>, i: nat): Out
    decreases |nums| - i
  {
    if i >= |nums| then o else Lines(LineAt(o, rel, nums, i), rel, nums, i + 2)
  }

  /** `H`: only the first number is read, and a missing one gives NaN. */
  function HorizontalTo(o: Out, rel: bool, nums: seq<Num>): Out {
    var p := Point(Add(Base(rel, o.pen.cur.x), At(nums, 0)), o.pen.cur.y);
    Out(o.pen.(cur := p), o.segs + [Segment(o.pen.cur, p)])
  }

  /** `V`: only the first number is read, and a missing one gives NaN. */
  function VerticalTo(o: Out, rel: bool, nums: seq<Num>): Out {
    var p := Point(o.pen.cur.x, Add(Base(rel, o.pen.cur.y), At(nums, 0)));
    Out(o.pen.(cur := p), o.segs + [Segment(o.pen.cur, p)])
  }

  /** `Z`: a closing segment unless the current point is the subpath's start, then back to the start. */
  function ClosePath(o: Out): Out {
    var closing := if Differs(o.pen.cur.x, o.pen.start.x) || Differs(o.pen.cur.y, o.pen.start.y)
      then [Segment(o.pen.cur, o.pen.start)] else [];
    Out(o.pen.(cur := o.pen.start), o.segs + closing)
  }

  /** The four curve commands. */
  datatype Curve = Cubic | SmoothCubic | Quadratic | SmoothQuadratic

  /** How many numbers a complete group of the command takes. */
  function Stride(kind: Curve): nat {
    match kind
    case Cubic => 6
    case SmoothCubic => 4
    case Quadratic => 4
    case SmoothQuadratic => 2
  }

  /** The control points and end point of the group of `kind` at index `i`. */
  function GroupPoints(o: Out, kind: Curve, rel: bool, nums: seq<Num>, i: nat): (r: (Point, Point, Point))
    requires i + Stride(kind) <= |nums|
  {
    var cur := o.pen.cur;
    match kind
    case Cubic => (Offset(rel, cur, nums[i], nums[i + 1]), Offset(rel, cur, nums[i + 2], nums[i + 3]), Offset(rel, cur, nums[i + 4], nums[i + 5]))
    case SmoothCubic => (Reflect(cur, o.pen.ctrl), Offset(rel, cur, nums[i], nums[i + 1]), Offset(rel, cur, nums[i + 2], nums[i + 3]))
    case Quadratic => (Offset(rel, cur, nums[i], nums[i + 1]), Offset(rel, cur, nums[i], nums[i + 1]), Offset(rel, cur, nums[i + 2], nums[i + 3]))
    case SmoothQuadratic => (Reflect(cur, o.pen.ctrl), Reflect(cur, o.pen.ctrl), Offset(rel, cur, nums[i], nums[i + 1]))
  }

  /**
    One complete group of a curve command: the ten segments of the curve from the current
    point, which moves to the group's end point; the control point kept for `S` and `T` is
    the second control point of a cubic, the only one of a quadratic.
  */
  function GroupAt(o: Out, kind: Curve, rel: bool, nums: seq<Num>, i: nat): Out
    requires i + Stride(kind) <= |nums|
  {
    var (c1, c2, e) := GroupPoints(o, kind, rel, nums, i);
    var segs := if kind == Cubic || kind == SmoothCubic then CubicSegments(o.pen.cur, c1, c2, e) else QuadSegments(o.pen.cur, c1, e);
    Out(o.pen.(cur := e, ctrl := c2), o.segs + segs)
  }

  /** `for (let i = 0; i < nums.length; i += stride) if (i + stride - 1 < nums.length) …` */
  function Groups(o: Out, kind: Curve, rel: bool, nums: seq<Num>, i: nat): Out
    decreases |nums| - i
  {
    if i >= |nums| then o
    else Groups(if i + Stride(kind) <= |nums| then GroupAt(o, kind, rel, nums, i) else o, kind, rel, nums, i + Stride(kind))
  }

  /** One command: `cmd[0]` decides the kind, and lower case makes it relative. */
  function Step(o: Out, cmd: string): Out
    requires |cmd| > 0
  {
    var kind := UpperChar(cmd[0]);
    var rel := cmd[0] != kind;
    var nums := Numbers(cmd);
    if kind == 'M' then Lines(MoveTo(o, rel, nums), rel, nums, 2)
    else if kind == 'L' then Lines(o, rel, nums, 0)
    else if kind == 'H' then HorizontalTo(o, rel, nums)
    else if kind == 'V' then VerticalTo(o, rel, nums)
    else if kind == 'C' then Groups(o, Cubic, rel, nums, 0)
    else if kind == 'S' then Groups(o, SmoothCubic, rel, nums, 0)
    else if kind == 'Q' then Groups(o, Quadratic, rel, nums, 0)
    else if kind == 'T' then Groups(o, SmoothQuadratic, rel, nums, 0)
    else if kind == 'Z' then ClosePath(o)
    else o
  }

  /** The pen and segments after the first `k` commands, starting at the origin with no segments. */
  function Run(cmds: seq<string>, k: nat): Out
    requires k <= |cmds| && forall i :: 0 <= i < |cmds| ==> |cmds[i]| > 0
  {
    if k == 0 then Out(StartPen, []) else Step(Run(cmds, k - 1), cmds[k - 1])
  }

  /** What `parsePathToSegments(pathD)` returns. */
  function PathSegments(d: string): seq<Segment> {
    if d == "" then []
    else
      var cmds := Commands(d);
      Run(cmds, |cmds|).segs
  }

  // ---------------------------------------------------------------------------------------
  // What the commands do
  // ---------------------------------------------------------------------------------------

  /** How many passes of `i += 2` from `i` stay below `n`. */
  function LinePasses(n: nat, i: nat): nat {
    if i >= n then 0 else (n - i + 1) / 2
  }

  /**
    The line loop adds one segment per coordinate pair (a lone trailing x counts as a pair
    with y `|| 0`), each starting where the previous one ended, and segment `j` goes to the
    pair at `i + 2j`, offset by its start when relative. Nothing else of the pen changes.
  */
  lemma {:induction false} LinesSegments(o: Out, rel: bool, nums: seq<Num>, i: nat)
    ensures var r := Lines(o, rel, nums, i);
      && |r.segs| == |o.segs| + LinePasses(|nums|, i)
      && Extends(o, r)
      && r.pen.start == o.pen.start && r.pen.ctrl == o.pen.ctrl
      && forall j :: 0 <= j < LinePasses(|nums|, i) ==>
           var s := r.segs[|o.segs| + j];
           s.to == Offset(rel, s.from, nums[i + 2 * j], OrZero(At(nums, i + 2 * j + 1)))
    decreases |nums| - i
  {
    var r := Lines(o, rel, nums, i);
    if i >= |nums| {
      assert r == o;
      ExtendsByChain(o, o.pen, []);
      assert o.segs + [] == o.segs;
    } else {
      var o1 := LineAt(o, rel, nums, i);
      LinesSegments(o1, rel, nums, i + 2);
      ExtendsByChain(o, o1.pen, [Segment(o.pen.cur, o1.pen.cur)]);
      ExtendsTrans(o, o1, r);
      assert LinePasses(|nums|, i) == LinePasses(|nums|, i + 2) + 1;
      forall j | 0 <= j < LinePasses(|nums|, i)
        ensures var s := r.segs[|o.segs| + j];
          s.to == Offset(rel, s.from, nums[i + 2 * j], OrZero(At(nums, i + 2 * j + 1)))
      {
        if j == 0 {
          assert r.segs[|o.segs|] == o1.segs[|o.segs|];
        } else {
          assert |o.segs| + j == |o1.segs| + (j - 1);
          assert i + 2 * j == (i + 2) + 2 * (j - 1);
        }
      }
    }
  }

  /** After `M` the current point and the subpath start are both the point moved to. */
  lemma MoveStarts(o: Out, rel: bool, nums: seq<Num>)
    ensures var m := MoveTo(o, rel, nums);
      && m.pen.cur == m.pen.start
      && m.pen.cur == Offset(rel, o.pen.cur, OrZero(At(nums, 0)), OrZero(At(nums, 1)))
      && m.segs == o.segs
      && (FinitePoint(o.pen.cur) ==> FinitePoint(m.pen.cur))
  {
  }

  /** `H` adds one segment with unchanged y and moves only the x of the current point; `V` likewise for y. */
  lemma AxisLines(o: Out, rel: bool, nums: seq<Num>)
    ensures var r := HorizontalTo(o, rel, nums);
      && Extends(o, r) && |r.segs| == |o.segs| + 1
      && r.segs[|o.segs|].from.y == r.segs[|o.segs|].to.y
      && r.pen.cur.y == o.pen.cur.y && r.pen.start == o.pen.start && r.pen.ctrl == o.pen.ctrl
    ensures var r := VerticalTo(o, rel, nums);
      && Extends(o, r) && |r.segs| == |o.segs| + 1
      && r.segs[|o.segs|].from.x == r.segs[|o.segs|].to.x
      && r.pen.cur.x == o.pen.cur.x && r.pen.start == o.pen.start && r.pen.ctrl == o.pen.ctrl
  {
    var h := HorizontalTo(o, rel, nums);
    ExtendsByChain(o, h.pen, [Segment(o.pen.cur, h.pen.cur)]);
    var v := VerticalTo(o, rel, nums);
    ExtendsByChain(o, v.pen, [Segment(o.pen.cur, v.pen.cur)]);
  }

  /**
    `Z` adds the closing segment exactly when the current point differs from the subpath
    start (always when either is NaN), and leaves the pen at the start.
  */
  lemma CloseReturns(o: Out)
    ensures var r := ClosePath(o);
      && Extends(o, r)
      && r.pen.cur == o.pen.start && r.pen.start == o.pen.start
      && (|r.segs| == |o.segs| + 1 <==> Differs(o.pen.cur.x, o.pen.start.x) || Differs(o.pen.cur.y, o.pen.start.y))
      && |r.segs| <= |o.segs| + 1
  {
    var r := ClosePath(o);
    if Differs(o.pen.cur.x, o.pen.start.x) || Differs(o.pen.cur.y, o.pen.start.y) {
      ExtendsByChain(o, r.pen, [Segment(o.pen.cur, o.pen.start)]);
    } else {
      assert o.pen.cur == o.pen.start;
      ExtendsByChain(o, r.pen, []);
      assert o.segs + [] == o.segs;
    }
  }

  /** How many complete groups of `stride` numbers start at `i`, `i + stride`, … */
  function GroupCount(n: nat, i: nat, stride: nat): nat
    requires stride > 0
  {
    if i >= n then 0 else (n - i) / stride
  }

  /** Every complete group adds exactly ten segments; an incomplete trailing group adds none. */
  lemma {:induction false} GroupsCount(o: Out, kind: Curve, rel: bool, nums: seq<Num>, i: nat)
    ensures |Groups(o, kind, rel, nums, i).segs| == |o.segs| + Steps * GroupCount(|nums|, i, Stride(kind))
    decreases |nums| - i
  {
    if i < |nums| {
      var s := Stride(kind);
      var o1 := if i + s <= |nums| then GroupAt(o, kind, rel, nums, i) else o;
      GroupsCount(o1, kind, rel, nums, i + s);
      if i + s <= |nums| {
        assert GroupCount(|nums|, i, s) == GroupCount(|nums|, i + s, s) + 1;
      } else {
        assert GroupCount(|nums|, i, s) == 0 && GroupCount(|nums|, i + s, s) == 0;
      }
    }
  }

  /** All numbers of a command are finite. */
  predicate AllFinite(nums: seq<Num>) {
    forall k :: 0 <= k < |nums| ==> nums[k].Fin?
  }

  predicate FinitePen(p: Pen) {
    FinitePoint(p.cur) && FinitePoint(p.ctrl)
  }

  /** With finite numbers, a group's ten segments run from the current point to the group's end point, and the pen stays finite. */
  lemma GroupChains(o: Out, kind: Curve, rel: bool, nums: seq<Num>, i: nat)
    requires i + Stride(kind) <= |nums| && AllFinite(nums) && FinitePen(o.pen)
    ensures var r := GroupAt(o, kind, rel, nums, i);
      Extends(o, r) && FinitePen(r.pen) && r.pen.cur == GroupPoints(o, kind, rel, nums, i).2
  {
    var (c1, c2, e) := GroupPoints(o, kind, rel, nums, i);
    var cur := o.pen.cur;
    assert FinitePoint(c1) && FinitePoint(c2) && FinitePoint(e) by {
      assert forall k :: i <= k < i + Stride(kind) ==> nums[k].Fin?;
    }
    var r := GroupAt(o, kind, rel, nums, i);
    if kind == Cubic || kind == SmoothCubic {
      CubicChain(cur, c1, c2, e);
      ExtendsByChain(o, r.pen, CubicSegments(cur, c1, c2, e));
    } else {
      QuadChain(cur, c1, e);
      ExtendsByChain(o, r.pen, QuadSegments(cur, c1, e));
    }
  }

  /** With finite numbers, a curve command's segments run on from the current point to its last end point. */
  lemma {:induction false} GroupsChain(o: Out, kind: Curve, rel: bool, nums: seq<Num>, i: nat)
    requires AllFinite(nums) && FinitePen(o.pen)
    ensures Extends(o, Groups(o, kind, rel, nums, i)) && FinitePen(Groups(o, kind, rel, nums, i).pen)
    decreases |nums| - i
  {
    if i >= |nums| {
      ExtendsByChain(o, o.pen, []);
      assert o.segs + [] == o.segs;
    } else {
      var s := Stride(kind);
      if i + s <= |nums| {
        var o1 := GroupAt(o, kind, rel, nums, i);
        GroupChains(o, kind, rel, nums, i);
        GroupsChain(o1, kind, rel, nums, i + s);
        ExtendsTrans(o, o1, Groups(o, kind, rel, nums, i));
      } else {
        GroupsChain(o, kind, rel, nums, i + s);
      }
    }
  }

  /** Where the segments of a command start: the moved-to point for `M`, the current point otherwise. */
  function Begin(o: Out, cmd: string): Out
    requires |cmd| > 0
  {
    if UpperChar(cmd[0]) == 'M' then MoveTo(o, cmd[0] != UpperChar(cmd[0]), Numbers(cmd)) else o
  }

  /**
    Segment continuity: the segments a command adds run on, each from where the previous
    one ended, from the point the command starts at to the new current point. For the
    curve commands this needs finite numbers and a finite pen (NaN control points make
    every curve point NaN).
  */
  lemma StepChains(o: Out, cmd: string)
    requires |cmd| > 0
    requires UpperChar(cmd[0]) in "CSQT" ==> AllFinite(Numbers(cmd)) && FinitePen(o.pen)
    ensures Extends(Begin(o, cmd), Step(o, cmd))
  {
    var kind := UpperChar(cmd[0]);
    var rel := cmd[0] != kind;
    var nums := Numbers(cmd);
    if kind == 'M' {
      LinesSegments(MoveTo(o, rel, nums), rel, nums, 2);
    } else if kind == 'L' {
      LinesSegments(o, rel, nums, 0);
    } else if kind == 'H' || kind == 'V' {
      AxisLines(o, rel, nums);
    } else if kind == 'C' {
      GroupsChain(o, Cubic, rel, nums, 0);
    } else if kind == 'S' {
      GroupsChain(o, SmoothCubic, rel, nums, 0);
    } else if kind == 'Q' {
      GroupsChain(o, Quadratic, rel, nums, 0);
    } else if kind == 'T' {
      GroupsChain(o, SmoothQuadratic, rel, nums, 0);
    } else if kind == 'Z' {
      CloseReturns(o);
    } else {
      ExtendsByChain(o, o.pen, []);
      assert o.segs + [] == o.segs;
    }
  }

  // ---------------------------------------------------------------------------------------
  // The interpreter
  // ---------------------------------------------------------------------------------------

  /** The `L` loop, and the implicit `L` after `M` from index 2. */
  method LineLoop(pen: Pen, segs: seq<Segment>, rel: bool, nums: seq<Num>, from: nat) returns (pen': Pen, segs': seq<Segment>)
    ensures Out(pen', segs') == Lines(Out(pen, segs), rel, nums, from)
  {
    pen', segs' := pen, segs;
    var i := from;
    while i < |nums|
      invariant Lines(Out(pen', segs'), rel, nums, i) == Lines(Out(pen, segs), rel, nums, from)
      decreases |nums| - i
    {
      var newX := Add(Base(rel, pen'.cur.x), nums[i]);
      var newY := Add(Base(rel, pen'.cur.y), OrZero(At(nums, i + 1)));
      segs' := segs' + [Segment(pen'.cur, Point(newX, newY))];
      pen' := pen'.(cur := Point(newX, newY));
      i := i + 2;
    }
  }

  /** One complete group of `C`, `S`, `Q` or `T`. */
  method CurveGroup(pen: Pen, segs: seq<Segment>, kind: Curve, rel: bool, nums: seq<Num>, i: nat) returns (pen': Pen, segs': seq<Segment>)
    requires i + Stride(kind) <= |nums|
    ensures Out(pen', segs') == GroupAt(Out(pen, segs), kind, rel, nums, i)
  {
    var start := pen.cur;
    var added: seq<Segment>;
    match kind {
      case Cubic =>
        var c1 := Offset(rel, start, nums[i], nums[i + 1]);
        var c2 := Offset(rel, start, nums[i + 2], nums[i + 3]);
        var e := Offset(rel, start, nums[i + 4], nums[i + 5]);
        added := ApproximateCubic(start, c1, c2, e);
        pen' := pen.(cur := e, ctrl := c2);
      case SmoothCubic =>
        var c1 := Reflect(start, pen.ctrl);
        var c2 := Offset(rel, start, nums[i], nums[i + 1]);
        var e := Offset(rel, start, nums[i + 2], nums[i + 3]);
        added := ApproximateCubic(start, c1, c2, e);
        pen' := pen.(cur := e, ctrl := c2);
      case Quadratic =>
        var c := Offset(rel, start, nums[i], nums[i + 1]);
        var e := Offset(rel, start, nums[i + 2], nums[i + 3]);
        added := ApproximateQuadratic(start, c, e);
        pen' := pen.(cur := e, ctrl := c);
      case SmoothQuadratic =>
        var c := Reflect(start, pen.ctrl);
        var e := Offset(rel, start, nums[i], nums[i + 1]);
        added := ApproximateQuadratic(start, c, e);
        pen' := pen.(cur := e, ctrl := c);
    }
    segs' := segs + added;
  }

  /** The loop of a curve command over its groups; an incomplete group is skipped. */
  method CurveLoop(pen: Pen, segs: seq<Segment>, kind: Curve, rel: bool, nums: seq<Num>) returns (pen': Pen, segs': seq<Segment>)
    ensures Out(pen', segs') == Groups(Out(pen, segs), kind, rel, nums, 0)
  {
    pen', segs' := pen, segs;
    var i := 0;
    while i < |nums|
      invariant Groups(Out(pen', segs'), kind, rel, nums, i) == Groups(Out(pen, segs), kind, rel, nums, 0)
      decreases |nums| - i
    {
      if i + Stride(kind) <= |nums| {
        pen', segs' := CurveGroup(pen', segs', kind, rel, nums, i);
      }
      i := i + Stride(kind);
    }
  }

  /** The body of `for (const cmd of commands)`. */
  method ApplyCommand(pen: Pen, segs: seq<Segment>, cmd: string) returns (pen': Pen, segs': seq<Segment>)
    requires |cmd| > 0
    ensures Out(pen', segs') == Step(Out(pen, segs), cmd)
  {
    var kind := UpperChar(cmd[0]);
    var rel := cmd[0] != kind;
    var nums := Numbers(cmd);
    pen', segs' := pen, segs;
    if kind == 'M' {
      var p := Point(Add(Base(rel, pen.cur.x), OrZero(At(nums, 0))), Add(Base(rel, pen.cur.y), OrZero(At(nums, 1))));
      pen' := pen.(cur := p, start := p);
      pen', segs' := LineLoop(pen', segs', rel, nums, 2);
    } else if kind == 'L' {
      pen', segs' := LineLoop(pen, segs, rel, nums, 0);
    } else if kind == 'H' {
      var newX := Add(Base(rel, pen.cur.x), At(nums, 0));
      segs' := segs + [Segment(pen.cur, Point(newX, pen.cur.y))];
      pen' := pen.(cur := Point(newX, pen.cur.y));
    } else if kind == 'V' {
      var newY := Add(Base(rel, pen.cur.y), At(nums, 0));
      segs' := segs + [Segment(pen.cur, Point(pen.cur.x, newY))];
      pen' := pen.(cur := Point(pen.cur.x, newY));
    } else if kind == 'C' {
      pen', segs' := CurveLoop(pen, segs, Cubic, rel, nums);
    } else if kind == 'S' {
      pen', segs' := CurveLoop(pen, segs, SmoothCubic, rel, nums);
    } else if kind == 'Q' {
      pen', segs' := CurveLoop(pen, segs, Quadratic, rel, nums);
    } else if kind == 'T' {
      pen', segs' := CurveLoop(pen, segs, SmoothQuadratic, rel, nums);
    } else if kind == 'Z' {
      if Differs(pen.cur.x, pen.start.x) || Differs(pen.cur.y, pen.start.y) {
        segs' := segs + [Segment(pen.cur, pen.start)];
      }
      pen' := pen.(cur := pen.start);
    }
  }

  /** `parsePathToSegments(pathD)`: `[]` for empty data, otherwise the commands run in order from the origin. */
  method ParsePathToSegments(d: string) returns (segs: seq<Segment>)
    ensures segs == PathSegments(d)
  {
    if d == "" {
      return [];
    }
    var commands := Commands(d);
    var pen := StartPen;
    segs := [];
    for k := 0 to |commands|
      invariant Out(pen, segs) == Run(commands, k)
    {
      pen, segs := ApplyCommand(pen, segs, commands[k]);
    }
  }

  /** Empty data, and data without a command letter, give no segments. */
  lemma NoCommandsNoSegments(d: string)
    requires forall k :: 0 <= k < |d| ==> !IsCommandLetter(d[k])
    ensures PathSegments(d) == []
  {
    assert NextCommand(d, 0) == |d|;
  }
}

/**
 * Path flattening: a Blend2D path (a stream of commands, each with a vertex)
 * is rewritten into one that holds only `move_to`, `line_to` and `close`,
 * quadratic and cubic Bézier segments being replaced by polylines through
 * recursive De Casteljau subdivision. Also the decoders of path command atoms
 * and of index ranges.
 *
 * Coordinates are exact reals. The square root in the flatness measures is
 * not computed: the flatness value is stated for any non-negative `len` with
 * `len * len` equal to the squared chord length, and the subdivision tests
 * compare squared quantities, which is proved equivalent to comparing the
 * measure with the tolerance.
 */
module PathFlatten {
  import opened Common
  import opened Terms
  import opened RealArith

  // Command codes of a Blend2D path (`BLPathCmd`).
  const CMD_MOVE: Byte := 0
  const CMD_ON: Byte := 1
  const CMD_QUAD: Byte := 2
  const CMD_CONIC: Byte := 3
  const CMD_CUBIC: Byte := 4
  const CMD_CLOSE: Byte := 5
  const CMD_WEIGHT: Byte := 6
  const CMD_PRESERVE: U32 := 0xFFFF_FFFF

  /** Length of the atom buffer `cmd_from_term` decodes into. */
  const CMD_ATOM_BUF: nat := 32

  /** The command an atom names, as the `strcmp` chain of `cmd_from_term`. */
  function CmdOfName(name: string): Option<U32>
  {
    if name == "move_to" then Some(CMD_MOVE)
    else if name == "line_to" then Some(CMD_ON)
    else if name == "quad_to" then Some(CMD_QUAD)
    else if name == "cubic_to" then Some(CMD_CUBIC)
    else if name == "conic_to" then Some(CMD_CONIC)
    else if name == "weight" then Some(CMD_WEIGHT)
    else if name == "close" then Some(CMD_CLOSE)
    else if name == "preserve" then Some(CMD_PRESERVE)
    else None
  }

  /** The atom that names a command: the reference table `CmdOfName` inverts. */
  function CmdName(cmd: U32): Option<string>
  {
    if cmd == CMD_MOVE then Some("move_to")
    else if cmd == CMD_ON then Some("line_to")
    else if cmd == CMD_QUAD then Some("quad_to")
    else if cmd == CMD_CUBIC then Some("cubic_to")
    else if cmd == CMD_CONIC then Some("conic_to")
    else if cmd == CMD_WEIGHT then Some("weight")
    else if cmd == CMD_CLOSE then Some("close")
    else if cmd == CMD_PRESERVE then Some("preserve")
    else None
  }

  /** `cmd_from_term`: decode an atom into a path command code. */
  function CmdFromTerm(t: Term): (r: Option<U32>)
    ensures r.Some? <==> t.Atom? && CmdOfName(t.name).Some?
    ensures r.Some? ==> CmdName(r.value) == Some(t.name)
  {
    match GetAtom(t, CMD_ATOM_BUF)
    case None => None
    case Some(name) => CmdOfName(name)
  }

  /** Every command code has a name, and the name decodes back to it. */
  lemma CmdFromTermRoundTrip(cmd: U32)
    requires cmd in {CMD_MOVE, CMD_ON, CMD_QUAD, CMD_CUBIC, CMD_CONIC, CMD_WEIGHT, CMD_CLOSE, CMD_PRESERVE}
    ensures CmdName(cmd).Some?
    ensures CmdFromTerm(Atom(CmdName(cmd).value)) == Some(cmd)
  {
  }

  /** A `BLRange`: the half-open index range `[start, end)`. */
  datatype BlRange = BlRange(start: nat, end: nat)

  /** `parse_size_t`: an `unsigned long`, 64 bits wide. */
  function ParseSize(t: Term): (r: Option<nat>)
    ensures r.Some? ==> r.value < TWO_64
  {
    GetUint64(t)
  }

  /**
   * `parse_bl_range`: a 2-tuple `{start, end}`, or else a map with `first`
   * and `last`; either form succeeds only when `start <= end`.
   */
  function ParseRange(t: Term): (r: Option<BlRange>)
    ensures r.Some? ==> r.value.start <= r.value.end
    ensures r.Some? ==> t.Tuple? || t.MapTerm?
  {
    var tup := GetTuple(t, 2);
    if tup.Some? && ParseSize(tup.value[0]).Some? && ParseSize(tup.value[1]).Some? then
      var s := ParseSize(tup.value[0]).value;
      var e := ParseSize(tup.value[1]).value;
      if s <= e then Some(BlRange(s, e)) else None
    else if t.MapTerm? then
      var first := MapGet(t, Atom("first"));
      var last := MapGet(t, Atom("last"));
      if first.Some? && last.Some? && ParseSize(first.value).Some? && ParseSize(last.value).Some? then
        var s := ParseSize(first.value).value;
        var e := ParseSize(last.value).value;
        if s <= e then Some(BlRange(s, e)) else None
      else None
    else None
  }

  /** Both encodings of an ordered 64-bit range decode back to it; a reversed one is refused. */
  lemma ParseRangeEncodings(s: nat, e: nat)
    requires s < TWO_64 && e < TWO_64
    ensures ParseRange(Tuple([Int(s), Int(e)])) == if s <= e then Some(BlRange(s, e)) else None
    ensures ParseRange(MapTerm([(Atom("first"), Int(s)), (Atom("last"), Int(e))]))
            == if s <= e then Some(BlRange(s, e)) else None
  {
    var m := [(Atom("first"), Int(s)), (Atom("last"), Int(e))];
    assert Lookup(m, Atom("first")) == Some(Int(s));
    assert m[1..] == [(Atom("last"), Int(e))];
    assert Lookup(m, Atom("last")) == Some(Int(e));
  }

  // ---------------------------------------------------------------------
  // Geometry

  datatype Point = Point(x: real, y: real)

  /** The vertex Blend2D stores with a `close` command (NaN there; any point here). */
  const CLOSE_VERTEX: Point := Point(0.0, 0.0)

  /** The current point before any command: `BLPoint(0.0, 0.0)`. */
  const ORIGIN: Point := Point(0.0, 0.0)

  /** `mix`: the point a fraction `t` of the way from `a` to `b`. */
  function Mix(a: Point, b: Point, t: real): (m: Point)
    ensures t == 0.0 ==> m == a
    ensures t == 1.0 ==> m == b
  {
    Point(a.x + (b.x - a.x) * t, a.y + (b.y - a.y) * t)
  }

  /** `b - a` as a vector. */
  function Minus(b: Point, a: Point): Point
  {
    Point(b.x - a.x, b.y - a.y)
  }

  function Plus(a: Point, b: Point): Point
  {
    Point(a.x + b.x, a.y + b.y)
  }

  function Scale(k: real, u: Point): Point
  {
    Point(k * u.x, k * u.y)
  }

  /** The 2-D cross product: twice the signed area of the triangle on `u` and `v`. */
  function Cross(u: Point, v: Point): real
  {
    u.x * v.y - u.y * v.x
  }

  function Dot(u: Point, v: Point): real
  {
    u.x * v.x + u.y * v.y
  }

  /** The squared Euclidean length. */
  function Norm2(u: Point): real
  {
    Sq(u.x) + Sq(u.y)
  }

  /** `len` is the Euclidean length of `u`, the value `std::sqrt(ux * ux + uy * uy)`. */
  predicate IsLength(len: real, u: Point)
  {
    0.0 <= len && Sq(len) == Norm2(u)
  }

  lemma Norm2Nonneg(u: Point)
    ensures 0.0 <= Norm2(u)
  {
    SqNonneg(u.x);
    SqNonneg(u.y);
  }

  lemma Norm2Zero(u: Point)
    requires Norm2(u) == 0.0
    ensures u == Point(0.0, 0.0)
  {
    SqNonneg(u.x);
    SqNonneg(u.y);
    SqZero(u.x);
    SqZero(u.y);
  }

  lemma Norm2Scale(k: real, u: Point)
    ensures Norm2(Scale(k, u)) == Sq(k) * Norm2(u)
  {
  }

  /** Lagrange's identity in the plane: `cross² + dot² == |u|² |v|²`. */
  lemma Lagrange(u: Point, v: Point)
    ensures Sq(Cross(u, v)) + Sq(Dot(u, v)) == Norm2(u) * Norm2(v)
  {
  }

  /** Hence `cross(u, v)² <= |u|² |v|²`. */
  lemma CrossBound(u: Point, v: Point)
    ensures Sq(Cross(u, v)) <= Norm2(u) * Norm2(v)
  {
    Lagrange(u, v);
    SqNonneg(Dot(u, v));
  }

  lemma Norm2SumBound(u: Point, v: Point)
    ensures Norm2(Plus(u, v)) <= 2.0 * Norm2(u) + 2.0 * Norm2(v)
  {
    SqSumBound(u.x, v.x);
    SqSumBound(u.y, v.y);
  }

  /**
   * `quadFlatness`: the distance of the control point `p1` from the chord
   * `p0`-`p2`, or 0 when the chord is degenerate; `len` is the chord length.
   */
  function QuadFlatness(p0: Point, p1: Point, p2: Point, len: real): (f: real)
    requires IsLength(len, Minus(p2, p0))
    ensures 0.0 <= f
    ensures Norm2(Minus(p2, p0)) == 0.0 ==> f == 0.0
  {
    if len > 0.0 then
      SqPos(len);
      DivNonneg(Abs(Cross(Minus(p2, p0), Minus(p1, p0))), len);
      Abs(Cross(Minus(p2, p0), Minus(p1, p0))) / len
    else 0.0
  }

  /**
   * `cubicFlatness`: the larger distance of `p1` and `p2` from the chord
   * `p0`-`p3`, or 0 when the chord is degenerate.
   */
  function CubicFlatness(p0: Point, p1: Point, p2: Point, p3: Point, len: real): (f: real)
    requires IsLength(len, Minus(p3, p0))
    ensures 0.0 <= f
    ensures Norm2(Minus(p3, p0)) == 0.0 ==> f == 0.0
  {
    if len == 0.0 then 0.0
    else
      var u := Minus(p3, p0);
      SqPos(len);
      DivNonneg(Abs(Cross(u, Minus(p1, p0))), len);
      Max(Abs(Cross(u, Minus(p1, p0))) / len, Abs(Cross(u, Minus(p2, p0))) / len)
  }

  function Max(a: real, b: real): real
  {
    if a < b then b else a
  }

  /** `|area| / len <= tol` with `n2 == len²`, decided without the square root. */
  predicate WithinTolerance(area: real, n2: real, tol: real)
  {
    0.0 <= tol && Sq(area) <= Sq(tol) * n2
  }

  /** For `len > 0`: `|area| / len <= tol` exactly when the squared test holds. */
  lemma DivideWithin(area: real, len: real, tol: real)
    requires 0.0 < len
    ensures Abs(area) / len <= tol <==> WithinTolerance(area, Sq(len), tol)
  {
    DivLe(Abs(area), len, tol);
    SqAbs(area);
    SqProduct(tol, len);
    if Abs(area) <= tol * len {
      if tol < 0.0 {
        MulLeftStrict(len, tol, 0.0);
      }
      SqMono(Abs(area), tol * len);
    } else if 0.0 <= tol {
      MulNonneg(tol, len);
      SqMonoStrict(tol * len, Abs(area));
    }
  }

  /** A quadratic Bézier segment: start, control point, end. */
  datatype Quad = Quad(p0: Point, p1: Point, p2: Point)

  /** A cubic Bézier segment: start, two control points, end. */
  datatype Cubic = Cubic(p0: Point, p1: Point, p2: Point, p3: Point)

  /** The subdivision test `quadFlatness(p0, p1, p2) <= tol`, free of square roots. */
  predicate QuadFlat(q: Quad, tol: real)
  {
    WithinTolerance(Cross(Minus(q.p2, q.p0), Minus(q.p1, q.p0)), Norm2(Minus(q.p2, q.p0)), tol)
  }

  /** The subdivision test `cubicFlatness(p0, p1, p2, p3) <= tol`, free of square roots. */
  predicate CubicFlat(c: Cubic, tol: real)
  {
    var u := Minus(c.p3, c.p0);
    WithinTolerance(Cross(u, Minus(c.p1, c.p0)), Norm2(u), tol) &&
    WithinTolerance(Cross(u, Minus(c.p2, c.p0)), Norm2(u), tol)
  }

  /** Across a degenerate chord every area is 0. */
  lemma DegenerateCross(u: Point, v: Point)
    requires Norm2(u) == 0.0
    ensures Cross(u, v) == 0.0
  {
    Norm2Zero(u);
    CrossZero(v);
  }

  lemma CrossZero(v: Point)
    ensures Cross(Point(0.0, 0.0), v) == 0.0
  {
  }

  /** With no area and a degenerate chord the test reduces to `0 <= tol`. */
  lemma DegenerateWithin(area: real, tol: real)
    requires area == 0.0
    ensures WithinTolerance(area, 0.0, tol) <==> 0.0 <= tol
  {
    SqOfZero(area);
    MulZero(Sq(tol));
  }

  /** The square-free test agrees with `quadFlatness(p0, p1, p2) <= tol`. */
  lemma QuadFlatIff(q: Quad, tol: real, len: real)
    requires IsLength(len, Minus(q.p2, q.p0))
    ensures QuadFlatness(q.p0, q.p1, q.p2, len) <= tol <==> QuadFlat(q, tol)
  {
    if len > 0.0 {
      DivideWithin(Cross(Minus(q.p2, q.p0), Minus(q.p1, q.p0)), len, tol);
    } else {
      SqOfZero(len);
      DegenerateCross(Minus(q.p2, q.p0), Minus(q.p1, q.p0));
      DegenerateWithin(Cross(Minus(q.p2, q.p0), Minus(q.p1, q.p0)), tol);
    }
  }

  /** The square-free test agrees with `cubicFlatness(p0, p1, p2, p3) <= tol`. */
  lemma CubicFlatIff(c: Cubic, tol: real, len: real)
    requires IsLength(len, Minus(c.p3, c.p0))
    ensures CubicFlatness(c.p0, c.p1, c.p2, c.p3, len) <= tol <==> CubicFlat(c, tol)
  {
    var u := Minus(c.p3, c.p0);
    if len > 0.0 {
      DivideWithin(Cross(u, Minus(c.p1, c.p0)), len, tol);
      DivideWithin(Cross(u, Minus(c.p2, c.p0)), len, tol);
    } else {
      SqOfZero(len);
      DegenerateCross(u, Minus(c.p1, c.p0));
      DegenerateCross(u, Minus(c.p2, c.p0));
      DegenerateWithin(Cross(u, Minus(c.p1, c.p0)), tol);
      DegenerateWithin(Cross(u, Minus(c.p2, c.p0)), tol);
    }
  }

  /** A negative tolerance is never met, whatever the curve. */
  lemma NegativeNeverFlat(q: Quad, c: Cubic, tol: real)
    requires tol < 0.0
    ensures !QuadFlat(q, tol) && !CubicFlat(c, tol)
  {
  }

  // ---------------------------------------------------------------------
  // Recursive subdivision

  /**
   * The De Casteljau halves of a quadratic segment at `t = 0.5`, with every
   * new control point written as one weighted average of the old ones;
   * SplitQuadCascade shows these are the points of the `mix` cascade.
   */
  function SplitQuad(q: Quad): (halves: (Quad, Quad))
    ensures halves.0.p0 == q.p0 && halves.1.p2 == q.p2
    ensures halves.0.p2 == halves.1.p0
  {
    var p01 := Point(0.5 * (q.p0.x + q.p1.x), 0.5 * (q.p0.y + q.p1.y));
    var p12 := Point(0.5 * (q.p1.x + q.p2.x), 0.5 * (q.p1.y + q.p2.y));
    var p012 := Point(0.25 * (q.p0.x + 2.0 * q.p1.x + q.p2.x), 0.25 * (q.p0.y + 2.0 * q.p1.y + q.p2.y));
    (Quad(q.p0, p01, p012), Quad(p012, p12, q.p2))
  }

  /** The halves are the ones `flattenQuadRecursive` builds with `mix`. */
  lemma SplitQuadCascade(q: Quad)
    ensures var p01, p12 := Mix(q.p0, q.p1, 0.5), Mix(q.p1, q.p2, 0.5);
            var p012 := Mix(p01, p12, 0.5);
            SplitQuad(q) == (Quad(q.p0, p01, p012), Quad(p012, p12, q.p2))
  {
  }

  /** The De Casteljau halves of a cubic segment at `t = 0.5`, in the same closed form. */
  function SplitCubic(c: Cubic): (halves: (Cubic, Cubic))
    ensures halves.0.p0 == c.p0 && halves.1.p3 == c.p3
    ensures halves.0.p3 == halves.1.p0
  {
    var p01 := Point(0.5 * (c.p0.x + c.p1.x), 0.5 * (c.p0.y + c.p1.y));
    var p23 := Point(0.5 * (c.p2.x + c.p3.x), 0.5 * (c.p2.y + c.p3.y));
    var p012 := Point(0.25 * (c.p0.x + 2.0 * c.p1.x + c.p2.x), 0.25 * (c.p0.y + 2.0 * c.p1.y + c.p2.y));
    var p123 := Point(0.25 * (c.p1.x + 2.0 * c.p2.x + c.p3.x), 0.25 * (c.p1.y + 2.0 * c.p2.y + c.p3.y));
    var p0123 := Point(0.125 * (c.p0.x + 3.0 * c.p1.x + 3.0 * c.p2.x + c.p3.x),
                       0.125 * (c.p0.y + 3.0 * c.p1.y + 3.0 * c.p2.y + c.p3.y));
    (Cubic(c.p0, p01, p012, p0123), Cubic(p0123, p123, p23, c.p3))
  }

  /** The halves are the ones `flattenCubicRecursive` builds with `mix`. */
  lemma SplitCubicCascade(c: Cubic)
    ensures var p01, p12, p23 := Mix(c.p0, c.p1, 0.5), Mix(c.p1, c.p2, 0.5), Mix(c.p2, c.p3, 0.5);
            var p012, p123 := Mix(p01, p12, 0.5), Mix(p12, p23, 0.5);
            var p0123 := Mix(p012, p123, 0.5);
            SplitCubic(c) == (Cubic(c.p0, p01, p012, p0123), Cubic(p0123, p123, p23, c.p3))
  {
  }

  /**
   * The end points of the `line_to` commands a subdivision emits, and whether
   * it finished. Subdivision stops when `fuel` runs out, which stands for the
   * recursion running away; the points emitted up to then are kept.
   */
  datatype Pieces = Pieces(ends: seq<Point>, complete: bool)

  /** `flattenQuadRecursive`: the points of the polyline replacing a quadratic segment. */
  function QuadPieces(q: Quad, tol: real, fuel: nat): Pieces
    decreases fuel
  {
    if QuadFlat(q, tol) then Pieces([q.p2], true)
    else if fuel == 0 then Pieces([], false)
    else
      var halves := SplitQuad(q);
      var left := QuadPieces(halves.0, tol, fuel - 1);
      if !left.complete then left
      else
        var right := QuadPieces(halves.1, tol, fuel - 1);
        Pieces(left.ends + right.ends, right.complete)
  }

  /** `flattenCubicRecursive`: the points of the polyline replacing a cubic segment. */
  function CubicPieces(c: Cubic, tol: real, fuel: nat): Pieces
    decreases fuel
  {
    if CubicFlat(c, tol) then Pieces([c.p3], true)
    else if fuel == 0 then Pieces([], false)
    else
      var halves := SplitCubic(c);
      var left := CubicPieces(halves.0, tol, fuel - 1);
      if !left.complete then left
      else
        var right := CubicPieces(halves.1, tol, fuel - 1);
        Pieces(left.ends + right.ends, right.complete)
  }

  /** A finished subdivision of a quadratic segment ends at the segment's end point. */
  lemma {:induction false} QuadPiecesEnd(q: Quad, tol: real, fuel: nat)
    requires QuadPieces(q, tol, fuel).complete
    ensures |QuadPieces(q, tol, fuel).ends| >= 1
    ensures Last(QuadPieces(q, tol, fuel).ends) == q.p2
    decreases fuel
  {
    if !QuadFlat(q, tol) {
      var halves := SplitQuad(q);
      QuadPiecesEnd(halves.1, tol, fuel - 1);
    }
  }

  /** A finished subdivision of a cubic segment ends at the segment's end point. */
  lemma {:induction false} CubicPiecesEnd(c: Cubic, tol: real, fuel: nat)
    requires CubicPieces(c, tol, fuel).complete
    ensures |CubicPieces(c, tol, fuel).ends| >= 1
    ensures Last(CubicPieces(c, tol, fuel).ends) == c.p3
    decreases fuel
  {
    if !CubicFlat(c, tol) {
      var halves := SplitCubic(c);
      CubicPiecesEnd(halves.1, tol, fuel - 1);
    }
  }

  function Last(s: seq<Point>): Point
    requires |s| >= 1
  {
    s[|s| - 1]
  }

  /** More fuel changes nothing once a subdivision completes. */
  lemma {:induction false} QuadPiecesMoreFuel(q: Quad, tol: real, fuel: nat, more: nat)
    requires fuel <= more && QuadPieces(q, tol, fuel).complete
    ensures QuadPieces(q, tol, more) == QuadPieces(q, tol, fuel)
    decreases fuel
  {
    if !QuadFlat(q, tol) {
      var halves := SplitQuad(q);
      var left := QuadPieces(halves.0, tol, fuel - 1);
      QuadPiecesMoreFuel(halves.0, tol, fuel - 1, more - 1);
      var right := QuadPieces(halves.1, tol, fuel - 1);
      QuadPiecesMoreFuel(halves.1, tol, fuel - 1, more - 1);
      assert QuadPieces(q, tol, fuel) == Pieces(left.ends + right.ends, right.complete);
    }
  }

  /** More fuel changes nothing once a subdivision completes. */
  lemma {:induction false} CubicPiecesMoreFuel(c: Cubic, tol: real, fuel: nat, more: nat)
    requires fuel <= more && CubicPieces(c, tol, fuel).complete
    ensures CubicPieces(c, tol, more) == CubicPieces(c, tol, fuel)
    decreases fuel
  {
    if !CubicFlat(c, tol) {
      var halves := SplitCubic(c);
      var left := CubicPieces(halves.0, tol, fuel - 1);
      CubicPiecesMoreFuel(halves.0, tol, fuel - 1, more - 1);
      var right := CubicPieces(halves.1, tol, fuel - 1);
      CubicPiecesMoreFuel(halves.1, tol, fuel - 1, more - 1);
      assert CubicPieces(c, tol, fuel) == Pieces(left.ends + right.ends, right.complete);
    }
  }

  /** With a negative tolerance no segment is ever flat enough: subdivision never ends. */
  lemma {:induction false} NegativeToleranceNeverCompletes(q: Quad, c: Cubic, tol: real, fuel: nat)
    requires tol < 0.0
    ensures !QuadPieces(q, tol, fuel).complete
    ensures !CubicPieces(c, tol, fuel).complete
    decreases fuel
  {
    if fuel > 0 {
      NegativeToleranceNeverCompletes(SplitQuad(q).0, SplitCubic(c).0, tol, fuel - 1);
    }
  }

  // ---------------------------------------------------------------------
  // Termination for a positive tolerance (exact arithmetic)

  /** The second difference `p0 - 2 p1 + p2` of a quadratic segment. */
  function QuadSecond(q: Quad): Point
  {
    Plus(Minus(q.p0, q.p1), Minus(q.p2, q.p1))
  }

  /** How far a quadratic segment is from a straight line, as a squared length. */
  function QuadSpread(q: Quad): real
  {
    Norm2(QuadSecond(q))
  }

  /** The first second difference `p0 - 2 p1 + p2` of a cubic segment. */
  function CubicFirst(c: Cubic): Point
  {
    Plus(Minus(c.p0, c.p1), Minus(c.p2, c.p1))
  }

  /** The last second difference `p1 - 2 p2 + p3` of a cubic segment. */
  function CubicLast(c: Cubic): Point
  {
    Plus(Minus(c.p1, c.p2), Minus(c.p3, c.p2))
  }

  /** How far a cubic segment is from a straight line: the sum of its squared second differences. */
  function CubicSpread(c: Cubic): real
  {
    Norm2(CubicFirst(c)) + Norm2(CubicLast(c))
  }

  /** Splitting a quadratic segment divides its second difference by 4. */
  lemma QuadSplitSecond(q: Quad)
    ensures QuadSecond(SplitQuad(q).0) == Scale(0.25, QuadSecond(q))
    ensures QuadSecond(SplitQuad(q).1) == Scale(0.25, QuadSecond(q))
  {
  }

  /** Splitting a quadratic segment divides its spread by 16. */
  lemma QuadSplitSpread(q: Quad)
    ensures QuadSpread(SplitQuad(q).0) == QuadSpread(q) / 16.0
    ensures QuadSpread(SplitQuad(q).1) == QuadSpread(q) / 16.0
  {
    QuadSplitSecond(q);
    Norm2Scale(0.25, QuadSecond(q));
  }

  /** The second differences of the two halves of a split cubic segment. */
  lemma CubicSplitDifferences(c: Cubic)
    ensures CubicFirst(SplitCubic(c).0) == Scale(0.25, CubicFirst(c))
    ensures CubicLast(SplitCubic(c).0) == Scale(0.125, Plus(CubicFirst(c), CubicLast(c)))
    ensures CubicFirst(SplitCubic(c).1) == Scale(0.125, Plus(CubicFirst(c), CubicLast(c)))
    ensures CubicLast(SplitCubic(c).1) == Scale(0.25, CubicLast(c))
  {
  }

  /** Splitting a cubic segment divides its spread by at least 10. */
  lemma CubicSplitSpread(c: Cubic)
    ensures CubicSpread(SplitCubic(c).0) <= CubicSpread(c) / 10.0
    ensures CubicSpread(SplitCubic(c).1) <= CubicSpread(c) / 10.0
  {
    var d1, d2 := CubicFirst(c), CubicLast(c);
    CubicSplitDifferences(c);
    Norm2Scale(0.25, d1);
    Norm2Scale(0.25, d2);
    Norm2Scale(0.125, Plus(d1, d2));
    Norm2SumBound(d1, d2);
    Norm2Nonneg(d1);
    Norm2Nonneg(d2);
  }

  /** From `k a <= n m` and `m <= k t` with `k > 0`: `a <= t n`. */
  lemma ScaledBound(a: real, k: real, n: real, m: real, t: real)
    requires 0.0 <= n && 0.0 < k
    requires k * a <= n * m && m <= k * t
    ensures a <= t * n
  {
    MulLeft(n, m, k * t);
    assert n * (k * t) == k * (t * n);
    if t * n < a {
      MulLeftStrict(k, t * n, a);
    }
  }

  /** A quadratic segment whose spread is at most `tol²` is flat enough. */
  lemma QuadFlatWhenSmall(q: Quad, tol: real)
    requires 0.0 <= tol && QuadSpread(q) <= Sq(tol)
    ensures QuadFlat(q, tol)
  {
    var u, v, d := Minus(q.p2, q.p0), Minus(q.p1, q.p0), QuadSecond(q);
    assert d == Minus(Scale(1.0, u), Scale(2.0, v));
    SqNonneg(tol);
    ControlBound(u, v, 1.0, 2.0, d, tol);
  }

  /** `cross(u, j u - k v) == -k cross(u, v)`. */
  lemma CrossOfDifference(u: Point, v: Point, j: real, k: real)
    ensures Cross(u, Minus(Scale(j, u), Scale(k, v))) == -k * Cross(u, v)
  {
  }

  /**
   * A control point `v` at offset `w == j u - k v` from a multiple of the
   * chord `u` lies within `tol` of the chord once `|w| <= k tol`.
   */
  lemma ControlBound(u: Point, v: Point, j: real, k: real, w: Point, tol: real)
    requires w == Minus(Scale(j, u), Scale(k, v)) && 0.0 < k
    requires 0.0 <= tol && Norm2(w) <= Sq(k) * Sq(tol)
    ensures WithinTolerance(Cross(u, v), Norm2(u), tol)
  {
    CrossOfDifference(u, v, j, k);
    SqProduct(-k, Cross(u, v));
    SqNeg(k);
    SqPos(k);
    CrossBound(u, w);
    Norm2Nonneg(u);
    ScaledBound(Sq(Cross(u, v)), Sq(k), Norm2(u), Norm2(w), Sq(tol));
  }

  /** A cubic segment whose spread is at most `tol²` is flat enough. */
  lemma CubicFlatWhenSmall(c: Cubic, tol: real)
    requires 0.0 <= tol && CubicSpread(c) <= Sq(tol)
    ensures CubicFlat(c, tol)
  {
    var u, d1, d2 := Minus(c.p3, c.p0), CubicFirst(c), CubicLast(c);
    Norm2Nonneg(d1);
    Norm2Nonneg(d2);
    Norm2Scale(2.0, d1);
    Norm2Scale(2.0, d2);
    SqNonneg(tol);
    assert Plus(Scale(2.0, d1), d2) == Minus(Scale(1.0, u), Scale(3.0, Minus(c.p1, c.p0)));
    assert Plus(d1, Scale(2.0, d2)) == Minus(Scale(2.0, u), Scale(3.0, Minus(c.p2, c.p0)));
    CubicControlBound(u, Minus(c.p1, c.p0), 1.0, Scale(2.0, d1), d2, tol, CubicSpread(c));
    CubicControlBound(u, Minus(c.p2, c.p0), 2.0, d1, Scale(2.0, d2), tol, CubicSpread(c));
  }

  /** One control point `v` of a cubic with `j u - 3 v == a + b`. */
  lemma CubicControlBound(u: Point, v: Point, j: real, a: Point, b: Point, tol: real, spread: real)
    requires Plus(a, b) == Minus(Scale(j, u), Scale(3.0, v))
    requires 0.0 <= tol && 0.0 <= Sq(tol)
    requires 2.0 * Norm2(a) + 2.0 * Norm2(b) <= 8.0 * spread && spread <= Sq(tol)
    ensures WithinTolerance(Cross(u, v), Norm2(u), tol)
  {
    Norm2SumBound(a, b);
    ControlBound(u, v, j, 3.0, Plus(a, b), tol);
  }

  /** `t · 10^k`, written without products of unknowns. */
  function Level(t: real, k: nat): real
  {
    if k == 0 then t else 10.0 * Level(t, k - 1)
  }

  lemma {:induction false} LevelLinear(t: real, k: nat)
    requires 0.0 <= t
    ensures 0.0 <= t <= Level(t, k)
    ensures (k as real + 1.0) * t <= Level(t, k)
  {
    if k > 0 {
      LevelLinear(t, k - 1);
      assert (k as real + 1.0) * t == ((k - 1) as real + 1.0) * t + t;
    }
  }

  /** A fuel under which `x` lies below `t · 10^k`. */
  function LevelFuel(x: real, t: real): (k: nat)
    requires 0.0 < t
    ensures x <= Level(t, k)
  {
    if x <= 0.0 then
      LevelLinear(t, 0);
      0
    else
      var y := x / t;
      var k := y.Floor;
      assert y * t == x;
      assert 0 <= k;
      MulLeftStrict(t, y, k as real + 1.0);
      LevelLinear(t, k);
      k
  }

  /** A quadratic segment whose spread is below `tol² · 10^fuel` is flattened within `fuel` splits. */
  lemma {:induction false} QuadCompletes(q: Quad, tol: real, fuel: nat)
    requires 0.0 <= tol && QuadSpread(q) <= Level(Sq(tol), fuel)
    ensures QuadPieces(q, tol, fuel).complete
    decreases fuel
  {
    if fuel == 0 {
      QuadFlatWhenSmall(q, tol);
    } else {
      SqNonneg(tol);
      LevelLinear(Sq(tol), fuel - 1);
      QuadSplitSpread(q);
      Norm2Nonneg(QuadSecond(q));
      var halves := SplitQuad(q);
      QuadCompletes(halves.0, tol, fuel - 1);
      QuadCompletes(halves.1, tol, fuel - 1);
    }
  }

  /** A cubic segment whose spread is below `tol² · 10^fuel` is flattened within `fuel` splits. */
  lemma {:induction false} CubicCompletes(c: Cubic, tol: real, fuel: nat)
    requires 0.0 <= tol && CubicSpread(c) <= Level(Sq(tol), fuel)
    ensures CubicPieces(c, tol, fuel).complete
    decreases fuel
  {
    if fuel == 0 {
      CubicFlatWhenSmall(c, tol);
    } else {
      SqNonneg(tol);
      LevelLinear(Sq(tol), fuel - 1);
      CubicSplitSpread(c);
      var halves := SplitCubic(c);
      CubicCompletes(halves.0, tol, fuel - 1);
      CubicCompletes(halves.1, tol, fuel - 1);
    }
  }

  /** With a positive tolerance, a depth under which quadratic subdivision finishes. */
  function QuadFuel(q: Quad, tol: real): (fuel: nat)
    requires 0.0 < tol
    ensures QuadPieces(q, tol, fuel).complete
  {
    SqPos(tol);
    var fuel := LevelFuel(QuadSpread(q), Sq(tol));
    QuadCompletes(q, tol, fuel);
    fuel
  }

  /** With a positive tolerance, a depth under which cubic subdivision finishes. */
  function CubicFuel(c: Cubic, tol: real): (fuel: nat)
    requires 0.0 < tol
    ensures CubicPieces(c, tol, fuel).complete
  {
    SqPos(tol);
    var fuel := LevelFuel(CubicSpread(c), Sq(tol));
    CubicCompletes(c, tol, fuel);
    fuel
  }

  // ---------------------------------------------------------------------
  // What a finished subdivision approximates

  /** One coordinate of `mix`. */
  function Lerp(a: real, b: real, t: real): real
  {
    a + (b - a) * t
  }

  /** A coordinate of a quadratic Bézier curve at `t`, in Bernstein form. */
  function Bern2(a: real, b: real, c: real, t: real): real
  {
    var s := 1.0 - t;
    s * s * a + 2.0 * s * t * b + t * t * c
  }

  /** A coordinate of a cubic Bézier curve at `t`, in Bernstein form. */
  function Bern3(a: real, b: real, c: real, d: real, t: real): real
  {
    var s := 1.0 - t;
    s * s * s * a + 3.0 * s * s * t * b + 3.0 * s * t * t * c + t * t * t * d
  }

  function Power2(a: real, b: real, c: real, t: real): real
  {
    a + 2.0 * (b - a) * t + (a - 2.0 * b + c) * (t * t)
  }

  function Power3(a: real, b: real, c: real, d: real, t: real): real
  {
    a + 3.0 * (b - a) * t + 3.0 * (a - 2.0 * b + c) * (t * t) + (d - 3.0 * c + 3.0 * b - a) * (t * t * t)
  }

  lemma Bern2Power(a: real, b: real, c: real, t: real)
    ensures Bern2(a, b, c, t) == Power2(a, b, c, t)
  {
  }

  lemma Bern3Power(a: real, b: real, c: real, d: real, t: real)
    ensures Bern3(a, b, c, d, t) == Power3(a, b, c, d, t)
  {
  }

  /** The point of a quadratic segment at parameter `t`. */
  function QuadAt(q: Quad, t: real): Point
  {
    Point(Bern2(q.p0.x, q.p1.x, q.p2.x, t), Bern2(q.p0.y, q.p1.y, q.p2.y, t))
  }

  /** The point of a cubic segment at parameter `t`. */
  function CubicAt(c: Cubic, t: real): Point
  {
    Point(Bern3(c.p0.x, c.p1.x, c.p2.x, c.p3.x, t), Bern3(c.p0.y, c.p1.y, c.p2.y, c.p3.y, t))
  }

  /** One coordinate of the halves of a split quadratic segment. */
  lemma QuadHalves(a: real, b: real, c: real, t: real)
    ensures var ab, bc := Lerp(a, b, 0.5), Lerp(b, c, 0.5);
            Bern2(a, ab, Lerp(ab, bc, 0.5), t) == Bern2(a, b, c, 0.5 * t) &&
            Bern2(Lerp(ab, bc, 0.5), bc, c, t) == Bern2(a, b, c, 0.5 + 0.5 * t)
  {
    var ab, bc := Lerp(a, b, 0.5), Lerp(b, c, 0.5);
    var u := 0.5 + 0.5 * t;
    Bern2Power(Lerp(ab, bc, 0.5), bc, c, t);
    Bern2Power(a, b, c, u);
    assert u * u == 0.25 + 0.5 * t + 0.25 * (t * t);
  }

  /** One coordinate of the first half of a split cubic segment. */
  lemma CubicFirstHalf(a: real, b: real, c: real, d: real, t: real)
    ensures var ab, bc, cd := Lerp(a, b, 0.5), Lerp(b, c, 0.5), Lerp(c, d, 0.5);
            var abc, bcd := Lerp(ab, bc, 0.5), Lerp(bc, cd, 0.5);
            Bern3(a, ab, abc, Lerp(abc, bcd, 0.5), t) == Bern3(a, b, c, d, 0.5 * t)
  {
  }

  /** One coordinate of the second half of a split cubic segment. */
  lemma CubicSecondHalf(a: real, b: real, c: real, d: real, t: real)
    ensures var ab, bc, cd := Lerp(a, b, 0.5), Lerp(b, c, 0.5), Lerp(c, d, 0.5);
            var abc, bcd := Lerp(ab, bc, 0.5), Lerp(bc, cd, 0.5);
            Bern3(Lerp(abc, bcd, 0.5), bcd, cd, d, t) == Bern3(a, b, c, d, 0.5 + 0.5 * t)
  {
    var ab, bc, cd := Lerp(a, b, 0.5), Lerp(b, c, 0.5), Lerp(c, d, 0.5);
    var abc, bcd := Lerp(ab, bc, 0.5), Lerp(bc, cd, 0.5);
    var u := 0.5 + 0.5 * t;
    Bern3Power(Lerp(abc, bcd, 0.5), bcd, cd, d, t);
    Bern3Power(a, b, c, d, u);
    assert u * u == 0.25 + 0.5 * t + 0.25 * (t * t);
    assert u * u * u == 0.125 + 0.375 * t + 0.375 * (t * t) + 0.125 * (t * t * t);
  }

  /** The halves of a split quadratic segment trace the two halves of the same curve. */
  lemma SplitQuadSameCurve(q: Quad, t: real)
    ensures QuadAt(SplitQuad(q).0, t) == QuadAt(q, 0.5 * t)
    ensures QuadAt(SplitQuad(q).1, t) == QuadAt(q, 0.5 + 0.5 * t)
  {
    QuadHalves(q.p0.x, q.p1.x, q.p2.x, t);
    QuadHalves(q.p0.y, q.p1.y, q.p2.y, t);
  }

  /** The halves of a split cubic segment trace the two halves of the same curve. */
  lemma SplitCubicSameCurve(c: Cubic, t: real)
    ensures CubicAt(SplitCubic(c).0, t) == CubicAt(c, 0.5 * t)
    ensures CubicAt(SplitCubic(c).1, t) == CubicAt(c, 0.5 + 0.5 * t)
  {
    CubicFirstHalf(c.p0.x, c.p1.x, c.p2.x, c.p3.x, t);
    CubicFirstHalf(c.p0.y, c.p1.y, c.p2.y, c.p3.y, t);
    CubicSecondHalf(c.p0.x, c.p1.x, c.p2.x, c.p3.x, t);
    CubicSecondHalf(c.p0.y, c.p1.y, c.p2.y, c.p3.y, t);
  }

  /** The sub-segments whose chords a subdivision emits, in order. */
  function QuadLeaves(q: Quad, tol: real, fuel: nat): seq<Quad>
    decreases fuel
  {
    if QuadFlat(q, tol) then [q]
    else if fuel == 0 then []
    else QuadLeaves(SplitQuad(q).0, tol, fuel - 1) + QuadLeaves(SplitQuad(q).1, tol, fuel - 1)
  }

  function CubicLeaves(c: Cubic, tol: real, fuel: nat): seq<Cubic>
    decreases fuel
  {
    if CubicFlat(c, tol) then [c]
    else if fuel == 0 then []
    else CubicLeaves(SplitCubic(c).0, tol, fuel - 1) + CubicLeaves(SplitCubic(c).1, tol, fuel - 1)
  }

  /** Every sub-segment passes the flatness test. */
  predicate AllQuadFlat(leaves: seq<Quad>, tol: real)
    decreases |leaves|
  {
    |leaves| == 0 || (QuadFlat(leaves[0], tol) && AllQuadFlat(leaves[1..], tol))
  }

  predicate AllCubicFlat(leaves: seq<Cubic>, tol: real)
    decreases |leaves|
  {
    |leaves| == 0 || (CubicFlat(leaves[0], tol) && AllCubicFlat(leaves[1..], tol))
  }

  /**
   * The emitted lines, each from the point before it (`start` for the first)
   * to the next of `ends`, are the chords of `leaves`, in order.
   */
  predicate QuadChords(leaves: seq<Quad>, start: Point, ends: seq<Point>)
    decreases |leaves|
  {
    |leaves| == |ends| &&
    (|leaves| == 0 ||
     (leaves[0].p0 == start && leaves[0].p2 == ends[0] && QuadChords(leaves[1..], ends[0], ends[1..])))
  }

  predicate CubicChords(leaves: seq<Cubic>, start: Point, ends: seq<Point>)
    decreases |leaves|
  {
    |leaves| == |ends| &&
    (|leaves| == 0 ||
     (leaves[0].p0 == start && leaves[0].p3 == ends[0] && CubicChords(leaves[1..], ends[0], ends[1..])))
  }

  lemma {:induction false} AllQuadFlatJoin(l1: seq<Quad>, l2: seq<Quad>, tol: real)
    requires AllQuadFlat(l1, tol) && AllQuadFlat(l2, tol)
    ensures AllQuadFlat(l1 + l2, tol)
    decreases |l1|
  {
    if |l1| > 0 {
      assert (l1 + l2)[1..] == l1[1..] + l2;
      AllQuadFlatJoin(l1[1..], l2, tol);
    } else {
      assert l1 + l2 == l2;
    }
  }

  lemma {:induction false} AllCubicFlatJoin(l1: seq<Cubic>, l2: seq<Cubic>, tol: real)
    requires AllCubicFlat(l1, tol) && AllCubicFlat(l2, tol)
    ensures AllCubicFlat(l1 + l2, tol)
    decreases |l1|
  {
    if |l1| > 0 {
      assert (l1 + l2)[1..] == l1[1..] + l2;
      AllCubicFlatJoin(l1[1..], l2, tol);
    } else {
      assert l1 + l2 == l2;
    }
  }

  lemma {:induction false} QuadChordsJoin(l1: seq<Quad>, e1: seq<Point>, l2: seq<Quad>, e2: seq<Point>, start: Point)
    requires QuadChords(l1, start, e1) && |e1| >= 1
    requires QuadChords(l2, Last(e1), e2)
    ensures QuadChords(l1 + l2, start, e1 + e2)
    decreases |l1|
  {
    assert (l1 + l2)[0] == l1[0] && (e1 + e2)[0] == e1[0];
    assert (l1 + l2)[1..] == l1[1..] + l2 && (e1 + e2)[1..] == e1[1..] + e2;
    if |l1| > 1 {
      QuadChordsJoin(l1[1..], e1[1..], l2, e2, e1[0]);
    } else {
      assert l1[1..] + l2 == l2 && e1[1..] + e2 == e2;
    }
  }

  lemma {:induction false} CubicChordsJoin(l1: seq<Cubic>, e1: seq<Point>, l2: seq<Cubic>, e2: seq<Point>, start: Point)
    requires CubicChords(l1, start, e1) && |e1| >= 1
    requires CubicChords(l2, Last(e1), e2)
    ensures CubicChords(l1 + l2, start, e1 + e2)
    decreases |l1|
  {
    assert (l1 + l2)[0] == l1[0] && (e1 + e2)[0] == e1[0];
    assert (l1 + l2)[1..] == l1[1..] + l2 && (e1 + e2)[1..] == e1[1..] + e2;
    if |l1| > 1 {
      CubicChordsJoin(l1[1..], e1[1..], l2, e2, e1[0]);
    } else {
      assert l1[1..] + l2 == l2 && e1[1..] + e2 == e2;
    }
  }

  /** Every sub-segment a subdivision keeps passed the flatness test. */
  lemma {:induction false} QuadLeavesFlat(q: Quad, tol: real, fuel: nat)
    ensures AllQuadFlat(QuadLeaves(q, tol, fuel), tol)
    decreases fuel
  {
    if !QuadFlat(q, tol) && fuel > 0 {
      var h := SplitQuad(q);
      QuadLeavesFlat(h.0, tol, fuel - 1);
      QuadLeavesFlat(h.1, tol, fuel - 1);
      AllQuadFlatJoin(QuadLeaves(h.0, tol, fuel - 1), QuadLeaves(h.1, tol, fuel - 1), tol);
    }
  }

  lemma {:induction false} CubicLeavesFlat(c: Cubic, tol: real, fuel: nat)
    ensures AllCubicFlat(CubicLeaves(c, tol, fuel), tol)
    decreases fuel
  {
    if !CubicFlat(c, tol) && fuel > 0 {
      var h := SplitCubic(c);
      CubicLeavesFlat(h.0, tol, fuel - 1);
      CubicLeavesFlat(h.1, tol, fuel - 1);
      AllCubicFlatJoin(CubicLeaves(h.0, tol, fuel - 1), CubicLeaves(h.1, tol, fuel - 1), tol);
    }
  }

  /**
   * A finished subdivision of a quadratic segment emits a polyline from its
   * start: each line is the chord of the matching kept sub-segment.
   */
  lemma {:induction false} QuadPiecesChords(q: Quad, tol: real, fuel: nat)
    requires QuadPieces(q, tol, fuel).complete
    ensures QuadChords(QuadLeaves(q, tol, fuel), q.p0, QuadPieces(q, tol, fuel).ends)
    decreases fuel
  {
    if !QuadFlat(q, tol) {
      var h := SplitQuad(q);
      QuadPiecesChords(h.0, tol, fuel - 1);
      QuadPiecesChords(h.1, tol, fuel - 1);
      QuadPiecesEnd(h.0, tol, fuel - 1);
      QuadChordsJoin(QuadLeaves(h.0, tol, fuel - 1), QuadPieces(h.0, tol, fuel - 1).ends,
                     QuadLeaves(h.1, tol, fuel - 1), QuadPieces(h.1, tol, fuel - 1).ends, q.p0);
    }
  }

  /**
   * A finished subdivision of a cubic segment emits a polyline from its
   * start: each line is the chord of the matching kept sub-segment.
   */
  lemma {:induction false} CubicPiecesChords(c: Cubic, tol: real, fuel: nat)
    requires CubicPieces(c, tol, fuel).complete
    ensures CubicChords(CubicLeaves(c, tol, fuel), c.p0, CubicPieces(c, tol, fuel).ends)
    decreases fuel
  {
    if !CubicFlat(c, tol) {
      var h := SplitCubic(c);
      CubicPiecesChords(h.0, tol, fuel - 1);
      CubicPiecesChords(h.1, tol, fuel - 1);
      CubicPiecesEnd(h.0, tol, fuel - 1);
      CubicChordsJoin(CubicLeaves(h.0, tol, fuel - 1), CubicPieces(h.0, tol, fuel - 1).ends,
                      CubicLeaves(h.1, tol, fuel - 1), CubicPieces(h.1, tol, fuel - 1).ends, c.p0);
    }
  }

  // ---------------------------------------------------------------------
  // Paths and the flattening walk

  /** A Blend2D path: parallel command and vertex arrays. */
  class Path {
    var cmds: seq<Byte>
    var vtx: seq<Point>

    predicate Valid()
      reads this
    {
      |cmds| == |vtx|
    }

    constructor ()
      ensures Valid() && cmds == [] && vtx == []
    {
      cmds, vtx := [], [];
    }

    /** `BLPath::clear`. */
    method Clear()
      modifies this
      ensures Valid() && cmds == [] && vtx == []
    {
      cmds, vtx := [], [];
    }

    /** `BLPath::move_to`. */
    method MoveTo(p: Point)
      requires Valid()
      modifies this
      ensures Valid() && cmds == old(cmds) + [CMD_MOVE] && vtx == old(vtx) + [p]
    {
      cmds, vtx := cmds + [CMD_MOVE], vtx + [p];
    }

    /** `BLPath::line_to`. */
    method LineTo(p: Point)
      requires Valid()
      modifies this
      ensures Valid() && cmds == old(cmds) + [CMD_ON] && vtx == old(vtx) + [p]
    {
      cmds, vtx := cmds + [CMD_ON], vtx + [p];
    }

    /** `BLPath::close`. */
    method Close()
      requires Valid()
      modifies this
      ensures Valid() && cmds == old(cmds) + [CMD_CLOSE] && vtx == old(vtx) + [CLOSE_VERTEX]
    {
      cmds, vtx := cmds + [CMD_CLOSE], vtx + [CLOSE_VERTEX];
    }
  }

  /** `n` line commands. */
  function Lines(n: nat): (r: seq<Byte>)
    ensures |r| == n
    ensures forall k :: 0 <= k < n ==> r[k] == CMD_ON
  {
    seq(n, _ => CMD_ON)
  }

  lemma LinesAppend(m: nat, n: nat)
    ensures Lines(m) + Lines(n) == Lines(m + n)
  {
  }

  /** How the pieces of a segment that is not flat follow from the pieces of its halves. */
  function Join(left: Pieces, right: Pieces): Pieces
  {
    if !left.complete then left else Pieces(left.ends + right.ends, right.complete)
  }

  lemma QuadPiecesSplit(q: Quad, tol: real, fuel: nat)
    requires !QuadFlat(q, tol) && 0 < fuel
    ensures QuadPieces(q, tol, fuel)
            == Join(QuadPieces(SplitQuad(q).0, tol, fuel - 1), QuadPieces(SplitQuad(q).1, tol, fuel - 1))
  {
  }

  lemma CubicPiecesSplit(c: Cubic, tol: real, fuel: nat)
    requires !CubicFlat(c, tol) && 0 < fuel
    ensures CubicPieces(c, tol, fuel)
            == Join(CubicPieces(SplitCubic(c).0, tol, fuel - 1), CubicPieces(SplitCubic(c).1, tol, fuel - 1))
  {
  }

  /** Appending the pieces of both halves appends the pieces of the whole. */
  lemma JoinAppend(c0: seq<Byte>, v0: seq<Point>, pl: Pieces, pr: Pieces,
                   c1: seq<Byte>, v1: seq<Point>, c2: seq<Byte>, v2: seq<Point>)
    requires pl.complete
    requires c1 == c0 + Lines(|pl.ends|) && v1 == v0 + pl.ends
    requires c2 == c1 + Lines(|pr.ends|) && v2 == v1 + pr.ends
    ensures c2 == c0 + Lines(|Join(pl, pr).ends|) && v2 == v0 + Join(pl, pr).ends
  {
    LinesAppend(|pl.ends|, |pr.ends|);
  }

  /** `flattenQuadRecursive`: append the polyline of the segment `p0, p1, p2` to `dst`. */
  method FlattenQuad(dst: Path, p0: Point, p1: Point, p2: Point, tol: real, fuel: nat)
    returns (complete: bool)
    requires dst.Valid()
    modifies dst
    ensures dst.Valid()
    ensures complete == QuadPieces(Quad(p0, p1, p2), tol, fuel).complete
    ensures dst.cmds == old(dst.cmds) + Lines(|QuadPieces(Quad(p0, p1, p2), tol, fuel).ends|)
    ensures dst.vtx == old(dst.vtx) + QuadPieces(Quad(p0, p1, p2), tol, fuel).ends
    decreases fuel
  {
    if QuadFlat(Quad(p0, p1, p2), tol) {
      dst.LineTo(p2);
      return true;
    }
    if fuel == 0 {
      return false;
    }
    var halves := SplitQuad(Quad(p0, p1, p2));
    var l, r := halves.0, halves.1;
    QuadPiecesSplit(Quad(p0, p1, p2), tol, fuel);
    ghost var pl, pr := QuadPieces(l, tol, fuel - 1), QuadPieces(r, tol, fuel - 1);
    ghost var cmds0, vtx0 := dst.cmds, dst.vtx;
    complete := FlattenQuad(dst, l.p0, l.p1, l.p2, tol, fuel - 1);
    if complete {
      ghost var cmds1, vtx1 := dst.cmds, dst.vtx;
      complete := FlattenQuad(dst, r.p0, r.p1, r.p2, tol, fuel - 1);
      JoinAppend(cmds0, vtx0, pl, pr, cmds1, vtx1, dst.cmds, dst.vtx);
    }
  }

  /** `flattenCubicRecursive`: append the polyline of the segment `p0, p1, p2, p3` to `dst`. */
  method FlattenCubic(dst: Path, p0: Point, p1: Point, p2: Point, p3: Point, tol: real, fuel: nat)
    returns (complete: bool)
    requires dst.Valid()
    modifies dst
    ensures dst.Valid()
    ensures complete == CubicPieces(Cubic(p0, p1, p2, p3), tol, fuel).complete
    ensures dst.cmds == old(dst.cmds) + Lines(|CubicPieces(Cubic(p0, p1, p2, p3), tol, fuel).ends|)
    ensures dst.vtx == old(dst.vtx) + CubicPieces(Cubic(p0, p1, p2, p3), tol, fuel).ends
    decreases fuel
  {
    if CubicFlat(Cubic(p0, p1, p2, p3), tol) {
      dst.LineTo(p3);
      return true;
    }
    if fuel == 0 {
      return false;
    }
    var halves := SplitCubic(Cubic(p0, p1, p2, p3));
    var l, r := halves.0, halves.1;
    CubicPiecesSplit(Cubic(p0, p1, p2, p3), tol, fuel);
    ghost var pl, pr := CubicPieces(l, tol, fuel - 1), CubicPieces(r, tol, fuel - 1);
    ghost var cmds0, vtx0 := dst.cmds, dst.vtx;
    complete := FlattenCubic(dst, l.p0, l.p1, l.p2, l.p3, tol, fuel - 1);
    if complete {
      ghost var cmds1, vtx1 := dst.cmds, dst.vtx;
      complete := FlattenCubic(dst, r.p0, r.p1, r.p2, r.p3, tol, fuel - 1);
      JoinAppend(cmds0, vtx0, pl, pr, cmds1, vtx1, dst.cmds, dst.vtx);
    }
  }
}

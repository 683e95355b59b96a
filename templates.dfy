/**
 * The two drawing templates every shape, text and glyph-run native
 * function is built from, and the list parser behind the array shapes.
 *
 * A canvas's drawing context is the log of calls made on it; the templates
 * append to it. Whether Blend2D's draw call succeeds is a parameter, as is
 * whether a font handle holds a loaded font.
 */
module Templates {
  import opened Common
  import opened Terms
  import opened Styles

  /** The drawing context of a canvas, seen through the calls made on it. */
  class Context {
    var calls: seq<CtxCall>

    constructor ()
      ensures calls == []
    {
      calls := [];
    }
  }

  // ---------------------------------------------------------------------
  // parse_list
  // ---------------------------------------------------------------------

  datatype Point = Point(x: real, y: real)

  datatype Rect = Rect(x: real, y: real, w: real, h: real)

  datatype Box = Box(x0: real, y0: real, x1: real, y1: real)

  /** `{x, y}` with float components. */
  function PointOf(t: Term): (r: Option<Point>)
    ensures r.Some? <==> t.Tuple? && |t.elems| == 2 && t.elems[0].Float? && t.elems[1].Float?
    ensures r.Some? ==> r.value == Point(t.elems[0].f, t.elems[1].f)
  {
    match GetTuple(t, 2)
    case None => None
    case Some(e) =>
      if GetDouble(e[0]).Some? && GetDouble(e[1]).Some? then Some(Point(e[0].f, e[1].f)) else None
  }

  /** `{x, y, w, h}` with float components. */
  function RectOf(t: Term): (r: Option<Rect>)
    ensures r.Some? <==> t.Tuple? && |t.elems| == 4 && forall i | 0 <= i < 4 :: t.elems[i].Float?
    ensures r.Some? ==> r.value == Rect(t.elems[0].f, t.elems[1].f, t.elems[2].f, t.elems[3].f)
  {
    match GetTuple(t, 4)
    case None => None
    case Some(e) =>
      if GetDouble(e[0]).Some? && GetDouble(e[1]).Some? && GetDouble(e[2]).Some? && GetDouble(e[3]).Some?
      then Some(Rect(e[0].f, e[1].f, e[2].f, e[3].f))
      else None
  }

  /** `{x0, y0, x1, y1}` with float components. */
  function BoxOf(t: Term): (r: Option<Box>)
    ensures r.Some? <==> t.Tuple? && |t.elems| == 4 && forall i | 0 <= i < 4 :: t.elems[i].Float?
    ensures r.Some? ==> r.value == Box(t.elems[0].f, t.elems[1].f, t.elems[2].f, t.elems[3].f)
  {
    match GetTuple(t, 4)
    case None => None
    case Some(e) =>
      if GetDouble(e[0]).Some? && GetDouble(e[1]).Some? && GetDouble(e[2]).Some? && GetDouble(e[3]).Some?
      then Some(Box(e[0].f, e[1].f, e[2].f, e[3].f))
      else None
  }

  /**
   * `out` is the longest prefix of `items` that `decode` accepts, decoded:
   * every element before it decodes to the matching output and the first
   * element after it, if any, does not decode.
   */
  ghost predicate DecodedPrefix<T>(items: seq<Term>, decode: Term -> Option<T>, out: seq<T>)
  {
    |out| <= |items| &&
    (forall i | 0 <= i < |out| :: decode(items[i]) == Some(out[i])) &&
    (|out| < |items| ==> decode(items[|out|]).None?)
  }

  /**
   * `parse_list<T>`: decode the elements of a list until the first one
   * that does not decode. A non-list gives nothing.
   */
  method ParseList<T>(list: Term, decode: Term -> Option<T>) returns (out: seq<T>)
    ensures !list.List? ==> out == []
    ensures list.List? ==> DecodedPrefix(list.elems, decode, out)
  {
    out := [];
    if !list.List? {
      return;
    }
    var items := list.elems;
    var i := 0;
    while i < |items|
      invariant i <= |items| && |out| == i
      invariant forall j | 0 <= j < i :: decode(items[j]) == Some(out[j])
    {
      var v := decode(items[i]);
      if v.None? {
        return;
      }
      out := out + [v.value];
      i := i + 1;
    }
  }

  /** The longest decodable prefix is unique, so `parse_list`'s result is determined by its input. */
  lemma DecodedPrefixUnique<T>(items: seq<Term>, decode: Term -> Option<T>, a: seq<T>, b: seq<T>)
    requires DecodedPrefix(items, decode, a) && DecodedPrefix(items, decode, b)
    ensures a == b
  {
    if |a| < |b| {
      assert false;
    } else if |b| < |a| {
      assert false;
    }
  }

  /** A list whose every element decodes is parsed whole. */
  lemma DecodedPrefixWhole<T>(items: seq<Term>, decode: Term -> Option<T>, out: seq<T>)
    requires DecodedPrefix(items, decode, out)
    requires forall i | 0 <= i < |items| :: decode(items[i]).Some?
    ensures |out| == |items|
  {
  }

  // ---------------------------------------------------------------------
  // The call log of a template
  // ---------------------------------------------------------------------

  function Count(calls: seq<CtxCall>, c: CtxCall): nat
  {
    if |calls| == 0 then 0 else Count(calls[..|calls| - 1], c) + (if calls[|calls| - 1] == c then 1 else 0)
  }

  lemma {:induction false} CountAppend(a: seq<CtxCall>, b: seq<CtxCall>, c: CtxCall)
    ensures Count(a + b, c) == Count(a, c) + Count(b, c)
    decreases |b|
  {
    if |b| == 0 {
      assert a + b == a;
    } else {
      CountAppend(a, b[..|b| - 1], c);
      assert (a + b)[..|a + b| - 1] == a + b[..|b| - 1];
      assert (a + b)[|a + b| - 1] == b[|b| - 1];
    }
  }

  lemma {:induction false} CountAbsent(calls: seq<CtxCall>, c: CtxCall)
    requires c !in calls
    ensures Count(calls, c) == 0
    decreases |calls|
  {
    if |calls| > 0 {
      CountAbsent(calls[..|calls| - 1], c);
    }
  }

  /** A call that only sets state: neither a save, a restore nor a draw. */
  predicate IsSetter(c: CtxCall)
  {
    !c.Save? && !c.Restore? && !c.Draw?
  }

  lemma FillSetsOnly(s: Style)
    ensures forall c | c in ApplyFill(s) :: IsSetter(c)
  {
  }

  lemma StrokeSetsOnly(s: Style)
    ensures forall c | c in ApplyStroke(s) :: IsSetter(c)
  {
    var o: seq<CtxCall> := if s.hasStrokeOpts then [SetStrokeOptions(s.strokeOpts)] else [];
    var a: seq<CtxCall> := if s.strokeAlphaSet then [SetStrokeAlpha(s.strokeAlpha)] else [];
    var p: seq<CtxCall> := if s.strokePattern.Some? then [SetStrokeStyle(PatternPaint(s.strokePattern.value))] else [];
    var k: seq<CtxCall> :=
      if s.strokeColor.Some? then [SetStrokeStyle(ColorPaint(s.strokeColor.value))]
      else if s.strokeGradient.Some? then [SetStrokeStyle(GradientPaint(s.strokeGradient.value))]
      else [];
    assert ApplyStroke(s) == o + a + p + k;
  }

  /** `apply` only sets paints and options: it neither saves, restores nor draws. */
  lemma ApplySetsOnly(s: Style)
    ensures Save !in Apply(s) && Restore !in Apply(s) && Draw !in Apply(s)
  {
    FillSetsOnly(s);
    StrokeSetsOnly(s);
    var c: seq<CtxCall> := if s.hasCompOp then [SetCompOp(s.compOp)] else [];
    var g: seq<CtxCall> := if s.alpha != 1.0 then [SetGlobalAlpha(s.alpha)] else [];
    var f: seq<CtxCall> := if HasFill(s) then ApplyFill(s) else [];
    var k: seq<CtxCall> := if HasStroke(s) then ApplyStroke(s) else [];
    assert Apply(s) == c + g + f + k;
    assert forall x | x in Apply(s) :: IsSetter(x);
  }

  /** What a template adds to the log once it has saved: the body, perhaps a draw, and one restore. */
  function Bracketed(body: seq<CtxCall>, drawn: bool): seq<CtxCall>
  {
    [Save] + body + (if drawn then [Draw] else []) + [Restore]
  }

  /** A log grown by a save, a body, perhaps a draw and a restore has grown by the bracketed segment. */
  lemma BracketedAfter(before: seq<CtxCall>, body: seq<CtxCall>, drawn: bool)
    ensures before + [Save] + body + (if drawn then [Draw] else []) + [Restore] == before + Bracketed(body, drawn)
  {
  }

  /**
   * A bracketed segment saves once at its start, restores once at its end,
   * and draws once exactly when it drew.
   */
  lemma BracketBalanced(body: seq<CtxCall>, drawn: bool)
    requires Save !in body && Restore !in body && Draw !in body
    ensures var seg := Bracketed(body, drawn);
            seg[0] == Save && seg[|seg| - 1] == Restore &&
            Count(seg, Save) == 1 && Count(seg, Restore) == 1 && Count(seg, Draw) == (if drawn then 1 else 0)
  {
    var d: seq<CtxCall> := if drawn then [Draw] else [];
    CountAbsent(body, Save);
    CountAbsent(body, Restore);
    CountAbsent(body, Draw);
    CountAppend([Save], body, Save);
    CountAppend([Save], body, Restore);
    CountAppend([Save], body, Draw);
    CountAppend([Save] + body, d, Save);
    CountAppend([Save] + body, d, Restore);
    CountAppend([Save] + body, d, Draw);
    CountAppend([Save] + body + d, [Restore], Save);
    CountAppend([Save] + body + d, [Restore], Restore);
    CountAppend([Save] + body + d, [Restore], Draw);
    assert [Save][..0] == [];
    assert [Restore][..0] == [];
    assert d == [] || d[..0] == [];
  }

  // ---------------------------------------------------------------------
  // draw_shape_template
  // ---------------------------------------------------------------------

  /** The shape types the shape functions are instantiated with. */
  datatype ShapeKind =
    | BoxShape | RectShape | LineShape | CircleShape | EllipseShape | RoundRectShape | ArcShape | TriangleShape
    | PointArray | RectArray | BoxArray

  predicate IsArray(k: ShapeKind)
  {
    k.PointArray? || k.RectArray? || k.BoxArray?
  }

  /** How many numbers each single shape is built from. */
  function Arity(k: ShapeKind): nat
    requires !IsArray(k)
  {
    match k
    case BoxShape | RectShape | LineShape | EllipseShape => 4
    case CircleShape => 3
    case RoundRectShape | ArcShape | TriangleShape => 6
  }

  /** The shape handed to the context's draw call. */
  datatype Shape =
    | Single(kind: ShapeKind, args: seq<real>)
    | Points(points: seq<Point>)
    | Rects(rects: seq<Rect>)
    | Boxes(boxes: seq<Box>)

  /** What a template returns: `ok`, a badarg, or `{error, reason}`. */
  datatype Reply = OkAtom | BadArg | Error(reason: string)

  /** A trailing list argument is the style, when there are at least three arguments. */
  predicate HasOpts(argc: int, argv: seq<Term>)
    requires argc == |argv|
  {
    argc >= 3 && argv[argc - 1].List?
  }

  /** The arguments between the canvas and the style. */
  function NumericArgc(argc: int, argv: seq<Term>): int
    requires argc == |argv|
  {
    if HasOpts(argc, argv) then argc - 2 else argc - 1
  }

  /** The style a shape is drawn with: the trailing option list over the default style. */
  function ShapeStyle(argc: int, argv: seq<Term>): Style
    requires argc == |argv|
  {
    if HasOpts(argc, argv) then StyleAfter(DEFAULT_STYLE, argv[argc - 1].elems) else DEFAULT_STYLE
  }

  /** The elements of a list term, none for any other term. */
  function ListAt(t: Term): seq<Term>
  {
    if t.List? then t.elems else []
  }

  /** Arguments `1..n` are all floats. */
  predicate AllFloats(argv: seq<Term>, n: int)
  {
    0 <= n < |argv| && forall i | 1 <= i <= n :: argv[i].Float?
  }

  /** `args` holds the floats of arguments `1..n`, in order. */
  predicate ArgsFrom(argv: seq<Term>, n: int, args: seq<real>)
  {
    AllFloats(argv, n) && |args| == n && forall i | 1 <= i <= n :: args[i - 1] == argv[i].f
  }

  /** The reply of a shape draw that stops before touching the context. */
  function ShapePrecheck(argc: int, argv: seq<Term>): Option<Reply>
    requires argc == |argv|
  {
    if argc < 2 then Some(BadArg)
    else if GetResource(argv[0], CanvasRes).None? then Some(Error("draw_shape_invalid_canvas"))
    else None
  }

  /**
   * The drawing step of `draw_shape_template`, between `apply` and the
   * restore: decode the shape and draw it, or name why not.
   */
  method ShapeBody(ctx: Context, argv: seq<Term>, kind: ShapeKind, n: int) returns (err: Option<string>, drawn: Option<Shape>)
    requires 1 <= n <= 8 && n < |argv|
    modifies ctx
    ensures ctx.calls == old(ctx.calls) + (if drawn.Some? then [Draw] else [])
    ensures err.Some? <==> drawn.None?
    ensures IsArray(kind) ==>
              err.None? && drawn.Some? &&
              (kind.PointArray? ==> drawn.value.Points? && DecodedPrefix(ListAt(argv[1]), PointOf, drawn.value.points)) &&
              (kind.RectArray? ==> drawn.value.Rects? && DecodedPrefix(ListAt(argv[1]), RectOf, drawn.value.rects)) &&
              (kind.BoxArray? ==> drawn.value.Boxes? && DecodedPrefix(ListAt(argv[1]), BoxOf, drawn.value.boxes))
    ensures !IsArray(kind) && !AllFloats(argv, n) ==> err == Some("draw_shape_invalid_numeric_args")
    ensures !IsArray(kind) && AllFloats(argv, n) && n != Arity(kind) ==> err == Some("draw_shape_invalid_arity")
    ensures !IsArray(kind) && AllFloats(argv, n) && n == Arity(kind) ==>
              drawn.Some? && drawn.value.Single? && drawn.value.kind == kind && ArgsFrom(argv, n, drawn.value.args)
  {
    if IsArray(kind) {
      var shape: Shape;
      if kind.PointArray? {
        var pts := ParseList(argv[1], PointOf);
        shape := Points(pts);
      } else if kind.RectArray? {
        var rects := ParseList(argv[1], RectOf);
        shape := Rects(rects);
      } else {
        var boxes := ParseList(argv[1], BoxOf);
        shape := Boxes(boxes);
      }
      ctx.calls := ctx.calls + [Draw];
      return None, Some(shape);
    }
    var args := new real[8];
    var i := 0;
    while i < n
      invariant 0 <= i <= n
      invariant ctx.calls == old(ctx.calls)
      invariant forall j | 1 <= j <= i :: argv[j].Float? && args[j - 1] == argv[j].f
    {
      var d := GetDouble(argv[i + 1]);
      if d.None? {
        return Some("draw_shape_invalid_numeric_args"), None;
      }
      args[i] := d.value;
      i := i + 1;
    }
    if n != Arity(kind) {
      return Some("draw_shape_invalid_arity"), None;
    }
    ctx.calls := ctx.calls + [Draw];
    drawn := Some(Single(kind, args[..n]));
    err := None;
  }

  /**
   * The argument split of `draw_shape_template`: a trailing list is the
   * style and is not a number; the style's parse result is ignored.
   */
  method ShapeArgs(argc: int, argv: seq<Term>) returns (numericArgc: int, style: Style)
    requires argc == |argv| && argc >= 2
    ensures numericArgc == NumericArgc(argc, argv)
    ensures style == ShapeStyle(argc, argv)
  {
    var hasOpts := argc >= 3 && argv[argc - 1].List?;
    numericArgc := argc - 1;
    if hasOpts {
      numericArgc := numericArgc - 1;
    }
    var _, s := ParseStyle(argc, argv, if hasOpts then argc - 1 else argc, DEFAULT_STYLE);
    style := s;
  }

  /**
   * `draw_shape_template`: after the canvas check it saves the context,
   * applies the style (whose parse result it ignores), draws if the
   * arguments decode, and restores on every path.
   */
  method DrawShape(ctx: Context, argc: int, argv: seq<Term>, kind: ShapeKind, drawOk: bool)
    returns (r: Reply, drawn: Option<Shape>)
    requires argc == |argv| && argc <= 9
    modifies ctx
    ensures ShapePrecheck(argc, argv).Some? ==>
              r == ShapePrecheck(argc, argv).value && ctx.calls == old(ctx.calls) && drawn.None?
    ensures ShapePrecheck(argc, argv).None? ==>
              ctx.calls == old(ctx.calls) + Bracketed(Apply(ShapeStyle(argc, argv)), drawn.Some?)
    ensures ShapePrecheck(argc, argv).None? && IsArray(kind) ==>
              drawn.Some? &&
              (kind.PointArray? ==> drawn.value.Points? && DecodedPrefix(ListAt(argv[1]), PointOf, drawn.value.points)) &&
              (kind.RectArray? ==> drawn.value.Rects? && DecodedPrefix(ListAt(argv[1]), RectOf, drawn.value.rects)) &&
              (kind.BoxArray? ==> drawn.value.Boxes? && DecodedPrefix(ListAt(argv[1]), BoxOf, drawn.value.boxes))
    ensures ShapePrecheck(argc, argv).None? && !IsArray(kind) ==>
              var n := NumericArgc(argc, argv);
              (!AllFloats(argv, n) ==> r == Error("draw_shape_invalid_numeric_args") && drawn.None?) &&
              (AllFloats(argv, n) && n != Arity(kind) ==> r == Error("draw_shape_invalid_arity") && drawn.None?) &&
              (AllFloats(argv, n) && n == Arity(kind) ==>
                 drawn.Some? && drawn.value.Single? && drawn.value.kind == kind && ArgsFrom(argv, n, drawn.value.args))
    ensures drawn.Some? ==> r == (if drawOk then OkAtom else Error("draw_shape_failed"))
  {
    drawn := None;
    if argc < 2 {
      return BadArg, drawn;
    }
    var canvas := GetResource(argv[0], CanvasRes);
    if canvas.None? {
      return Error("draw_shape_invalid_canvas"), drawn;
    }
    var numericArgc, style := ShapeArgs(argc, argv);
    ghost var before := ctx.calls;
    ctx.calls := ctx.calls + [Save] + Apply(style);
    var err;
    err, drawn := ShapeBody(ctx, argv, kind, numericArgc);
    ctx.calls := ctx.calls + [Restore];
    BracketedAfter(before, Apply(style), drawn.Some?);
    if err.Some? {
      return Error(err.value), drawn;
    }
    r := if drawOk then OkAtom else Error("draw_shape_failed");
  }

  // ---------------------------------------------------------------------
  // draw_text_or_glyph_template
  // ---------------------------------------------------------------------

  /** The two instantiations: UTF-8 text from a binary, or a glyph run resource. */
  datatype TextKind = Utf8Text | GlyphRunText

  /** The reply of a text draw that stops before touching the context. */
  function TextPrecheck(argc: int, argv: seq<Term>, fontLoaded: bool): Option<Reply>
    requires argc == |argv|
  {
    if argc < 5 then Some(BadArg)
    else if GetResource(argv[0], CanvasRes).None? then Some(Error("draw_text_or_glyph_invalid_canvas"))
    else if GetResource(argv[1], FontRes).None? || !fontLoaded then Some(Error("draw_text_or_glyph_invalid_font"))
    else if GetDouble(argv[2]).None? || GetDouble(argv[3]).None? then Some(Error("draw_text_or_glyph_invalid_coords"))
    else None
  }

  /** The style calls of a text draw: only with a sixth argument, over the default style. */
  function TextStyleCalls(argc: int, argv: seq<Term>): seq<CtxCall>
    requires argc == |argv|
  {
    if argc <= 5 then []
    else if argv[5].List? then Apply(StyleAfter(DEFAULT_STYLE, argv[5].elems))
    else Apply(DEFAULT_STYLE)
  }

  /** Whether the fifth argument is the text or glyph run the template draws. */
  predicate Drawable(kind: TextKind, t: Term)
  {
    match kind
    case Utf8Text => t.Binary?
    case GlyphRunText => GetResource(t, GlyphRunRes).Some?
  }

  /** The reason a template gives for an undrawable fifth argument. */
  function UndrawableReason(kind: TextKind): string
  {
    match kind
    case Utf8Text => "draw_text_or_glyph_invalid_text"
    case GlyphRunText => "draw_text_or_glyph_invalid_glyph_run"
  }

  /** The save, and with a sixth argument the parsed style applied, before a text draw. */
  method TextSaveAndApply(ctx: Context, argc: int, argv: seq<Term>)
    requires argc == |argv| && argc >= 5
    modifies ctx
    ensures ctx.calls == old(ctx.calls) + [Save] + TextStyleCalls(argc, argv)
  {
    if argc > 5 {
      var _, style := ParseStyle(argc, argv, 5, DEFAULT_STYLE);
      ctx.calls := ctx.calls + [Save] + Apply(style);
    } else {
      ctx.calls := ctx.calls + [Save];
    }
  }

  /**
   * `draw_text_or_glyph_template`: canvas, font and coordinates are checked
   * before the context is touched; afterwards every path restores it.
   */
  method DrawTextOrGlyph(ctx: Context, argc: int, argv: seq<Term>, kind: TextKind, fontLoaded: bool, drawOk: bool)
    returns (r: Reply, drawn: bool)
    requires argc == |argv|
    modifies ctx
    ensures TextPrecheck(argc, argv, fontLoaded).Some? ==>
              r == TextPrecheck(argc, argv, fontLoaded).value && ctx.calls == old(ctx.calls) && !drawn
    ensures TextPrecheck(argc, argv, fontLoaded).None? ==>
              ctx.calls == old(ctx.calls) + Bracketed(TextStyleCalls(argc, argv), drawn) &&
              (drawn <==> Drawable(kind, argv[4])) &&
              (!drawn ==> r == Error(UndrawableReason(kind)))
    ensures drawn ==> r == (if drawOk then OkAtom else Error("draw_text_or_glyph_failed"))
  {
    drawn := false;
    if argc < 5 {
      return BadArg, drawn;
    }
    if GetResource(argv[0], CanvasRes).None? {
      return Error("draw_text_or_glyph_invalid_canvas"), drawn;
    }
    if GetResource(argv[1], FontRes).None? || !fontLoaded {
      return Error("draw_text_or_glyph_invalid_font"), drawn;
    }
    if GetDouble(argv[2]).None? || GetDouble(argv[3]).None? {
      return Error("draw_text_or_glyph_invalid_coords"), drawn;
    }
    ghost var before := ctx.calls;
    TextSaveAndApply(ctx, argc, argv);
    var ok := if kind.Utf8Text? then argv[4].Binary? else GetResource(argv[4], GlyphRunRes).Some?;
    if !ok {
      ctx.calls := ctx.calls + [Restore];
      BracketedAfter(before, TextStyleCalls(argc, argv), false);
      return Error(if kind.Utf8Text? then "draw_text_or_glyph_invalid_text" else "draw_text_or_glyph_invalid_glyph_run"), drawn;
    }
    ctx.calls := ctx.calls + [Draw];
    drawn := true;
    ctx.calls := ctx.calls + [Restore];
    BracketedAfter(before, TextStyleCalls(argc, argv), true);
    r := if drawOk then OkAtom else Error("draw_text_or_glyph_failed");
  }

  /**
   * Every shape draw that gets past the canvas check saves once and
   * restores once, with the style's setters between them and at most one
   * draw.
   */
  lemma ShapeSaveRestore(argc: int, argv: seq<Term>, drawn: bool)
    requires argc == |argv|
    ensures var seg := Bracketed(Apply(ShapeStyle(argc, argv)), drawn);
            seg[0] == Save && seg[|seg| - 1] == Restore && Count(seg, Save) == 1 && Count(seg, Restore) == 1 &&
            Count(seg, Draw) == (if drawn then 1 else 0)
  {
    ApplySetsOnly(ShapeStyle(argc, argv));
    BracketBalanced(Apply(ShapeStyle(argc, argv)), drawn);
  }

  /** The same for text and glyph runs, with or without a style argument. */
  lemma TextSaveRestore(argc: int, argv: seq<Term>, drawn: bool)
    requires argc == |argv|
    ensures var seg := Bracketed(TextStyleCalls(argc, argv), drawn);
            seg[0] == Save && seg[|seg| - 1] == Restore && Count(seg, Save) == 1 && Count(seg, Restore) == 1 &&
            Count(seg, Draw) == (if drawn then 1 else 0)
  {
    if argc > 5 {
      ApplySetsOnly(if argv[5].List? then StyleAfter(DEFAULT_STYLE, argv[5].elems) else DEFAULT_STYLE);
    }
    BracketBalanced(TextStyleCalls(argc, argv), drawn);
  }
}

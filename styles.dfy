/**
 * Drawing styles: the `Style` record an option list is parsed into, its
 * fill and stroke presence tests, and the setter calls `apply`,
 * `apply_fill` and `apply_stroke` issue on a drawing context.
 *
 * Paint sources are resource handles (colour, gradient or pattern). The
 * drawing context is represented by the sequence of calls made on it, so
 * that "which paint wins" is a statement about the last call of a kind.
 */
module Styles {
  import opened Common
  import opened Terms

  datatype Cap = CapButt | CapSquare | CapRound | CapRoundRev | CapTriangle | CapTriangleRev

  datatype Join = JoinMiterClip | JoinMiterBevel | JoinMiterRound | JoinBevel | JoinRound

  /** The composition operators the `comp_op` option names. */
  datatype CompOp =
    | SrcOver | SrcCopy | SrcIn | SrcOut | SrcAtop
    | DstOver | DstCopy | DstIn | DstOut | DstAtop
    | Difference | Multiply | Screen | Overlay | Xor | Clear | Plus | Minus | Modulate
    | Darken | Lighten | ColorDodge | ColorBurn | LinearBurn | PinLight | HardLight | SoftLight | Exclusion

  datatype StrokeOptions = StrokeOptions(width: real, miterLimit: real, startCap: Cap, endCap: Cap, join: Join)

  /** A paint source: the handle of a colour, gradient or pattern resource. */
  datatype Paint = ColorPaint(color: nat) | GradientPaint(gradient: nat) | PatternPaint(pattern: nat)

  datatype Style = Style(
    color: Option<nat>, gradient: Option<nat>, pattern: Option<nat>, hasCompOp: bool,
    strokeColor: Option<nat>, strokeGradient: Option<nat>, strokePattern: Option<nat>,
    strokeAlpha: real, strokeAlphaSet: bool,
    strokeOpts: StrokeOptions, hasStrokeOpts: bool,
    alpha: real, compOp: CompOp)

  /** A freshly constructed `Style`: nothing set, stroke width 1, miter limit 4, butt caps, miter-clip join. */
  const DEFAULT_STYLE: Style :=
    Style(None, None, None, false, None, None, None, 1.0, false,
          StrokeOptions(1.0, 4.0, CapButt, CapButt, JoinMiterClip), false, 1.0, SrcOver)

  /** The calls a style makes on a drawing context (and the ones the drawing templates add). */
  datatype CtxCall =
    | Save | Restore | Draw
    | SetCompOp(op: CompOp)
    | SetGlobalAlpha(alpha: real)
    | SetFillStyle(fill: Paint)
    | SetStrokeOptions(opts: StrokeOptions)
    | SetStrokeAlpha(strokeAlpha: real)
    | SetStrokeStyle(stroke: Paint)

  predicate HasFill(s: Style)
  {
    s.pattern.Some? || s.gradient.Some? || s.color.Some?
  }

  predicate HasStroke(s: Style)
  {
    s.strokeColor.Some? || s.strokeGradient.Some? || s.strokePattern.Some? || s.hasStrokeOpts
  }

  /** `apply_fill`: pattern before gradient before colour, at most one call. */
  function ApplyFill(s: Style): (calls: seq<CtxCall>)
    ensures |calls| <= 1
  {
    if s.pattern.Some? then [SetFillStyle(PatternPaint(s.pattern.value))]
    else if s.gradient.Some? then [SetFillStyle(GradientPaint(s.gradient.value))]
    else if s.color.Some? then [SetFillStyle(ColorPaint(s.color.value))]
    else []
  }

  /** `apply_stroke`: options, alpha, then the pattern and afterwards colour or gradient. */
  function ApplyStroke(s: Style): (calls: seq<CtxCall>)
  {
    (if s.hasStrokeOpts then [SetStrokeOptions(s.strokeOpts)] else []) +
    (if s.strokeAlphaSet then [SetStrokeAlpha(s.strokeAlpha)] else []) +
    (if s.strokePattern.Some? then [SetStrokeStyle(PatternPaint(s.strokePattern.value))] else []) +
    (if s.strokeColor.Some? then [SetStrokeStyle(ColorPaint(s.strokeColor.value))]
     else if s.strokeGradient.Some? then [SetStrokeStyle(GradientPaint(s.strokeGradient.value))]
     else [])
  }

  /** `apply`: composition, global alpha, then fill and stroke when present. */
  function Apply(s: Style): (calls: seq<CtxCall>)
  {
    (if s.hasCompOp then [SetCompOp(s.compOp)] else []) +
    (if s.alpha != 1.0 then [SetGlobalAlpha(s.alpha)] else []) +
    (if HasFill(s) then ApplyFill(s) else []) +
    (if HasStroke(s) then ApplyStroke(s) else [])
  }

  // ---------------------------------------------------------------------
  // Reading a context's call log
  // ---------------------------------------------------------------------

  /** The fill paint in force after `calls`: the last `SetFillStyle`. */
  function FillInForce(calls: seq<CtxCall>): Option<Paint>
  {
    if |calls| == 0 then None
    else if calls[|calls| - 1].SetFillStyle? then Some(calls[|calls| - 1].fill)
    else FillInForce(calls[..|calls| - 1])
  }

  /** The stroke paint in force after `calls`: the last `SetStrokeStyle`. */
  function StrokeInForce(calls: seq<CtxCall>): Option<Paint>
  {
    if |calls| == 0 then None
    else if calls[|calls| - 1].SetStrokeStyle? then Some(calls[|calls| - 1].stroke)
    else StrokeInForce(calls[..|calls| - 1])
  }

  predicate IsStrokeCall(c: CtxCall)
  {
    c.SetStrokeOptions? || c.SetStrokeAlpha? || c.SetStrokeStyle?
  }

  lemma {:induction false} FillInForceAppend(a: seq<CtxCall>, b: seq<CtxCall>)
    ensures FillInForce(a + b) == if FillInForce(b).Some? then FillInForce(b) else FillInForce(a)
    decreases |b|
  {
    if |b| > 0 {
      assert (a + b)[..|a + b| - 1] == a + b[..|b| - 1];
      FillInForceAppend(a, b[..|b| - 1]);
    } else {
      assert a + b == a;
    }
  }

  lemma {:induction false} StrokeInForceAppend(a: seq<CtxCall>, b: seq<CtxCall>)
    ensures StrokeInForce(a + b) == if StrokeInForce(b).Some? then StrokeInForce(b) else StrokeInForce(a)
    decreases |b|
  {
    if |b| > 0 {
      assert (a + b)[..|a + b| - 1] == a + b[..|b| - 1];
      StrokeInForceAppend(a, b[..|b| - 1]);
    } else {
      assert a + b == a;
    }
  }

  /** The paint a style fills with: pattern if set, else gradient, else colour. */
  lemma FillPrecedence(s: Style)
    ensures FillInForce(Apply(s)) ==
              if s.pattern.Some? then Some(PatternPaint(s.pattern.value))
              else if s.gradient.Some? then Some(GradientPaint(s.gradient.value))
              else if s.color.Some? then Some(ColorPaint(s.color.value))
              else None
  {
    var pre := (if s.hasCompOp then [SetCompOp(s.compOp)] else []) +
               (if s.alpha != 1.0 then [SetGlobalAlpha(s.alpha)] else []);
    var fill := if HasFill(s) then ApplyFill(s) else [];
    var stroke := if HasStroke(s) then ApplyStroke(s) else [];
    assert Apply(s) == (pre + fill) + stroke;
    StrokeHasNoFill(s);
    FillInForceAppend(pre + fill, stroke);
    FillInForceAppend(pre, fill);
    NoFillCalls(pre);
    FillOfApplyFill(s);
  }

  /** The fill part of `apply` leaves the preferred paint in force. */
  lemma FillOfApplyFill(s: Style)
    ensures FillInForce(if HasFill(s) then ApplyFill(s) else []) ==
              if s.pattern.Some? then Some(PatternPaint(s.pattern.value))
              else if s.gradient.Some? then Some(GradientPaint(s.gradient.value))
              else if s.color.Some? then Some(ColorPaint(s.color.value))
              else None
  {
    var fill := if HasFill(s) then ApplyFill(s) else [];
    if fill != [] {
      assert fill[..0] == [];
    }
  }

  /** The stroke part of `apply` sets no fill paint. */
  lemma StrokeHasNoFill(s: Style)
    ensures FillInForce(if HasStroke(s) then ApplyStroke(s) else []) == None
  {
    NoFillCalls(if HasStroke(s) then ApplyStroke(s) else []);
  }

  /** A log without fill calls leaves no fill paint in force. */
  lemma {:induction false} NoFillCalls(calls: seq<CtxCall>)
    requires forall i | 0 <= i < |calls| :: !calls[i].SetFillStyle?
    ensures FillInForce(calls) == None
    decreases |calls|
  {
    if |calls| > 0 {
      NoFillCalls(calls[..|calls| - 1]);
    }
  }

  /** A log without stroke-style calls leaves no stroke paint in force. */
  lemma {:induction false} NoStrokeCalls(calls: seq<CtxCall>)
    requires forall i | 0 <= i < |calls| :: !calls[i].SetStrokeStyle?
    ensures StrokeInForce(calls) == None
    decreases |calls|
  {
    if |calls| > 0 {
      NoStrokeCalls(calls[..|calls| - 1]);
    }
  }

  /** The stroke paint `apply_stroke` leaves in force: colour, else gradient, else pattern. */
  lemma StrokeOfApplyStroke(s: Style)
    ensures StrokeInForce(ApplyStroke(s)) ==
              if s.strokeColor.Some? then Some(ColorPaint(s.strokeColor.value))
              else if s.strokeGradient.Some? then Some(GradientPaint(s.strokeGradient.value))
              else if s.strokePattern.Some? then Some(PatternPaint(s.strokePattern.value))
              else None
  {
    var calls := ApplyStroke(s);
    var opts := (if s.hasStrokeOpts then [SetStrokeOptions(s.strokeOpts)] else []) +
                (if s.strokeAlphaSet then [SetStrokeAlpha(s.strokeAlpha)] else []);
    if s.strokeColor.None? && s.strokeGradient.None? {
      if s.strokePattern.None? {
        assert calls == opts;
        NoStrokeCalls(opts);
      } else {
        assert calls == opts + [SetStrokeStyle(PatternPaint(s.strokePattern.value))];
      }
    }
  }

  /**
   * The paint a style strokes with: colour if set, else gradient, else
   * pattern (the pattern is set first and then overwritten).
   */
  lemma StrokePrecedence(s: Style)
    ensures StrokeInForce(Apply(s)) ==
              if s.strokeColor.Some? then Some(ColorPaint(s.strokeColor.value))
              else if s.strokeGradient.Some? then Some(GradientPaint(s.strokeGradient.value))
              else if s.strokePattern.Some? then Some(PatternPaint(s.strokePattern.value))
              else None
  {
    var pre := (if s.hasCompOp then [SetCompOp(s.compOp)] else []) +
               (if s.alpha != 1.0 then [SetGlobalAlpha(s.alpha)] else []) +
               (if HasFill(s) then ApplyFill(s) else []);
    var stroke := if HasStroke(s) then ApplyStroke(s) else [];
    assert Apply(s) == pre + stroke;
    NoStrokeCalls(pre);
    StrokeInForceAppend(pre, stroke);
    if HasStroke(s) {
      StrokeOfApplyStroke(s);
    } else {
      assert stroke == [];
    }
  }

  /** `apply` issues a fill call exactly when the style has a fill. */
  lemma FillCallIff(s: Style)
    ensures (exists i | 0 <= i < |Apply(s)| :: Apply(s)[i].SetFillStyle?) <==> HasFill(s)
  {
    FillPrecedence(s);
    if !HasFill(s) {
      FillAbsent(Apply(s));
    } else {
      FillWitness(Apply(s));
    }
  }

  lemma {:induction false} FillAbsent(calls: seq<CtxCall>)
    requires FillInForce(calls).None?
    ensures forall i | 0 <= i < |calls| :: !calls[i].SetFillStyle?
    decreases |calls|
  {
    if |calls| > 0 {
      var init := calls[..|calls| - 1];
      FillAbsent(init);
      assert forall i | 0 <= i < |calls| - 1 :: calls[i] == init[i];
    }
  }

  lemma {:induction false} FillWitness(calls: seq<CtxCall>)
    requires FillInForce(calls).Some?
    ensures exists i | 0 <= i < |calls| :: calls[i].SetFillStyle?
    decreases |calls|
  {
    if !calls[|calls| - 1].SetFillStyle? {
      FillWitness(calls[..|calls| - 1]);
      var i :| 0 <= i < |calls| - 1 && calls[..|calls| - 1][i].SetFillStyle?;
      assert calls[i].SetFillStyle?;
    }
  }

  /**
   * `apply` touches the stroke state exactly when the style has a stroke;
   * a `stroke_alpha` given on its own is therefore never applied.
   */
  lemma StrokeCallIff(s: Style)
    ensures (exists i | 0 <= i < |Apply(s)| :: IsStrokeCall(Apply(s)[i])) <==> HasStroke(s)
  {
    var calls := Apply(s);
    var pre := (if s.hasCompOp then [SetCompOp(s.compOp)] else []) +
               (if s.alpha != 1.0 then [SetGlobalAlpha(s.alpha)] else []) +
               (if HasFill(s) then ApplyFill(s) else []);
    assert forall i | 0 <= i < |pre| :: !IsStrokeCall(pre[i]);
    if HasStroke(s) {
      var stroke := ApplyStroke(s);
      assert calls == pre + stroke;
      assert stroke != [] && IsStrokeCall(stroke[0]);
      assert IsStrokeCall(calls[|pre|]);
    } else {
      assert calls == pre;
    }
  }

  // ---------------------------------------------------------------------
  // Option names
  // ---------------------------------------------------------------------

  /** `stroke_cap`: a known name or, for any other atom, butt. */
  function CapOf(name: string): (c: Cap)
    ensures c == CapButt <==>
              name != "round" && name != "square" && name != "round_rev" && name != "triangle" && name != "triangle_rev"
  {
    if name == "round" then CapRound
    else if name == "square" then CapSquare
    else if name == "round_rev" then CapRoundRev
    else if name == "triangle" then CapTriangle
    else if name == "triangle_rev" then CapTriangleRev
    else CapButt
  }

  /** `stroke_join`: a known name or, for any other atom, miter-clip. */
  function JoinOf(name: string): (j: Join)
    ensures j == JoinMiterClip <==>
              name != "round" && name != "bevel" && name != "miter_bevel" && name != "miter_round"
  {
    if name == "round" then JoinRound
    else if name == "bevel" then JoinBevel
    else if name == "miter_bevel" then JoinMiterBevel
    else if name == "miter_round" then JoinMiterRound
    else JoinMiterClip
  }

  /** The `comp_op` name table. */
  const COMP_OPS: map<string, CompOp> := map[
    "src_over" := SrcOver, "src_copy" := SrcCopy, "src_in" := SrcIn, "src_out" := SrcOut,
    "src_atop" := SrcAtop, "dst_over" := DstOver, "dst_copy" := DstCopy, "dst_in" := DstIn,
    "dst_out" := DstOut, "dst_atop" := DstAtop, "difference" := Difference, "multiply" := Multiply,
    "screen" := Screen, "overlay" := Overlay, "xor" := Xor, "clear" := Clear, "plus" := Plus,
    "minus" := Minus, "modulate" := Modulate, "darken" := Darken, "lighten" := Lighten,
    "color_dodge" := ColorDodge, "color_burn" := ColorBurn, "linear_burn" := LinearBurn,
    "pin_light" := PinLight, "hard_light" := HardLight, "soft_light" := SoftLight, "exclusion" := Exclusion]

  /** The operator an option atom selects: the table's, or src-over for a name the table lacks. */
  function CompOpOf(name: string): CompOp
  {
    if name in COMP_OPS then COMP_OPS[name] else SrcOver
  }

  // ---------------------------------------------------------------------
  // parse_style
  // ---------------------------------------------------------------------

  /** The keys `parse_style` knows, and the rest. */
  datatype StyleKey =
    | KFill | KStroke | KStrokeWidth | KStrokeAlpha | KStrokeCap | KStrokeJoin | KMiterLimit | KAlpha | KCompOp
    | KOther

  function KeyOf(key: string): StyleKey
  {
    if key == "fill" then KFill
    else if key == "stroke" then KStroke
    else if key == "stroke_width" then KStrokeWidth
    else if key == "stroke_alpha" then KStrokeAlpha
    else if key == "stroke_cap" then KStrokeCap
    else if key == "stroke_join" then KStrokeJoin
    else if key == "stroke_miter_limit" then KMiterLimit
    else if key == "alpha" then KAlpha
    else if key == "comp_op" then KCompOp
    else KOther
  }

  /** Whether `parse_style` accepts one list entry (an unknown key is accepted). */
  predicate StyleEntryOk(e: Term)
  {
    match GetOptionPair(e)
    case None => false
    case Some((key, v)) =>
      match KeyOf(key)
      case KFill | KStroke =>
        GetResource(v, ColorRes).Some? || GetResource(v, GradientRes).Some? || GetResource(v, PatternRes).Some?
      case KStrokeWidth | KStrokeAlpha | KMiterLimit | KAlpha => GetDouble(v).Some?
      case KStrokeCap | KStrokeJoin | KCompOp => GetAtom(v, 32).Some?
      case KOther => true
  }

  /** The style after one list entry. */
  function StyleEntry(s: Style, e: Term): Style
  {
    match GetOptionPair(e)
    case None => s
    case Some((key, v)) => KeyEffect(s, KeyOf(key), v)
  }

  /** The style after an entry whose key is `k` and whose value is `v`. */
  function KeyEffect(s: Style, k: StyleKey, v: Term): Style
  {
      match k
      case KFill =>
        if GetResource(v, ColorRes).Some? then s.(color := GetResource(v, ColorRes))
        else if GetResource(v, GradientRes).Some? then s.(gradient := GetResource(v, GradientRes))
        else if GetResource(v, PatternRes).Some? then s.(pattern := GetResource(v, PatternRes))
        else s
      case KStroke =>
        if GetResource(v, ColorRes).Some? then s.(strokeColor := GetResource(v, ColorRes))
        else if GetResource(v, GradientRes).Some? then s.(strokeGradient := GetResource(v, GradientRes))
        else if GetResource(v, PatternRes).Some? then s.(strokePattern := GetResource(v, PatternRes))
        else s
      case KStrokeWidth =>
        if GetDouble(v).Some? then
          s.(strokeOpts := s.strokeOpts.(width := GetDouble(v).value), hasStrokeOpts := true)
        else s
      case KStrokeAlpha =>
        if GetDouble(v).Some? then s.(strokeAlpha := GetDouble(v).value, strokeAlphaSet := true) else s
      case KStrokeCap =>
        if GetAtom(v, 32).Some? then
          var cap := CapOf(GetAtom(v, 32).value);
          s.(strokeOpts := s.strokeOpts.(startCap := cap, endCap := cap), hasStrokeOpts := true)
        else s
      case KStrokeJoin =>
        if GetAtom(v, 32).Some? then
          s.(strokeOpts := s.strokeOpts.(join := JoinOf(GetAtom(v, 32).value)), hasStrokeOpts := true)
        else s
      case KMiterLimit =>
        if GetDouble(v).Some? then
          s.(strokeOpts := s.strokeOpts.(miterLimit := GetDouble(v).value), hasStrokeOpts := true)
        else s
      case KAlpha =>
        if GetDouble(v).Some? then s.(alpha := GetDouble(v).value) else s
      case KCompOp =>
        if GetAtom(v, 32).Some? then s.(hasCompOp := true, compOp := CompOpOf(GetAtom(v, 32).value)) else s
      case KOther => s
  }

  /** The style after the entries of `items`, in order. */
  function StyleAfter(s: Style, items: seq<Term>): Style
  {
    if |items| == 0 then s else StyleEntry(StyleAfter(s, items[..|items| - 1]), items[|items| - 1])
  }

  /**
   * `parse_style(argv, argc, optsIndex, &style)`. With no argument at the
   * index it accepts and changes nothing; a non-list is rejected; otherwise
   * every entry is applied in order and the result says whether every
   * entry was acceptable, malformed entries being skipped.
   */
  method ParseStyle(argc: int, argv: seq<Term>, optsIndex: int, s0: Style) returns (ok: bool, s: Style)
    requires optsIndex < argc ==> 0 <= optsIndex < |argv|
    ensures argc <= optsIndex ==> ok && s == s0
    ensures optsIndex < argc && !argv[optsIndex].List? ==> !ok && s == s0
    ensures optsIndex < argc && argv[optsIndex].List? ==>
              var items := argv[optsIndex].elems;
              s == StyleAfter(s0, items) &&
              (ok <==> forall i | 0 <= i < |items| :: StyleEntryOk(items[i]))
  {
    s := s0;
    if argc <= optsIndex {
      return true, s;
    }
    var list := argv[optsIndex];
    if !list.List? {
      return false, s;
    }
    var items := list.elems;
    ok := true;
    var i := 0;
    while i < |items|
      invariant i <= |items|
      invariant s == StyleAfter(s0, items[..i])
      invariant ok <==> forall j | 0 <= j < i :: StyleEntryOk(items[j])
    {
      assert items[..i + 1][..i] == items[..i];
      var entryOk;
      s, entryOk := ParseEntry(s, items[i]);
      ok := ok && entryOk;
      i := i + 1;
    }
    assert items[..|items|] == items;
  }

  /** One pass of the `parse_style` loop: the entry's effect on the style, and whether it was acceptable. */
  method ParseEntry(s0: Style, e: Term) returns (s: Style, ok: bool)
    ensures s == StyleEntry(s0, e)
    ensures ok == StyleEntryOk(e)
  {
    s := s0;
    ok := true;
    var pair := GetOptionPair(e);
    if pair.None? {
      return s, false;
    }
    var (key, v) := pair.value;
    var k := KeyOf(key);
    if k == KFill || k == KStroke {
      var c := GetResource(v, ColorRes);
      var g := GetResource(v, GradientRes);
      var p := GetResource(v, PatternRes);
      if c.Some? {
        s := if k == KFill then s.(color := c) else s.(strokeColor := c);
      } else if g.Some? {
        s := if k == KFill then s.(gradient := g) else s.(strokeGradient := g);
      } else if p.Some? {
        s := if k == KFill then s.(pattern := p) else s.(strokePattern := p);
      } else {
        ok := false;
      }
    } else if k == KStrokeWidth || k == KStrokeAlpha || k == KMiterLimit || k == KAlpha {
      var d := GetDouble(v);
      if d.None? {
        ok := false;
      } else if k == KStrokeWidth {
        s := s.(strokeOpts := s.strokeOpts.(width := d.value), hasStrokeOpts := true);
      } else if k == KStrokeAlpha {
        s := s.(strokeAlpha := d.value, strokeAlphaSet := true);
      } else if k == KMiterLimit {
        s := s.(strokeOpts := s.strokeOpts.(miterLimit := d.value), hasStrokeOpts := true);
      } else {
        s := s.(alpha := d.value);
      }
    } else if k == KStrokeCap || k == KStrokeJoin || k == KCompOp {
      var name := GetAtom(v, 32);
      if name.None? {
        ok := false;
      } else if k == KStrokeCap {
        var cap := CapOf(name.value);
        s := s.(strokeOpts := s.strokeOpts.(startCap := cap, endCap := cap), hasStrokeOpts := true);
      } else if k == KStrokeJoin {
        s := s.(strokeOpts := s.strokeOpts.(join := JoinOf(name.value)), hasStrokeOpts := true);
      } else {
        s := s.(hasCompOp := true, compOp := CompOpOf(name.value));
      }
    }
  }

  // ---------------------------------------------------------------------
  // What a parsed option list means
  // ---------------------------------------------------------------------

  /** The handle of the last `{key, resource}` entry whose resource is of `kind`. */
  function LastPaint(items: seq<Term>, key: StyleKey, kind: ResourceKind): Option<nat>
  {
    if |items| == 0 then None
    else if EntryPaint(items[|items| - 1], key, kind).Some? then EntryPaint(items[|items| - 1], key, kind)
    else LastPaint(items[..|items| - 1], key, kind)
  }

  /** The resource of kind `kind` one entry gives under `key`, if any. */
  function EntryPaint(e: Term, key: StyleKey, kind: ResourceKind): Option<nat>
  {
    if GetOptionPair(e).Some? && KeyOf(GetOptionPair(e).value.0) == key then GetResource(GetOptionPair(e).value.1, kind)
    else None
  }

  /**
   * After parsing, each fill slot holds the last fill of its kind, and the
   * slots are independent: a later colour does not clear an earlier
   * gradient or pattern.
   */
  lemma {:induction false} ParsedFillSlots(s: Style, items: seq<Term>)
    ensures StyleAfter(s, items).color ==
              if LastPaint(items, KFill, ColorRes).Some? then LastPaint(items, KFill, ColorRes) else s.color
    ensures StyleAfter(s, items).gradient ==
              if LastPaint(items, KFill, GradientRes).Some? then LastPaint(items, KFill, GradientRes) else s.gradient
    ensures StyleAfter(s, items).pattern ==
              if LastPaint(items, KFill, PatternRes).Some? then LastPaint(items, KFill, PatternRes) else s.pattern
    decreases |items|
  {
    if |items| > 0 {
      ParsedFillSlots(s, items[..|items| - 1]);
      FillSlotsStep(StyleAfter(s, items[..|items| - 1]), items[|items| - 1]);
    }
  }

  /** An entry's effect on the fill slots, by key. */
  lemma FillSlotsKey(s: Style, k: StyleKey, v: Term)
    ensures KeyEffect(s, k, v).color ==
              if k == KFill && GetResource(v, ColorRes).Some? then GetResource(v, ColorRes) else s.color
    ensures KeyEffect(s, k, v).gradient ==
              if k == KFill && GetResource(v, GradientRes).Some? then GetResource(v, GradientRes) else s.gradient
    ensures KeyEffect(s, k, v).pattern ==
              if k == KFill && GetResource(v, PatternRes).Some? then GetResource(v, PatternRes) else s.pattern
  {
  }

  /** One entry sets the fill slot of its resource's kind, and only that one. */
  lemma FillSlotsStep(s: Style, e: Term)
    ensures StyleEntry(s, e).color == if EntryPaint(e, KFill, ColorRes).Some? then EntryPaint(e, KFill, ColorRes) else s.color
    ensures StyleEntry(s, e).gradient ==
              if EntryPaint(e, KFill, GradientRes).Some? then EntryPaint(e, KFill, GradientRes) else s.gradient
    ensures StyleEntry(s, e).pattern ==
              if EntryPaint(e, KFill, PatternRes).Some? then EntryPaint(e, KFill, PatternRes) else s.pattern
  {
    match GetOptionPair(e) {
      case None =>
      case Some(p) => FillSlotsKey(s, KeyOf(p.0), p.1);
    }
  }

  /** The same for the stroke slots. */
  lemma {:induction false} ParsedStrokeSlots(s: Style, items: seq<Term>)
    ensures StyleAfter(s, items).strokeColor ==
              if LastPaint(items, KStroke, ColorRes).Some? then LastPaint(items, KStroke, ColorRes) else s.strokeColor
    ensures StyleAfter(s, items).strokeGradient ==
              if LastPaint(items, KStroke, GradientRes).Some? then LastPaint(items, KStroke, GradientRes)
              else s.strokeGradient
    ensures StyleAfter(s, items).strokePattern ==
              if LastPaint(items, KStroke, PatternRes).Some? then LastPaint(items, KStroke, PatternRes)
              else s.strokePattern
    decreases |items|
  {
    if |items| > 0 {
      ParsedStrokeSlots(s, items[..|items| - 1]);
      StrokeSlotsStep(StyleAfter(s, items[..|items| - 1]), items[|items| - 1]);
    }
  }

  /** An entry's effect on the stroke slots, by key. */
  lemma StrokeSlotsKey(s: Style, k: StyleKey, v: Term)
    ensures KeyEffect(s, k, v).strokeColor ==
              if k == KStroke && GetResource(v, ColorRes).Some? then GetResource(v, ColorRes) else s.strokeColor
    ensures KeyEffect(s, k, v).strokeGradient ==
              if k == KStroke && GetResource(v, GradientRes).Some? then GetResource(v, GradientRes)
              else s.strokeGradient
    ensures KeyEffect(s, k, v).strokePattern ==
              if k == KStroke && GetResource(v, PatternRes).Some? then GetResource(v, PatternRes)
              else s.strokePattern
  {
  }

  /** One entry sets the stroke slot of its resource's kind, and only that one. */
  lemma StrokeSlotsStep(s: Style, e: Term)
    ensures StyleEntry(s, e).strokeColor ==
              if EntryPaint(e, KStroke, ColorRes).Some? then EntryPaint(e, KStroke, ColorRes) else s.strokeColor
    ensures StyleEntry(s, e).strokeGradient ==
              if EntryPaint(e, KStroke, GradientRes).Some? then EntryPaint(e, KStroke, GradientRes) else s.strokeGradient
    ensures StyleEntry(s, e).strokePattern ==
              if EntryPaint(e, KStroke, PatternRes).Some? then EntryPaint(e, KStroke, PatternRes) else s.strokePattern
  {
    match GetOptionPair(e) {
      case None =>
      case Some(p) => StrokeSlotsKey(s, KeyOf(p.0), p.1);
    }
  }

  /**
   * Drawing with a parsed option list fills with the last pattern given,
   * else the last gradient, else the last colour, whatever their order in
   * the list.
   */
  lemma ParsedFillPaint(items: seq<Term>)
    ensures FillInForce(Apply(StyleAfter(DEFAULT_STYLE, items))) ==
              if LastPaint(items, KFill, PatternRes).Some? then Some(PatternPaint(LastPaint(items, KFill, PatternRes).value))
              else if LastPaint(items, KFill, GradientRes).Some? then
                Some(GradientPaint(LastPaint(items, KFill, GradientRes).value))
              else if LastPaint(items, KFill, ColorRes).Some? then Some(ColorPaint(LastPaint(items, KFill, ColorRes).value))
              else None
  {
    ParsedFillSlots(DEFAULT_STYLE, items);
    FillPrecedence(StyleAfter(DEFAULT_STYLE, items));
  }

  /** Drawing with a parsed option list strokes with the last colour, else gradient, else pattern given. */
  lemma ParsedStrokePaint(items: seq<Term>)
    ensures StrokeInForce(Apply(StyleAfter(DEFAULT_STYLE, items))) ==
              if LastPaint(items, KStroke, ColorRes).Some? then Some(ColorPaint(LastPaint(items, KStroke, ColorRes).value))
              else if LastPaint(items, KStroke, GradientRes).Some? then
                Some(GradientPaint(LastPaint(items, KStroke, GradientRes).value))
              else if LastPaint(items, KStroke, PatternRes).Some? then
                Some(PatternPaint(LastPaint(items, KStroke, PatternRes).value))
              else None
  {
    ParsedStrokeSlots(DEFAULT_STYLE, items);
    StrokePrecedence(StyleAfter(DEFAULT_STYLE, items));
  }

  /** Entries whose key `parse_style` does not know change nothing. */
  lemma {:induction false} UnknownKeysIgnored(s: Style, items: seq<Term>)
    requires forall i | 0 <= i < |items| :: GetOptionPair(items[i]).Some? ==> KeyOf(GetOptionPair(items[i]).value.0) == KOther
    ensures StyleAfter(s, items) == s
    ensures forall i | 0 <= i < |items| :: GetOptionPair(items[i]).Some? ==> StyleEntryOk(items[i])
    decreases |items|
  {
    if |items| > 0 {
      UnknownKeysIgnored(s, items[..|items| - 1]);
    }
  }

  /** A `comp_op` entry naming an operator the table lacks selects src-over, and marks the operator as set. */
  lemma CompOpUnknown(s: Style, e: Term)
    requires GetOptionPair(e).Some? && KeyOf(GetOptionPair(e).value.0) == KCompOp
    requires GetAtom(GetOptionPair(e).value.1, 32).Some? && GetAtom(GetOptionPair(e).value.1, 32).value !in COMP_OPS
    ensures StyleEntryOk(e)
    ensures StyleEntry(s, e) == s.(hasCompOp := true, compOp := SrcOver)
  {
  }

  /** A `stroke_cap` or `stroke_join` entry always marks stroke options as given, known name or not. */
  lemma CapJoinMarkStroke(s: Style, e: Term)
    requires GetOptionPair(e).Some? && GetAtom(GetOptionPair(e).value.1, 32).Some?
    requires KeyOf(GetOptionPair(e).value.0) in {KStrokeCap, KStrokeJoin}
    ensures StyleEntryOk(e)
    ensures StyleEntry(s, e).hasStrokeOpts && HasStroke(StyleEntry(s, e))
    ensures KeyOf(GetOptionPair(e).value.0) == KStrokeCap ==>
              StyleEntry(s, e).strokeOpts.startCap == StyleEntry(s, e).strokeOpts.endCap
  {
  }
}

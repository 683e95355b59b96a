/**
 * The option handling of the two path effects, `canvas_blur_path` and
 * `canvas_watercolor_fill_path`: their option parsers with the ranges they
 * accept, the filtering of effect keys out of the list before it is parsed
 * as a style, and the checks each function makes, in order, before it draws.
 *
 * Unlike `parse_style`, both effect parsers skip an entry that is not a
 * `{atom, value}` pair without complaint, accept a non-list as "no options",
 * and record a bad value in the options' own `valid` flag, which is sticky.
 */
module EffectOptions {
  import opened Common
  import opened Terms
  import opened Styles

  // ---------------------------------------------------------------------
  // Blur options
  // ---------------------------------------------------------------------

  datatype BlurOpts = BlurOpts(
    fill: bool,
    stroke: bool,
    offsetX: real,
    offsetY: real,
    valid: bool,
    modeSet: bool,
    resolution: real)

  const DEFAULT_BLUR_OPTS := BlurOpts(true, false, 0.0, 0.0, true, false, 1.0)

  /** The keys `parse_blur_opts` knows, decoded once. */
  datatype BlurKey = BMode | BOffset | BResolution | BOtherKey

  function BlurKeyOf(key: string): BlurKey
  {
    if key == "mode" then BMode
    else if key == "offset" then BOffset
    else if key == "resolution" then BResolution
    else BOtherKey
  }

  /** The `mode` names and the (fill, stroke) pair each selects. */
  const BLUR_MODES: map<string, (bool, bool)> :=
    map["fill" := (true, false), "stroke" := (false, true),
        "fill_and_stroke" := (true, true), "both" := (true, true)]

  /** The (fill, stroke) pair a well-formed `{mode, name}` entry selects, if it is one. */
  function ModeOf(e: Term): Option<(bool, bool)>
  {
    match GetOptionPair(e)
    case None => None
    case Some((key, v)) =>
      if BlurKeyOf(key) == BMode && GetAtom(v, 32).Some? && GetAtom(v, 32).value in BLUR_MODES
      then Some(BLUR_MODES[GetAtom(v, 32).value])
      else None
  }

  /** `{x, y}` with two float components, as the `offset` value must be. */
  function OffsetOf(v: Term): Option<(real, real)>
  {
    match GetTuple(v, 2)
    case None => None
    case Some(xy) =>
      if GetDouble(xy[0]).Some? && GetDouble(xy[1]).Some?
      then Some((GetDouble(xy[0]).value, GetDouble(xy[1]).value))
      else None
  }

  /** A raster resolution factor: a float in `(0, 1]`. */
  function ResolutionOf(v: Term): (r: Option<real>)
    ensures r.Some? <==> GetDouble(v).Some? && 0.0 < GetDouble(v).value <= 1.0
    ensures r.Some? ==> r == GetDouble(v) && 0.0 < r.value <= 1.0
  {
    if GetDouble(v).Some? && 0.0 < GetDouble(v).value <= 1.0 then GetDouble(v) else None
  }

  /**
   * Whether one entry leaves the blur options valid: malformed entries and
   * unknown keys do; a known key needs a value of its kind.
   */
  predicate BlurEntryOk(e: Term)
  {
    match GetOptionPair(e)
    case None => true
    case Some((key, v)) =>
      match BlurKeyOf(key)
      case BMode => GetAtom(v, 32).Some? && GetAtom(v, 32).value in BLUR_MODES
      case BOffset => OffsetOf(v).Some?
      case BResolution => ResolutionOf(v).Some?
      case BOtherKey => true
  }

  /** The blur options after one list entry. */
  function BlurEntry(o: BlurOpts, e: Term): BlurOpts
  {
    match GetOptionPair(e)
    case None => o
    case Some((key, v)) =>
      match BlurKeyOf(key)
      case BMode =>
        if GetAtom(v, 32).Some? && GetAtom(v, 32).value in BLUR_MODES then
          var m := BLUR_MODES[GetAtom(v, 32).value];
          o.(fill := m.0, stroke := m.1, modeSet := true)
        else o.(valid := false)
      case BOffset =>
        if OffsetOf(v).Some? then o.(offsetX := OffsetOf(v).value.0, offsetY := OffsetOf(v).value.1)
        else o.(valid := false)
      case BResolution =>
        if ResolutionOf(v).Some? then o.(resolution := ResolutionOf(v).value) else o.(valid := false)
      case BOtherKey => o
  }

  /** The blur options after the entries of `items`, in order. */
  function BlurAfter(o: BlurOpts, items: seq<Term>): BlurOpts
  {
    if |items| == 0 then o else BlurEntry(BlurAfter(o, items[..|items| - 1]), items[|items| - 1])
  }

  /**
   * `parse_blur_opts(argv, argc, optsIndex, out)`. With no argument at the
   * index, or a non-list there, it accepts and changes nothing; otherwise it
   * applies every entry and reports the options' validity.
   */
  method ParseBlurOpts(argc: int, argv: seq<Term>, optsIndex: int, o0: BlurOpts) returns (ok: bool, o: BlurOpts)
    requires optsIndex < argc ==> 0 <= optsIndex < |argv|
    ensures argc <= optsIndex ==> ok && o == o0
    ensures optsIndex < argc && !argv[optsIndex].List? ==> ok && o == o0
    ensures optsIndex < argc && argv[optsIndex].List? ==>
              o == BlurAfter(o0, argv[optsIndex].elems) && ok == o.valid
  {
    o := o0;
    if argc <= optsIndex || !argv[optsIndex].List? {
      return true, o;
    }
    var items := argv[optsIndex].elems;
    var i := 0;
    while i < |items|
      invariant i <= |items|
      invariant o == BlurAfter(o0, items[..i])
    {
      assert items[..i + 1][..i] == items[..i];
      o := ParseBlurEntry(o, items[i]);
      i := i + 1;
    }
    assert items[..|items|] == items;
    ok := o.valid;
  }

  /** One pass of the `parse_blur_opts` loop. */
  method ParseBlurEntry(o0: BlurOpts, e: Term) returns (o: BlurOpts)
    ensures o == BlurEntry(o0, e)
  {
    o := o0;
    var pair := GetOptionPair(e);
    if pair.None? {
      return;
    }
    var (key, v) := pair.value;
    var k := BlurKeyOf(key);
    if k == BMode {
      var name := GetAtom(v, 32);
      if name.Some? && name.value in BLUR_MODES {
        var m := BLUR_MODES[name.value];
        o := o.(fill := m.0, stroke := m.1, modeSet := true);
      } else {
        o := o.(valid := false);
      }
    } else if k == BOffset {
      var xy := OffsetOf(v);
      if xy.Some? {
        o := o.(offsetX := xy.value.0, offsetY := xy.value.1);
      } else {
        o := o.(valid := false);
      }
    } else if k == BResolution {
      var res := ResolutionOf(v);
      if res.Some? {
        o := o.(resolution := res.value);
      } else {
        o := o.(valid := false);
      }
    }
  }

  /** The blur options stay valid exactly when they were and every entry is acceptable. */
  lemma {:induction false} BlurValidIff(o: BlurOpts, items: seq<Term>)
    ensures BlurAfter(o, items).valid <==> o.valid && forall i | 0 <= i < |items| :: BlurEntryOk(items[i])
    decreases |items|
  {
    if |items| > 0 {
      var init := items[..|items| - 1];
      BlurValidIff(o, init);
      BlurValidStep(BlurAfter(o, init), items[|items| - 1]);
      assert forall i | 0 <= i < |init| :: init[i] == items[i];
    }
  }

  lemma BlurValidStep(o: BlurOpts, e: Term)
    ensures BlurEntry(o, e).valid <==> o.valid && BlurEntryOk(e)
  {
  }

  /** The (fill, stroke) pair of the last well-formed `mode` entry. */
  function LastMode(items: seq<Term>): Option<(bool, bool)>
  {
    if |items| == 0 then None
    else if ModeOf(items[|items| - 1]).Some? then ModeOf(items[|items| - 1])
    else LastMode(items[..|items| - 1])
  }

  /**
   * After parsing, fill and stroke are those of the last accepted mode, or
   * the starting ones when none was accepted, and `modeSet` records whether
   * one was.
   */
  lemma {:induction false} ParsedBlurMode(o: BlurOpts, items: seq<Term>)
    ensures (BlurAfter(o, items).fill, BlurAfter(o, items).stroke) ==
              if LastMode(items).Some? then LastMode(items).value else (o.fill, o.stroke)
    ensures BlurAfter(o, items).modeSet == (o.modeSet || LastMode(items).Some?)
    decreases |items|
  {
    if |items| > 0 {
      ParsedBlurMode(o, items[..|items| - 1]);
      BlurModeStep(BlurAfter(o, items[..|items| - 1]), items[|items| - 1]);
    }
  }

  lemma BlurModeStep(o: BlurOpts, e: Term)
    ensures (BlurEntry(o, e).fill, BlurEntry(o, e).stroke) ==
              if ModeOf(e).Some? then ModeOf(e).value else (o.fill, o.stroke)
    ensures BlurEntry(o, e).modeSet == (o.modeSet || ModeOf(e).Some?)
  {
  }

  /** Every accepted mode draws something. */
  lemma {:induction false} LastModeDraws(items: seq<Term>)
    ensures LastMode(items).Some? ==> LastMode(items).value.0 || LastMode(items).value.1
    decreases |items|
  {
    if |items| > 0 && ModeOf(items[|items| - 1]).None? {
      LastModeDraws(items[..|items| - 1]);
    }
  }

  /** A resolution factor in `(0, 1]` stays there whatever the list holds. */
  lemma {:induction false} BlurResolutionRange(o: BlurOpts, items: seq<Term>)
    requires 0.0 < o.resolution <= 1.0
    ensures 0.0 < BlurAfter(o, items).resolution <= 1.0
    decreases |items|
  {
    if |items| > 0 {
      BlurResolutionRange(o, items[..|items| - 1]);
    }
  }

  // ---------------------------------------------------------------------
  // Watercolour options
  // ---------------------------------------------------------------------

  datatype WatercolorOpts = WatercolorOpts(
    bleedSigma: real,
    granulation: real,
    noiseScale: real,
    noiseOctaves: int,
    seed: int,
    strength: real,
    resolution: real,
    valid: bool)

  const DEFAULT_WATERCOLOR_OPTS := WatercolorOpts(6.0, 0.18, 0.02, 2, 1337, 1.0, 1.0, true)

  /** The keys `parse_watercolor_opts` knows, decoded once. */
  datatype WatercolorKey = WBleedSigma | WGranulation | WNoiseScale | WNoiseOctaves | WSeed | WStrength
                         | WResolution | WOtherKey

  function WatercolorKeyOf(key: string): WatercolorKey
  {
    if key == "bleed_sigma" then WBleedSigma
    else if key == "granulation" then WGranulation
    else if key == "noise_scale" then WNoiseScale
    else if key == "noise_octaves" then WNoiseOctaves
    else if key == "seed" then WSeed
    else if key == "strength" then WStrength
    else if key == "resolution" then WResolution
    else WOtherKey
  }

  /** `is_watercolor_key`: the seven option names the watercolour effect claims. */
  predicate IsWatercolorKey(key: string)
  {
    key == "bleed_sigma" || key == "granulation" || key == "noise_scale" || key == "noise_octaves" ||
    key == "seed" || key == "strength" || key == "resolution"
  }

  /** The keys the filter strips are exactly the keys the watercolour parser acts on. */
  lemma WatercolorKeyIff(key: string)
    ensures IsWatercolorKey(key) <==> WatercolorKeyOf(key) != WOtherKey
  {
  }

  /** The ranges `parse_watercolor_opts` accepts for each option. */
  predicate WatercolorInRange(o: WatercolorOpts)
  {
    o.bleedSigma >= 0.0 && 0.0 <= o.granulation <= 1.0 && o.noiseScale > 0.0 &&
    1 <= o.noiseOctaves <= 8 && -0x8000_0000 <= o.seed < 0x8000_0000 &&
    o.strength >= 0.0 && 0.0 < o.resolution <= 1.0
  }

  /** Whether one entry leaves the watercolour options valid. */
  predicate WatercolorEntryOk(e: Term)
  {
    match GetOptionPair(e)
    case None => true
    case Some((key, v)) =>
      match WatercolorKeyOf(key)
      case WBleedSigma => GetDouble(v).Some? && GetDouble(v).value >= 0.0
      case WGranulation => GetDouble(v).Some? && 0.0 <= GetDouble(v).value <= 1.0
      case WNoiseScale => GetDouble(v).Some? && GetDouble(v).value > 0.0
      case WNoiseOctaves => GetInt(v).Some? && 1 <= GetInt(v).value <= 8
      case WSeed => GetInt(v).Some?
      case WStrength => GetDouble(v).Some? && GetDouble(v).value >= 0.0
      case WResolution => ResolutionOf(v).Some?
      case WOtherKey => true
  }

  /** The watercolour options after one list entry. */
  function WatercolorEntry(o: WatercolorOpts, e: Term): WatercolorOpts
  {
    match GetOptionPair(e)
    case None => o
    case Some((key, v)) =>
      if !WatercolorEntryOk(e) then o.(valid := false)
      else
        match WatercolorKeyOf(key)
        case WBleedSigma => o.(bleedSigma := GetDouble(v).value)
        case WGranulation => o.(granulation := GetDouble(v).value)
        case WNoiseScale => o.(noiseScale := GetDouble(v).value)
        case WNoiseOctaves => o.(noiseOctaves := GetInt(v).value)
        case WSeed => o.(seed := GetInt(v).value)
        case WStrength => o.(strength := GetDouble(v).value)
        case WResolution => o.(resolution := ResolutionOf(v).value)
        case WOtherKey => o
  }

  function WatercolorAfter(o: WatercolorOpts, items: seq<Term>): WatercolorOpts
  {
    if |items| == 0 then o else WatercolorEntry(WatercolorAfter(o, items[..|items| - 1]), items[|items| - 1])
  }

  /** `parse_watercolor_opts(argv, argc, optsIndex, out)`, shaped like `parse_blur_opts`. */
  method ParseWatercolorOpts(argc: int, argv: seq<Term>, optsIndex: int, o0: WatercolorOpts)
    returns (ok: bool, o: WatercolorOpts)
    requires optsIndex < argc ==> 0 <= optsIndex < |argv|
    ensures argc <= optsIndex ==> ok && o == o0
    ensures optsIndex < argc && !argv[optsIndex].List? ==> ok && o == o0
    ensures optsIndex < argc && argv[optsIndex].List? ==>
              o == WatercolorAfter(o0, argv[optsIndex].elems) && ok == o.valid
  {
    o := o0;
    if argc <= optsIndex || !argv[optsIndex].List? {
      return true, o;
    }
    var items := argv[optsIndex].elems;
    var i := 0;
    while i < |items|
      invariant i <= |items|
      invariant o == WatercolorAfter(o0, items[..i])
    {
      assert items[..i + 1][..i] == items[..i];
      o := ParseWatercolorEntry(o, items[i]);
      i := i + 1;
    }
    assert items[..|items|] == items;
    ok := o.valid;
  }

  /** One pass of the `parse_watercolor_opts` loop. */
  method ParseWatercolorEntry(o0: WatercolorOpts, e: Term) returns (o: WatercolorOpts)
    ensures o == WatercolorEntry(o0, e)
  {
    o := o0;
    var pair := GetOptionPair(e);
    if pair.None? {
      return;
    }
    var (key, v) := pair.value;
    var k := WatercolorKeyOf(key);
    var d := GetDouble(v);
    var n := GetInt(v);
    if k == WBleedSigma {
      if d.Some? && d.value >= 0.0 { o := o.(bleedSigma := d.value); } else { o := o.(valid := false); }
    } else if k == WGranulation {
      if d.Some? && d.value >= 0.0 && d.value <= 1.0 { o := o.(granulation := d.value); } else { o := o.(valid := false); }
    } else if k == WNoiseScale {
      if d.Some? && d.value > 0.0 { o := o.(noiseScale := d.value); } else { o := o.(valid := false); }
    } else if k == WNoiseOctaves {
      if n.Some? && n.value >= 1 && n.value <= 8 { o := o.(noiseOctaves := n.value); } else { o := o.(valid := false); }
    } else if k == WSeed {
      if n.Some? { o := o.(seed := n.value); } else { o := o.(valid := false); }
    } else if k == WStrength {
      if d.Some? && d.value >= 0.0 { o := o.(strength := d.value); } else { o := o.(valid := false); }
    } else if k == WResolution {
      if d.Some? && d.value > 0.0 && d.value <= 1.0 { o := o.(resolution := d.value); } else { o := o.(valid := false); }
    }
  }

  /** The defaults lie in the accepted ranges. */
  lemma DefaultWatercolorInRange()
    ensures WatercolorInRange(DEFAULT_WATERCOLOR_OPTS) && DEFAULT_WATERCOLOR_OPTS.valid
  {
  }

  /** No entry, accepted or not, takes an option out of its range. */
  lemma {:induction false} WatercolorRangePreserved(o: WatercolorOpts, items: seq<Term>)
    requires WatercolorInRange(o)
    ensures WatercolorInRange(WatercolorAfter(o, items))
    decreases |items|
  {
    if |items| > 0 {
      WatercolorRangePreserved(o, items[..|items| - 1]);
    }
  }

  /** The watercolour options stay valid exactly when they were and every entry is acceptable. */
  lemma {:induction false} WatercolorValidIff(o: WatercolorOpts, items: seq<Term>)
    ensures WatercolorAfter(o, items).valid <==> o.valid && forall i | 0 <= i < |items| :: WatercolorEntryOk(items[i])
    decreases |items|
  {
    if |items| > 0 {
      var init := items[..|items| - 1];
      WatercolorValidIff(o, init);
      assert forall i | 0 <= i < |init| :: init[i] == items[i];
    }
  }

  // ---------------------------------------------------------------------
  // Stripping effect keys from the style list
  // ---------------------------------------------------------------------

  datatype Effect = BlurEffect | WatercolorEffect

  /** The keys an effect claims and strips before it parses the rest of the list as a style. */
  predicate EffectKey(fx: Effect, key: string)
  {
    match fx
    case BlurEffect => key == "mode" || key == "offset"
    case WatercolorEffect => IsWatercolorKey(key)
  }

  /** Whether the filter keeps an entry: a well-formed pair whose key the effect does not claim. */
  predicate Kept(fx: Effect, e: Term)
  {
    GetOptionPair(e).Some? && !EffectKey(fx, GetOptionPair(e).value.0)
  }

  /** The entries the filter keeps, in their original order. */
  function KeptTerms(fx: Effect, items: seq<Term>): seq<Term>
  {
    if |items| == 0 then []
    else if Kept(fx, items[|items| - 1]) then KeptTerms(fx, items[..|items| - 1]) + [items[|items| - 1]]
    else KeptTerms(fx, items[..|items| - 1])
  }

  /**
   * The filter loops of both effects: collect the kept entries of the list
   * argument (none when it is not a list), then cons them back from the
   * last one so the new list has the original order.
   */
  method FilterStyleList(fx: Effect, list: Term) returns (styleList: Term)
    ensures styleList == List(KeptTerms(fx, if list.List? then list.elems else []))
  {
    var items := if list.List? then list.elems else [];
    var terms := [];
    var i := 0;
    while i < |items|
      invariant i <= |items|
      invariant terms == KeptTerms(fx, items[..i])
    {
      assert items[..i + 1][..i] == items[..i];
      if Kept(fx, items[i]) {
        terms := terms + [items[i]];
      }
      i := i + 1;
    }
    assert items[..|items|] == items;
    var acc := [];
    var j := |terms|;
    while j > 0
      invariant 0 <= j <= |terms|
      invariant acc == terms[j..]
    {
      j := j - 1;
      acc := [terms[j]] + acc;
    }
    styleList := List(acc);
  }

  /** An entry survives the filter exactly when it is in the list and the filter keeps it. */
  lemma {:induction false} KeptMember(fx: Effect, items: seq<Term>, e: Term)
    ensures e in KeptTerms(fx, items) <==> e in items && Kept(fx, e)
    decreases |items|
  {
    if |items| > 0 {
      var init := items[..|items| - 1];
      KeptMember(fx, init, e);
      assert items == init + [items[|items| - 1]];
    }
  }

  /** The filter never lengthens the list. */
  lemma {:induction false} KeptLength(fx: Effect, items: seq<Term>)
    ensures |KeptTerms(fx, items)| <= |items|
    decreases |items|
  {
    if |items| > 0 {
      KeptLength(fx, items[..|items| - 1]);
    }
  }

  /** No key an effect claims is one `parse_style` acts on. */
  lemma EffectKeyNotStyleKey(fx: Effect, key: string)
    requires EffectKey(fx, key)
    ensures KeyOf(key) == KOther
  {
  }

  /**
   * Filtering does not change the style the list describes: the dropped
   * entries are either malformed or carry keys `parse_style` ignores.
   */
  lemma {:induction false} FilteredStyle(fx: Effect, s: Style, items: seq<Term>)
    ensures StyleAfter(s, KeptTerms(fx, items)) == StyleAfter(s, items)
    decreases |items|
  {
    if |items| > 0 {
      var init := items[..|items| - 1];
      var e := items[|items| - 1];
      FilteredStyle(fx, s, init);
      var kept := KeptTerms(fx, init);
      if Kept(fx, e) {
        assert (kept + [e])[..|kept|] == kept;
      } else if GetOptionPair(e).Some? {
        EffectKeyNotStyleKey(fx, GetOptionPair(e).value.0);
      }
    }
  }

  /** Every entry of `items` is acceptable to `parse_style`. */
  predicate AllStyleOk(items: seq<Term>)
  {
    forall i | 0 <= i < |items| :: StyleEntryOk(items[i])
  }

  /**
   * The filtered list parses cleanly exactly when every kept entry is
   * acceptable: a malformed entry in an effect's list is dropped by the
   * filter and never reaches `parse_style`.
   */
  lemma {:induction false} FilteredStyleOk(fx: Effect, items: seq<Term>)
    ensures AllStyleOk(KeptTerms(fx, items)) <==>
              forall i | 0 <= i < |items| :: Kept(fx, items[i]) ==> StyleEntryOk(items[i])
    decreases |items|
  {
    if |items| > 0 {
      var init := items[..|items| - 1];
      var e := items[|items| - 1];
      FilteredStyleOk(fx, init);
      var kept := KeptTerms(fx, init);
      assert forall i | 0 <= i < |init| :: init[i] == items[i];
      if Kept(fx, e) {
        assert forall i | 0 <= i < |kept| :: (kept + [e])[i] == kept[i];
        assert (kept + [e])[|kept|] == e;
      }
    }
  }

  // ---------------------------------------------------------------------
  // What each effect checks before it draws
  // ---------------------------------------------------------------------

  /** How an effect's argument handling ends: ready to draw, a badarg, or an `{error, reason}`. */
  datatype Outcome<P> = Ready(plan: P) | BadArg | Error(reason: string)

  datatype BlurPlan = BlurPlan(canvas: nat, path: nat, sigma: real, opts: BlurOpts, style: Style)

  datatype WatercolorPlan = WatercolorPlan(canvas: nat, path: nat, opts: WatercolorOpts, style: Style)

  /**
   * Without an explicit mode, the blur fills and strokes as the style does,
   * and fills when the style does neither.
   */
  function DefaultMode(o: BlurOpts, s: Style): BlurOpts
  {
    if o.modeSet then o else o.(fill := HasFill(s) || !HasStroke(s), stroke := HasStroke(s))
  }

  /** The list items at `argv[i]`, none when there is no such argument or it is not a list. */
  function ListAt(argc: int, argv: seq<Term>, i: nat): seq<Term>
    requires argc == |argv|
  {
    if i < argc && argv[i].List? then argv[i].elems else []
  }

  /** The checks of `canvas_blur_path(canvas, path, sigma, opts)`, in the order it makes them. */
  function BlurPathOutcome(argc: int, argv: seq<Term>): Outcome<BlurPlan>
    requires argc == |argv|
  {
    if argc < 3 then BadArg
    else if GetResource(argv[0], CanvasRes).None? || GetResource(argv[1], PathRes).None? || GetDouble(argv[2]).None? then
      Error("canvas_blur_path_invalid_args")
    else if GetDouble(argv[2]).value <= 0.0 then Error("canvas_blur_path_sigma_must_be_positive")
    else
      var opts := BlurAfter(DEFAULT_BLUR_OPTS, ListAt(argc, argv, 3));
      var kept := KeptTerms(BlurEffect, ListAt(argc, argv, 3));
      if !opts.valid then Error("canvas_blur_path_invalid_opts")
      else if !AllStyleOk(kept) then Error("canvas_blur_path_invalid_style")
      else
        var style := StyleAfter(DEFAULT_STYLE, kept);
        Ready(BlurPlan(GetResource(argv[0], CanvasRes).value, GetResource(argv[1], PathRes).value,
                       GetDouble(argv[2]).value, DefaultMode(opts, style), style))
  }

  /**
   * The argument handling of `canvas_blur_path`, up to the point where it
   * measures the path: options, the filtered style list, and the default
   * mode.
   */
  method BlurPathPlan(argc: int, argv: seq<Term>) returns (r: Outcome<BlurPlan>)
    requires argc == |argv|
    ensures r == BlurPathOutcome(argc, argv)
  {
    if argc < 3 {
      return BadArg;
    }
    var canvas := GetResource(argv[0], CanvasRes);
    var path := GetResource(argv[1], PathRes);
    var sigma := GetDouble(argv[2]);
    if canvas.None? || path.None? || sigma.None? {
      return Error("canvas_blur_path_invalid_args");
    }
    if sigma.value <= 0.0 {
      return Error("canvas_blur_path_sigma_must_be_positive");
    }
    var optsOk, opts := ParseBlurOpts(argc, argv, 3, DEFAULT_BLUR_OPTS);
    if !optsOk {
      return Error("canvas_blur_path_invalid_opts");
    }
    var styleList := List([]);
    if argc >= 4 {
      styleList := FilterStyleList(BlurEffect, argv[3]);
    }
    var argvStyle := argv[..3] + [styleList];
    var styleOk, style := ParseStyle(argc, argvStyle, 3, DEFAULT_STYLE);
    if !styleOk {
      return Error("canvas_blur_path_invalid_style");
    }
    if !opts.modeSet {
      opts := opts.(fill := HasFill(style), stroke := HasStroke(style));
      if !opts.fill && !opts.stroke {
        opts := opts.(fill := true);
      }
    }
    r := Ready(BlurPlan(canvas.value, path.value, sigma.value, opts, style));
  }

  /**
   * A blur that gets past its checks always draws the fill or the stroke,
   * with a positive sigma, a resolution in `(0, 1]`, and the style the
   * unfiltered list describes.
   */
  lemma BlurPlanChecked(argc: int, argv: seq<Term>)
    requires argc == |argv|
    ensures BlurPathOutcome(argc, argv).Ready? ==>
              var p := BlurPathOutcome(argc, argv).plan;
              (p.opts.fill || p.opts.stroke) && p.sigma > 0.0 && 0.0 < p.opts.resolution <= 1.0 &&
              p.style == StyleAfter(DEFAULT_STYLE, ListAt(argc, argv, 3))
  {
    if argc >= 3 {
      var items := ListAt(argc, argv, 3);
      ParsedBlurMode(DEFAULT_BLUR_OPTS, items);
      LastModeDraws(items);
      BlurResolutionRange(DEFAULT_BLUR_OPTS, items);
      FilteredStyle(BlurEffect, DEFAULT_STYLE, items);
    }
  }

  /** The checks of `canvas_watercolor_fill_path(canvas, path, opts)`, in order. */
  function WatercolorOutcome(argc: int, argv: seq<Term>): Outcome<WatercolorPlan>
    requires argc == |argv|
  {
    if argc < 2 then BadArg
    else if GetResource(argv[0], CanvasRes).None? || GetResource(argv[1], PathRes).None? then
      Error("canvas_watercolor_fill_path_invalid_args")
    else
      var opts := WatercolorAfter(DEFAULT_WATERCOLOR_OPTS, ListAt(argc, argv, 2));
      var kept := KeptTerms(WatercolorEffect, ListAt(argc, argv, 2));
      if !opts.valid then Error("canvas_watercolor_fill_path_invalid_opts")
      else if !AllStyleOk(kept) then Error("canvas_watercolor_fill_path_invalid_style")
      else Ready(WatercolorPlan(GetResource(argv[0], CanvasRes).value, GetResource(argv[1], PathRes).value,
                                opts, StyleAfter(DEFAULT_STYLE, kept)))
  }

  /** The argument handling of `canvas_watercolor_fill_path`, up to the point where it measures the path. */
  method WatercolorPlanOf(argc: int, argv: seq<Term>) returns (r: Outcome<WatercolorPlan>)
    requires argc == |argv|
    ensures r == WatercolorOutcome(argc, argv)
  {
    if argc < 2 {
      return BadArg;
    }
    var canvas := GetResource(argv[0], CanvasRes);
    var path := GetResource(argv[1], PathRes);
    if canvas.None? || path.None? {
      return Error("canvas_watercolor_fill_path_invalid_args");
    }
    var optsOk, opts := ParseWatercolorOpts(argc, argv, 2, DEFAULT_WATERCOLOR_OPTS);
    if !optsOk {
      return Error("canvas_watercolor_fill_path_invalid_opts");
    }
    var styleList := List([]);
    if argc >= 3 {
      styleList := FilterStyleList(WatercolorEffect, argv[2]);
    }
    var styleOk, style := ParseStyle(3, [argv[0], argv[1], styleList], 2, DEFAULT_STYLE);
    if !styleOk {
      return Error("canvas_watercolor_fill_path_invalid_style");
    }
    r := Ready(WatercolorPlan(canvas.value, path.value, opts, style));
  }

  /**
   * A watercolour fill that gets past its checks has every option in its
   * accepted range and the style the unfiltered list describes.
   */
  lemma WatercolorPlanChecked(argc: int, argv: seq<Term>)
    requires argc == |argv|
    ensures WatercolorOutcome(argc, argv).Ready? ==>
              var p := WatercolorOutcome(argc, argv).plan;
              WatercolorInRange(p.opts) && p.opts.valid && p.style == StyleAfter(DEFAULT_STYLE, ListAt(argc, argv, 2))
  {
    if argc >= 2 {
      var items := ListAt(argc, argv, 2);
      DefaultWatercolorInRange();
      WatercolorRangePreserved(DEFAULT_WATERCOLOR_OPTS, items);
      FilteredStyle(WatercolorEffect, DEFAULT_STYLE, items);
    }
  }
}

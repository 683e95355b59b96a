/**
 * Colour construction: four integer components, each clamped into a byte,
 * make an RGBA32 colour; the components read back from a colour.
 */
module Colors {
  import opened Common
  import opened Terms

  /** A `BLRgba32`: four 8-bit channels. */
  datatype Rgba32 = Rgba32(r: Byte, g: Byte, b: Byte, a: Byte)

  /** `std::clamp(v, 0, 255)`. */
  function Clamp255(v: int): (c: Byte)
    ensures 0 <= v <= 255 ==> c == v
    ensures v < 0 ==> c == 0
    ensures v > 255 ==> c == 255
  {
    if v < 0 then 0 else if v > 255 then 255 else v
  }

  /** Clamping keeps order. */
  lemma ClampMonotone(u: int, v: int)
    requires u <= v
    ensures Clamp255(u) <= Clamp255(v)
  {
  }

  /** Clamping a clamped value changes nothing. */
  lemma ClampIdempotent(v: int)
    ensures Clamp255(Clamp255(v)) == Clamp255(v)
  {
  }

  datatype ColorReply = ColorBadArg | ColorError(reason: string) | ColorOk(color: Rgba32)

  /** Whether all four arguments are integers that fit a C `int`. */
  predicate AllInts(argv: seq<Term>)
    requires |argv| == 4
  {
    GetInt(argv[0]).Some? && GetInt(argv[1]).Some? && GetInt(argv[2]).Some? && GetInt(argv[3]).Some?
  }

  /**
   * `color`: exactly four arguments, each an integer that fits a C `int`,
   * each clamped into `[0, 255]`.
   */
  function ColorNif(argc: int, argv: seq<Term>): (r: ColorReply)
    requires argc == |argv|
    ensures argc != 4 <==> r.ColorBadArg?
    ensures argc == 4 ==> (r.ColorError? <==> !AllInts(argv))
    ensures r.ColorError? ==> r.reason == "invalid_color_component"
    ensures r.ColorOk? ==>
              r.color == Rgba32(Clamp255(argv[0].i), Clamp255(argv[1].i), Clamp255(argv[2].i), Clamp255(argv[3].i))
  {
    if argc != 4 then ColorBadArg
    else
      var r, g, b, a := GetInt(argv[0]), GetInt(argv[1]), GetInt(argv[2]), GetInt(argv[3]);
      if r.None? || g.None? || b.None? || a.None? then ColorError("invalid_color_component")
      else ColorOk(Rgba32(Clamp255(r.value), Clamp255(g.value), Clamp255(b.value), Clamp255(a.value)))
  }

  /** `color_components`: the channels of a colour, as a four-tuple of integers. */
  function Components(c: Rgba32): Term
  {
    Tuple([Int(c.r), Int(c.g), Int(c.b), Int(c.a)])
  }

  /** Components already in `[0, 255]` read back unchanged. */
  lemma ComponentsRoundTrip(r: Byte, g: Byte, b: Byte, a: Byte)
    ensures var reply := ColorNif(4, [Int(r), Int(g), Int(b), Int(a)]);
            reply.ColorOk? && Components(reply.color) == Tuple([Int(r), Int(g), Int(b), Int(a)])
  {
  }

  /** Every colour built reads back within `[0, 255]`, and re-building from its components gives it again. */
  lemma ColorFixedPoint(argv: seq<Term>)
    requires |argv| == 4 && ColorNif(4, argv).ColorOk?
    ensures var c := ColorNif(4, argv).color;
            ColorNif(4, Components(c).elems) == ColorOk(c)
  {
  }
}

/**
 * Glyph runs: a non-owning view of shaped glyph data (glyph ids and
 * placements at a fixed stride from two base addresses), slicing such a
 * view, and listing its glyphs as host terms.
 *
 * Memory is a parameter: what is stored at each address. Addresses are
 * unbounded integers; only the 32-bit byte offset the slice computes wraps.
 */
module GlyphRuns {
  import opened Common
  import opened Terms

  /** A signed 8-bit value, the type of a run's strides. */
  type Int8 = a: int | -128 <= a < 128

  /** The null address. */
  const NULL: int := 0

  /** Blend2D's `BLGlyphPlacementType` values. */
  const PLACEMENT_NONE: Byte := 0
  const PLACEMENT_ADVANCE_OFFSET: Byte := 1
  const PLACEMENT_DESIGN_UNITS: Byte := 2
  const PLACEMENT_USER_UNITS: Byte := 3
  const PLACEMENT_ABSOLUTE_UNITS: Byte := 4

  /** The fields of a `BLGlyphRun`. */
  datatype Run = Run(
    glyphData: nat,
    placementData: nat,
    size: nat,
    placementType: Byte,
    glyphAdvance: Int8,
    placementAdvance: Int8,
    flags: U32)

  /** The glyph-run resource: the view and the glyph buffer resource it keeps alive, if any. */
  datatype GlyphRun = GlyphRun(run: Run, owner: Option<nat>)

  // ---------------------------------------------------------------------
  // glyph_run_slice
  // ---------------------------------------------------------------------

  /** The subtraction form of the range check, which no unsigned wrap-around can fool. */
  function SliceFits(size: nat, start: U32, count: U32): (ok: bool)
    ensures ok <==> start + count <= size
  {
    !(start > size || count > size - start)
  }

  /**
   * The sum form `start + count <= size` evaluated in unsigned 32-bit
   * arithmetic accepts a range that runs past the end; the subtraction
   * form rejects it.
   */
  lemma NaiveSumWraps()
    ensures var start, count, size := 1, 0xFFFF_FFFF, 5;
            WrapU32(start + count) <= size && !SliceFits(size, start, count)
  {
    assert WrapU32(1 + 0xFFFF_FFFF) == 0;
  }

  /** `start * adv` with the stride converted to `uint8_t`, in unsigned 32-bit arithmetic. */
  function DataOffset(start: U32, adv: Int8): (r: U32)
    ensures 0 <= adv && start * adv < TWO_32 ==> r == start * adv
  {
    WrapU32(start * ToByte(adv))
  }

  /** The view of `count` glyphs from `start`, or `None` when the range leaves the run. */
  function Slice(src: Run, start: U32, count: U32): Option<Run>
  {
    if !SliceFits(src.size, start, count) then None
    else Some(src.(
      glyphData := src.glyphData + DataOffset(start, src.glyphAdvance),
      placementData := src.placementData + DataOffset(start, src.placementAdvance),
      size := count))
  }

  /** Reference counts of resources, as kept by the host's `enif_keep_resource`. */
  function RefCount(refs: map<nat, nat>, h: nat): nat
  {
    if h in refs then refs[h] else 0
  }

  function Keep(refs: map<nat, nat>, h: nat): (r: map<nat, nat>)
    ensures RefCount(r, h) == RefCount(refs, h) + 1
    ensures forall k | k != h :: RefCount(r, k) == RefCount(refs, k)
  {
    refs[h := RefCount(refs, h) + 1]
  }

  datatype SliceReply =
    | SliceBadArg
    | SliceError(reason: string)
    | Sliced(dst: GlyphRun, refs: map<nat, nat>)

  /**
   * `glyph_run_slice`: decode the run and the two unsigned bounds, check
   * the range, then copy the run, share its owner (taking a reference on
   * it) and narrow the copy. `runs` maps live handles to their runs.
   */
  function SliceNif(argc: int, argv: seq<Term>, runs: map<nat, GlyphRun>, refs: map<nat, nat>): SliceReply
    requires argc == |argv|
  {
    if argc != 3 then SliceBadArg
    else
      var h, start, count := GetResource(argv[0], GlyphRunRes), GetUint(argv[1]), GetUint(argv[2]);
      if h.None? || h.value !in runs || start.None? || count.None? then SliceError("glyph_run_slice_invalid_args")
      else
        var src := runs[h.value];
        match Slice(src.run, start.value, count.value)
        case None => SliceError("glyph_run_slice_out_of_range")
        case Some(run) =>
          Sliced(GlyphRun(run, src.owner), if src.owner.Some? then Keep(refs, src.owner.value) else refs)
  }

  /**
   * A slice that succeeds has the requested size, shares the source's
   * owner and takes exactly one more reference on it, and leaves every
   * other count alone; it fails with `out_of_range` exactly when the range
   * leaves the run.
   */
  lemma SliceNifOutcome(argv: seq<Term>, runs: map<nat, GlyphRun>, refs: map<nat, nat>)
    requires |argv| == 3
    requires argv[0].Resource? && argv[0].kind == GlyphRunRes && argv[0].handle in runs
    requires argv[1].Int? && 0 <= argv[1].i < TWO_32 && argv[2].Int? && 0 <= argv[2].i < TWO_32
    ensures var src := runs[argv[0].handle];
            var start, count := argv[1].i, argv[2].i;
            var r := SliceNif(3, argv, runs, refs);
            (r.SliceError? <==> start + count > src.run.size) &&
            (r.SliceError? ==> r.reason == "glyph_run_slice_out_of_range") &&
            (r.Sliced? ==>
               r.dst.run.size == count && r.dst.owner == src.owner &&
               (forall k: nat | src.owner != Some(k) :: RefCount(r.refs, k) == RefCount(refs, k)) &&
               (src.owner.Some? ==> RefCount(r.refs, src.owner.value) == RefCount(refs, src.owner.value) + 1))
  {
  }

  // ---------------------------------------------------------------------
  // The glyphs of a run
  // ---------------------------------------------------------------------

  /** What memory holds: glyph ids, advance/offset placements and point placements, by address. */
  datatype Memory = Memory(
    glyphAt: int -> U32,
    placementAt: int -> (int, int, int, int),
    pointAt: int -> (real, real))

  /** The name of a placement type, as the inspection reports it. */
  function PlacementTypeName(t: Byte): string
  {
    if t == PLACEMENT_NONE then "none"
    else if t == PLACEMENT_ADVANCE_OFFSET then "advance_offset"
    else if t == PLACEMENT_DESIGN_UNITS then "design_units"
    else if t == PLACEMENT_USER_UNITS then "user_units"
    else if t == PLACEMENT_ABSOLUTE_UNITS then "absolute_units"
    else "unknown"
  }

  function PointTerm(x: real, y: real): Term
  {
    Tuple([Float(x), Float(y)])
  }

  /**
   * The placement of the glyph whose placement record is at `addr`:
   * `none` without placement data, `{type, {ax, ay}, {px, py}}` for
   * advance/offset records and `{type, x, y}` for point records.
   */
  function PlacementTerm(mem: Memory, run: Run, addr: int): Term
  {
    if run.placementData == NULL then Atom("none")
    else if run.placementType == PLACEMENT_ADVANCE_OFFSET then
      var p := mem.placementAt(addr);
      Tuple([Atom(PlacementTypeName(run.placementType)),
             PointTerm(p.2 as real, p.3 as real), PointTerm(p.0 as real, p.1 as real)])
    else
      var q := mem.pointAt(addr);
      Tuple([Atom(PlacementTypeName(run.placementType)), Float(q.0), Float(q.1)])
  }

  /** `{glyph, id, placement}` for the glyph and placement records at the two addresses. */
  function GlyphTermAt(mem: Memory, run: Run, gaddr: int, paddr: int): Term
  {
    Tuple([Atom("glyph"), Int(mem.glyphAt(gaddr)), PlacementTerm(mem, run, paddr)])
  }

  /** The address `i` strides past `base`. */
  function Addr(base: int, i: nat, stride: int): int
  {
    base + i * stride
  }

  lemma AddrNext(base: int, i: nat, stride: int)
    ensures Addr(base, i + 1, stride) == Addr(base, i, stride) + stride
  {
  }

  /** The `i`-th glyph of a run, its records found at `i` strides from the bases. */
  function GlyphTerm(mem: Memory, run: Run, i: nat): Term
  {
    GlyphTermAt(mem, run, Addr(run.glyphData, i, run.glyphAdvance), Addr(run.placementData, i, run.placementAdvance))
  }

  /** All glyphs of a run, in iteration order. */
  function Glyphs(mem: Memory, run: Run): (r: seq<Term>)
    ensures |r| == run.size
  {
    seq(run.size, i requires 0 <= i < run.size => GlyphTerm(mem, run, i))
  }

  /** A sequence backwards. */
  function Rev<T>(s: seq<T>): (r: seq<T>)
    ensures |r| == |s|
  {
    if |s| == 0 then [] else [s[|s| - 1]] + Rev(s[..|s| - 1])
  }

  lemma {:induction false} RevCons<T>(x: T, s: seq<T>)
    ensures Rev([x] + s) == Rev(s) + [x]
    decreases |s|
  {
    if |s| == 0 {
      assert [x] + s == [x];
    } else {
      var t := s[..|s| - 1];
      assert ([x] + s)[..|s|] == [x] + t;
      RevCons(x, t);
    }
  }

  lemma {:induction false} RevRev<T>(s: seq<T>)
    ensures Rev(Rev(s)) == s
    decreases |s|
  {
    if |s| > 0 {
      var t := s[..|s| - 1];
      RevCons(s[|s| - 1], Rev(t));
      RevRev(t);
      assert t + [s[|s| - 1]] == s;
    }
  }

  lemma RevStep<T>(s: seq<T>, i: nat)
    requires i < |s|
    ensures Rev(s[..i + 1]) == [s[i]] + Rev(s[..i])
  {
    assert s[..i + 1][..i] == s[..i];
  }

  /** The first loop of `glyph_run_inspect`: walk the run, prepending each glyph. */
  method PrependGlyphs(mem: Memory, run: Run) returns (list: seq<Term>)
    ensures list == Rev(Glyphs(mem, run))
  {
    ghost var all := Glyphs(mem, run);
    list := [];
    var i := 0;
    var gaddr: int := run.glyphData;
    var paddr: int := run.placementData;
    while i < run.size
      invariant 0 <= i <= run.size
      invariant gaddr == Addr(run.glyphData, i, run.glyphAdvance)
      invariant paddr == Addr(run.placementData, i, run.placementAdvance)
      invariant list == Rev(all[..i])
    {
      var g := GlyphTermAt(mem, run, gaddr, paddr);
      RevStep(all, i);
      list := [g] + list;
      AddrNext(run.glyphData, i, run.glyphAdvance);
      AddrNext(run.placementData, i, run.placementAdvance);
      i := i + 1;
      gaddr := gaddr + run.glyphAdvance;
      paddr := paddr + run.placementAdvance;
    }
    assert all[..i] == all;
  }

  /** The second loop of `glyph_run_inspect`: move each head onto a new list. */
  method Reverse(list0: seq<Term>) returns (out: seq<Term>)
    ensures out == Rev(list0)
  {
    var list := list0;
    out := [];
    while |list| > 0
      invariant Rev(list) + out == Rev(list0)
    {
      RevCons(list[0], list[1..]);
      assert [list[0]] + list[1..] == list;
      out := [list[0]] + out;
      list := list[1..];
    }
  }

  /**
   * `glyph_run_inspect`: the glyphs gathered backwards and then reversed
   * are the run's glyphs in iteration order.
   */
  method Inspect(mem: Memory, run: Run) returns (out: seq<Term>)
    ensures out == Glyphs(mem, run)
  {
    var list := PrependGlyphs(mem, run);
    out := Reverse(list);
    RevRev(Glyphs(mem, run));
  }

  /**
   * Slicing then listing is listing then slicing: the slice's glyphs are
   * the source's glyphs `start .. start + count`, provided the strides are
   * non-negative, the run has placement data (or none anywhere) and the
   * byte offsets fit 32 bits.
   */
  lemma InspectSliced(mem: Memory, src: Run, start: U32, count: U32)
    requires Slice(src, start, count).Some?
    requires 0 <= src.glyphAdvance && 0 <= src.placementAdvance
    requires start * src.glyphAdvance < TWO_32 && start * src.placementAdvance < TWO_32
    requires src.placementData != NULL || src.placementAdvance == 0
    ensures Glyphs(mem, Slice(src, start, count).value) == Glyphs(mem, src)[start..start + count]
  {
    var dst := Slice(src, start, count).value;
    forall i | 0 <= i < count
      ensures GlyphTerm(mem, dst, i) == GlyphTerm(mem, src, start + i)
    {
      assert Addr(dst.glyphData, i, dst.glyphAdvance) == Addr(src.glyphData, start + i, src.glyphAdvance) by {
        assert (start + i) * src.glyphAdvance == start * src.glyphAdvance + i * src.glyphAdvance;
      }
      assert Addr(dst.placementData, i, dst.placementAdvance) == Addr(src.placementData, start + i, src.placementAdvance) by {
        assert (start + i) * src.placementAdvance == start * src.placementAdvance + i * src.placementAdvance;
      }
      assert (dst.placementData == NULL) == (src.placementData == NULL);
      assert dst.placementType == src.placementType;
    }
  }

  /** Slicing a slice is one slice, from the summed start. */
  lemma SliceOfSlice(src: Run, s1: U32, c1: U32, s2: U32, c2: U32)
    requires Slice(src, s1, c1).Some?
    requires 0 <= src.glyphAdvance && 0 <= src.placementAdvance && s1 + s2 < TWO_32
    requires (s1 + s2) * src.glyphAdvance < TWO_32 && (s1 + s2) * src.placementAdvance < TWO_32
    ensures Slice(Slice(src, s1, c1).value, s2, c2) == (if s2 + c2 <= c1 then Slice(src, s1 + s2, c2) else None)
  {
    var mid := Slice(src, s1, c1).value;
    assert (s1 + s2) * src.glyphAdvance == s1 * src.glyphAdvance + s2 * src.glyphAdvance;
    assert (s1 + s2) * src.placementAdvance == s1 * src.placementAdvance + s2 * src.placementAdvance;
  }

  /** The whole range is the run itself. */
  lemma SliceWhole(src: Run)
    requires src.size < TWO_32
    ensures Slice(src, 0, src.size) == Some(src)
  {
  }
}

/**
 * The pixel loop of `canvas_watercolor_fill_path` that masks the colour
 * patch: each premultiplied PRGB32 pixel of the patch is scaled by a byte
 * level taken from the A8 mask, and pixels where the mask is empty are
 * cleared.
 *
 * The level of a covered pixel starts as the float `mask / 255`, times a
 * paper-grain factor from the value noise and times the strength option;
 * it is then clamped to `[0, 1]` and rounded to a byte. That unclamped
 * factor is a parameter, `coverage(x, y, m)` for mask byte `m` at pixel
 * `(x, y)`; the clamping and rounding are modelled on reals.
 */
module WatercolorMask {
  import opened Common
  import opened Arith
  import opened BlurImage
  import opened ImageOps

  // ---------------------------------------------------------------------
  // One byte
  // ---------------------------------------------------------------------

  /**
   * `(p * mm + 127) / 255` cast to `uint8_t`: a byte scaled by `mm / 255`,
   * rounded. The product is `Mul`, which `MulIsProduct` ties to `*`.
   */
  function Scale(p: Byte, mm: Byte): Byte
  {
    ToByte((Mul(p, mm) + 127) / 255)
  }

  /** `clamp01`. */
  function Clamp01(v: real): (r: real)
    ensures 0.0 <= r <= 1.0
    ensures 0.0 <= v <= 1.0 ==> r == v
  {
    if v < 0.0 then 0.0 else if v > 1.0 then 1.0 else v
  }

  /** The byte level `static_cast<int>(clamp01(mf) * 255 + 0.5)`: the clamped factor rounded to a byte. */
  function Level(mf: real): Byte
  {
    var a := (Clamp01(mf) * 255.0 + 0.5).Floor;
    assert 0 <= a <= 255;
    a
  }

  /** The level is the clamped factor times 255, rounded half up. */
  lemma LevelRounds(mf: real)
    ensures Level(mf) as real <= Clamp01(mf) * 255.0 + 0.5 < Level(mf) as real + 1.0
  {
  }

  /** A patch byte after masking: cleared where the mask is empty, otherwise scaled by the level. */
  function TintByte(p: Byte, m: Byte, mm: Byte): (r: Byte)
    ensures r <= p
    ensures m == 0 ==> r == 0
  {
    if m == 0 then 0 else ScaleAtMost(p, mm); Scale(p, mm)
  }

  /** Scaling never brightens a byte, and the cast to a byte loses nothing. */
  lemma ScaleAtMost(p: Byte, mm: Byte)
    ensures Scale(p, mm) == (Mul(p, mm) + 127) / 255
    ensures Scale(p, mm) <= p
  {
    MulIsProduct(p, mm);
    MulMonotone(mm, 255, p);
    var n := Mul(p, mm) + 127;
    assert n < 255 * (p + 1);
    assert n / 255 <= p;
  }

  /** A full level keeps the byte, an empty one clears it. */
  lemma ScaleEnds(p: Byte)
    ensures Scale(p, 255) == p
    ensures Scale(p, 0) == 0
  {
    MulIsProduct(p, 255);
    MulIsProduct(p, 0);
    DivModUnique(255 * p + 127, 255, p, 127);
  }

  /** Scaling is monotone in the byte scaled. */
  lemma ScaleMono(a: Byte, b: Byte, mm: Byte)
    requires a <= b
    ensures Scale(a, mm) <= Scale(b, mm)
  {
    MulIsProduct(a, mm);
    MulIsProduct(b, mm);
    MulMonotone(a, b, mm);
    ScaleAtMost(a, mm);
    ScaleAtMost(b, mm);
    DivMono(Mul(a, mm) + 127, Mul(b, mm) + 127);
  }

  lemma DivMono(n1: nat, n2: nat)
    requires n1 <= n2
    ensures n1 / 255 <= n2 / 255
  {
  }

  /** Without grain and at full strength, the level of a mask byte is the mask byte itself. */
  lemma LevelOfPlainMask(m: Byte)
    ensures Level(m as real / 255.0) == m
  {
    var mf := m as real / 255.0;
    assert mf * 255.0 == m as real;
    assert Clamp01(mf) == mf;
  }

  /**
   * Masking keeps a pixel premultiplied: a colour byte no larger than the
   * alpha byte stays no larger after both are masked with the same level.
   */
  lemma TintKeepsPremultiplied(c: Byte, alpha: Byte, m: Byte, mm: Byte)
    requires c <= alpha
    ensures TintByte(c, m, mm) <= TintByte(alpha, m, mm)
  {
    ScaleMono(c, alpha, mm);
  }

  // ---------------------------------------------------------------------
  // The whole patch
  // ---------------------------------------------------------------------

  /** The pixel that byte `j` of a PRGB32 row belongs to. */
  function PixelOf(j: nat): (x: nat)
    ensures 4 * x <= j < 4 * x + 4
  {
    if j < 4 then 0 else 1 + PixelOf(j - 4)
  }

  lemma PixelOfAt(x: nat)
    ensures forall j | 4 * x <= j < 4 * x + 4 :: PixelOf(j) == x
  {
  }

  /**
   * Patch byte `p` of pixel `x` of row `y`, masked by mask byte `x` of row
   * `y`, at the level `coverage(x, y, m)` gives for mask byte `m`.
   */
  function TintAt(mask: seq<Byte>, ms: nat, coverage: (nat, nat, Byte) -> real, y: nat, x: nat, p: Byte): Byte
    requires Mul(y, ms) + x < |mask|
  {
    var m := mask[Mul(y, ms) + x];
    TintByte(p, m, Level(coverage(x, y, m)))
  }

  /**
   * Byte `k` of the patch after the first `rows` rows are masked: inside
   * pixel `x` of row `y` it is the masked original byte; row padding and
   * later rows keep their value.
   */
  function TintedByte(mask: seq<Byte>, ms: nat, patch: seq<Byte>, ps: nat, w: nat, rows: nat,
                      coverage: (nat, nat, Byte) -> real, k: nat): (r: Byte)
    requires RowsFit(|mask|, ms, w, rows) && RowsFit(|patch|, ps, Mul(w, 4), rows) && k < |patch|
    ensures r <= patch[k]
    decreases rows
  {
    if rows == 0 then patch[k]
    else
      RowsFitFewer(|mask|, ms, w, rows, rows - 1);
      RowsFitFewer(|patch|, ps, Mul(w, 4), rows, rows - 1);
      var at := Mul(rows - 1, ps);
      if at <= k < at + 4 * w then
        RowInside(|mask|, ms, w, rows, rows - 1);
        TintAt(mask, ms, coverage, rows - 1, PixelOf(k - at), patch[k])
      else TintedByte(mask, ms, patch, ps, w, rows - 1, coverage, k)
  }

  /** The patch after the mask loop of `canvas_watercolor_fill_path`. */
  function TintImage(mask: seq<Byte>, ms: nat, patch: seq<Byte>, ps: nat, w: nat, h: nat,
                     coverage: (nat, nat, Byte) -> real): (d: seq<Byte>)
    requires RowsFit(|mask|, ms, w, h) && RowsFit(|patch|, ps, Mul(w, 4), h)
    ensures |d| == |patch|
  {
    seq(|patch|, k requires 0 <= k < |patch| => TintedByte(mask, ms, patch, ps, w, h, coverage, k))
  }

  /** Bytes at or past row `rows` are not yet masked. */
  lemma {:induction false} TintedBeyond(mask: seq<Byte>, ms: nat, patch: seq<Byte>, ps: nat, w: nat, rows: nat,
                                        coverage: (nat, nat, Byte) -> real, k: nat)
    requires RowsFit(|mask|, ms, w, rows) && RowsFit(|patch|, ps, Mul(w, 4), rows) && k < |patch|
    requires Mul(rows, ps) <= k
    ensures TintedByte(mask, ms, patch, ps, w, rows, coverage, k) == patch[k]
    decreases rows
  {
    if rows > 0 {
      RowsFitFewer(|mask|, ms, w, rows, rows - 1);
      RowsFitFewer(|patch|, ps, Mul(w, 4), rows, rows - 1);
      MulIsProduct(w, 4);
      TintedBeyond(mask, ms, patch, ps, w, rows - 1, coverage, k);
    }
  }

  /** Byte `c` of pixel `x` of row `y` is that byte masked by mask byte `x` of row `y`. */
  lemma {:induction false} TintedInside(mask: seq<Byte>, ms: nat, patch: seq<Byte>, ps: nat, w: nat, rows: nat,
                                        coverage: (nat, nat, Byte) -> real, y: nat, x: nat, c: nat)
    requires RowsFit(|mask|, ms, w, rows) && RowsFit(|patch|, ps, Mul(w, 4), rows)
    requires y < rows && x < w && c < 4
    ensures Mul(y, ms) + x < |mask| && Mul(y, ps) + 4 * x + c < |patch|
    ensures TintedByte(mask, ms, patch, ps, w, rows, coverage, Mul(y, ps) + 4 * x + c) ==
            TintAt(mask, ms, coverage, y, x, patch[Mul(y, ps) + 4 * x + c])
    decreases rows
  {
    var k := Mul(y, ps) + 4 * x + c;
    if y == rows - 1 {
      TintedLastRow(mask, ms, patch, ps, w, y, coverage, x, c);
    } else {
      var r := rows - 1;
      PixelBounds(|patch|, ps, w, rows, y, x);
      MulIsProduct(w, 4);
      MulMono(y + 1, r, ps);
      TintedEarlierRow(mask, ms, patch, ps, w, r, coverage, k);
      TintedInside(mask, ms, patch, ps, w, r, coverage, y, x, c);
      assert r + 1 == rows;
    }
  }

  /** Masking row `rows` turns its pixel bytes into masked original bytes. */
  lemma TintedLastRow(mask: seq<Byte>, ms: nat, patch: seq<Byte>, ps: nat, w: nat, rows: nat,
                      coverage: (nat, nat, Byte) -> real, x: nat, c: nat)
    requires RowsFit(|mask|, ms, w, rows + 1) && RowsFit(|patch|, ps, Mul(w, 4), rows + 1)
    requires x < w && c < 4
    ensures Mul(rows, ms) + x < |mask| && Mul(rows, ps) + 4 * x + c < |patch|
    ensures TintedByte(mask, ms, patch, ps, w, rows + 1, coverage, Mul(rows, ps) + 4 * x + c) ==
            TintAt(mask, ms, coverage, rows, x, patch[Mul(rows, ps) + 4 * x + c])
  {
    PixelBounds(|patch|, ps, w, rows + 1, rows, x);
    RowInside(|mask|, ms, w, rows + 1, rows);
    var k := Mul(rows, ps) + 4 * x + c;
    TintedNext(mask, ms, patch, ps, w, rows, coverage, k);
    PixelOfAt(x);
    assert PixelOf(k - Mul(rows, ps)) == x;
  }

  /** Masking row `rows` leaves the bytes of earlier rows as they were. */
  lemma TintedEarlierRow(mask: seq<Byte>, ms: nat, patch: seq<Byte>, ps: nat, w: nat, rows: nat,
                         coverage: (nat, nat, Byte) -> real, k: nat)
    requires RowsFit(|mask|, ms, w, rows + 1) && RowsFit(|patch|, ps, Mul(w, 4), rows + 1)
    requires k < |patch| && k < Mul(rows, ps)
    ensures RowsFit(|mask|, ms, w, rows) && RowsFit(|patch|, ps, Mul(w, 4), rows)
    ensures TintedByte(mask, ms, patch, ps, w, rows + 1, coverage, k) ==
            TintedByte(mask, ms, patch, ps, w, rows, coverage, k)
  {
    TintedNext(mask, ms, patch, ps, w, rows, coverage, k);
  }

  /** Byte `k` of the masked patch is `TintedByte` over all rows. */
  lemma TintImageAt(mask: seq<Byte>, ms: nat, patch: seq<Byte>, ps: nat, w: nat, h: nat,
                    coverage: (nat, nat, Byte) -> real, k: nat)
    requires RowsFit(|mask|, ms, w, h) && RowsFit(|patch|, ps, Mul(w, 4), h) && k < |patch|
    ensures TintImage(mask, ms, patch, ps, w, h, coverage)[k] == TintedByte(mask, ms, patch, ps, w, h, coverage, k)
  {
  }

  /** Where the mask is empty, the masked pixel is fully transparent. */
  lemma ZeroMaskClears(mask: seq<Byte>, ms: nat, patch: seq<Byte>, ps: nat, w: nat, h: nat,
                       coverage: (nat, nat, Byte) -> real, y: nat, x: nat, c: nat)
    requires RowsFit(|mask|, ms, w, h) && RowsFit(|patch|, ps, Mul(w, 4), h)
    requires y < h && x < w && c < 4
    requires Mul(y, ms) + x < |mask| && mask[Mul(y, ms) + x] == 0
    ensures Mul(y, ps) + 4 * x + c < |patch|
    ensures TintImage(mask, ms, patch, ps, w, h, coverage)[Mul(y, ps) + 4 * x + c] == 0
  {
    TintedInside(mask, ms, patch, ps, w, h, coverage, y, x, c);
    var k := Mul(y, ps) + 4 * x + c;
    TintImageAt(mask, ms, patch, ps, w, h, coverage, k);
    TintAtIs(mask, ms, coverage, y, x, 0, 0, patch[k]);
  }

  /** A fully covered pixel without grain and at full strength comes through unchanged. */
  lemma FullMaskKeeps(mask: seq<Byte>, ms: nat, patch: seq<Byte>, ps: nat, w: nat, h: nat,
                      coverage: (nat, nat, Byte) -> real, y: nat, x: nat, c: nat)
    requires RowsFit(|mask|, ms, w, h) && RowsFit(|patch|, ps, Mul(w, 4), h)
    requires y < h && x < w && c < 4 && coverage(x, y, 255) == 255 as real / 255.0
    requires Mul(y, ms) + x < |mask| && mask[Mul(y, ms) + x] == 255
    ensures Mul(y, ps) + 4 * x + c < |patch|
    ensures TintImage(mask, ms, patch, ps, w, h, coverage)[Mul(y, ps) + 4 * x + c] == patch[Mul(y, ps) + 4 * x + c]
  {
    TintedInside(mask, ms, patch, ps, w, h, coverage, y, x, c);
    TintImageAt(mask, ms, patch, ps, w, h, coverage, Mul(y, ps) + 4 * x + c);
    LevelOfPlainMask(255);
    ScaleEnds(patch[Mul(y, ps) + 4 * x + c]);
  }

  /** A premultiplied pixel stays premultiplied: no colour byte exceeds the alpha byte. */
  lemma MaskedStaysPremultiplied(mask: seq<Byte>, ms: nat, patch: seq<Byte>, ps: nat, w: nat, h: nat,
                                 coverage: (nat, nat, Byte) -> real, y: nat, x: nat, c: nat)
    requires RowsFit(|mask|, ms, w, h) && RowsFit(|patch|, ps, Mul(w, 4), h)
    requires y < h && x < w && c < 3
    requires Mul(y, ps) + 4 * x + 3 < |patch| && patch[Mul(y, ps) + 4 * x + c] <= patch[Mul(y, ps) + 4 * x + 3]
    ensures TintImage(mask, ms, patch, ps, w, h, coverage)[Mul(y, ps) + 4 * x + c] <=
            TintImage(mask, ms, patch, ps, w, h, coverage)[Mul(y, ps) + 4 * x + 3]
  {
    var i := Mul(y, ps) + 4 * x + c;
    var j := Mul(y, ps) + 4 * x + 3;
    TintedOrder(mask, ms, patch, ps, w, h, coverage, y, x, c, 3);
    TintImageAt(mask, ms, patch, ps, w, h, coverage, i);
    TintImageAt(mask, ms, patch, ps, w, h, coverage, j);
  }

  /** Two bytes of one pixel keep their order when the pixel is masked. */
  lemma TintedOrder(mask: seq<Byte>, ms: nat, patch: seq<Byte>, ps: nat, w: nat, rows: nat,
                    coverage: (nat, nat, Byte) -> real, y: nat, x: nat, c: nat, c': nat)
    requires RowsFit(|mask|, ms, w, rows) && RowsFit(|patch|, ps, Mul(w, 4), rows)
    requires y < rows && x < w && c < 4 && c' < 4
    requires Mul(y, ps) + 4 * x + 4 <= |patch| && patch[Mul(y, ps) + 4 * x + c] <= patch[Mul(y, ps) + 4 * x + c']
    ensures TintedByte(mask, ms, patch, ps, w, rows, coverage, Mul(y, ps) + 4 * x + c) <=
            TintedByte(mask, ms, patch, ps, w, rows, coverage, Mul(y, ps) + 4 * x + c')
  {
    TintedInside(mask, ms, patch, ps, w, rows, coverage, y, x, c);
    TintedInside(mask, ms, patch, ps, w, rows, coverage, y, x, c');
    TintAtMono(mask, ms, coverage, y, x, patch[Mul(y, ps) + 4 * x + c], patch[Mul(y, ps) + 4 * x + c']);
  }

  /** Masking one pixel keeps the order of its bytes. */
  lemma TintAtMono(mask: seq<Byte>, ms: nat, coverage: (nat, nat, Byte) -> real, y: nat, x: nat, a: Byte, b: Byte)
    requires Mul(y, ms) + x < |mask| && a <= b
    ensures TintAt(mask, ms, coverage, y, x, a) <= TintAt(mask, ms, coverage, y, x, b)
  {
    var m := mask[Mul(y, ms) + x];
    TintKeepsPremultiplied(a, b, m, Level(coverage(x, y, m)));
  }

  /**
   * The mask loop: every pixel of the PRGB32 `patch` is masked by the
   * byte at the same place in the A8 `mask`, in place.
   */
  method ApplyMask(mask: Image, patch: Image, coverage: (nat, nat, Byte) -> real)
    requires mask.Valid() && patch.Valid() && mask.data != patch.data
    requires mask.format == A8 && patch.format == Prgb32 && mask.w == patch.w && mask.h == patch.h
    modifies patch.data
    ensures RowsFit(mask.data.Length, mask.stride, mask.w, mask.h)
    ensures RowsFit(patch.data.Length, patch.stride, Mul(mask.w, 4), mask.h)
    ensures patch.data[..] == TintImage(mask.data[..], mask.stride, old(patch.data[..]), patch.stride, mask.w, mask.h, coverage)
  {
    var w := mask.w;
    MulOne(w);
    ghost var m := mask.data[..];
    ghost var p0 := patch.data[..];
    var y := 0;
    while y < mask.h
      invariant y <= mask.h && mask.data[..] == m
      invariant RowsFit(|m|, mask.stride, w, y) && RowsFit(|p0|, patch.stride, Mul(w, 4), y)
      invariant forall k | 0 <= k < patch.data.Length ::
                  patch.data[k] == TintedByte(m, mask.stride, p0, patch.stride, w, y, coverage, k)
    {
      RowsFitFewer(|m|, mask.stride, w, mask.h, y + 1);
      RowsFitFewer(|p0|, patch.stride, Mul(w, 4), mask.h, y + 1);
      MaskRow(mask, patch, coverage, y, m, p0);
      y := y + 1;
    }
    TintImageIs(m, mask.stride, p0, patch.stride, w, mask.h, coverage, patch.data[..]);
  }

  /** One pass of the mask loop, from the patch masked up to row `y` to the patch masked up to row `y + 1`. */
  method MaskRow(mask: Image, patch: Image, coverage: (nat, nat, Byte) -> real, y: nat, ghost m: seq<Byte>, ghost p0: seq<Byte>)
    requires mask.Valid() && patch.Valid() && mask.data != patch.data && m == mask.data[..]
    requires mask.format == A8 && patch.format == Prgb32 && mask.w == patch.w && mask.h == patch.h && y < mask.h
    requires |p0| == patch.data.Length
    requires RowsFit(|m|, mask.stride, mask.w, y) && RowsFit(|p0|, patch.stride, Mul(mask.w, 4), y)
    requires RowsFit(|m|, mask.stride, mask.w, y + 1) && RowsFit(|p0|, patch.stride, Mul(mask.w, 4), y + 1)
    requires forall k | 0 <= k < patch.data.Length ::
               patch.data[k] == TintedByte(m, mask.stride, p0, patch.stride, mask.w, y, coverage, k)
    modifies patch.data
    ensures forall k | 0 <= k < patch.data.Length ::
              patch.data[k] == TintedByte(m, mask.stride, p0, patch.stride, mask.w, y + 1, coverage, k)
  {
    ghost var before := patch.data[..];
    TintRow(mask, patch, coverage, y, m);
    TintedStep(m, mask.stride, p0, patch.stride, mask.w, y, coverage, before, patch.data[..]);
  }

  /** A patch whose every byte is masked over all rows is the masked patch. */
  lemma TintImageIs(mask: seq<Byte>, ms: nat, patch: seq<Byte>, ps: nat, w: nat, h: nat,
                    coverage: (nat, nat, Byte) -> real, d: seq<Byte>)
    requires RowsFit(|mask|, ms, w, h) && RowsFit(|patch|, ps, Mul(w, 4), h) && |d| == |patch|
    requires forall k | 0 <= k < |patch| :: d[k] == TintedByte(mask, ms, patch, ps, w, h, coverage, k)
    ensures d == TintImage(mask, ms, patch, ps, w, h, coverage)
  {
  }

  /**
   * Masking row `rows` on top of the first `rows` rows: its bytes become
   * masked original bytes, every other byte keeps its value so far.
   */
  lemma TintedNext(mask: seq<Byte>, ms: nat, patch: seq<Byte>, ps: nat, w: nat, rows: nat,
                   coverage: (nat, nat, Byte) -> real, k: nat)
    requires RowsFit(|mask|, ms, w, rows + 1) && RowsFit(|patch|, ps, Mul(w, 4), rows + 1) && k < |patch|
    ensures RowsFit(|mask|, ms, w, rows) && RowsFit(|patch|, ps, Mul(w, 4), rows)
    ensures Mul(rows, ms) + w <= |mask|
    ensures Mul(rows, ps) <= k < Mul(rows, ps) + 4 * w ==>
              TintedByte(mask, ms, patch, ps, w, rows, coverage, k) == patch[k] &&
              TintedByte(mask, ms, patch, ps, w, rows + 1, coverage, k) ==
              TintAt(mask, ms, coverage, rows, PixelOf(k - Mul(rows, ps)), patch[k])
    ensures !(Mul(rows, ps) <= k < Mul(rows, ps) + 4 * w) ==>
              TintedByte(mask, ms, patch, ps, w, rows + 1, coverage, k) ==
              TintedByte(mask, ms, patch, ps, w, rows, coverage, k)
  {
    RowsFitFewer(|mask|, ms, w, rows + 1, rows);
    RowsFitFewer(|patch|, ps, Mul(w, 4), rows + 1, rows);
    RowInside(|mask|, ms, w, rows + 1, rows);
    if Mul(rows, ps) <= k {
      TintedBeyond(mask, ms, patch, ps, w, rows, coverage, k);
    }
  }

  /** One pass of the mask loop takes the patch masked up to row `rows` to the patch masked up to row `rows + 1`. */
  lemma TintedStep(mask: seq<Byte>, ms: nat, patch: seq<Byte>, ps: nat, w: nat, rows: nat,
                   coverage: (nat, nat, Byte) -> real, before: seq<Byte>, after: seq<Byte>)
    requires RowsFit(|mask|, ms, w, rows + 1) && RowsFit(|patch|, ps, Mul(w, 4), rows + 1)
    requires RowsFit(|mask|, ms, w, rows) && RowsFit(|patch|, ps, Mul(w, 4), rows)
    requires |before| == |after| == |patch| && Mul(rows, ms) + w <= |mask|
    requires forall k | 0 <= k < |patch| :: before[k] == TintedByte(mask, ms, patch, ps, w, rows, coverage, k)
    requires forall k | Mul(rows, ps) <= k < Mul(rows, ps) + 4 * w && k < |patch| ::
               after[k] == TintAt(mask, ms, coverage, rows, PixelOf(k - Mul(rows, ps)), before[k])
    requires forall k | 0 <= k < |patch| && !(Mul(rows, ps) <= k < Mul(rows, ps) + 4 * w) :: after[k] == before[k]
    ensures forall k | 0 <= k < |patch| :: after[k] == TintedByte(mask, ms, patch, ps, w, rows + 1, coverage, k)
  {
    forall k | 0 <= k < |patch|
      ensures after[k] == TintedByte(mask, ms, patch, ps, w, rows + 1, coverage, k)
    {
      TintedNext(mask, ms, patch, ps, w, rows, coverage, k);
    }
  }

  /** One row of the mask loop. */
  method TintRow(mask: Image, patch: Image, coverage: (nat, nat, Byte) -> real, y: nat, ghost m: seq<Byte>)
    requires mask.Valid() && patch.Valid() && mask.data != patch.data && m == mask.data[..]
    requires mask.format == A8 && patch.format == Prgb32 && mask.w == patch.w && mask.h == patch.h && y < mask.h
    modifies patch.data
    ensures Mul(y, mask.stride) + mask.w <= |m| && Mul(y, patch.stride) + 4 * mask.w <= patch.data.Length
    ensures forall k | Mul(y, patch.stride) <= k < Mul(y, patch.stride) + 4 * mask.w ::
              patch.data[k] == TintAt(m, mask.stride, coverage, y, PixelOf(k - Mul(y, patch.stride)), old(patch.data[k]))
    ensures forall k | 0 <= k < patch.data.Length && !(Mul(y, patch.stride) <= k < Mul(y, patch.stride) + 4 * mask.w) ::
              patch.data[k] == old(patch.data[k])
  {
    var w := mask.w;
    MulOne(w);
    RowInside(mask.data.Length, mask.stride, w, mask.h, y);
    PixelRow(patch.data.Length, patch.stride, w, mask.h, y);
    var mrow := Mul(y, mask.stride);
    var prow := Mul(y, patch.stride);
    var x := 0;
    while x < w
      invariant x <= w
      invariant forall k | prow <= k < prow + 4 * x ::
                  patch.data[k] == TintAt(m, mask.stride, coverage, y, PixelOf(k - prow), old(patch.data[k]))
      invariant forall k | 0 <= k < patch.data.Length && !(prow <= k < prow + 4 * x) ::
                  patch.data[k] == old(patch.data[k])
    {
      MaskPixel(mask, patch, coverage, y, x, m, mrow, prow + 4 * x);
      PixelOfAt(x);
      x := x + 1;
    }
  }

  /** Pixel `x` of row `y`: its mask byte, its level, and its four bytes masked. */
  method MaskPixel(mask: Image, patch: Image, coverage: (nat, nat, Byte) -> real, y: nat, x: nat,
                   ghost m: seq<Byte>, mrow: nat, at: nat)
    requires mask.data != patch.data && m == mask.data[..]
    requires mrow == Mul(y, mask.stride) && mrow + x < mask.data.Length && at + 4 <= patch.data.Length
    modifies patch.data
    ensures forall k | at <= k < at + 4 :: patch.data[k] == TintAt(m, mask.stride, coverage, y, x, old(patch.data[k]))
    ensures forall k | 0 <= k < patch.data.Length && !(at <= k < at + 4) :: patch.data[k] == old(patch.data[k])
  {
    var mv := mask.data[mrow + x];
    var mm: Byte := 0;
    if mv != 0 {
      mm := Level(coverage(x, y, mv));
    }
    forall p: Byte
      ensures TintAt(m, mask.stride, coverage, y, x, p) == TintByte(p, mv, mm)
    {
      TintAtIs(m, mask.stride, coverage, y, x, mv, mm, p);
    }
    TintPixel(patch.data, at, mv, mm);
  }

  /** Masking pixel `x` of row `y` is `TintByte` with that pixel's mask byte and level. */
  lemma TintAtIs(m: seq<Byte>, ms: nat, coverage: (nat, nat, Byte) -> real, y: nat, x: nat, mv: Byte, mm: Byte, p: Byte)
    requires Mul(y, ms) + x < |m| && mv == m[Mul(y, ms) + x]
    requires mv != 0 ==> mm == Level(coverage(x, y, mv))
    ensures TintAt(m, ms, coverage, y, x, p) == TintByte(p, mv, mm)
  {
    var lv := Level(coverage(x, y, mv));
    assert TintAt(m, ms, coverage, y, x, p) == TintByte(p, mv, lv);
  }

  /** The four bytes of one pixel: cleared when the mask byte is zero, otherwise scaled. */
  method TintPixel(a: array<Byte>, at: nat, mv: Byte, mm: Byte)
    requires at + 4 <= a.Length
    modifies a
    ensures forall k | at <= k < at + 4 :: a[k] == TintByte(old(a[k]), mv, mm)
    ensures forall k | 0 <= k < a.Length && !(at <= k < at + 4) :: a[k] == old(a[k])
  {
    if mv == 0 {
      a[at + 0] := 0;
      a[at + 1] := 0;
      a[at + 2] := 0;
      a[at + 3] := 0;
      return;
    }
    a[at + 0] := Scale(a[at + 0], mm);
    a[at + 1] := Scale(a[at + 1], mm);
    a[at + 2] := Scale(a[at + 2], mm);
    a[at + 3] := Scale(a[at + 3], mm);
  }
}

/**
 * The pixel loops of the image functions: the A8 mask built from one
 * channel (or the luma) of a PRGB32 image, the BGRA to RGBA reordering
 * into a tight buffer of `image_decode_qoi`, and the deep copy that
 * `image_blur` makes before blurring.
 *
 * A PRGB32 pixel is stored as the bytes B, G, R, A. Rows are `stride`
 * bytes apart; a row's pixels are its first `w * 4` (or `w`) bytes.
 */
module ImageOps {
  import opened Common
  import opened Arith
  import opened Terms
  import opened BlurImage

  // ---------------------------------------------------------------------
  // The mask of image_read_mask_from_data
  // ---------------------------------------------------------------------

  /** What a mask byte is taken from: one byte of the pixel, or its luma. */
  datatype MaskSource = Channel(index: nat) | Luma

  /** The channel atoms and the byte of a BGRA pixel each one names. */
  function MaskSourceOf(name: string): (r: Option<MaskSource>)
    ensures r == Some(Channel(2)) <==> name == "red"
    ensures r == Some(Channel(1)) <==> name == "green"
    ensures r == Some(Channel(0)) <==> name == "blue"
    ensures r == Some(Channel(3)) <==> name == "alpha"
    ensures r == Some(Luma) <==> name == "luma"
    ensures r.None? <==> name !in {"red", "green", "blue", "alpha", "luma"}
  {
    if name == "red" then Some(Channel(2))
    else if name == "green" then Some(Channel(1))
    else if name == "blue" then Some(Channel(0))
    else if name == "alpha" then Some(Channel(3))
    else if name == "luma" then Some(Luma)
    else None
  }

  /**
   * The source of the mask for `argc` arguments: red when no channel is
   * given, else the atom (read into a 16-byte buffer) must name one.
   */
  function MaskSourceArg(argc: int, chanTerm: Term): (r: Option<MaskSource>)
    ensures argc != 2 ==> r == Some(Channel(2))
    ensures argc == 2 && GetAtom(chanTerm, 16).None? ==> r.None?
    ensures argc == 2 && GetAtom(chanTerm, 16).Some? ==> r == MaskSourceOf(chanTerm.name)
    ensures r.Some? && r.value.Channel? ==> r.value.index < 4
  {
    if argc == 2 then
      match GetAtom(chanTerm, 16)
      case None => None
      case Some(name) => MaskSourceOf(name)
    else Some(Channel(2))
  }

  /**
   * `(54 * r + 183 * g + 19 * b) >> 8`: the integer luma. The weights add
   * up to 256, so it is a weighted mean of the three channels.
   */
  function LumaOf(r: Byte, g: Byte, b: Byte): (l: int)
    ensures 0 <= l <= 255
  {
    (54 * r + 183 * g + 19 * b) / 256
  }

  /** The luma lies between the smallest and the largest channel, so it fits a byte. */
  lemma {:induction false} LumaBetween(r: Byte, g: Byte, b: Byte, lo: int, hi: int)
    requires lo <= r <= hi && lo <= g <= hi && lo <= b <= hi
    ensures lo <= LumaOf(r, g, b) <= hi
  {
    var s := 54 * r + 183 * g + 19 * b;
    assert 256 * lo <= s <= 256 * hi;
    DivModUnique(s, 256, s / 256, s % 256);
  }

  /** A gray pixel's luma is its gray level. */
  lemma {:induction false} LumaOfGray(v: Byte)
    ensures LumaOf(v, v, v) == v
  {
    LumaBetween(v, v, v, v, v);
  }

  /** Luma grows with each channel. */
  lemma {:induction false} LumaMonotone(r: Byte, g: Byte, b: Byte, r': Byte, g': Byte, b': Byte)
    requires r <= r' && g <= g' && b <= b'
    ensures LumaOf(r, g, b) <= LumaOf(r', g', b')
  {
    var s, s' := 54 * r + 183 * g + 19 * b, 54 * r' + 183 * g' + 19 * b';
    assert s <= s';
  }

  /**
   * The mask byte of the BGRA pixel stored at byte `k` of `data`: the
   * weighted luma of its red, green and blue bytes, or the one byte
   * the channel selects.
   */
  function MaskAt(data: seq<Byte>, k: nat, src: MaskSource): (m: Byte)
    requires k + 4 <= |data| && (src.Channel? ==> src.index < 4)
  {
    if src.Luma? then
      LumaBetween(data[k + 2], data[k + 1], data[k], 0, 255);
      LumaOf(data[k + 2], data[k + 1], data[k])
    else data[k + src.index]
  }

  lemma {:induction false} MulOne(w: nat)
    ensures Mul(w, 1) == w
  {
    MulIsProduct(w, 1);
  }

  /** Row `y` of `h` rows of `w` items ends inside the buffer. */
  lemma {:induction false} RowEnd(y: nat, h: nat, w: nat)
    requires y < h
    ensures Mul(y, w) + w <= Mul(h, w)
  {
    MulMono(y + 1, h, w);
  }

  /** Pixel `x` of row `y` lies inside the image and inside a tight buffer of `h * w` pixels. */
  lemma {:induction false} PixelBounds(len: nat, stride: nat, w: nat, h: nat, y: nat, x: nat)
    requires RowsFit(len, stride, Mul(w, 4), h) && y < h && x < w
    ensures Mul(y, stride) + 4 * x + 4 <= len && Mul(y, w) + x < Mul(h, w)
  {
    RowEnd(y, h, w);
    RowInside(len, stride, Mul(w, 4), h, y);
    MulIsProduct(w, 4);
  }

  /** Row `y` of a PRGB32 image: its `w * 4` pixel bytes start at `y * stride`. */
  lemma {:induction false} PixelRow(len: nat, stride: nat, w: nat, h: nat, y: nat)
    requires RowsFit(len, stride, Mul(w, 4), h) && y < h
    ensures Mul(y, stride) + 4 * w <= len
  {
    RowInside(len, stride, Mul(w, 4), h, y);
    MulIsProduct(w, 4);
  }

  /**
   * Byte `k` of the A8 buffer `dst` after the mask of the first `rows`
   * rows of the PRGB32 buffer `src` is written into it: inside row `y`
   * of `dst`, byte `y * dStride + x` is the mask of pixel `x` of row `y`
   * of `src`; every other byte keeps its value.
   */
  function MaskedByte(src: seq<Byte>, sStride: nat, dst: seq<Byte>, dStride: nat, w: nat, rows: nat,
                      sel: MaskSource, k: nat): Byte
    requires RowsFit(|src|, sStride, Mul(w, 4), rows) && RowsFit(|dst|, dStride, w, rows) && k < |dst|
    requires sel.Channel? ==> sel.index < 4
    decreases rows
  {
    if rows == 0 then dst[k]
    else
      RowsFitFewer(|src|, sStride, Mul(w, 4), rows, rows - 1);
      RowsFitFewer(|dst|, dStride, w, rows, rows - 1);
      var at := Mul(rows - 1, dStride);
      if at <= k < at + w then
        PixelRow(|src|, sStride, w, rows, rows - 1);
        MaskAt(src, Mul(rows - 1, sStride) + 4 * (k - at), sel)
      else MaskedByte(src, sStride, dst, dStride, w, rows - 1, sel, k)
  }

  /**
   * What `image_read_mask_from_data` leaves in the A8 buffer `dst`: the
   * first `w` bytes of each of its `h` rows replaced by the mask of the
   * same row of the PRGB32 buffer `src`, every other byte as it was.
   */
  function MaskImage(src: seq<Byte>, sStride: nat, dst: seq<Byte>, dStride: nat, w: nat, h: nat,
                     sel: MaskSource): (d: seq<Byte>)
    requires RowsFit(|src|, sStride, Mul(w, 4), h) && RowsFit(|dst|, dStride, w, h)
    requires sel.Channel? ==> sel.index < 4
    ensures |d| == |dst|
  {
    seq(|dst|, k requires 0 <= k < |dst| => MaskedByte(src, sStride, dst, dStride, w, h, sel, k))
  }

  /** Mask byte `x` of row `y` is the mask of pixel `x` of row `y` of the source. */
  lemma {:induction false} MaskedInside(src: seq<Byte>, sStride: nat, dst: seq<Byte>, dStride: nat, w: nat,
                                        rows: nat, sel: MaskSource, y: nat, x: nat)
    requires RowsFit(|src|, sStride, Mul(w, 4), rows) && RowsFit(|dst|, dStride, w, rows)
    requires sel.Channel? ==> sel.index < 4
    requires y < rows && x < w
    ensures Mul(y, sStride) + 4 * x + 4 <= |src| && Mul(y, dStride) + x < |dst|
    ensures MaskedByte(src, sStride, dst, dStride, w, rows, sel, Mul(y, dStride) + x) ==
            MaskAt(src, Mul(y, sStride) + 4 * x, sel)
    decreases rows
  {
    PixelBounds(|src|, sStride, w, rows, y, x);
    RowInside(|dst|, dStride, w, rows, y);
    if y < rows - 1 {
      RowsFitFewer(|src|, sStride, Mul(w, 4), rows, rows - 1);
      RowsFitFewer(|dst|, dStride, w, rows, rows - 1);
      MulMono(y + 1, rows - 1, dStride);
      MaskedInside(src, sStride, dst, dStride, w, rows - 1, sel, y, x);
    }
  }

  /** Bytes outside the leading `w` bytes of the first `rows` rows (the row padding) keep their value. */
  lemma {:induction false} MaskedOutside(src: seq<Byte>, sStride: nat, dst: seq<Byte>, dStride: nat, w: nat,
                                         rows: nat, sel: MaskSource, k: nat)
    requires RowsFit(|src|, sStride, Mul(w, 4), rows) && RowsFit(|dst|, dStride, w, rows) && k < |dst|
    requires sel.Channel? ==> sel.index < 4
    ensures !InRows(dStride, w, rows, k) ==> MaskedByte(src, sStride, dst, dStride, w, rows, sel, k) == dst[k]
    decreases rows
  {
    if rows > 0 {
      RowsFitFewer(|src|, sStride, Mul(w, 4), rows, rows - 1);
      RowsFitFewer(|dst|, dStride, w, rows, rows - 1);
      var at := Mul(rows - 1, dStride);
      if at <= k < at + w {
        assert InRows(dStride, w, rows, k);
      } else {
        MaskedOutside(src, sStride, dst, dStride, w, rows - 1, sel, k);
        if InRows(dStride, w, rows - 1, k) {
          var y: nat :| y < rows - 1 && Mul(y, dStride) <= k < Mul(y, dStride) + w;
          assert InRows(dStride, w, rows, k);
        }
      }
    }
  }

  /** Mask pixel `x` of row `y` is the mask byte of pixel `x` of row `y` of the source. */
  lemma {:induction false} MaskImageAt(src: seq<Byte>, sStride: nat, dst: seq<Byte>, dStride: nat, w: nat, h: nat,
                                       sel: MaskSource, y: nat, x: nat)
    requires RowsFit(|src|, sStride, Mul(w, 4), h) && RowsFit(|dst|, dStride, w, h)
    requires sel.Channel? ==> sel.index < 4
    requires y < h && x < w
    ensures Mul(y, sStride) + 4 * x + 4 <= |src| && Mul(y, dStride) + x < |dst|
    ensures MaskImage(src, sStride, dst, dStride, w, h, sel)[Mul(y, dStride) + x] ==
            MaskAt(src, Mul(y, sStride) + 4 * x, sel)
  {
    MaskedInside(src, sStride, dst, dStride, w, h, sel, y, x);
  }

  /** Bytes outside the mask rows (the row padding) keep their value. */
  lemma {:induction false} MaskImageOutside(src: seq<Byte>, sStride: nat, dst: seq<Byte>, dStride: nat, w: nat, h: nat,
                                            sel: MaskSource, k: nat)
    requires RowsFit(|src|, sStride, Mul(w, 4), h) && RowsFit(|dst|, dStride, w, h)
    requires sel.Channel? ==> sel.index < 4
    requires k < |dst| && !InRows(dStride, w, h, k)
    ensures MaskImage(src, sStride, dst, dStride, w, h, sel)[k] == dst[k]
  {
    MaskedOutside(src, sStride, dst, dStride, w, h, sel, k);
  }

  /** The luma mask of a gray image is the gray image itself. */
  lemma {:induction false} MaskImageGray(src: seq<Byte>, sStride: nat, dst: seq<Byte>, dStride: nat, w: nat, h: nat,
                                         y: nat, x: nat)
    requires RowsFit(|src|, sStride, Mul(w, 4), h) && RowsFit(|dst|, dStride, w, h)
    requires y < h && x < w
    requires Mul(y, sStride) + 4 * x + 4 <= |src|
    requires src[Mul(y, sStride) + 4 * x] == src[Mul(y, sStride) + 4 * x + 1] == src[Mul(y, sStride) + 4 * x + 2]
    ensures Mul(y, dStride) + x < |dst|
    ensures MaskImage(src, sStride, dst, dStride, w, h, Luma)[Mul(y, dStride) + x] == src[Mul(y, sStride) + 4 * x]
  {
    MaskImageAt(src, sStride, dst, dStride, w, h, Luma, y, x);
    LumaOfGray(src[Mul(y, sStride) + 4 * x]);
  }

  /**
   * The nested loop of `image_read_mask_from_data`: every row of the A8
   * image `dst` receives the mask of the same row of the PRGB32 `src`.
   */
  method ExtractMask(src: Image, dst: Image, sel: MaskSource)
    requires src.Valid() && dst.Valid() && src.data != dst.data
    requires src.format == Prgb32 && dst.format == A8 && src.w == dst.w && src.h == dst.h
    requires sel.Channel? ==> sel.index < 4
    modifies dst.data
    ensures RowsFit(dst.data.Length, dst.stride, src.w, src.h)
    ensures dst.data[..] == MaskImage(src.data[..], src.stride, old(dst.data[..]), dst.stride, src.w, src.h, sel)
  {
    var w := src.w;
    MulOne(w);
    ghost var s := src.data[..];
    ghost var d0 := dst.data[..];
    var y := 0;
    while y < src.h
      invariant y <= src.h && src.data[..] == s
      invariant RowsFit(dst.data.Length, dst.stride, w, y) && RowsFit(|s|, src.stride, Mul(w, 4), y)
      invariant forall k | 0 <= k < dst.data.Length :: dst.data[k] == MaskedByte(s, src.stride, d0, dst.stride, w, y, sel, k)
    {
      RowsFitFewer(dst.data.Length, dst.stride, w, src.h, y + 1);
      RowsFitFewer(|s|, src.stride, Mul(w, 4), src.h, y + 1);
      MaskRowInto(src, dst, sel, y, s);
      y := y + 1;
    }
  }

  /** One row of the mask loop: byte `x` of row `y` of `dst` becomes the mask of pixel `x` of row `y` of `src`. */
  method MaskRowInto(src: Image, dst: Image, sel: MaskSource, y: nat, ghost s: seq<Byte>)
    requires src.Valid() && dst.Valid() && src.data != dst.data && s == src.data[..]
    requires src.format == Prgb32 && dst.format == A8 && src.w == dst.w && src.h == dst.h && y < src.h
    requires sel.Channel? ==> sel.index < 4
    modifies dst.data
    ensures Mul(y, src.stride) + 4 * src.w <= |s| && Mul(y, dst.stride) + src.w <= dst.data.Length
    ensures forall k | Mul(y, dst.stride) <= k < Mul(y, dst.stride) + src.w ::
              dst.data[k] == MaskAt(s, Mul(y, src.stride) + 4 * (k - Mul(y, dst.stride)), sel)
    ensures forall k | 0 <= k < dst.data.Length && !(Mul(y, dst.stride) <= k < Mul(y, dst.stride) + src.w) ::
              dst.data[k] == old(dst.data[k])
  {
    var w := src.w;
    MulOne(w);
    RowInside(dst.data.Length, dst.stride, w, src.h, y);
    PixelRow(src.data.Length, src.stride, w, src.h, y);
    var srow := Mul(y, src.stride);
    var drow := Mul(y, dst.stride);
    var x := 0;
    while x < w
      invariant x <= w
      invariant forall k | drow <= k < drow + x :: dst.data[k] == MaskAt(s, srow + 4 * (k - drow), sel)
      invariant forall k | 0 <= k < dst.data.Length && !(drow <= k < drow + x) :: dst.data[k] == old(dst.data[k])
    {
      var m: Byte;
      if sel.Luma? {
        var b := src.data[srow + x * 4 + 0];
        var g := src.data[srow + x * 4 + 1];
        var r8 := src.data[srow + x * 4 + 2];
        LumaBetween(r8, g, b, 0, 255);
        m := LumaOf(r8, g, b);
      } else {
        m := src.data[srow + x * 4 + sel.index];
      }
      assert m == MaskAt(s, srow + 4 * ((drow + x) - drow), sel);
      dst.data[drow + x] := m;
      x := x + 1;
    }
  }

  // ---------------------------------------------------------------------
  // The RGBA reordering of image_decode_qoi
  // ---------------------------------------------------------------------

  /** Byte `c` of an RGBA pixel is byte `Swizzle(c)` of the BGRA one. */
  function Swizzle(c: nat): (k: nat)
    requires c < 4
    ensures k < 4
  {
    if c == 0 then 2 else if c == 2 then 0 else c
  }

  /** The reordering swaps two bytes, so applying it twice is the identity. */
  lemma {:induction false} SwizzleTwice(c: nat)
    requires c < 4
    ensures Swizzle(Swizzle(c)) == c && (c == 1 || c == 3 <==> Swizzle(c) == c)
  {
  }

  /**
   * Where byte `j` of a row of `w` RGBA pixels comes from in the BGRA
   * row: the first and third byte of each 4-byte pixel trade places.
   */
  function SwapIndex(w: nat, j: nat): (k: nat)
    requires j < 4 * w
    ensures k < 4 * w
    decreases j
  {
    if j < 4 then Swizzle(j) else SwapIndex(w - 1, j - 4) + 4
  }

  /** Byte `c` of pixel `x` comes from byte `Swizzle(c)` of the same pixel. */
  lemma {:induction false} SwapIndexAt(w: nat, x: nat, c: nat)
    requires x < w && c < 4
    ensures SwapIndex(w, 4 * x + c) == 4 * x + Swizzle(c)
  {
    if x > 0 {
      SwapIndexAt(w - 1, x - 1, c);
    }
  }

  /** Reordering twice gives the pixel back: the reordering loses nothing. */
  lemma {:induction false} SwapIndexTwice(w: nat, j: nat)
    requires j < 4 * w
    ensures SwapIndex(w, SwapIndex(w, j)) == j
    decreases j
  {
    if j < 4 {
      SwizzleTwice(j);
    } else {
      SwapIndexTwice(w - 1, j - 4);
    }
  }

  /**
   * Byte `i` of the tight RGBA buffer `image_decode_qoi` returns for the
   * first `rows` rows of a PRGB32 image: byte `j` of row `y` sits at
   * `y * w * 4 + j` and comes from byte `SwapIndex(w, j)` of row `y`.
   */
  function RgbaByte(data: seq<Byte>, stride: nat, w: nat, rows: nat, i: nat): Byte
    requires RowsFit(|data|, stride, 4 * w, rows) && i < Mul(rows, 4 * w)
    decreases rows
  {
    RowsFitFewer(|data|, stride, 4 * w, rows, rows - 1);
    var at := Mul(rows - 1, 4 * w);
    if at <= i then
      RowInside(|data|, stride, 4 * w, rows, rows - 1);
      data[Mul(rows - 1, stride) + SwapIndex(w, i - at)]
    else RgbaByte(data, stride, w, rows - 1, i)
  }

  /** The tight RGBA buffer of the first `h` rows of a PRGB32 image. */
  function Rgba(data: seq<Byte>, stride: nat, w: nat, h: nat): (out: seq<Byte>)
    requires RowsFit(|data|, stride, 4 * w, h)
    ensures |out| == Mul(h, 4 * w)
  {
    seq(Mul(h, 4 * w), i requires 0 <= i < Mul(h, 4 * w) => RgbaByte(data, stride, w, h, i))
  }

  /**
   * Byte `c` of pixel `x` of row `y` of the result is byte `Swizzle(c)`
   * of the same pixel of the image: rows `w * 4` bytes apart, red first.
   */
  lemma {:induction false} RgbaByteAt(data: seq<Byte>, stride: nat, w: nat, rows: nat, y: nat, x: nat, c: nat)
    requires RowsFit(|data|, stride, 4 * w, rows) && y < rows && x < w && c < 4
    ensures Mul(y, 4 * w) + 4 * x + c < Mul(rows, 4 * w) && Mul(y, stride) + 4 * x + 4 <= |data|
    ensures RgbaByte(data, stride, w, rows, Mul(y, 4 * w) + 4 * x + c) == data[Mul(y, stride) + 4 * x + Swizzle(c)]
    decreases rows
  {
    RowEnd(y, rows, 4 * w);
    RowInside(|data|, stride, 4 * w, rows, y);
    SwapIndexAt(w, x, c);
    if y < rows - 1 {
      RowsFitFewer(|data|, stride, 4 * w, rows, rows - 1);
      RowEnd(y, rows - 1, 4 * w);
      RgbaByteAt(data, stride, w, rows - 1, y, x, c);
    }
  }

  /** The result, read back through the reordering, gives every pixel byte of the image. */
  lemma {:induction false} RgbaAt(data: seq<Byte>, stride: nat, w: nat, h: nat, y: nat, x: nat, c: nat)
    requires RowsFit(|data|, stride, 4 * w, h) && y < h && x < w && c < 4
    ensures Mul(y, 4 * w) + 4 * x + Swizzle(c) < Mul(h, 4 * w) && Mul(y, stride) + 4 * x + c < |data|
    ensures Rgba(data, stride, w, h)[Mul(y, 4 * w) + 4 * x + Swizzle(c)] == data[Mul(y, stride) + 4 * x + c]
  {
    RgbaByteAt(data, stride, w, h, y, x, Swizzle(c));
    SwizzleTwice(c);
  }

  /** The rows of a PRGB32 image are `4 * w` bytes long. */
  lemma {:induction false} PrgbRows(len: nat, stride: nat, w: nat, h: nat)
    requires RowsFit(len, stride, Mul(w, 4), h)
    ensures RowsFit(len, stride, 4 * w, h)
  {
    MulIsProduct(w, 4);
  }

  /**
   * The loop of `image_decode_qoi`: a new buffer of `w * 4 * h` bytes
   * holding the image's rows, without padding, each pixel reordered to RGBA.
   */
  method SwapToRgba(src: Image) returns (out: array<Byte>)
    requires src.Valid() && src.format == Prgb32
    ensures RowsFit(src.data.Length, src.stride, 4 * src.w, src.h)
    ensures fresh(out)
    ensures out[..] == Rgba(src.data[..], src.stride, src.w, src.h)
  {
    var rowBytes := 4 * src.w;
    PrgbRows(src.data.Length, src.stride, src.w, src.h);
    ghost var q := Rgba(src.data[..], src.stride, src.w, src.h);
    out := new Byte[Mul(src.h, rowBytes)];
    var y := 0;
    while y < src.h
      invariant y <= src.h && Mul(y, rowBytes) <= out.Length
      invariant forall i | 0 <= i < Mul(y, rowBytes) :: out[i] == q[i]
    {
      SwapRowInto(src, out, y, q);
      y := y + 1;
    }
  }

  /** One row of the reordering loop: row `y` of `out` receives row `y` of the image, red first. */
  method SwapRowInto(src: Image, out: array<Byte>, y: nat, ghost q: seq<Byte>)
    requires src.Valid() && src.format == Prgb32 && src.data != out && y < src.h
    requires RowsFit(src.data.Length, src.stride, 4 * src.w, src.h)
    requires q == Rgba(src.data[..], src.stride, src.w, src.h) && out.Length == |q|
    requires Mul(y, 4 * src.w) <= |q|
    requires forall i | 0 <= i < Mul(y, 4 * src.w) :: out[i] == q[i]
    modifies out
    ensures Mul(y + 1, 4 * src.w) <= out.Length
    ensures forall i | 0 <= i < Mul(y + 1, 4 * src.w) :: out[i] == q[i]
  {
    var rowBytes := 4 * src.w;
    RowEnd(y, src.h, rowBytes);
    var srcRow := Mul(y, src.stride);
    var dstRow := Mul(y, rowBytes);
    var x := 0;
    while x < src.w
      invariant x <= src.w
      invariant forall i | 0 <= i < dstRow + 4 * x :: out[i] == q[i]
    {
      RgbaPixel(src.data[..], src.stride, src.w, src.h, y, x, q);
      var b := src.data[srcRow + x * 4 + 0];
      var g := src.data[srcRow + x * 4 + 1];
      var r8 := src.data[srcRow + x * 4 + 2];
      var a := src.data[srcRow + x * 4 + 3];
      out[dstRow + x * 4 + 0] := r8;
      out[dstRow + x * 4 + 1] := g;
      out[dstRow + x * 4 + 2] := b;
      out[dstRow + x * 4 + 3] := a;
      x := x + 1;
    }
  }

  /** The four bytes the loop writes for pixel `x` of row `y` are those of the specification. */
  lemma {:induction false} RgbaPixel(s: seq<Byte>, stride: nat, w: nat, h: nat, y: nat, x: nat, q: seq<Byte>)
    requires RowsFit(|s|, stride, 4 * w, h) && y < h && x < w
    requires q == Rgba(s, stride, w, h)
    ensures Mul(y, stride) + 4 * x + 4 <= |s| && Mul(y, 4 * w) + 4 * x + 4 <= |q|
    ensures q[Mul(y, 4 * w) + 4 * x] == s[Mul(y, stride) + 4 * x + 2]
    ensures q[Mul(y, 4 * w) + 4 * x + 1] == s[Mul(y, stride) + 4 * x + 1]
    ensures q[Mul(y, 4 * w) + 4 * x + 2] == s[Mul(y, stride) + 4 * x]
    ensures q[Mul(y, 4 * w) + 4 * x + 3] == s[Mul(y, stride) + 4 * x + 3]
  {
    RgbaByteAt(s, stride, w, h, y, x, 0);
    RgbaByteAt(s, stride, w, h, y, x, 1);
    RgbaByteAt(s, stride, w, h, y, x, 2);
    RgbaByteAt(s, stride, w, h, y, x, 3);
  }

  // ---------------------------------------------------------------------
  // The deep copy of image_blur
  // ---------------------------------------------------------------------

  /**
   * Byte `k` of `dst` after the first `rowBytes` bytes of each of its
   * first `rows` rows are copied from the same row of `src`.
   */
  function CopiedByte(src: seq<Byte>, sStride: nat, dst: seq<Byte>, dStride: nat, rowBytes: nat, rows: nat,
                      k: nat): Byte
    requires RowsFit(|src|, sStride, rowBytes, rows) && RowsFit(|dst|, dStride, rowBytes, rows) && k < |dst|
    decreases rows
  {
    if rows == 0 then dst[k]
    else
      RowsFitFewer(|src|, sStride, rowBytes, rows, rows - 1);
      RowsFitFewer(|dst|, dStride, rowBytes, rows, rows - 1);
      var at := Mul(rows - 1, dStride);
      if at <= k < at + rowBytes then
        RowInside(|src|, sStride, rowBytes, rows, rows - 1);
        src[Mul(rows - 1, sStride) + (k - at)]
      else CopiedByte(src, sStride, dst, dStride, rowBytes, rows - 1, k)
  }

  /** `dst` with the leading `rowBytes` bytes of its first `rows` rows copied from `src`. */
  function Copied(src: seq<Byte>, sStride: nat, dst: seq<Byte>, dStride: nat, rowBytes: nat, rows: nat): (d: seq<Byte>)
    requires RowsFit(|src|, sStride, rowBytes, rows) && RowsFit(|dst|, dStride, rowBytes, rows)
    ensures |d| == |dst|
  {
    seq(|dst|, k requires 0 <= k < |dst| => CopiedByte(src, sStride, dst, dStride, rowBytes, rows, k))
  }

  /** Byte `j` of row `y` of the copy is byte `j` of row `y` of the source. */
  lemma {:induction false} CopiedInside(src: seq<Byte>, sStride: nat, dst: seq<Byte>, dStride: nat, rowBytes: nat,
                                        rows: nat, y: nat, j: nat)
    requires RowsFit(|src|, sStride, rowBytes, rows) && RowsFit(|dst|, dStride, rowBytes, rows)
    requires y < rows && j < rowBytes
    ensures Mul(y, sStride) + j < |src| && Mul(y, dStride) + j < |dst|
    ensures Copied(src, sStride, dst, dStride, rowBytes, rows)[Mul(y, dStride) + j] == src[Mul(y, sStride) + j]
  {
    CopiedByteInside(src, sStride, dst, dStride, rowBytes, rows, y, j);
  }

  lemma {:induction false} CopiedByteInside(src: seq<Byte>, sStride: nat, dst: seq<Byte>, dStride: nat, rowBytes: nat,
                                            rows: nat, y: nat, j: nat)
    requires RowsFit(|src|, sStride, rowBytes, rows) && RowsFit(|dst|, dStride, rowBytes, rows)
    requires y < rows && j < rowBytes
    ensures Mul(y, sStride) + j < |src| && Mul(y, dStride) + j < |dst|
    ensures CopiedByte(src, sStride, dst, dStride, rowBytes, rows, Mul(y, dStride) + j) == src[Mul(y, sStride) + j]
    decreases rows
  {
    RowInside(|src|, sStride, rowBytes, rows, y);
    RowInside(|dst|, dStride, rowBytes, rows, y);
    if y < rows - 1 {
      RowsFitFewer(|src|, sStride, rowBytes, rows, rows - 1);
      RowsFitFewer(|dst|, dStride, rowBytes, rows, rows - 1);
      MulMono(y + 1, rows - 1, dStride);
      CopiedByteInside(src, sStride, dst, dStride, rowBytes, rows - 1, y, j);
    }
  }

  /** Bytes outside the copied part of the rows (the row padding) keep their value. */
  lemma {:induction false} CopiedOutside(src: seq<Byte>, sStride: nat, dst: seq<Byte>, dStride: nat, rowBytes: nat,
                                         rows: nat, k: nat)
    requires RowsFit(|src|, sStride, rowBytes, rows) && RowsFit(|dst|, dStride, rowBytes, rows) && k < |dst|
    requires !InRows(dStride, rowBytes, rows, k)
    ensures Copied(src, sStride, dst, dStride, rowBytes, rows)[k] == dst[k]
  {
    CopiedByteOutside(src, sStride, dst, dStride, rowBytes, rows, k);
  }

  lemma {:induction false} CopiedByteOutside(src: seq<Byte>, sStride: nat, dst: seq<Byte>, dStride: nat, rowBytes: nat,
                                             rows: nat, k: nat)
    requires RowsFit(|src|, sStride, rowBytes, rows) && RowsFit(|dst|, dStride, rowBytes, rows) && k < |dst|
    ensures !InRows(dStride, rowBytes, rows, k) ==> CopiedByte(src, sStride, dst, dStride, rowBytes, rows, k) == dst[k]
    decreases rows
  {
    if rows > 0 {
      RowsFitFewer(|src|, sStride, rowBytes, rows, rows - 1);
      RowsFitFewer(|dst|, dStride, rowBytes, rows, rows - 1);
      var at := Mul(rows - 1, dStride);
      if at <= k < at + rowBytes {
        assert InRows(dStride, rowBytes, rows, k);
      } else {
        CopiedByteOutside(src, sStride, dst, dStride, rowBytes, rows - 1, k);
        if InRows(dStride, rowBytes, rows - 1, k) {
          var y: nat :| y < rows - 1 && Mul(y, dStride) <= k < Mul(y, dStride) + rowBytes;
          assert InRows(dStride, rowBytes, rows, k);
        }
      }
    }
  }

  /** The straight copy of `image_blur`: one `memcpy` of `rowBytes` bytes per row. */
  method CopyRows(src: array<Byte>, sStride: nat, dst: array<Byte>, dStride: nat, rowBytes: nat, rows: nat)
    requires src != dst && RowsFit(src.Length, sStride, rowBytes, rows) && RowsFit(dst.Length, dStride, rowBytes, rows)
    modifies dst
    ensures dst[..] == Copied(src[..], sStride, old(dst[..]), dStride, rowBytes, rows)
  {
    ghost var s := src[..];
    ghost var d0 := dst[..];
    var y := 0;
    while y < rows
      invariant y <= rows && RowsFit(|s|, sStride, rowBytes, y) && RowsFit(|d0|, dStride, rowBytes, y)
      invariant forall k | 0 <= k < dst.Length :: dst[k] == CopiedByte(s, sStride, d0, dStride, rowBytes, y, k)
    {
      RowInside(src.Length, sStride, rowBytes, rows, y);
      RowInside(dst.Length, dStride, rowBytes, rows, y);
      RowsFitFewer(src.Length, sStride, rowBytes, rows, y + 1);
      RowsFitFewer(dst.Length, dStride, rowBytes, rows, y + 1);
      CopyBytes(src, Mul(y, sStride), dst, Mul(y, dStride), rowBytes);
      y := y + 1;
    }
  }

  // ---------------------------------------------------------------------
  // The native functions
  // ---------------------------------------------------------------------

  /** What the image functions hand back to the caller. */
  datatype Reply =
    | ImageOk(image: Image)
    | QoiOk(width: nat, height: nat, rgba: seq<Byte>)
    | Error(reason: string)
    | BadArg

  /**
   * `image_read_mask_from_data(Binary [, Channel])`. The codec, the
   * conversion and the allocation are outside the model and come in as
   * their outcomes: `decoded` is the image read from the binary (`None`
   * when reading fails), `converted` its PRGB32 conversion (asked for only
   * when the decoded image is not PRGB32), `mask` the new A8 image, and
   * `srcDataOk`, `dstDataOk` whether `get_data` succeeds on each.
   */
  method ReadMaskFromData(argc: int, binTerm: Term, chanTerm: Term, decoded: Option<Image>,
                          converted: Option<Image>, srcDataOk: bool, mask: Option<Image>, dstDataOk: bool)
    returns (r: Reply)
    requires decoded.Some? ==> decoded.value.Valid()
    requires converted.Some? ==> converted.value.Valid() && converted.value.format == Prgb32
    requires decoded.Some? && converted.Some? ==>
               converted.value.w == decoded.value.w && converted.value.h == decoded.value.h
    requires mask.Some? ==> mask.value.Valid() && mask.value.format == A8
    requires mask.Some? && decoded.Some? ==>
               mask.value.w == decoded.value.w && mask.value.h == decoded.value.h &&
               mask.value.data != decoded.value.data
    requires mask.Some? && converted.Some? ==> mask.value.data != converted.value.data
    modifies if mask.Some? then {mask.value.data} else {}
    ensures argc != 1 && argc != 2 ==> r == BadArg
    ensures (argc == 1 || argc == 2) && !binTerm.Binary? ==> r == Error("invalid_image_data")
    ensures (argc == 1 || argc == 2) && binTerm.Binary? && MaskSourceArg(argc, chanTerm).None? ==>
              r == Error("image_read_mask_invalid_channel")
    ensures (argc == 1 || argc == 2) && binTerm.Binary? && MaskSourceArg(argc, chanTerm).Some? && decoded.None? ==>
              r == Error("image_read_from_data_failed")
    ensures (argc == 1 || argc == 2) && binTerm.Binary? && MaskSourceArg(argc, chanTerm).Some? && decoded.Some? &&
            decoded.value.format != Prgb32 && converted.None? ==>
              r == Error("image_read_mask_convert_failed")
    ensures (argc == 1 || argc == 2) && binTerm.Binary? && MaskSourceArg(argc, chanTerm).Some? && decoded.Some? &&
            (decoded.value.format == Prgb32 || converted.Some?) && !srcDataOk ==>
              r == Error("image_read_mask_src_data_failed")
    ensures (argc == 1 || argc == 2) && binTerm.Binary? && MaskSourceArg(argc, chanTerm).Some? && decoded.Some? &&
            (decoded.value.format == Prgb32 || converted.Some?) && srcDataOk && mask.None? ==>
              r == Error("image_read_mask_alloc_failed")
    ensures (argc == 1 || argc == 2) && binTerm.Binary? && MaskSourceArg(argc, chanTerm).Some? && decoded.Some? &&
            (decoded.value.format == Prgb32 || converted.Some?) && srcDataOk && mask.Some? && !dstDataOk ==>
              r == Error("image_read_mask_dst_data_failed")
    ensures mask.Some? ==> RowsFit(mask.value.data.Length, mask.value.stride, mask.value.w, mask.value.h)
    ensures r.ImageOk? <==>
              (argc == 1 || argc == 2) && binTerm.Binary? && MaskSourceArg(argc, chanTerm).Some? && decoded.Some? &&
              (decoded.value.format == Prgb32 || converted.Some?) && srcDataOk && mask.Some? && dstDataOk
    ensures r.ImageOk? ==>
              var src := if decoded.value.format == Prgb32 then decoded.value else converted.value;
              r.image == mask.value &&
              mask.value.data[..] == MaskImage(src.data[..], src.stride, old(mask.value.data[..]), mask.value.stride,
                                               src.w, src.h, MaskSourceArg(argc, chanTerm).value)
    ensures !r.ImageOk? && mask.Some? ==> mask.value.data[..] == old(mask.value.data[..])
  {
    if mask.Some? {
      MulOne(mask.value.w);
    }
    if argc != 1 && argc != 2 {
      return BadArg;
    }
    if !binTerm.Binary? {
      return Error("invalid_image_data");
    }
    var sel := MaskSourceArg(argc, chanTerm);
    if sel.None? {
      return Error("image_read_mask_invalid_channel");
    }
    if decoded.None? {
      return Error("image_read_from_data_failed");
    }
    var src := decoded.value;
    if src.format != Prgb32 {
      if converted.None? {
        return Error("image_read_mask_convert_failed");
      }
      src := converted.value;
    }
    if !srcDataOk {
      return Error("image_read_mask_src_data_failed");
    }
    if mask.None? {
      return Error("image_read_mask_alloc_failed");
    }
    if !dstDataOk {
      return Error("image_read_mask_dst_data_failed");
    }
    ExtractMask(src, mask.value, sel.value);
    return ImageOk(mask.value);
  }

  /**
   * `image_decode_qoi(Binary)`. `decoded` is the image the codec reads
   * (`None` when it fails), `dst` the new PRGB32 image holding it after the
   * blit (`None` when allocation fails), `blit` the blit's result code and
   * `dataOk` whether `get_data` succeeds.
   */
  method DecodeQoi(argc: int, binTerm: Term, decoded: Option<Image>, dst: Option<Image>, blit: BlResult, dataOk: bool)
    returns (r: Reply)
    requires dst.Some? ==> dst.value.Valid() && dst.value.format == Prgb32
    ensures argc != 1 ==> r == BadArg
    ensures argc == 1 && !binTerm.Binary? ==> r == Error("invalid_qoi_data")
    ensures argc == 1 && binTerm.Binary? && decoded.None? ==> r == Error("decode_qoi_failed")
    ensures argc == 1 && binTerm.Binary? && decoded.Some? && dst.None? ==> r == Error("decode_qoi_alloc_failed")
    ensures argc == 1 && binTerm.Binary? && decoded.Some? && dst.Some? && blit != Success ==>
              r == Error("decode_qoi_blit_failed")
    ensures argc == 1 && binTerm.Binary? && decoded.Some? && dst.Some? && blit == Success && !dataOk ==>
              r == Error("decode_qoi_data_failed")
    ensures r.QoiOk? <==> argc == 1 && binTerm.Binary? && decoded.Some? && dst.Some? && blit == Success && dataOk
    ensures r.QoiOk? ==>
              RowsFit(dst.value.data.Length, dst.value.stride, 4 * dst.value.w, dst.value.h) &&
              r == QoiOk(dst.value.w, dst.value.h, Rgba(dst.value.data[..], dst.value.stride, dst.value.w, dst.value.h))
  {
    if argc != 1 {
      return BadArg;
    }
    if !binTerm.Binary? {
      return Error("invalid_qoi_data");
    }
    if decoded.None? {
      return Error("decode_qoi_failed");
    }
    if dst.None? {
      return Error("decode_qoi_alloc_failed");
    }
    if blit != Success {
      return Error("decode_qoi_blit_failed");
    }
    if !dataOk {
      return Error("decode_qoi_data_failed");
    }
    var out := SwapToRgba(dst.value);
    return QoiOk(dst.value.w, dst.value.h, out[..]);
  }

  /** The format `image_blur` works in: the image's own when the blur takes it, else PRGB32. */
  function BlurTarget(f: Format): (t: Format)
    ensures t == Prgb32 || t == A8
    ensures t == f <==> f == Prgb32 || f == A8
    ensures BlurChannels(t).Some?
  {
    if f == Prgb32 || f == A8 then f else Prgb32
  }

  /**
   * `image_blur(Image, Sigma)`. `img` is the image the resource resolves
   * to (`null` when it does not), `work` the new image of the target
   * format (`None` when allocation fails), `srcDataOk`, `workDataOk`
   * whether `get_data` succeeds on each, `blit` the result of the
   * converting blit (when one is made; `work` then already holds its
   * pixels), and `scratch`, `dataStatus` what `blur_image_inplace` uses.
   */
  method ImageBlur(argc: int, img: Image?, sigmaTerm: Term, work: Option<Image>, srcDataOk: bool, workDataOk: bool,
                   blit: BlResult, scratch: BlurScratch, dataStatus: BlResult) returns (r: Reply)
    requires img != null ==> img.Valid() && img.data != scratch.bufA && img.data != scratch.bufB
    requires scratch.Valid()
    requires work.Some? ==> work.value.Valid() && work.value.data != scratch.bufA && work.value.data != scratch.bufB
    requires work.Some? && img != null ==>
               work.value.w == img.w && work.value.h == img.h && work.value.format == BlurTarget(img.format) &&
               work.value.data != img.data
    modifies (if work.Some? then {work.value.data} else {}), scratch, scratch.bufA, scratch.bufB
    ensures argc != 2 ==> r == BadArg
    ensures argc == 2 && (img == null || GetDouble(sigmaTerm).None?) ==> r == Error("image_blur_invalid_args")
    ensures argc == 2 && img != null && GetDouble(sigmaTerm).Some? && GetDouble(sigmaTerm).value <= 0.0 ==>
              r == Error("image_blur_sigma_must_be_positive")
    ensures argc == 2 && img != null && GetDouble(sigmaTerm).Some? && GetDouble(sigmaTerm).value > 0.0 &&
            work.None? ==>
              r == Error("image_blur_alloc_failed")
    ensures argc == 2 && img != null && GetDouble(sigmaTerm).Some? && GetDouble(sigmaTerm).value > 0.0 &&
            work.Some? && BlurTarget(img.format) == img.format && !(srcDataOk && workDataOk) ==>
              r == Error("image_blur_data_failed")
    ensures argc == 2 && img != null && GetDouble(sigmaTerm).Some? && GetDouble(sigmaTerm).value > 0.0 &&
            work.Some? && BlurTarget(img.format) != img.format && blit != Success ==>
              r == Error("image_blur_convert_failed")
    ensures r.ImageOk? <==>
              argc == 2 && img != null && GetDouble(sigmaTerm).Some? && GetDouble(sigmaTerm).value > 0.0 &&
              work.Some? && (if BlurTarget(img.format) == img.format then srcDataOk && workDataOk else blit == Success) &&
              (img.w == 0 || img.h == 0 || dataStatus == Success)
    ensures r.ImageOk? ==> r.image == work.value
    ensures r.ImageOk? && BlurTarget(img.format) == img.format ==>
              var rowBytes := Mul(img.w, BytesPerPixel(img.format));
              var copy := Copied(img.data[..], img.stride, old(work.value.data[..]), work.value.stride, rowBytes, img.h);
              work.value.data[..] ==
                Blur(copy, img.w, img.h, work.value.stride, img.format, GetDouble(sigmaTerm).value, -1, -1, dataStatus).1
    ensures r.ImageOk? && BlurTarget(img.format) != img.format ==>
              work.value.data[..] ==
                Blur(old(work.value.data[..]), img.w, img.h, work.value.stride, Prgb32,
                     GetDouble(sigmaTerm).value, -1, -1, dataStatus).1
  {
    if argc != 2 {
      return BadArg;
    }
    var sigma := GetDouble(sigmaTerm);
    if img == null || sigma.None? {
      return Error("image_blur_invalid_args");
    }
    if sigma.value <= 0.0 {
      return Error("image_blur_sigma_must_be_positive");
    }
    var fmt := img.format;
    var target := BlurTarget(fmt);
    if work.None? {
      return Error("image_blur_alloc_failed");
    }
    var dst := work.value;
    if target == fmt && (fmt == Prgb32 || fmt == A8) {
      if !srcDataOk || !workDataOk {
        return Error("image_blur_data_failed");
      }
      var rowBytes := Mul(img.w, if fmt == A8 then 1 else 4);
      assert rowBytes == Mul(img.w, BytesPerPixel(fmt));
      CopyRows(img.data, img.stride, dst.data, dst.stride, rowBytes, img.h);
      ghost var copy := dst.data[..];
      var res := BlurImageInPlace(dst, sigma.value, -1, -1, scratch, dataStatus);
      assert dst.data[..] == Blur(copy, img.w, img.h, dst.stride, fmt, sigma.value, -1, -1, dataStatus).1;
      if res != Success {
        return Error("image_blur_failed");
      }
      return ImageOk(dst);
    } else {
      if blit != Success {
        return Error("image_blur_convert_failed");
      }
    }
    var res := BlurImageInPlace(dst, sigma.value, -1, -1, scratch, dataStatus);
    if res != Success {
      return Error("image_blur_failed");
    }
    return ImageOk(dst);
  }
}

/**
 * `blur_image_inplace`: the Gaussian approximation applied to a Blend2D
 * image. The pixels of an optional top-left sub-rectangle are packed into a
 * tight scratch buffer, blurred by three rounds of a horizontal and a
 * vertical box pass, and copied back row by row.
 */
module BlurImage {
  import opened Common
  import opened Arith
  import opened BoxBlur

  /** The `BLResult` codes the blur returns; `Failure` carries any other code unchanged. */
  datatype BlResult = Success | ErrorInvalidValue | ErrorInvalidState | Failure(code: nat)

  /** Pixel formats of a Blend2D image. */
  datatype Format = FormatNone | Prgb32 | Xrgb32 | A8

  /** Bytes per pixel of each format. */
  function BytesPerPixel(f: Format): nat
  {
    match f
    case FormatNone => 0
    case Prgb32 => 4
    case Xrgb32 => 4
    case A8 => 1
  }

  /**
   * The channel count of a format the blur accepts: only premultiplied
   * 32-bit pixels and 8-bit alpha are blurred, channel by channel.
   */
  function BlurChannels(f: Format): (r: Option<nat>)
    ensures r.Some? <==> (f == Prgb32 || f == A8)
    ensures r.Some? ==> r.value == BytesPerPixel(f) && r.value >= 1
  {
    match f
    case Prgb32 => Some(4)
    case A8 => Some(1)
    case _ => None
  }

  /** `eff_w` / `eff_h`: the requested extent when it is positive and fits, else the full one. */
  function EffExtent(requested: int, full: nat): (e: nat)
    ensures e <= full
    ensures 0 < requested <= full ==> e == requested
    ensures !(0 < requested <= full) ==> e == full
  {
    if 0 < requested <= full then requested else full
  }

  // ---------------------------------------------------------------------
  // Strided rows and the tight buffer
  // ---------------------------------------------------------------------

  /**
   * `rows` rows of `rowBytes` bytes each, starting `stride` bytes apart,
   * do not overlap and fit inside `len` bytes.
   */
  predicate RowsFit(len: nat, stride: nat, rowBytes: nat, rows: nat)
  {
    rowBytes <= stride && (rows == 0 || Mul(rows - 1, stride) + rowBytes <= len)
  }

  lemma RowsFitFewer(len: nat, stride: nat, rowBytes: nat, rows: nat, fewer: nat)
    requires RowsFit(len, stride, rowBytes, rows) && fewer <= rows
    ensures RowsFit(len, stride, rowBytes, fewer)
  {
    if fewer > 0 {
      MulMono(fewer - 1, rows - 1, stride);
    }
  }

  lemma RowInside(len: nat, stride: nat, rowBytes: nat, rows: nat, y: nat)
    requires RowsFit(len, stride, rowBytes, rows) && y < rows
    ensures Mul(y, stride) + rowBytes <= len
  {
    MulMono(y, rows - 1, stride);
  }

  /** Offset `k` lies in the leading `rowBytes` bytes of one of the first `rows` rows. */
  ghost predicate InRows(stride: nat, rowBytes: nat, rows: nat, k: int)
  {
    exists y: nat :: y < rows && Mul(y, stride) <= k < Mul(y, stride) + rowBytes
  }

  /**
   * Byte `i` of the tight buffer that holds the first `rows` rows of a
   * strided image, each cut to `rowBytes` and laid end to end.
   */
  function PackedByte(data: seq<Byte>, stride: nat, rowBytes: nat, rows: nat, i: nat): Byte
    requires RowsFit(|data|, stride, rowBytes, rows) && i < Mul(rows, rowBytes)
    decreases rows
  {
    RowsFitFewer(|data|, stride, rowBytes, rows, rows - 1);
    var last := Mul(rows - 1, rowBytes);
    if i >= last then data[Mul(rows - 1, stride) + (i - last)]
    else PackedByte(data, stride, rowBytes, rows - 1, i)
  }

  /** The tight buffer packed from the first `rows` rows. */
  function Packed(data: seq<Byte>, stride: nat, rowBytes: nat, rows: nat): (p: seq<Byte>)
    requires RowsFit(|data|, stride, rowBytes, rows)
    ensures |p| == Mul(rows, rowBytes)
  {
    seq(Mul(rows, rowBytes), i requires 0 <= i < Mul(rows, rowBytes) =>
      PackedByte(data, stride, rowBytes, rows, i))
  }

  /**
   * Byte `k` of `data` after the leading `rowBytes` bytes of each of its
   * first `rows` rows are overwritten, in order, from the tight buffer `p`.
   */
  function UnpackedByte(data: seq<Byte>, p: seq<Byte>, stride: nat, rowBytes: nat, rows: nat, k: nat): Byte
    requires RowsFit(|data|, stride, rowBytes, rows) && Mul(rows, rowBytes) <= |p| && k < |data|
    decreases rows
  {
    if rows == 0 then data[k]
    else
      RowsFitFewer(|data|, stride, rowBytes, rows, rows - 1);
      MulMono(rows - 1, rows, rowBytes);
      var at := Mul(rows - 1, stride);
      if at <= k < at + rowBytes then p[Mul(rows - 1, rowBytes) + (k - at)]
      else UnpackedByte(data, p, stride, rowBytes, rows - 1, k)
  }

  /** `data` with the first `rows` rows written back from the tight buffer `p`. */
  function Unpacked(data: seq<Byte>, p: seq<Byte>, stride: nat, rowBytes: nat, rows: nat): (d: seq<Byte>)
    requires RowsFit(|data|, stride, rowBytes, rows) && Mul(rows, rowBytes) <= |p|
    ensures |d| == |data|
  {
    seq(|data|, k requires 0 <= k < |data| => UnpackedByte(data, p, stride, rowBytes, rows, k))
  }

  /** Byte `j` of row `y` lands at `y * rowBytes + j` of the tight buffer. */
  lemma {:induction false} PackedAt(data: seq<Byte>, stride: nat, rowBytes: nat, rows: nat, y: nat, j: nat)
    requires RowsFit(|data|, stride, rowBytes, rows) && y < rows && j < rowBytes
    ensures Mul(y, rowBytes) + j < Mul(rows, rowBytes)
    ensures Mul(y, stride) + j < |data|
    ensures PackedByte(data, stride, rowBytes, rows, Mul(y, rowBytes) + j) == data[Mul(y, stride) + j]
    decreases rows
  {
    RowInside(|data|, stride, rowBytes, rows, y);
    MulMono(y + 1, rows, rowBytes);
    if y < rows - 1 {
      RowsFitFewer(|data|, stride, rowBytes, rows, rows - 1);
      MulMono(y + 1, rows - 1, rowBytes);
      PackedAt(data, stride, rowBytes, rows - 1, y, j);
    }
  }

  /** Unpacking writes byte `y * rowBytes + j` of the tight buffer to byte `j` of row `y`. */
  lemma {:induction false} UnpackedInside(data: seq<Byte>, p: seq<Byte>, stride: nat, rowBytes: nat, rows: nat,
                                          y: nat, j: nat)
    requires RowsFit(|data|, stride, rowBytes, rows) && Mul(rows, rowBytes) <= |p|
    requires y < rows && j < rowBytes
    ensures Mul(y, stride) + j < |data| && Mul(y, rowBytes) + j < |p|
    ensures UnpackedByte(data, p, stride, rowBytes, rows, Mul(y, stride) + j) == p[Mul(y, rowBytes) + j]
    decreases rows
  {
    RowInside(|data|, stride, rowBytes, rows, y);
    MulMono(y + 1, rows, rowBytes);
    if y < rows - 1 {
      RowsFitFewer(|data|, stride, rowBytes, rows, rows - 1);
      MulMono(rows - 1, rows, rowBytes);
      MulMono(y + 1, rows - 1, stride);
      UnpackedInside(data, p, stride, rowBytes, rows - 1, y, j);
    }
  }

  /** Unpacking leaves every byte outside the rows' leading parts as it was. */
  lemma {:induction false} UnpackedOutside(data: seq<Byte>, p: seq<Byte>, stride: nat, rowBytes: nat, rows: nat,
                                           k: nat)
    requires RowsFit(|data|, stride, rowBytes, rows) && Mul(rows, rowBytes) <= |p| && k < |data|
    ensures !InRows(stride, rowBytes, rows, k) ==> UnpackedByte(data, p, stride, rowBytes, rows, k) == data[k]
    decreases rows
  {
    if rows > 0 {
      RowsFitFewer(|data|, stride, rowBytes, rows, rows - 1);
      MulMono(rows - 1, rows, rowBytes);
      var at := Mul(rows - 1, stride);
      if at <= k < at + rowBytes {
        assert InRows(stride, rowBytes, rows, k);
      } else {
        UnpackedOutside(data, p, stride, rowBytes, rows - 1, k);
        if InRows(stride, rowBytes, rows - 1, k) {
          var y: nat :| y < rows - 1 && Mul(y, stride) <= k < Mul(y, stride) + rowBytes;
          assert InRows(stride, rowBytes, rows, k);
        }
      }
    }
  }

  /** Copying rows out and straight back restores the image. */
  lemma UnpackPacked(data: seq<Byte>, stride: nat, rowBytes: nat, rows: nat)
    requires RowsFit(|data|, stride, rowBytes, rows)
    ensures Unpacked(data, Packed(data, stride, rowBytes, rows), stride, rowBytes, rows) == data
  {
    var p := Packed(data, stride, rowBytes, rows);
    var d := Unpacked(data, p, stride, rowBytes, rows);
    forall k | 0 <= k < |data|
      ensures d[k] == data[k]
    {
      if InRows(stride, rowBytes, rows, k) {
        var y: nat :| y < rows && Mul(y, stride) <= k < Mul(y, stride) + rowBytes;
        var j: nat := k - Mul(y, stride);
        PackedAt(data, stride, rowBytes, rows, y, j);
        UnpackedInside(data, p, stride, rowBytes, rows, y, j);
      } else {
        UnpackedOutside(data, p, stride, rowBytes, rows, k);
      }
    }
  }

  /** Packing the first `upto` rows of an unpacked image reads the tight buffer back. */
  lemma {:induction false} PackUnpackedByte(data: seq<Byte>, p: seq<Byte>, stride: nat, rowBytes: nat, rows: nat,
                                            upto: nat, i: nat)
    requires RowsFit(|data|, stride, rowBytes, rows) && Mul(rows, rowBytes) <= |p|
    requires upto <= rows && i < Mul(upto, rowBytes)
    ensures RowsFit(|data|, stride, rowBytes, upto) && i < |p|
    ensures PackedByte(Unpacked(data, p, stride, rowBytes, rows), stride, rowBytes, upto, i) == p[i]
    decreases upto
  {
    RowsFitFewer(|data|, stride, rowBytes, rows, upto);
    MulMono(upto, rows, rowBytes);
    var last := Mul(upto - 1, rowBytes);
    if i >= last {
      UnpackedInside(data, p, stride, rowBytes, rows, upto - 1, i - last);
    } else {
      PackUnpackedByte(data, p, stride, rowBytes, rows, upto - 1, i);
    }
  }

  /** Packing the unpacked image reads the tight buffer back. */
  lemma PackUnpacked(data: seq<Byte>, p: seq<Byte>, stride: nat, rowBytes: nat, rows: nat)
    requires RowsFit(|data|, stride, rowBytes, rows) && Mul(rows, rowBytes) <= |p|
    ensures Packed(Unpacked(data, p, stride, rowBytes, rows), stride, rowBytes, rows) == p[..Mul(rows, rowBytes)]
  {
    forall i | 0 <= i < Mul(rows, rowBytes)
      ensures PackedByte(Unpacked(data, p, stride, rowBytes, rows), stride, rowBytes, rows, i) == p[i]
    {
      PackUnpackedByte(data, p, stride, rowBytes, rows, rows, i);
    }
  }

  /** With no padding between rows (`stride == rowBytes`), packing is one copy of the prefix. */
  lemma {:induction false} PackedTight(data: seq<Byte>, rowBytes: nat, rows: nat, i: nat)
    requires RowsFit(|data|, rowBytes, rowBytes, rows) && i < Mul(rows, rowBytes)
    ensures i < |data| && PackedByte(data, rowBytes, rowBytes, rows, i) == data[i]
    decreases rows
  {
    RowsFitFewer(|data|, rowBytes, rowBytes, rows, rows - 1);
    if i < Mul(rows - 1, rowBytes) {
      PackedTight(data, rowBytes, rows - 1, i);
    }
  }

  /** With no padding between rows, unpacking is one copy over the prefix. */
  lemma {:induction false} UnpackedTight(data: seq<Byte>, p: seq<Byte>, rowBytes: nat, rows: nat, k: nat)
    requires RowsFit(|data|, rowBytes, rowBytes, rows) && Mul(rows, rowBytes) <= |p| && k < |data|
    ensures UnpackedByte(data, p, rowBytes, rowBytes, rows, k) == if k < Mul(rows, rowBytes) then p[k] else data[k]
    decreases rows
  {
    if rows > 0 {
      RowsFitFewer(|data|, rowBytes, rowBytes, rows, rows - 1);
      MulMono(rows - 1, rows, rowBytes);
      UnpackedTight(data, p, rowBytes, rows - 1, k);
    }
  }

  // ---------------------------------------------------------------------
  // The three rounds
  // ---------------------------------------------------------------------

  /**
   * The blur of a tight buffer: for each box width in order, a horizontal
   * then a vertical pass of radius `width / 2`.
   */
  function BlurPasses(s: seq<Byte>, w: nat, h: nat, ch: nat, sizes: seq<int>): (t: seq<Byte>)
    requires IsTight(s, w, h, ch) && forall i :: 0 <= i < |sizes| ==> sizes[i] >= 0
    ensures IsTight(t, w, h, ch)
    decreases |sizes|
  {
    if |sizes| == 0 then s
    else
      var r := sizes[|sizes| - 1] / 2;
      var before := BlurPasses(s, w, h, ch, sizes[..|sizes| - 1]);
      BoxV(BoxH(before, w, h, ch, r), w, h, ch, r)
  }

  /** The blur keeps every byte inside any bounds `[a, b]` that hold all of its input. */
  lemma {:induction false} BlurPassesBetween(s: seq<Byte>, w: nat, h: nat, ch: nat, sizes: seq<int>, a: int, b: int)
    requires IsTight(s, w, h, ch) && forall i :: 0 <= i < |sizes| ==> sizes[i] >= 0
    requires 0 <= a && forall k :: 0 <= k < |s| ==> a <= s[k] <= b
    ensures forall k :: 0 <= k < |s| ==> a <= BlurPasses(s, w, h, ch, sizes)[k] <= b
    decreases |sizes|
  {
    if |sizes| > 0 {
      var r := sizes[|sizes| - 1] / 2;
      var front := sizes[..|sizes| - 1];
      BlurPassesBetween(s, w, h, ch, front, a, b);
      var before := BlurPasses(s, w, h, ch, front);
      var mid := BoxPass1(before, w, h, ch, r, true);
      PassBetween(before, w, h, ch, r, true, a, b);
      PassBetween(mid, w, h, ch, r, false, a, b);
      assert BlurPasses(s, w, h, ch, sizes) == BoxPass1(mid, w, h, ch, r, false);
    }
  }

  /** A uniform buffer is a fixed point of the blur. */
  lemma BlurPassesUniform(s: seq<Byte>, w: nat, h: nat, ch: nat, sizes: seq<int>, v: Byte)
    requires IsTight(s, w, h, ch) && forall i :: 0 <= i < |sizes| ==> sizes[i] >= 0
    requires forall k :: 0 <= k < |s| ==> s[k] == v
    ensures BlurPasses(s, w, h, ch, sizes) == s
  {
    BlurPassesBetween(s, w, h, ch, sizes, v, v);
  }

  /** The loop of `blur_image_inplace` over the box widths, ping-ponging between two buffers. */
  method BlurRounds(a: array<Byte>, b: array<Byte>, w: nat, h: nat, ch: nat, sizes: seq<int>)
    requires w >= 1 && h >= 1 && ch >= 1 && a != b
    requires a.Length >= TightLen(w, h, ch) && b.Length >= TightLen(w, h, ch)
    requires forall i :: 0 <= i < |sizes| ==> sizes[i] >= 0
    modifies a, b
    ensures a[..TightLen(w, h, ch)] == BlurPasses(old(a[..TightLen(w, h, ch)]), w, h, ch, sizes)
  {
    ghost var n := TightLen(w, h, ch);
    ghost var s0 := a[..n];
    var bi := 0;
    while bi < |sizes|
      invariant 0 <= bi <= |sizes|
      invariant a[..n] == BlurPasses(s0, w, h, ch, sizes[..bi])
    {
      var radius := sizes[bi] / 2;
      BoxBlurH(a, b, w, h, ch, radius);
      BoxBlurV(b, a, w, h, ch, radius);
      assert sizes[..bi + 1][..bi] == sizes[..bi];
      bi := bi + 1;
    }
    assert sizes[..|sizes|] == sizes;
  }

  // ---------------------------------------------------------------------
  // Copying between the image and the scratch buffer
  // ---------------------------------------------------------------------

  /** `memcpy` of `n` bytes from `src[from..]` to `dst[to..]`. */
  method CopyBytes(src: array<Byte>, from: nat, dst: array<Byte>, to: nat, n: nat)
    requires src != dst && from + n <= src.Length && to + n <= dst.Length
    modifies dst
    ensures forall k | to <= k < to + n :: dst[k] == src[from + (k - to)]
    ensures forall k | 0 <= k < dst.Length && !(to <= k < to + n) :: dst[k] == old(dst[k])
  {
    forall k | to <= k < to + n {
      dst[k] := src[from + (k - to)];
    }
  }

  /** The packing copy: one `memcpy` when rows have no padding, else one per row. */
  method PackRows(data: array<Byte>, stride: nat, rowBytes: nat, rows: nat, buf: array<Byte>)
    requires data != buf && RowsFit(data.Length, stride, rowBytes, rows)
    requires Mul(rows, rowBytes) <= buf.Length
    modifies buf
    ensures buf[..Mul(rows, rowBytes)] == Packed(data[..], stride, rowBytes, rows)
    ensures buf[Mul(rows, rowBytes)..] == old(buf[Mul(rows, rowBytes)..])
  {
    ghost var n := Mul(rows, rowBytes);
    if rowBytes == stride {
      assert n <= data.Length by {
        if rows > 0 {
          assert Mul(rows, rowBytes) == Mul(rows - 1, rowBytes) + rowBytes;
        }
      }
      CopyBytes(data, 0, buf, 0, Mul(rows, rowBytes));
      forall i | 0 <= i < n
        ensures buf[i] == PackedByte(data[..], stride, rowBytes, rows, i)
      {
        PackedTight(data[..], rowBytes, rows, i);
      }
    } else {
      var y := 0;
      while y < rows
        invariant y <= rows && Mul(y, rowBytes) <= n
        invariant RowsFit(data.Length, stride, rowBytes, y)
        invariant forall i | 0 <= i < Mul(y, rowBytes) :: buf[i] == PackedByte(data[..], stride, rowBytes, y, i)
        invariant forall k | n <= k < buf.Length :: buf[k] == old(buf[k])
      {
        PackRow(data, stride, rowBytes, rows, buf, y);
        y := y + 1;
      }
    }
  }

  /** One iteration of the packing loop: row `y` goes to `y * rowBytes`. */
  method PackRow(data: array<Byte>, stride: nat, rowBytes: nat, rows: nat, buf: array<Byte>, y: nat)
    requires data != buf && RowsFit(data.Length, stride, rowBytes, rows) && y < rows
    requires Mul(rows, rowBytes) <= buf.Length
    requires RowsFit(data.Length, stride, rowBytes, y) && Mul(y, rowBytes) <= buf.Length
    requires forall i | 0 <= i < Mul(y, rowBytes) :: buf[i] == PackedByte(data[..], stride, rowBytes, y, i)
    modifies buf
    ensures Mul(y + 1, rowBytes) <= Mul(rows, rowBytes) && RowsFit(data.Length, stride, rowBytes, y + 1)
    ensures forall i | 0 <= i < Mul(y + 1, rowBytes) :: buf[i] == PackedByte(data[..], stride, rowBytes, y + 1, i)
    ensures forall k | Mul(y + 1, rowBytes) <= k < buf.Length :: buf[k] == old(buf[k])
  {
    RowInside(data.Length, stride, rowBytes, rows, y);
    RowsFitFewer(data.Length, stride, rowBytes, rows, y + 1);
    MulMono(y + 1, rows, rowBytes);
    CopyBytes(data, Mul(y, stride), buf, Mul(y, rowBytes), rowBytes);
  }

  /** The copy back: one `memcpy` when rows have no padding, else one per row. */
  method UnpackRows(buf: array<Byte>, data: array<Byte>, stride: nat, rowBytes: nat, rows: nat)
    requires data != buf && RowsFit(data.Length, stride, rowBytes, rows)
    requires Mul(rows, rowBytes) <= buf.Length
    modifies data
    ensures data[..] == Unpacked(old(data[..]), buf[..Mul(rows, rowBytes)], stride, rowBytes, rows)
  {
    ghost var d0 := data[..];
    ghost var p := buf[..Mul(rows, rowBytes)];
    if rowBytes == stride {
      assert Mul(rows, rowBytes) <= data.Length by {
        if rows > 0 {
          assert Mul(rows, rowBytes) == Mul(rows - 1, rowBytes) + rowBytes;
        }
      }
      CopyBytes(buf, 0, data, 0, Mul(rows, rowBytes));
      forall k | 0 <= k < data.Length
        ensures data[k] == UnpackedByte(d0, p, stride, rowBytes, rows, k)
      {
        UnpackedTight(d0, p, rowBytes, rows, k);
      }
    } else {
      var y := 0;
      while y < rows
        invariant y <= rows
        invariant RowsFit(data.Length, stride, rowBytes, y) && Mul(y, rowBytes) <= Mul(rows, rowBytes)
        invariant forall k | 0 <= k < data.Length :: data[k] == UnpackedByte(d0, p, stride, rowBytes, y, k)
      {
        UnpackRow(buf, data, stride, rowBytes, rows, y, d0, p);
        y := y + 1;
      }
    }
  }

  /** One iteration of the copy back: bytes `y * rowBytes ..` go to row `y`. */
  method UnpackRow(buf: array<Byte>, data: array<Byte>, stride: nat, rowBytes: nat, rows: nat, y: nat,
                   ghost d0: seq<Byte>, ghost p: seq<Byte>)
    requires data != buf && RowsFit(data.Length, stride, rowBytes, rows) && y < rows
    requires Mul(rows, rowBytes) <= buf.Length && |d0| == data.Length && p == buf[..Mul(rows, rowBytes)]
    requires RowsFit(data.Length, stride, rowBytes, y) && Mul(y, rowBytes) <= Mul(rows, rowBytes)
    requires forall k | 0 <= k < data.Length :: data[k] == UnpackedByte(d0, p, stride, rowBytes, y, k)
    modifies data
    ensures RowsFit(data.Length, stride, rowBytes, y + 1) && Mul(y + 1, rowBytes) <= Mul(rows, rowBytes)
    ensures forall k | 0 <= k < data.Length :: data[k] == UnpackedByte(d0, p, stride, rowBytes, y + 1, k)
  {
    RowInside(data.Length, stride, rowBytes, rows, y);
    RowsFitFewer(data.Length, stride, rowBytes, rows, y + 1);
    MulMono(y + 1, rows, rowBytes);
    CopyBytes(buf, Mul(y, rowBytes), data, Mul(y, stride), rowBytes);
  }

  // ---------------------------------------------------------------------
  // The image, the scratch buffers and `blur_image_inplace`
  // ---------------------------------------------------------------------

  /** A Blend2D image as the blur sees it: size, row stride, pixel format and pixel bytes. */
  class Image {
    const w: nat
    const h: nat
    const stride: nat
    const format: Format
    const data: array<Byte>

    /** Every row the size and format call for lies inside the pixel bytes. */
    ghost predicate Valid()
      reads this
    {
      RowsFit(data.Length, stride, Mul(w, BytesPerPixel(format)), h)
    }

    constructor (w: nat, h: nat, stride: nat, format: Format, data: array<Byte>)
      requires RowsFit(data.Length, stride, Mul(w, BytesPerPixel(format)), h)
      ensures Valid()
      ensures this.w == w && this.h == h && this.stride == stride && this.format == format && this.data == data
    {
      this.w := w;
      this.h := h;
      this.stride := stride;
      this.format := format;
      this.data := data;
    }
  }

  /** `std::vector::resize` to grow only: a larger buffer keeps the old bytes and zero-fills the rest. */
  method Grow(a: array<Byte>, n: nat) returns (b: array<Byte>)
    ensures a.Length >= n ==> b == a
    ensures a.Length < n ==> fresh(b) && b.Length == n
    ensures a.Length < n ==> forall k | 0 <= k < n :: b[k] == if k < a.Length then a[k] else 0
  {
    if a.Length >= n {
      return a;
    }
    b := new Byte[n];
    forall k | 0 <= k < n {
      b[k] := if k < a.Length then a[k] else 0;
    }
  }

  /** `BlurScratch`: the two tight working buffers, reused from call to call. */
  class BlurScratch {
    var bufA: array<Byte>
    var bufB: array<Byte>

    ghost predicate Valid()
      reads this
    {
      bufA != bufB
    }

    constructor ()
      ensures Valid() && fresh(bufA) && fresh(bufB) && bufA.Length == 0 && bufB.Length == 0
    {
      bufA := new Byte[0];
      bufB := new Byte[0];
    }

    /** Makes both buffers hold at least `n` bytes; a buffer is replaced only when too small. */
    method Reserve(n: nat)
      requires Valid()
      modifies this
      ensures Valid()
      ensures bufA.Length >= n && bufB.Length >= n
      ensures old(bufA.Length) >= n ==> bufA == old(bufA)
      ensures old(bufA.Length) < n ==> fresh(bufA) && bufA.Length == n
      ensures old(bufB.Length) >= n ==> bufB == old(bufB)
      ensures old(bufB.Length) < n ==> fresh(bufB) && bufB.Length == n
    {
      bufA := Grow(bufA, n);
      bufB := Grow(bufB, n);
    }
  }

  /** Narrowing the rows to a sub-rectangle keeps them inside the pixel bytes. */
  lemma RegionFits(len: nat, w: nat, h: nat, stride: nat, ch: nat, effW: nat, effH: nat)
    requires RowsFit(len, stride, Mul(w, ch), h) && effW <= w && effH <= h
    ensures RowsFit(len, stride, Mul(effW, ch), effH)
  {
    MulMono(effW, w, ch);
    RowsFitFewer(len, stride, Mul(w, ch), h, effH);
    if effH > 0 {
      MulMono(effH - 1, h - 1, stride);
    }
  }

  /**
   * The outcome of `blur_image_inplace` on an image whose pixel bytes are
   * `data`: the result code and the new pixel bytes. `dataStatus` is what
   * `get_data` reports for the image.
   */
  function Blur(data: seq<Byte>, w: nat, h: nat, stride: nat, format: Format,
                sigma: real, width: int, height: int, dataStatus: BlResult): (out: (BlResult, seq<Byte>))
    requires RowsFit(|data|, stride, Mul(w, BytesPerPixel(format)), h)
    ensures |out.1| == |data|
    ensures out.0 != Success ==> out.1 == data
    ensures out.0 == Success <==>
      sigma > 0.0 && (w == 0 || h == 0 || (BlurChannels(format).Some? && dataStatus == Success))
  {
    if sigma <= 0.0 then (ErrorInvalidValue, data)
    else if w == 0 || h == 0 then (Success, data)
    else if BlurChannels(format).None? then (ErrorInvalidState, data)
    else if dataStatus != Success then (dataStatus, data)
    else
      var ch := BlurChannels(format).value;
      var effW := EffExtent(width, w);
      var effH := EffExtent(height, h);
      RegionFits(|data|, w, h, stride, ch, effW, effH);
      var packed := Packed(data, stride, Mul(effW, ch), effH);
      (Success, Unpacked(data, BlurPasses(packed, effW, effH, ch, BoxSizes(sigma)), stride, Mul(effW, ch), effH))
  }

  /** `blur_image_inplace`: blurs the image's pixels in place, through the scratch buffers. */
  method BlurImageInPlace(img: Image, sigma: real, width: int, height: int,
                          scratch: BlurScratch, dataStatus: BlResult) returns (r: BlResult)
    requires img.Valid() && scratch.Valid()
    requires img.data != scratch.bufA && img.data != scratch.bufB
    modifies img.data, scratch, scratch.bufA, scratch.bufB
    ensures (r, img.data[..]) ==
      Blur(old(img.data[..]), img.w, img.h, img.stride, img.format, sigma, width, height, dataStatus)
    ensures scratch.Valid() && img.data != scratch.bufA && img.data != scratch.bufB
  {
    if sigma <= 0.0 {
      return ErrorInvalidValue;
    }
    if img.w == 0 || img.h == 0 {
      return Success;
    }
    var channels := BlurChannels(img.format);
    if channels.None? {
      return ErrorInvalidState;
    }
    var ch := channels.value;
    if dataStatus != Success {
      return dataStatus;
    }
    var effW := EffExtent(width, img.w);
    var effH := EffExtent(height, img.h);
    var rowBytes := Mul(effW, ch);
    var bufBytes := Mul(effH, rowBytes);
    RegionFits(img.data.Length, img.w, img.h, img.stride, ch, effW, effH);
    scratch.Reserve(bufBytes);
    PackRows(img.data, img.stride, rowBytes, effH, scratch.bufA);
    var boxes := BoxSizes(sigma);
    BlurRounds(scratch.bufA, scratch.bufB, effW, effH, ch, boxes);
    UnpackRows(scratch.bufA, img.data, img.stride, rowBytes, effH);
    r := Success;
  }

  /** Packing copies bytes of the image, so it keeps any bounds the image's bytes lie in. */
  lemma {:induction false} PackedBetween(data: seq<Byte>, stride: nat, rowBytes: nat, rows: nat, i: nat, a: int, b: int)
    requires RowsFit(|data|, stride, rowBytes, rows) && i < Mul(rows, rowBytes)
    requires forall k :: 0 <= k < |data| ==> a <= data[k] <= b
    ensures a <= PackedByte(data, stride, rowBytes, rows, i) <= b
    decreases rows
  {
    RowsFitFewer(|data|, stride, rowBytes, rows, rows - 1);
    if i < Mul(rows - 1, rowBytes) {
      PackedBetween(data, stride, rowBytes, rows - 1, i, a, b);
    }
  }

  /** Unpacking copies bytes of the image or of the buffer, so it keeps bounds both lie in. */
  lemma {:induction false} UnpackedBetween(data: seq<Byte>, p: seq<Byte>, stride: nat, rowBytes: nat, rows: nat,
                                           k: nat, a: int, b: int)
    requires RowsFit(|data|, stride, rowBytes, rows) && Mul(rows, rowBytes) <= |p| && k < |data|
    requires forall i :: 0 <= i < |data| ==> a <= data[i] <= b
    requires forall i :: 0 <= i < |p| ==> a <= p[i] <= b
    ensures a <= UnpackedByte(data, p, stride, rowBytes, rows, k) <= b
    decreases rows
  {
    if rows > 0 {
      RowsFitFewer(|data|, stride, rowBytes, rows, rows - 1);
      MulMono(rows - 1, rows, rowBytes);
      UnpackedBetween(data, p, stride, rowBytes, rows - 1, k, a, b);
    }
  }

  /**
   * The blur changes no byte outside the leading `eff_w * channels` bytes
   * of the first `eff_h` rows: the rest of each row, the row padding and
   * the rows below the sub-rectangle keep their values.
   */
  lemma BlurKeepsOutside(data: seq<Byte>, w: nat, h: nat, stride: nat, format: Format,
                         sigma: real, width: int, height: int, dataStatus: BlResult, k: nat)
    requires RowsFit(|data|, stride, Mul(w, BytesPerPixel(format)), h) && k < |data|
    requires BlurChannels(format).Some?
    ensures !InRows(stride, Mul(EffExtent(width, w), BlurChannels(format).value), EffExtent(height, h), k) ==>
      Blur(data, w, h, stride, format, sigma, width, height, dataStatus).1[k] == data[k]
  {
    var out := Blur(data, w, h, stride, format, sigma, width, height, dataStatus);
    if out.0 == Success && w > 0 && h > 0 {
      var ch := BlurChannels(format).value;
      var effW, effH := EffExtent(width, w), EffExtent(height, h);
      RegionFits(|data|, w, h, stride, ch, effW, effH);
      var packed := Packed(data, stride, Mul(effW, ch), effH);
      var blurred := BlurPasses(packed, effW, effH, ch, BoxSizes(sigma));
      UnpackedOutside(data, blurred, stride, Mul(effW, ch), effH, k);
    }
  }

  /**
   * On success the sub-rectangle of the new pixels, read back into a tight
   * buffer, is the three-round blur of the sub-rectangle of the old pixels.
   */
  lemma BlurRegion(data: seq<Byte>, w: nat, h: nat, stride: nat, format: Format,
                   sigma: real, width: int, height: int, ch: nat, effW: nat, effH: nat)
    requires RowsFit(|data|, stride, Mul(w, BytesPerPixel(format)), h)
    requires sigma > 0.0 && w > 0 && h > 0 && BlurChannels(format) == Some(ch)
    requires effW == EffExtent(width, w) && effH == EffExtent(height, h)
    ensures RowsFit(|data|, stride, Mul(effW, ch), effH)
    ensures IsTight(Packed(data, stride, Mul(effW, ch), effH), effW, effH, ch)
    ensures Packed(Blur(data, w, h, stride, format, sigma, width, height, Success).1, stride, Mul(effW, ch), effH)
      == BlurPasses(Packed(data, stride, Mul(effW, ch), effH), effW, effH, ch, BoxSizes(sigma))
  {
    RegionFits(|data|, w, h, stride, ch, effW, effH);
    var packed := Packed(data, stride, Mul(effW, ch), effH);
    var blurred := BlurPasses(packed, effW, effH, ch, BoxSizes(sigma));
    PackUnpacked(data, blurred, stride, Mul(effW, ch), effH);
    assert blurred[..Mul(effH, Mul(effW, ch))] == blurred;
  }

  /** Every new pixel byte lies within any bounds `[a, b]` that hold all old ones. */
  lemma BlurBetween(data: seq<Byte>, w: nat, h: nat, stride: nat, format: Format,
                    sigma: real, width: int, height: int, dataStatus: BlResult, a: int, b: int)
    requires RowsFit(|data|, stride, Mul(w, BytesPerPixel(format)), h)
    requires 0 <= a && forall k :: 0 <= k < |data| ==> a <= data[k] <= b
    ensures forall k :: 0 <= k < |data| ==>
      a <= Blur(data, w, h, stride, format, sigma, width, height, dataStatus).1[k] <= b
  {
    var out := Blur(data, w, h, stride, format, sigma, width, height, dataStatus);
    if out.0 == Success && w > 0 && h > 0 {
      var ch := BlurChannels(format).value;
      var effW, effH := EffExtent(width, w), EffExtent(height, h);
      var rowBytes := Mul(effW, ch);
      RegionFits(|data|, w, h, stride, ch, effW, effH);
      var packed := Packed(data, stride, rowBytes, effH);
      forall i | 0 <= i < |packed|
        ensures a <= packed[i] <= b
      {
        PackedBetween(data, stride, rowBytes, effH, i, a, b);
      }
      var blurred := BlurPasses(packed, effW, effH, ch, BoxSizes(sigma));
      BlurPassesBetween(packed, effW, effH, ch, BoxSizes(sigma), a, b);
      forall k | 0 <= k < |data|
        ensures a <= out.1[k] <= b
      {
        UnpackedBetween(data, blurred, stride, rowBytes, effH, k, a, b);
      }
    }
  }

  /** A uniform image comes out unchanged, whatever the sigma and sub-rectangle. */
  lemma BlurUniform(data: seq<Byte>, w: nat, h: nat, stride: nat, format: Format,
                    sigma: real, width: int, height: int, dataStatus: BlResult, v: Byte)
    requires RowsFit(|data|, stride, Mul(w, BytesPerPixel(format)), h)
    requires forall k :: 0 <= k < |data| ==> data[k] == v
    ensures Blur(data, w, h, stride, format, sigma, width, height, dataStatus).1 == data
  {
    BlurBetween(data, w, h, stride, format, sigma, width, height, dataStatus, v, v);
  }
}

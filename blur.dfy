/**
 * The box-blur engine: three rounds of horizontal and vertical sliding-window
 * box filters with edge clamping, run on a tightly packed copy of a strided
 * pixel buffer that is written back row by row afterwards.
 *
 * Pixel buffers are arrays of bytes; a tight `w`-by-`h` buffer with `ch`
 * channels keeps channel `c` of pixel `(x, y)` at `Idx(w, h, ch, y, x, c)`.
 */
module BoxBlur {
  import opened Common
  import opened Arith

  // ---------------------------------------------------------------------
  // Box sizes for a Gaussian sigma
  // ---------------------------------------------------------------------

  /** The floor of the square root of `x`. */
  function FloorSqrt(x: real): (k: nat)
    requires x >= 0.0
    ensures (k * k) as real <= x < ((k + 1) * (k + 1)) as real
  {
    FloorSqrtFrom(x, 0)
  }

  /** Search upwards from `k` for the floor of the square root of `x`. */
  function FloorSqrtFrom(x: real, k: nat): (r: nat)
    requires (k * k) as real <= x
    ensures k <= r
    ensures (r * r) as real <= x < ((r + 1) * (r + 1)) as real
    decreases x.Floor - k
  {
    if x < ((k + 1) * (k + 1)) as real then k
    else
      MulAtLeast(k + 1, k + 1);
      FloorSqrtFrom(x, k + 1)
  }

  /** `std::round`: the nearest integer, halves rounded away from zero. */
  function RoundHalfAway(x: real): (n: int)
    ensures x >= 0.0 ==> x - 0.5 < n as real <= x + 0.5
    ensures x < 0.0 ==> x - 0.5 <= n as real < x + 0.5
  {
    if x >= 0.0 then (x + 0.5).Floor else -((0.5 - x).Floor)
  }

  /** The ideal box width squared for three passes: `12 sigma^2 / 3 + 1`. */
  function IdealWidthSquared(sigma: real): real
  {
    12.0 * sigma * sigma / 3.0 + 1.0
  }

  /**
   * The lower box width `wl`: the floor of the ideal width, lowered by one
   * when even. It is the largest odd width whose square does not exceed the
   * ideal width squared.
   */
  function LowerBoxWidth(sigma: real): (wl: int)
    requires sigma > 0.0
    ensures wl >= 1 && wl % 2 == 1
    ensures (wl * wl) as real <= IdealWidthSquared(sigma)
    ensures IdealWidthSquared(sigma) < ((wl + 2) * (wl + 2)) as real
  {
    var w := FloorSqrt(IdealWidthSquared(sigma));
    var wl := if w % 2 == 0 then w - 1 else w;
    SquareMonotone(wl, w);
    SquareMonotone(w + 1, wl + 2);
    wl
  }

  lemma SquareMonotone(a: int, b: int)
    requires 0 <= a <= b
    ensures (a * a) as real <= (b * b) as real
  {
    MulMonotone(a, b, a);
    MulMonotone(a, b, b);
    assert a * a <= b * b;
  }

  /**
   * `gaussian_to_box_sizes`: `m` passes of width `wl`, the rest of width
   * `wl + 2`, where `m` rounds the ideal split.
   */
  function BoxSizes(sigma: real): (sizes: seq<int>)
    requires sigma > 0.0
    ensures |sizes| == 3
    ensures forall i :: 0 <= i < 3 ==>
      sizes[i] == LowerBoxWidth(sigma) || sizes[i] == LowerBoxWidth(sigma) + 2
    ensures forall i :: 0 <= i < 3 ==> sizes[i] >= 1 && sizes[i] % 2 == 1
    ensures sizes[0] <= sizes[1] <= sizes[2]
  {
    var wl := LowerBoxWidth(sigma);
    var m := RoundHalfAway(IdealLowerCount(sigma, wl));
    assert (wl + 2) % 2 == 1;
    [if 0 < m then wl else wl + 2, if 1 < m then wl else wl + 2, if 2 < m then wl else wl + 2]
  }

  /** How many of the three passes should ideally use the lower width, before rounding. */
  function IdealLowerCount(sigma: real, wl: int): real
    requires wl >= 1
  {
    (12.0 * sigma * sigma - 3.0 * wl as real * wl as real - 12.0 * wl as real - 9.0)
    / (-4.0 * wl as real - 4.0)
  }

  // ---------------------------------------------------------------------
  // The sliding window along one line
  // ---------------------------------------------------------------------

  /** `clamp_int`: the point of `[lo, hi]` nearest to `v`. */
  function ClampInt(v: int, lo: int, hi: int): (r: int)
    requires lo <= hi
    ensures lo <= r <= hi
    ensures lo <= v <= hi ==> r == v
    ensures v <= lo ==> r == lo
    ensures v >= hi ==> r == hi
  {
    if v < lo then lo else if v > hi then hi else v
  }

  /** The index of `line` that position `i` reads: the edge pixel repeats outside. */
  function EdgeClamp(line: seq<Byte>, i: int): (k: nat)
    requires |line| > 0
    ensures k < |line|
  {
    ClampInt(i, 0, |line| - 1)
  }

  /** The sum of `line[clamp(i)]` over the window `i` in `[lo, hi]`. */
  function WindowSum(line: seq<Byte>, lo: int, hi: int): (s: int)
    requires |line| > 0
    ensures hi < lo ==> s == 0
    ensures lo <= hi + 1 ==> 0 <= s <= 255 * (hi - lo + 1)
    decreases hi - lo
  {
    if hi < lo then 0 else WindowSum(line, lo, hi - 1) + line[EdgeClamp(line, hi)]
  }

  /** Peeling the first position off a window. */
  lemma {:induction false} WindowSumFront(line: seq<Byte>, lo: int, hi: int)
    requires |line| > 0 && lo <= hi
    ensures WindowSum(line, lo, hi) == line[EdgeClamp(line, lo)] + WindowSum(line, lo + 1, hi)
    decreases hi - lo
  {
    if lo < hi {
      WindowSumFront(line, lo, hi - 1);
    }
  }

  /** Sliding the window one step adds the entering sample and drops the leaving one. */
  lemma WindowSlide(line: seq<Byte>, lo: int, hi: int)
    requires |line| > 0 && lo <= hi + 1
    ensures WindowSum(line, lo + 1, hi + 1)
         == WindowSum(line, lo, hi) - line[EdgeClamp(line, lo)] + line[EdgeClamp(line, hi + 1)]
  {
    if lo <= hi {
      WindowSumFront(line, lo, hi);
    }
  }

  /** A window over samples in `[a, b]` sums to between `a` and `b` times its width. */
  lemma {:induction false} WindowBetween(line: seq<Byte>, lo: int, hi: int, a: int, b: int)
    requires |line| > 0 && lo <= hi + 1
    requires forall i :: 0 <= i < |line| ==> a <= line[i] <= b
    ensures a * (hi - lo + 1) <= WindowSum(line, lo, hi) <= b * (hi - lo + 1)
    decreases hi - lo
  {
    if lo <= hi {
      WindowBetween(line, lo, hi - 1, a, b);
      assert a * (hi - lo + 1) == a * (hi - 1 - lo + 1) + a;
      assert b * (hi - lo + 1) == b * (hi - 1 - lo + 1) + b;
    }
  }

  lemma DivAtMost(n: int, d: int, b: int)
    requires d > 0 && 0 <= b && n < (b + 1) * d
    ensures n / d <= b
  {
    var q := n / d;
    assert n == q * d + n % d;
    if q > b {
      MulMonotone(b + 1, q, d);
      assert false;
    }
  }

  lemma DivAtLeast(n: int, d: int, b: int)
    requires d > 0 && 0 <= b && b * d <= n
    ensures b <= n / d
  {
    var q := n / d;
    assert n == q * d + n % d;
    assert (q + 1) * d == q * d + d;
    if q < b {
      MulMonotone(q + 1, b, d);
      assert false;
    }
  }

  /**
   * One output sample of a box pass of radius `r` at position `x`: the sum
   * of the `2r + 1` clamped neighbours, divided with rounding half up.
   */
  function BoxAverage(line: seq<Byte>, r: nat, x: int): Byte
    requires |line| > 0
  {
    var dia := r * 2 + 1;
    WindowBetween(line, x - r, x + r, 0, 255);
    assert x + r - (x - r) + 1 == dia;
    RoundedMeanBetween(WindowSum(line, x - r, x + r), dia, 0, 255);
    (WindowSum(line, x - r, x + r) + dia / 2) / dia
  }

  /** A box average lies between the smallest and the largest sample of its line. */
  lemma BoxAverageBetween(line: seq<Byte>, r: nat, x: int, a: int, b: int)
    requires |line| > 0 && 0 <= a
    requires forall i :: 0 <= i < |line| ==> a <= line[i] <= b
    ensures a <= BoxAverage(line, r, x) <= b
  {
    var dia := r * 2 + 1;
    WindowBetween(line, x - r, x + r, a, b);
    assert x + r - (x - r) + 1 == dia;
    assert a <= line[0] <= b;
    RoundedMeanBetween(WindowSum(line, x - r, x + r), dia, a, b);
  }

  /** The mean `(s + dia / 2) / dia`, rounded half up, of `dia` samples in `[a, b]` lies in `[a, b]`. */
  lemma RoundedMeanBetween(s: int, dia: int, a: int, b: int)
    requires dia > 0 && 0 <= a <= b && a * dia <= s <= b * dia
    ensures a <= (s + dia / 2) / dia <= b
  {
    assert (b + 1) * dia == b * dia + dia;
    DivAtMost(s + dia / 2, dia, b);
    DivAtLeast(s + dia / 2, dia, a);
  }

  // ---------------------------------------------------------------------
  // Tight buffer layout
  // ---------------------------------------------------------------------

  /** Bytes in a tight buffer of `h` rows of `w` pixels with `ch` channels: `w * ch * h`. */
  function TightLen(w: nat, h: nat, ch: nat): nat
  {
    Mul(h, Mul(w, ch))
  }

  /**
   * Offset of channel `c` of pixel `(x, y)` in a tight buffer (row `y` starts
   * at `y * w * ch`, pixel `x` at `x * ch` within it); the pixel's channels
   * all lie inside the buffer.
   */
  function Idx(w: nat, h: nat, ch: nat, y: nat, x: nat, c: nat): (k: nat)
    requires y < h && x < w && c < ch
    ensures k < TightLen(w, h, ch)
    ensures k - c + ch <= TightLen(w, h, ch)
  {
    MulMono(x + 1, w, ch);
    MulMono(y + 1, h, Mul(w, ch));
    Mul(y, Mul(w, ch)) + Mul(x, ch) + c
  }

  function RowOf(w: nat, ch: nat, k: nat): nat
    requires w >= 1 && ch >= 1
  {
    k / Mul(w, ch)
  }

  function ColOf(w: nat, ch: nat, k: nat): nat
    requires w >= 1 && ch >= 1
  {
    (k % Mul(w, ch)) / ch
  }

  function ChanOf(w: nat, ch: nat, k: nat): nat
    requires w >= 1 && ch >= 1
  {
    (k % Mul(w, ch)) % ch
  }

  /** Distinct pixels and channels have distinct offsets: the offset decodes back. */
  lemma IdxDecode(w: nat, h: nat, ch: nat, y: nat, x: nat, c: nat)
    requires y < h && x < w && c < ch
    ensures RowOf(w, ch, Idx(w, h, ch, y, x, c)) == y
    ensures ColOf(w, ch, Idx(w, h, ch, y, x, c)) == x
    ensures ChanOf(w, ch, Idx(w, h, ch, y, x, c)) == c
  {
    MulIsProduct(w, ch);
    MulIsProduct(y, w * ch);
    MulIsProduct(x, ch);
    RowMajorBound(ch, w, x, c);
    RowMajorDecode(w * ch, y, x * ch + c);
    RowMajorDecode(ch, x, c);
  }

  /** Every offset of the buffer is the offset of some pixel and channel. */
  lemma IdxEncode(w: nat, h: nat, ch: nat, k: nat)
    requires w >= 1 && ch >= 1 && k < TightLen(w, h, ch)
    ensures RowOf(w, ch, k) < h && ColOf(w, ch, k) < w && ChanOf(w, ch, k) < ch
    ensures Idx(w, h, ch, RowOf(w, ch, k), ColOf(w, ch, k), ChanOf(w, ch, k)) == k
  {
    MulIsProduct(w, ch);
    MulIsProduct(h, w * ch);
    MulAtLeast(w, ch);
    RowMajorEncode(w * ch, h, k);
    RowMajorEncode(ch, w, k % (w * ch));
    MulIsProduct(k / (w * ch), w * ch);
    MulIsProduct((k % (w * ch)) / ch, ch);
  }

  /** A tight buffer of `w * h` pixels with `ch` channels each. */
  predicate IsTight(s: seq<Byte>, w: nat, h: nat, ch: nat)
  {
    w >= 1 && h >= 1 && ch >= 1 && |s| == TightLen(w, h, ch)
  }

  /** Number of lines a pass walks: rows for the horizontal pass, columns for the vertical. */
  function LineCount(w: nat, h: nat, horizontal: bool): nat
  {
    if horizontal then h else w
  }

  /** Number of pixels along one line. */
  function LineLen(w: nat, h: nat, horizontal: bool): nat
  {
    if horizontal then w else h
  }

  /** Offset of channel `c` of pixel `i` along line `fixed` (a row or a column). */
  function LinePos(w: nat, h: nat, ch: nat, horizontal: bool, fixed: nat, i: nat, c: nat): (k: nat)
    requires fixed < LineCount(w, h, horizontal) && i < LineLen(w, h, horizontal) && c < ch
    ensures k < TightLen(w, h, ch)
    ensures k - c + ch <= TightLen(w, h, ch)
  {
    if horizontal then Idx(w, h, ch, fixed, i, c) else Idx(w, h, ch, i, fixed, c)
  }

  /** Channel `c` along line `fixed`, pixel by pixel. */
  function Line(s: seq<Byte>, w: nat, h: nat, ch: nat, horizontal: bool, fixed: nat, c: nat): seq<Byte>
    requires IsTight(s, w, h, ch) && fixed < LineCount(w, h, horizontal) && c < ch
  {
    seq(LineLen(w, h, horizontal), i requires 0 <= i < LineLen(w, h, horizontal) =>
      s[LinePos(w, h, ch, horizontal, fixed, i, c)])
  }

  // ---------------------------------------------------------------------
  // One horizontal and one vertical pass, as functions of the buffer
  // ---------------------------------------------------------------------

  /** The output of a pass at pixel `at` of line `fixed`, channel `c`. */
  function Sample(s: seq<Byte>, w: nat, h: nat, ch: nat, r: nat, horizontal: bool, fixed: nat, at: nat, c: nat): Byte
    requires IsTight(s, w, h, ch) && fixed < LineCount(w, h, horizontal)
    requires at < LineLen(w, h, horizontal) && c < ch
  {
    BoxAverage(Line(s, w, h, ch, horizontal, fixed, c), r, at)
  }

  /** The horizontal box pass of radius `r` over a tight buffer. */
  function BoxH(s: seq<Byte>, w: nat, h: nat, ch: nat, r: nat): (t: seq<Byte>)
    requires IsTight(s, w, h, ch)
    ensures IsTight(t, w, h, ch)
  {
    seq(|s|, k requires 0 <= k < |s| =>
      IdxEncode(w, h, ch, k);
      Sample(s, w, h, ch, r, true, RowOf(w, ch, k), ColOf(w, ch, k), ChanOf(w, ch, k)))
  }

  /** The vertical box pass of radius `r` over a tight buffer. */
  function BoxV(s: seq<Byte>, w: nat, h: nat, ch: nat, r: nat): (t: seq<Byte>)
    requires IsTight(s, w, h, ch)
    ensures IsTight(t, w, h, ch)
  {
    seq(|s|, k requires 0 <= k < |s| =>
      IdxEncode(w, h, ch, k);
      Sample(s, w, h, ch, r, false, ColOf(w, ch, k), RowOf(w, ch, k), ChanOf(w, ch, k)))
  }

  /** Either pass, chosen by direction. */
  function BoxPass1(s: seq<Byte>, w: nat, h: nat, ch: nat, r: nat, horizontal: bool): (t: seq<Byte>)
    requires IsTight(s, w, h, ch)
    ensures IsTight(t, w, h, ch)
  {
    if horizontal then BoxH(s, w, h, ch, r) else BoxV(s, w, h, ch, r)
  }

  /** `t` holds, along every line of the pass direction, the box samples of `s`. */
  ghost predicate IsPass(s: seq<Byte>, t: seq<Byte>, w: nat, h: nat, ch: nat, r: nat, horizontal: bool)
    requires IsTight(s, w, h, ch)
  {
    |t| == |s| &&
    forall fixed: nat, at: nat, c: nat {:trigger t[LinePos(w, h, ch, horizontal, fixed, at, c)]}
      | fixed < LineCount(w, h, horizontal) && at < LineLen(w, h, horizontal) && c < ch ::
      t[LinePos(w, h, ch, horizontal, fixed, at, c)] == Sample(s, w, h, ch, r, horizontal, fixed, at, c)
  }

  /** The pass function holds the pass's sample at every pixel and channel. */
  lemma PassSamples(s: seq<Byte>, w: nat, h: nat, ch: nat, r: nat, horizontal: bool)
    requires IsTight(s, w, h, ch)
    ensures IsPass(s, BoxPass1(s, w, h, ch, r, horizontal), w, h, ch, r, horizontal)
  {
    var b := BoxPass1(s, w, h, ch, r, horizontal);
    forall fixed: nat, at: nat, c: nat
      | fixed < LineCount(w, h, horizontal) && at < LineLen(w, h, horizontal) && c < ch
      ensures b[LinePos(w, h, ch, horizontal, fixed, at, c)] == Sample(s, w, h, ch, r, horizontal, fixed, at, c)
    {
      if horizontal {
        IdxDecode(w, h, ch, fixed, at, c);
      } else {
        IdxDecode(w, h, ch, at, fixed, c);
      }
    }
  }

  /** Any buffer holding the pass's sample everywhere is the pass. */
  lemma PassUnique(s: seq<Byte>, t: seq<Byte>, w: nat, h: nat, ch: nat, r: nat, horizontal: bool)
    requires IsTight(s, w, h, ch) && IsPass(s, t, w, h, ch, r, horizontal)
    ensures t == BoxPass1(s, w, h, ch, r, horizontal)
  {
    var b := BoxPass1(s, w, h, ch, r, horizontal);
    PassSamples(s, w, h, ch, r, horizontal);
    forall k | 0 <= k < |s|
      ensures t[k] == b[k]
    {
      IdxEncode(w, h, ch, k);
      var y, x, c := RowOf(w, ch, k), ColOf(w, ch, k), ChanOf(w, ch, k);
      if horizontal {
        assert k == LinePos(w, h, ch, horizontal, y, x, c);
      } else {
        assert k == LinePos(w, h, ch, horizontal, x, y, c);
      }
    }
  }

  /** A pass keeps every sample inside any bounds `[a, b]` that hold all of its input. */
  lemma PassBetween(s: seq<Byte>, w: nat, h: nat, ch: nat, r: nat, horizontal: bool, a: int, b: int)
    requires IsTight(s, w, h, ch) && 0 <= a
    requires forall k :: 0 <= k < |s| ==> a <= s[k] <= b
    ensures forall k :: 0 <= k < |s| ==> a <= BoxPass1(s, w, h, ch, r, horizontal)[k] <= b
  {
    var t := BoxPass1(s, w, h, ch, r, horizontal);
    forall k | 0 <= k < |s|
      ensures a <= t[k] <= b
    {
      IdxEncode(w, h, ch, k);
      var y, x, c := RowOf(w, ch, k), ColOf(w, ch, k), ChanOf(w, ch, k);
      var fixed := if horizontal then y else x;
      var at := if horizontal then x else y;
      var line := Line(s, w, h, ch, horizontal, fixed, c);
      BoxAverageBetween(line, r, at, a, b);
    }
  }

  /** A pass buffer exists (the pass function is one); methods name it without unfolding it. */
  lemma PassExists(s: seq<Byte>, w: nat, h: nat, ch: nat, r: nat, horizontal: bool) returns (t: seq<Byte>)
    requires IsTight(s, w, h, ch)
    ensures |t| == |s| && IsPass(s, t, w, h, ch, r, horizontal)
  {
    t := BoxPass1(s, w, h, ch, r, horizontal);
    PassSamples(s, w, h, ch, r, horizontal);
  }

  // ---------------------------------------------------------------------
  // The passes over scratch arrays (box_blur_h, box_blur_v)
  // ---------------------------------------------------------------------

  /** Offset `k` holds some channel of some pixel of columns `[x0, x1)`. */
  ghost predicate InColumns(w: nat, h: nat, ch: nat, x0: nat, x1: nat, k: nat)
  {
    exists y: nat, x: nat, c: nat | y < h && x0 <= x < x1 && x < w && c < ch :: k == Idx(w, h, ch, y, x, c)
  }

  /** In a column, the offsets after pixel row `y` resume only at row `y + 1`. */
  lemma ColumnGap(w: nat, h: nat, ch: nat, x: nat, y: nat, k: nat)
    requires x < w && InColumns(w, h, ch, x, x + 1, k) && Mul(y, Mul(w, ch)) + Mul(x, ch) + ch <= k
    ensures Mul(y + 1, Mul(w, ch)) + Mul(x, ch) <= k
  {
    var r: nat, x': nat, c: nat :| r < h && x <= x' < x + 1 && x' < w && c < ch && k == Idx(w, h, ch, r, x', c);
    if r <= y {
      MulMono(r, y, Mul(w, ch));
      assert false;
    }
    MulMono(y + 1, r, Mul(w, ch));
  }

  /** `sums` holds, channel by channel, the window sum over `[lo, hi]` along line `fixed`. */
  ghost predicate Windows(sums: seq<int>, s: seq<Byte>, w: nat, h: nat, ch: nat, horizontal: bool, fixed: nat,
                          lo: int, hi: int)
    requires IsTight(s, w, h, ch) && fixed < LineCount(w, h, horizontal)
  {
    |sums| == ch && forall c: nat | c < ch :: sums[c] == WindowSum(Line(s, w, h, ch, horizontal, fixed, c), lo, hi)
  }

  /** The priming loop's state: the windows cover `[lo, i)`. */
  ghost predicate Primed(sums: seq<int>, s: seq<Byte>, w: nat, h: nat, ch: nat, horizontal: bool, fixed: nat,
                         lo: int, i: int)
    requires IsTight(s, w, h, ch) && fixed < LineCount(w, h, horizontal)
  {
    Windows(sums, s, w, h, ch, horizontal, fixed, lo, i - 1)
  }

  /** The pixel loop's state: the windows are centred on pixel `at`, `r` positions each way. */
  ghost predicate Centered(sums: seq<int>, s: seq<Byte>, w: nat, h: nat, ch: nat, horizontal: bool, fixed: nat,
                           r: nat, at: int)
    requires IsTight(s, w, h, ch) && fixed < LineCount(w, h, horizontal)
  {
    Windows(sums, s, w, h, ch, horizontal, fixed, at - r, at + r)
  }

  /** Before the priming loop every window is empty and every sum 0. */
  lemma PrimedEmpty(sums: seq<int>, s: seq<Byte>, w: nat, h: nat, ch: nat, horizontal: bool, fixed: nat, lo: int)
    requires IsTight(s, w, h, ch) && fixed < LineCount(w, h, horizontal)
    requires |sums| == ch && forall c | 0 <= c < ch :: sums[c] == 0
    ensures Primed(sums, s, w, h, ch, horizontal, fixed, lo, lo)
  {
  }

  /**
   * Every channel's window along a line grows by position `i`, whose clamped
   * pixel starts at offset `p`: adding that pixel's bytes extends each sum.
   */
  lemma LinesGrow(s: seq<Byte>, src: seq<Byte>, w: nat, h: nat, ch: nat, horizontal: bool, fixed: nat,
                  lo: int, i: int, p: nat, before: seq<int>, after: seq<int>)
    requires IsTight(s, w, h, ch) && fixed < LineCount(w, h, horizontal) && lo <= i
    requires |s| <= |src| && src[..|s|] == s
    requires p == LinePos(w, h, ch, horizontal, fixed, ClampInt(i, 0, LineLen(w, h, horizontal) - 1), 0)
    requires |before| == ch && |after| == ch
    requires Primed(before, s, w, h, ch, horizontal, fixed, lo, i)
    requires forall c: nat | c < ch :: after[c] == before[c] + src[p + c]
    ensures Primed(after, s, w, h, ch, horizontal, fixed, lo, i + 1)
  {
    forall c: nat | c < ch
      ensures after[c] == WindowSum(Line(s, w, h, ch, horizontal, fixed, c), lo, i)
    {
      LineEntry(s, w, h, ch, horizontal, fixed, c, i, p);
      assert src[p + c] == s[p + c];
    }
  }

  /**
   * Every channel's window along a line slides from `at` to `at + 1`: the
   * pixel at `pNext` (clamped `at + r + 1`) enters, the one at `pPrev`
   * (clamped `at - r`) leaves.
   */
  lemma LinesSlide(s: seq<Byte>, src: seq<Byte>, w: nat, h: nat, ch: nat, r: nat, horizontal: bool,
                   fixed: nat, at: int, pNext: nat, pPrev: nat, before: seq<int>, after: seq<int>)
    requires IsTight(s, w, h, ch) && fixed < LineCount(w, h, horizontal)
    requires |s| <= |src| && src[..|s|] == s
    requires pNext == LinePos(w, h, ch, horizontal, fixed, ClampInt(at + r + 1, 0, LineLen(w, h, horizontal) - 1), 0)
    requires pPrev == LinePos(w, h, ch, horizontal, fixed, ClampInt(at - r, 0, LineLen(w, h, horizontal) - 1), 0)
    requires |before| == ch && |after| == ch
    requires Centered(before, s, w, h, ch, horizontal, fixed, r, at)
    requires forall c: nat | c < ch :: after[c] == before[c] + src[pNext + c] - src[pPrev + c]
    ensures Centered(after, s, w, h, ch, horizontal, fixed, r, at + 1)
  {
    forall c: nat | c < ch
      ensures after[c] == WindowSum(Line(s, w, h, ch, horizontal, fixed, c), at + 1 - r, at + 1 + r)
    {
      LineSlide(s, w, h, ch, r, horizontal, fixed, c, at, pNext, pPrev);
      assert src[pNext + c] == s[pNext + c] && src[pPrev + c] == s[pPrev + c];
    }
  }

  /** `LinesSlide` for one channel. */
  lemma LineSlide(s: seq<Byte>, w: nat, h: nat, ch: nat, r: nat, horizontal: bool, fixed: nat, c: nat, at: int,
                  pNext: nat, pPrev: nat)
    requires IsTight(s, w, h, ch) && fixed < LineCount(w, h, horizontal) && c < ch
    requires pNext == LinePos(w, h, ch, horizontal, fixed, ClampInt(at + r + 1, 0, LineLen(w, h, horizontal) - 1), 0)
    requires pPrev == LinePos(w, h, ch, horizontal, fixed, ClampInt(at - r, 0, LineLen(w, h, horizontal) - 1), 0)
    ensures pNext + c < |s| && pPrev + c < |s|
    ensures WindowSum(Line(s, w, h, ch, horizontal, fixed, c), at + 1 - r, at + 1 + r)
         == WindowSum(Line(s, w, h, ch, horizontal, fixed, c), at - r, at + r) + s[pNext + c] - s[pPrev + c]
  {
    var line := Line(s, w, h, ch, horizontal, fixed, c);
    LineEntry(s, w, h, ch, horizontal, fixed, c, at + r + 1, pNext);
    LineEntry(s, w, h, ch, horizontal, fixed, c, at - r, pPrev);
    WindowSlide(line, at - r, at + r);
    assert at + 1 - r == at - r + 1 && at + 1 + r == at + r + 1;
  }

  /** The clamped position `j` of a line holds the byte at the pixel offset `p` plus the channel. */
  lemma LineEntry(s: seq<Byte>, w: nat, h: nat, ch: nat, horizontal: bool, fixed: nat, c: nat, j: int, p: nat)
    requires IsTight(s, w, h, ch) && fixed < LineCount(w, h, horizontal) && c < ch
    requires p == LinePos(w, h, ch, horizontal, fixed, ClampInt(j, 0, LineLen(w, h, horizontal) - 1), 0)
    ensures p + c < |s|
    ensures Line(s, w, h, ch, horizontal, fixed, c)[EdgeClamp(Line(s, w, h, ch, horizontal, fixed, c), j)] == s[p + c]
  {
    assert LinePos(w, h, ch, horizontal, fixed, ClampInt(j, 0, LineLen(w, h, horizontal) - 1), c) == p + c;
  }

  /** The channel loop of the priming step: `sums[c] += p[c]` for the pixel at offset `p`. */
  method AddPixel(src: array<Byte>, sums: seq<int>, p: nat) returns (sums': seq<int>)
    requires p + |sums| <= src.Length
    ensures |sums'| == |sums|
    ensures forall c | 0 <= c < |sums| :: sums'[c] == sums[c] + src[p + c]
  {
    sums' := sums;
    var c := 0;
    while c < |sums|
      invariant 0 <= c <= |sums| && |sums'| == |sums|
      invariant forall c' | 0 <= c' < c :: sums'[c'] == sums[c'] + src[p + c']
      invariant forall c' | c <= c' < |sums| :: sums'[c'] == sums[c']
    {
      sums' := sums'[c := sums'[c] + src[p + c]];
      c := c + 1;
    }
  }

  /** The channel loop of the sliding step: `sums[c] += pNext[c] - pPrev[c]`. */
  method SlidePixel(src: array<Byte>, sums: seq<int>, pNext: nat, pPrev: nat) returns (sums': seq<int>)
    requires pNext + |sums| <= src.Length && pPrev + |sums| <= src.Length
    ensures |sums'| == |sums|
    ensures forall c | 0 <= c < |sums| :: sums'[c] == sums[c] + src[pNext + c] - src[pPrev + c]
  {
    sums' := sums;
    var c := 0;
    while c < |sums|
      invariant 0 <= c <= |sums| && |sums'| == |sums|
      invariant forall c' | 0 <= c' < c :: sums'[c'] == sums[c'] + src[pNext + c'] - src[pPrev + c']
      invariant forall c' | c <= c' < |sums| :: sums'[c'] == sums[c']
    {
      sums' := sums'[c := sums'[c] + src[pNext + c] - src[pPrev + c]];
      c := c + 1;
    }
  }

  /**
   * The priming loop of a line: one window sum per channel over positions
   * `[-radius, radius]`, each clamped to the line.
   */
  method PrimeSums(src: array<Byte>, w: nat, h: nat, ch: nat, radius: nat, horizontal: bool, fixed: nat,
                   ghost s: seq<Byte>) returns (sums: seq<int>)
    requires IsTight(s, w, h, ch) && fixed < LineCount(w, h, horizontal)
    requires src.Length >= |s| && src[..|s|] == s
    ensures Centered(sums, s, w, h, ch, horizontal, fixed, radius, 0)
  {
    sums := seq(ch, _ => 0);
    var last := LineLen(w, h, horizontal) - 1;
    var i: int := -(radius as int);
    PrimedEmpty(sums, s, w, h, ch, horizontal, fixed, i);
    while i <= radius
      invariant -(radius as int) <= i <= radius + 1
      invariant Primed(sums, s, w, h, ch, horizontal, fixed, -(radius as int), i)
    {
      var p := LinePos(w, h, ch, horizontal, fixed, ClampInt(i, 0, last), 0);
      var sums' := AddPixel(src, sums, p);
      LinesGrow(s, src[..], w, h, ch, horizontal, fixed, -(radius as int), i, p, sums, sums');
      sums := sums';
      i := i + 1;
    }
  }

  /**
   * At pixel `at` of a line, whose bytes start at offset `p`, the rounded
   * mean `(sum + dia / 2) / dia` of each channel's window sum is the pass's
   * byte for that channel.
   */
  lemma PassPixel(s: seq<Byte>, t: seq<Byte>, w: nat, h: nat, ch: nat, r: nat, horizontal: bool,
                  fixed: nat, at: nat, p: nat, sums: seq<int>)
    requires IsTight(s, w, h, ch) && IsPass(s, t, w, h, ch, r, horizontal)
    requires fixed < LineCount(w, h, horizontal) && at < LineLen(w, h, horizontal) && |sums| == ch
    requires p == LinePos(w, h, ch, horizontal, fixed, at, 0)
    requires Centered(sums, s, w, h, ch, horizontal, fixed, r, at)
    ensures p + ch <= |t|
    ensures forall c: nat | c < ch :: t[p + c] == (sums[c] + (r * 2 + 1) / 2) / (r * 2 + 1)
  {
    forall c: nat | c < ch
      ensures t[p + c] == (sums[c] + (r * 2 + 1) / 2) / (r * 2 + 1)
    {
      assert LinePos(w, h, ch, horizontal, fixed, at, c) == p + c;
      assert t[LinePos(w, h, ch, horizontal, fixed, at, c)] == Sample(s, w, h, ch, r, horizontal, fixed, at, c);
    }
  }

  /**
   * The emitting loop at one pixel: channel `c` of the pixel at offset `p0`
   * gets the rounded mean `(sums[c] + dia / 2) / dia` of its window, which
   * the caller knows to be `t`'s byte there. Writes the pixel's `ch` bytes
   * and nothing else.
   */
  method EmitPixel(dst: array<Byte>, sums: seq<int>, ch: nat, radius: nat, p0: nat, ghost t: seq<Byte>)
    requires |sums| == ch && p0 + ch <= |t| <= dst.Length
    requires forall c: nat | c < ch :: t[p0 + c] == (sums[c] + (radius * 2 + 1) / 2) / (radius * 2 + 1)
    modifies dst
    ensures forall k | p0 <= k < p0 + ch :: dst[k] == t[k]
    ensures forall k | 0 <= k < dst.Length && !(p0 <= k < p0 + ch) :: dst[k] == old(dst[k])
  {
    var dia := radius * 2 + 1;
    var c := 0;
    while c < ch
      invariant 0 <= c <= ch
      invariant forall k | p0 <= k < p0 + c :: dst[k] == t[k]
      invariant forall k | 0 <= k < dst.Length && !(p0 <= k < p0 + c) :: dst[k] == old(dst[k])
    {
      dst[p0 + c] := (sums[c] + dia / 2) / dia;
      c := c + 1;
    }
  }

  /** The sliding step: every channel's window moves from position `at` to `at + 1`. */
  method SlideSums(src: array<Byte>, sums: seq<int>, w: nat, h: nat, ch: nat, radius: nat,
                   horizontal: bool, fixed: nat, at: nat, ghost s: seq<Byte>) returns (sums': seq<int>)
    requires IsTight(s, w, h, ch) && fixed < LineCount(w, h, horizontal) && at < LineLen(w, h, horizontal)
    requires src.Length >= |s| && src[..|s|] == s
    requires Centered(sums, s, w, h, ch, horizontal, fixed, radius, at)
    ensures Centered(sums', s, w, h, ch, horizontal, fixed, radius, at + 1)
  {
    var last := LineLen(w, h, horizontal) - 1;
    var next := ClampInt(at + radius + 1, 0, last);
    var prev := ClampInt(at - radius, 0, last);
    var pNext := LinePos(w, h, ch, horizontal, fixed, next, 0);
    var pPrev := LinePos(w, h, ch, horizontal, fixed, prev, 0);
    sums' := SlidePixel(src, sums, pNext, pPrev);
    LinesSlide(s, src[..], w, h, ch, radius, horizontal, fixed, at, pNext, pPrev, sums, sums');
  }

  /**
   * One iteration of the pixel loop of either pass: write the pixel at
   * offset `p` (pixel `at` of line `fixed`) from the window sums, then slide
   * the windows on to pixel `at + 1`.
   */
  method StepPixel(src: array<Byte>, dst: array<Byte>, sums: seq<int>, w: nat, h: nat, ch: nat, radius: nat,
                   horizontal: bool, fixed: nat, at: nat, p: nat, ghost s: seq<Byte>, ghost t: seq<Byte>)
    returns (sums': seq<int>)
    requires IsTight(s, w, h, ch) && fixed < LineCount(w, h, horizontal) && at < LineLen(w, h, horizontal)
    requires src != dst && src.Length >= |s| && dst.Length >= |s| && src[..|s|] == s
    requires IsPass(s, t, w, h, ch, radius, horizontal) && p == LinePos(w, h, ch, horizontal, fixed, at, 0)
    requires Centered(sums, s, w, h, ch, horizontal, fixed, radius, at)
    modifies dst
    ensures p + ch <= |s|
    ensures forall k | p <= k < p + ch :: dst[k] == t[k]
    ensures forall k | 0 <= k < dst.Length && !(p <= k < p + ch) :: dst[k] == old(dst[k])
    ensures Centered(sums', s, w, h, ch, horizontal, fixed, radius, at + 1)
  {
    PassPixel(s, t, w, h, ch, radius, horizontal, fixed, at, p, sums);
    EmitPixel(dst, sums, ch, radius, p, t);
    sums' := SlideSums(src, sums, w, h, ch, radius, horizontal, fixed, at, s);
  }

  /**
   * One iteration of the row loop of `box_blur_h`: prime the window sums,
   * then per pixel emit and slide. Writes row `y` of the pass and nothing else.
   */
  method BoxBlurRowH(src: array<Byte>, dst: array<Byte>, w: nat, h: nat, ch: nat, radius: nat,
                     y: nat, ghost s: seq<Byte>, ghost t: seq<Byte>)
    requires IsTight(s, w, h, ch) && y < h && src != dst && Mul(y + 1, Mul(w, ch)) <= |s|
    requires src.Length >= |s| && dst.Length >= |s| && src[..|s|] == s
    requires IsPass(s, t, w, h, ch, radius, true)
    modifies dst
    ensures forall k | Mul(y, Mul(w, ch)) <= k < Mul(y + 1, Mul(w, ch)) :: dst[k] == t[k]
    ensures forall k | 0 <= k < dst.Length && !(Mul(y, Mul(w, ch)) <= k < Mul(y + 1, Mul(w, ch))) ::
      dst[k] == old(dst[k])
  {
    var stride := Mul(w, ch);
    var row := Mul(y, stride);
    var sums := PrimeSums(src, w, h, ch, radius, true, y, s);
    var x := 0;
    while x < w
      invariant 0 <= x <= w && Mul(x, ch) <= stride
      invariant forall k | row <= k < row + Mul(x, ch) :: dst[k] == t[k]
      invariant forall k | 0 <= k < dst.Length && !(row <= k < row + Mul(x, ch)) :: dst[k] == old(dst[k])
      invariant Centered(sums, s, w, h, ch, true, y, radius, x)
    {
      var p := row + Mul(x, ch);
      MulMono(x + 1, w, ch);
      sums := StepPixel(src, dst, sums, w, h, ch, radius, true, y, x, p, s, t);
      x := x + 1;
    }
  }

  /** `box_blur_h`: the horizontal pass of the first `w * ch * h` bytes of `src`, into `dst`. */
  method BoxBlurH(src: array<Byte>, dst: array<Byte>, w: nat, h: nat, ch: nat, radius: nat)
    requires w >= 1 && h >= 1 && ch >= 1 && src != dst
    requires src.Length >= TightLen(w, h, ch) && dst.Length >= TightLen(w, h, ch)
    modifies dst
    ensures dst[..TightLen(w, h, ch)] == BoxH(src[..TightLen(w, h, ch)], w, h, ch, radius)
    ensures dst[TightLen(w, h, ch)..] == old(dst[TightLen(w, h, ch)..])
  {
    ghost var n := TightLen(w, h, ch);
    ghost var s := src[..n];
    ghost var t := PassExists(s, w, h, ch, radius, true);
    var y := 0;
    while y < h
      invariant 0 <= y <= h && Mul(y, Mul(w, ch)) <= n
      invariant forall k | 0 <= k < Mul(y, Mul(w, ch)) :: dst[k] == t[k]
      invariant forall k | n <= k < dst.Length :: dst[k] == old(dst[k])
    {
      MulMono(y + 1, h, Mul(w, ch));
      BoxBlurRowH(src, dst, w, h, ch, radius, y, s, t);
      y := y + 1;
    }
    assert dst[..n] == t;
    PassUnique(s, t, w, h, ch, radius, true);
  }

  /**
   * One iteration of the column loop of `box_blur_v`: the same window walk
   * down column `x`. Writes column `x` of the pass and nothing else.
   */
  method BoxBlurColumnV(src: array<Byte>, dst: array<Byte>, w: nat, h: nat, ch: nat, radius: nat,
                        x: nat, ghost s: seq<Byte>, ghost t: seq<Byte>)
    requires IsTight(s, w, h, ch) && x < w && src != dst
    requires src.Length >= |s| && dst.Length >= |s| && src[..|s|] == s
    requires IsPass(s, t, w, h, ch, radius, false)
    modifies dst
    ensures forall k | 0 <= k < |s| && InColumns(w, h, ch, x, x + 1, k) :: dst[k] == t[k]
    ensures forall k | 0 <= k < dst.Length && !InColumns(w, h, ch, x, x + 1, k) :: dst[k] == old(dst[k])
  {
    ghost var xEnd := x + 1;
    var stride := Mul(w, ch);
    var xoff := Mul(x, ch);
    var sums := PrimeSums(src, w, h, ch, radius, false, x, s);
    var y := 0;
    while y < h
      invariant 0 <= y <= h
      invariant forall k | 0 <= k < |s| && InColumns(w, h, ch, x, xEnd, k) && k < Mul(y, stride) + xoff ::
        dst[k] == t[k]
      invariant forall k | 0 <= k < dst.Length && (!InColumns(w, h, ch, x, xEnd, k) || k >= Mul(y, stride) + xoff) ::
        dst[k] == old(dst[k])
      invariant Centered(sums, s, w, h, ch, false, x, radius, y)
    {
      var p := Mul(y, stride) + xoff;
      forall k | p <= k < p + ch
        ensures InColumns(w, h, ch, x, xEnd, k)
      {
        assert k == Idx(w, h, ch, y, x, k - p);
      }
      sums := StepPixel(src, dst, sums, w, h, ch, radius, false, x, y, p, s, t);
      forall k | 0 <= k < |s| && InColumns(w, h, ch, x, xEnd, k) && p + ch <= k
        ensures Mul(y + 1, stride) + xoff <= k
      {
        ColumnGap(w, h, ch, x, y, k);
      }
      y := y + 1;
    }
  }

  /** `box_blur_v`: the vertical pass of the first `w * ch * h` bytes of `src`, into `dst`. */
  method BoxBlurV(src: array<Byte>, dst: array<Byte>, w: nat, h: nat, ch: nat, radius: nat)
    requires w >= 1 && h >= 1 && ch >= 1 && src != dst
    requires src.Length >= TightLen(w, h, ch) && dst.Length >= TightLen(w, h, ch)
    modifies dst
    ensures dst[..TightLen(w, h, ch)] == BoxV(src[..TightLen(w, h, ch)], w, h, ch, radius)
    ensures dst[TightLen(w, h, ch)..] == old(dst[TightLen(w, h, ch)..])
  {
    ghost var n := TightLen(w, h, ch);
    ghost var s := src[..n];
    ghost var t := PassExists(s, w, h, ch, radius, false);
    var x := 0;
    while x < w
      invariant 0 <= x <= w
      invariant forall k | 0 <= k < n && InColumns(w, h, ch, 0, x, k) :: dst[k] == t[k]
      invariant forall k | n <= k < dst.Length :: dst[k] == old(dst[k])
    {
      BoxBlurColumnV(src, dst, w, h, ch, radius, x, s, t);
      forall k | 0 <= k < n && InColumns(w, h, ch, 0, x + 1, k)
        ensures InColumns(w, h, ch, 0, x, k) || InColumns(w, h, ch, x, x + 1, k)
      {
        var r: nat, x': nat, c: nat :| r < h && x' < x + 1 && x' < w && c < ch && k == Idx(w, h, ch, r, x', c);
        if x' == x {
          assert InColumns(w, h, ch, x, x + 1, k);
        } else {
          assert InColumns(w, h, ch, 0, x, k);
        }
      }
      x := x + 1;
    }
    forall k | 0 <= k < n
      ensures dst[k] == t[k]
    {
      IdxEncode(w, h, ch, k);
      assert InColumns(w, h, ch, 0, w, k);
    }
    assert dst[..n] == t;
    PassUnique(s, t, w, h, ch, radius, false);
  }
}

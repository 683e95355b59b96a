/**
 * The hand-written Base64 encoder behind `canvas_to_png_base64` and the
 * fill-rule table of `canvas_set_fill_rule`.
 *
 * The encoder follows section 4 of RFC 4648 (standard alphabet, `=`
 * padding). Its loop steps through the PNG bytes three at a time and pushes
 * four characters per step; it is proved against the recursive `Base64`,
 * whose length, alphabet and padding are stated as lemmas, and whose
 * decoding `Decode` gives every input back.
 */
module Canvas {
  import opened Common
  import opened Terms
  import opened Arith

  // ---------------------------------------------------------------------
  // The alphabet
  // ---------------------------------------------------------------------

  /** The character a 6-bit index stands for: A-Z, a-z, 0-9, `+`, `/`. */
  function Digit(k: int): (c: char)
    requires 0 <= k < 64
    ensures c != '='
  {
    if k < 26 then ('A' as int + k) as char
    else if k < 52 then ('a' as int + (k - 26)) as char
    else if k < 62 then ('0' as int + (k - 52)) as char
    else if k == 62 then '+'
    else '/'
  }

  /** `b64_table`, the 64-character table indexed by a sextet. */
  const TABLE: string := "ABCDEFGHIJKLMNOPQRSTUVWXYZ" + "abcdefghijklmnopqrstuvwxyz" + "0123456789+/"

  lemma TableUpper(k: int)
    requires 0 <= k < 26
    ensures TABLE[k] == Digit(k)
  {
  }

  lemma TableLower(k: int)
    requires 26 <= k < 52
    ensures TABLE[k] == Digit(k)
  {
  }

  lemma TableDigits(k: int)
    requires 52 <= k < 64
    ensures TABLE[k] == Digit(k)
  {
  }

  /** The table lists the digits in index order. */
  lemma TableIsDigits(k: int)
    requires 0 <= k < 64
    ensures TABLE[k] == Digit(k)
  {
    if k < 26 {
      TableUpper(k);
    } else if k < 52 {
      TableLower(k);
    } else {
      TableDigits(k);
    }
  }

  /** The index of an alphabet character; `None` for any other character. */
  function IndexOf(c: char): (r: Option<int>)
    ensures r.Some? ==> 0 <= r.value < 64 && Digit(r.value) == c
  {
    if 'A' <= c <= 'Z' then Some(c as int - 'A' as int)
    else if 'a' <= c <= 'z' then Some(c as int - 'a' as int + 26)
    else if '0' <= c <= '9' then Some(c as int - '0' as int + 52)
    else if c == '+' then Some(62)
    else if c == '/' then Some(63)
    else None
  }

  /** Every index is recovered from its digit, so the table has no repeats. */
  lemma IndexOfDigit(k: int)
    requires 0 <= k < 64
    ensures IndexOf(Digit(k)) == Some(k)
  {
  }

  predicate IsBase64Char(c: char)
  {
    IndexOf(c).Some? || c == '='
  }

  // ---------------------------------------------------------------------
  // Encoding
  // ---------------------------------------------------------------------

  /** Three bytes as one 24-bit value, the first in the top byte. */
  function Pack(b0: Byte, b1: Byte, b2: Byte): (v: int)
    ensures 0 <= v < 0x100_0000
  {
    (b0 as int) * 0x1_0000 + (b1 as int) * 0x100 + b2
  }

  /**
   * The 24-bit group value of one step: bytes past the end of the input
   * count as 0.
   */
  function GroupValue(g: seq<Byte>): (v: int)
    requires 1 <= |g| <= 3
    ensures 0 <= v < 0x100_0000
  {
    Pack(g[0], if |g| > 1 then g[1] else 0, if |g| > 2 then g[2] else 0)
  }

  /** `(v >> 6k) & 0x3F`: sextet `k` of a value, counted from the right. */
  function Sextet(v: int, k: int): (s: int)
    requires 0 <= v && 0 <= k <= 3
    ensures 0 <= s < 64
  {
    if k == 3 then (v / 0x4_0000) % 64
    else if k == 2 then (v / 0x1000) % 64
    else if k == 1 then (v / 0x40) % 64
    else v % 64
  }

  /** Sextet 3 of a group is the top six bits of its first byte. */
  lemma Sextet3(b0: Byte, b1: Byte, b2: Byte)
    ensures Sextet(Pack(b0, b1, b2), 3) == b0 / 4
  {
    var v := Pack(b0, b1, b2);
    DivModUnique(v, 0x4_0000, b0 / 4, (b0 % 4) * 0x1_0000 + (b1 as int) * 0x100 + b2);
    DivModUnique(b0 / 4, 64, 0, b0 / 4);
  }

  /** Sextet 2: the low two bits of the first byte, the top four of the second. */
  lemma Sextet2(b0: Byte, b1: Byte, b2: Byte)
    ensures Sextet(Pack(b0, b1, b2), 2) == (b0 % 4) * 16 + b1 / 16
  {
    var v := Pack(b0, b1, b2);
    var q := (b0 as int) * 16 + b1 / 16;
    DivModUnique(v, 0x1000, q, (b1 % 16) * 0x100 + b2);
    DivModUnique(q, 64, b0 / 4, (b0 % 4) * 16 + b1 / 16);
  }

  /** Sextet 1: the low four bits of the second byte, the top two of the third. */
  lemma Sextet1(b0: Byte, b1: Byte, b2: Byte)
    ensures Sextet(Pack(b0, b1, b2), 1) == (b1 % 16) * 4 + b2 / 64
  {
    var v := Pack(b0, b1, b2);
    var q := (b0 as int) * 0x400 + (b1 as int) * 4 + b2 / 64;
    DivModUnique(v, 0x40, q, b2 % 64);
    DivModUnique(q, 64, (b0 as int) * 16 + b1 / 16, (b1 % 16) * 4 + b2 / 64);
  }

  /** Sextet 0: the low six bits of the third byte. */
  lemma Sextet0(b0: Byte, b1: Byte, b2: Byte)
    ensures Sextet(Pack(b0, b1, b2), 0) == b2 % 64
  {
    var v := Pack(b0, b1, b2);
    DivModUnique(v, 64, (b0 as int) * 0x400 + (b1 as int) * 4 + b2 / 64, b2 % 64);
  }

  /**
   * The four characters one step pushes for a group of `n` bytes with
   * value `v`: sextets 3 to 0, with `=` for the ones that only cover
   * missing bytes.
   */
  function Quad(v: int, n: int): (q: string)
    requires 0 <= v && 1 <= n <= 3
    ensures |q| == 4
  {
    [Digit(Sextet(v, 3)), Digit(Sextet(v, 2)),
     if n > 1 then Digit(Sextet(v, 1)) else '=',
     if n > 2 then Digit(Sextet(v, 0)) else '=']
  }

  function EncodeGroup(g: seq<Byte>): (q: string)
    requires 1 <= |g| <= 3
    ensures |q| == 4
  {
    Quad(GroupValue(g), |g|)
  }

  function Min(a: int, b: int): int { if a <= b then a else b }

  /** The number of steps for `n` bytes: one per started group of three. */
  function Groups(n: nat): nat
  {
    if n == 0 then 0 else if n <= 3 then 1 else 1 + Groups(n - 3)
  }

  /** The bytes in the last group of a non-empty input, 1 to 3. */
  function Leftover(n: nat): nat
    requires n > 0
  {
    if n <= 3 then n else Leftover(n - 3)
  }

  /** Steps are `ceil(n / 3)`, the count `(n + 2) / 3 * 4` reserves for. */
  lemma {:induction false} GroupsIsCeiling(n: nat)
    ensures Groups(n) == (n + 2) / 3
  {
    if n > 3 {
      GroupsIsCeiling(n - 3);
    }
  }

  /** The last group holds `n % 3` bytes, or three when that is 0. */
  lemma {:induction false} LeftoverIsRemainder(n: nat)
    requires n > 0
    ensures Leftover(n) == if n % 3 == 0 then 3 else n % 3
  {
    if n > 3 {
      LeftoverIsRemainder(n - 3);
    }
  }

  /** The Base64 text of `d`: one four-character group per three bytes. */
  function Base64(d: seq<Byte>): (r: string)
    ensures |r| == 4 * Groups(|d|)
    decreases |d|
  {
    if |d| == 0 then ""
    else if |d| <= 3 then EncodeGroup(d)
    else EncodeGroup(d[..3]) + Base64(d[3..])
  }

  /** One step of the encoding: the first group, then the rest. */
  lemma Base64Step(d: seq<Byte>)
    requires |d| > 0
    ensures Base64(d) == EncodeGroup(d[..Min(3, |d|)]) + Base64(d[Min(3, |d|)..])
  {
    if |d| <= 3 {
      assert d[..|d|] == d;
      assert d[|d|..] == [];
    }
  }

  /** The encoding from offset `i` on: the group at `i`, then the rest. */
  lemma Base64At(data: seq<Byte>, i: int)
    requires 0 <= i < |data|
    ensures Base64(data[i..]) ==
            EncodeGroup(data[i..Min(i + 3, |data|)]) + Base64(data[Min(i + 3, |data|)..])
  {
    var n := Min(3, |data| - i);
    Base64Step(data[i..]);
    assert data[i..][..n] == data[i..i + n];
    assert data[i..][n..] == data[i + n..];
  }

  /** Four single pushes append the four characters as one group. */
  lemma PushFour(s: string, c0: char, c1: char, c2: char, c3: char, rest: string)
    ensures s + [c0] + [c1] + [c2] + [c3] + rest == s + ([c0, c1, c2, c3] + rest)
  {
  }

  /** The value the loop computes at offset `i` is that group's value. */
  lemma StepValue(data: seq<Byte>, i: int)
    requires 0 <= i < |data|
    ensures var len := |data|;
            (data[i] as int) * 0x1_0000 + (if i + 1 < len then (data[i + 1] as int) * 0x100 else 0) +
            (if i + 2 < len then data[i + 2] as int else 0) == GroupValue(data[i..Min(i + 3, len)])
  {
  }

  /**
   * The loop of `canvas_to_png_base64`: `i` steps by three over `data` and
   * each step pushes the four characters of its group.
   */
  method EncodeBase64(data: seq<Byte>) returns (b64: string)
    ensures b64 == Base64(data)
  {
    b64 := [];
    var len := |data|;
    var i := 0;
    while i < len
      invariant 0 <= i <= len + 2
      invariant b64 + Base64(data[Min(i, len)..]) == Base64(data)
      decreases len - i
    {
      var val := (data[i] as int) * 0x1_0000 + (if i + 1 < len then (data[i + 1] as int) * 0x100 else 0) +
                 (if i + 2 < len then data[i + 2] as int else 0);
      ghost var n := Min(3, len - i);
      Base64At(data, i);
      StepValue(data, i);
      var c0 := Digit(Sextet(val, 3));
      var c1 := Digit(Sextet(val, 2));
      var c2 := if i + 1 < len then Digit(Sextet(val, 1)) else '=';
      var c3 := if i + 2 < len then Digit(Sextet(val, 0)) else '=';
      ghost var quad := [c0, c1, c2, c3];
      ghost var rest := Base64(data[Min(i + 3, len)..]);
      assert EncodeGroup(data[i..Min(i + 3, len)]) == quad by {
        assert Quad(val, n) == quad;
      }
      assert Base64(data[i..]) == quad + rest;
      ghost var before := b64;
      b64 := b64 + [c0];
      b64 := b64 + [c1];
      b64 := b64 + [c2];
      b64 := b64 + [c3];
      PushFour(before, c0, c1, c2, c3, rest);
      i := i + 3;
    }
    assert data[Min(i, len)..] == [];
  }

  // ---------------------------------------------------------------------
  // Properties of the encoding
  // ---------------------------------------------------------------------

  /** The four characters of a step are alphabet characters or `=`. */
  lemma QuadAlphabet(v: int, n: int)
    requires 0 <= v && 1 <= n <= 3
    ensures forall k :: 0 <= k < 4 ==> IsBase64Char(Quad(v, n)[k])
  {
    IndexOfDigit(Sextet(v, 3));
    IndexOfDigit(Sextet(v, 2));
    IndexOfDigit(Sextet(v, 1));
    IndexOfDigit(Sextet(v, 0));
  }

  /** Every output character is an alphabet character or `=`. */
  lemma {:induction false} Base64Alphabet(d: seq<Byte>)
    ensures forall k :: 0 <= k < |Base64(d)| ==> IsBase64Char(Base64(d)[k])
    decreases |d|
  {
    if |d| > 0 {
      var n := Min(3, |d|);
      Base64Step(d);
      QuadAlphabet(GroupValue(d[..n]), n);
      Base64Alphabet(d[n..]);
    }
  }

  /**
   * Padding as section 4 of RFC 4648 fixes it: none when the length is a
   * multiple of three, `==` when one byte is left over, `=` when two are.
   */
  lemma {:induction false} Base64Padding(d: seq<Byte>)
    requires |d| > 0
    ensures var r := Base64(d);
            |r| >= 4 &&
            (Leftover(|d|) == 3 ==> r[|r| - 1] != '=' && r[|r| - 2] != '=') &&
            (Leftover(|d|) == 1 ==> r[|r| - 1] == '=' && r[|r| - 2] == '=' && r[|r| - 3] != '=') &&
            (Leftover(|d|) == 2 ==> r[|r| - 1] == '=' && r[|r| - 2] != '=')
    decreases |d|
  {
    if |d| > 3 {
      var t := Base64(d[3..]);
      Base64Padding(d[3..]);
      var r := Base64(d);
      assert r == EncodeGroup(d[..3]) + t;
      assert r[|r| - 1] == t[|t| - 1] && r[|r| - 2] == t[|t| - 2] && r[|r| - 3] == t[|t| - 3];
      assert Leftover(|d|) == Leftover(|d[3..]|);
    }
  }

  // ---------------------------------------------------------------------
  // Decoding, the partner of the encoder
  // ---------------------------------------------------------------------

  /** The `n` bytes four sextets stand for. */
  function Unpack(i0: int, i1: int, i2: int, i3: int, n: int): (bytes: seq<Byte>)
    requires 0 <= i0 < 64 && 0 <= i1 < 64 && 0 <= i2 < 64 && 0 <= i3 < 64
    requires 1 <= n <= 3
    ensures |bytes| == n
  {
    var b0 := i0 * 4 + i1 / 16;
    var b1 := (i1 % 16) * 16 + i2 / 4;
    var b2 := (i2 % 4) * 64 + i3;
    if n == 1 then [b0] else if n == 2 then [b0, b1] else [b0, b1, b2]
  }

  /**
   * The bytes of one four-character group; `=` may stand only in the last
   * group of the text. Bits a padded group does not use are not checked.
   */
  function DecodeGroup(q: string, last: bool): (r: Option<seq<Byte>>)
    requires |q| == 4
    ensures r.Some? ==> 1 <= |r.value| <= 3
  {
    var i0 := IndexOf(q[0]);
    var i1 := IndexOf(q[1]);
    var i2 := IndexOf(q[2]);
    var i3 := IndexOf(q[3]);
    if i0.None? || i1.None? then None
    else if last && q[2] == '=' && q[3] == '=' then Some(Unpack(i0.value, i1.value, 0, 0, 1))
    else if i2.None? then None
    else if last && q[3] == '=' then Some(Unpack(i0.value, i1.value, i2.value, 0, 2))
    else if i3.None? then None
    else Some(Unpack(i0.value, i1.value, i2.value, i3.value, 3))
  }

  /** Base64 text back to bytes; `None` for text no encoding produces. */
  function Decode(s: string): (r: Option<seq<Byte>>)
    decreases |s|
  {
    if |s| == 0 then Some([])
    else if |s| < 4 then None
    else
      match DecodeGroup(s[..4], |s| == 4)
      case None => None
      case Some(g) =>
        match Decode(s[4..])
        case None => None
        case Some(rest) => Some(g + rest)
  }

  /** A step's four characters decode to the sextets they were made from. */
  lemma DecodeQuad(v: int, n: int, last: bool)
    requires 0 <= v && 1 <= n <= 3
    requires n < 3 ==> last
    ensures DecodeGroup(Quad(v, n), last) ==
            Some(Unpack(Sextet(v, 3), Sextet(v, 2), if n > 1 then Sextet(v, 1) else 0,
                        if n > 2 then Sextet(v, 0) else 0, n))
  {
    IndexOfDigit(Sextet(v, 3));
    IndexOfDigit(Sextet(v, 2));
    IndexOfDigit(Sextet(v, 1));
    IndexOfDigit(Sextet(v, 0));
  }

  /** The first byte back from sextets 3 and 2. */
  lemma UnpackByte0(b0: Byte, b1: Byte)
    ensures (b0 / 4) * 4 + ((b0 % 4) * 16 + b1 / 16) / 16 == b0
  {
    DivModUnique((b0 % 4) * 16 + b1 / 16, 16, b0 % 4, b1 / 16);
  }

  /** The second byte back from sextets 2 and 1. */
  lemma UnpackByte1(b0: Byte, b1: Byte, b2: Byte)
    ensures (((b0 % 4) * 16 + b1 / 16) % 16) * 16 + ((b1 % 16) * 4 + b2 / 64) / 4 == b1
  {
    DivModUnique((b0 % 4) * 16 + b1 / 16, 16, b0 % 4, b1 / 16);
    DivModUnique((b1 % 16) * 4 + b2 / 64, 4, b1 % 16, b2 / 64);
  }

  /** The third byte back from sextets 1 and 0. */
  lemma UnpackByte2(b1: Byte, b2: Byte)
    ensures (((b1 % 16) * 4 + b2 / 64) % 4) * 64 + b2 % 64 == b2
  {
    DivModUnique((b1 % 16) * 4 + b2 / 64, 4, b1 % 16, b2 / 64);
  }

  /** The sextets of a group give its bytes back. */
  lemma UnpackGroup(g: seq<Byte>)
    requires 1 <= |g| <= 3
    ensures var v := GroupValue(g); var n := |g|;
            Unpack(Sextet(v, 3), Sextet(v, 2), if n > 1 then Sextet(v, 1) else 0,
                   if n > 2 then Sextet(v, 0) else 0, n) == g
  {
    var b0 := g[0];
    var b1 := if |g| > 1 then g[1] else 0;
    var b2 := if |g| > 2 then g[2] else 0;
    Sextet3(b0, b1, b2);
    Sextet2(b0, b1, b2);
    Sextet1(b0, b1, b2);
    Sextet0(b0, b1, b2);
    UnpackByte0(b0, b1);
    var u := Unpack(Sextet(GroupValue(g), 3), Sextet(GroupValue(g), 2),
                    if |g| > 1 then Sextet(GroupValue(g), 1) else 0,
                    if |g| > 2 then Sextet(GroupValue(g), 0) else 0, |g|);
    assert u[0] == g[0];
    if |g| > 1 {
      UnpackByte1(b0, b1, b2);
      assert u[1] == g[1];
    }
    if |g| > 2 {
      UnpackByte2(b1, b2);
      assert u[2] == g[2];
    }
  }

  /** One group decodes to the bytes it encodes. */
  lemma DecodeEncodeGroup(g: seq<Byte>, last: bool)
    requires 1 <= |g| <= 3
    requires |g| < 3 ==> last
    ensures DecodeGroup(EncodeGroup(g), last) == Some(g)
  {
    DecodeQuad(GroupValue(g), |g|, last);
    UnpackGroup(g);
  }

  /** Decoding undoes encoding: `Decode(Base64(d)) == Some(d)` for all bytes. */
  lemma {:induction false} DecodeBase64(d: seq<Byte>)
    ensures Decode(Base64(d)) == Some(d)
    decreases |d|
  {
    if |d| > 0 {
      var n := Min(3, |d|);
      var q := EncodeGroup(d[..n]);
      var r := Base64(d);
      var rest := Base64(d[n..]);
      Base64Step(d);
      assert r[..4] == q;
      assert r[4..] == rest;
      DecodeEncodeGroup(d[..n], |r| == 4);
      DecodeBase64(d[n..]);
      assert d[..n] + d[n..] == d;
    }
  }

  /** Different byte strings never share a Base64 text. */
  lemma Base64Injective(d1: seq<Byte>, d2: seq<Byte>)
    requires Base64(d1) == Base64(d2)
    ensures d1 == d2
  {
    DecodeBase64(d1);
    DecodeBase64(d2);
  }

  // ---------------------------------------------------------------------
  // canvas_to_png_base64 and canvas_set_fill_rule
  // ---------------------------------------------------------------------

  datatype Reply = OkText(text: string) | OkAtom | Error(reason: string) | BadArg

  /**
   * `canvas_to_png_base64(Canvas)`: `canvasFound` says whether the argument
   * is a canvas; `png` is what the PNG codec wrote, `None` when it failed.
   */
  method ToPngBase64(argc: int, canvasFound: bool, png: Option<seq<Byte>>) returns (r: Reply)
    ensures argc != 1 ==> r == BadArg
    ensures argc == 1 && !canvasFound ==> r == Error("to_png_base64_invalid_canvas")
    ensures argc == 1 && canvasFound && png.None? ==> r == Error("canvas_to_png_base64_failed")
    ensures argc == 1 && canvasFound && png.Some? ==> r == OkText(Base64(png.value))
  {
    if argc != 1 {
      return BadArg;
    }
    if !canvasFound {
      return Error("to_png_base64_invalid_canvas");
    }
    if png.None? {
      return Error("canvas_to_png_base64_failed");
    }
    var text := EncodeBase64(png.value);
    return OkText(text);
  }

  datatype FillRule = NonZero | EvenOdd

  /** The rule an atom names: two spellings each; anything else is refused. */
  function FillRuleOf(name: string): (r: Option<FillRule>)
    ensures r == Some(NonZero) <==> name == "non_zero" || name == "nonzero"
    ensures r == Some(EvenOdd) <==> name == "even_odd" || name == "evenodd"
  {
    if name == "non_zero" || name == "nonzero" then Some(NonZero)
    else if name == "even_odd" || name == "evenodd" then Some(EvenOdd)
    else None
  }

  /** The part of a canvas `canvas_set_fill_rule` changes. */
  class Canvas {
    var fillRule: FillRule

    constructor ()
      ensures fillRule == NonZero
    {
      fillRule := NonZero;
    }
  }

  /**
   * `canvas_set_fill_rule(Canvas, Rule)`: the canvas is resolved by the
   * caller (`null` when the argument is not one); the atom is read into a
   * 32-byte buffer.
   */
  method SetFillRule(argc: int, canvas: Canvas?, ruleTerm: Term) returns (r: Reply)
    modifies canvas
    ensures argc != 2 ==> r == BadArg
    ensures argc == 2 && canvas == null ==> r == Error("set_fill_rule_invalid_canvas")
    ensures argc == 2 && canvas != null && GetAtom(ruleTerm, 32).None? ==>
              r == Error("set_fill_rule_invalid_atom")
    ensures argc == 2 && canvas != null && GetAtom(ruleTerm, 32).Some? &&
            FillRuleOf(GetAtom(ruleTerm, 32).value).None? ==>
              r == Error("canvas_set_fill_rule_invalid_rule")
    ensures r == OkAtom <==>
              argc == 2 && canvas != null && GetAtom(ruleTerm, 32).Some? &&
              FillRuleOf(GetAtom(ruleTerm, 32).value).Some?
    ensures r == OkAtom ==> canvas.fillRule == FillRuleOf(ruleTerm.name).value
    ensures r != OkAtom && canvas != null ==> canvas.fillRule == old(canvas.fillRule)
  {
    if argc != 2 {
      return BadArg;
    }
    if canvas == null {
      return Error("set_fill_rule_invalid_canvas");
    }
    var atom := GetAtom(ruleTerm, 32);
    if atom.None? {
      return Error("set_fill_rule_invalid_atom");
    }
    var rule := FillRuleOf(atom.value);
    if rule.None? {
      return Error("canvas_set_fill_rule_invalid_rule");
    }
    canvas.fillRule := rule.value;
    return OkAtom;
  }
}

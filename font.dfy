/**
 * Font helpers: four-byte OpenType tags and their text form, decoding a
 * tag from a binary or an atom, the feature list of a new font, glyph
 * bounds for one glyph or a list, and glyph outlines into a path.
 *
 * The font engine's answers (bounds of a glyph, its outline, whether a
 * feature value is accepted, whether a call succeeds) are parameters.
 */
module Fonts {
  import opened Common
  import opened Terms

  /** A 32-bit OpenType tag. */
  type Tag = bv32

  // ---------------------------------------------------------------------
  // Tags
  // ---------------------------------------------------------------------

  /** `BL_MAKE_TAG` over unsigned bytes: the first byte is the most significant. */
  function MakeTag(a: bv8, b: bv8, c: bv8, d: bv8): Tag
  {
    ((a as bv32) << 24) | ((b as bv32) << 16) | ((c as bv32) << 8) | (d as bv32)
  }

  /** The four bytes of a tag, most significant first: `(tag >> s) & 0xFF`. */
  function TagBytes(t: Tag): (r: seq<bv8>)
    ensures |r| == 4
  {
    [((t >> 24) & 0xFF) as bv8, ((t >> 16) & 0xFF) as bv8, ((t >> 8) & 0xFF) as bv8, (t & 0xFF) as bv8]
  }

  /** Splitting a packed tag gives back its bytes. */
  lemma TagBytesOfMake(a: bv8, b: bv8, c: bv8, d: bv8)
    ensures TagBytes(MakeTag(a, b, c, d)) == [a, b, c, d]
  {
  }

  /** Packing the bytes of a tag gives back the tag. */
  lemma MakeOfTagBytes(t: Tag)
    ensures var s := TagBytes(t); MakeTag(s[0], s[1], s[2], s[3]) == t
  {
  }

  /** A byte as the C `char` of the same code. */
  function ByteChar(b: bv8): char
  {
    (b as int) as char
  }

  /** The text `bltag_to_cstr` writes: the four bytes, then a NUL. */
  function TagCstr(t: Tag): (r: seq<char>)
    ensures |r| == 5
  {
    var s := TagBytes(t);
    [ByteChar(s[0]), ByteChar(s[1]), ByteChar(s[2]), ByteChar(s[3]), '\0']
  }

  /**
   * `bltag_to_cstr`: write the tag's four bytes, most significant first,
   * and a terminating NUL into a five-char buffer.
   */
  method TagToCstr(tag: Tag, out: array<char>)
    requires out.Length == 5
    modifies out
    ensures out[..] == TagCstr(tag)
  {
    out[0] := ByteChar(((tag >> 24) & 0xFF) as bv8);
    out[1] := ByteChar(((tag >> 16) & 0xFF) as bv8);
    out[2] := ByteChar(((tag >> 8) & 0xFF) as bv8);
    out[3] := ByteChar((tag & 0xFF) as bv8);
    out[4] := '\0';
  }

  /** The text of a packed tag is its four bytes in order, then the NUL. */
  lemma CstrOfMakeTag(a: bv8, b: bv8, c: bv8, d: bv8)
    ensures TagCstr(MakeTag(a, b, c, d)) == [ByteChar(a), ByteChar(b), ByteChar(c), ByteChar(d), '\0']
  {
    TagBytesOfMake(a, b, c, d);
  }

  /** `strlen`: the position of the first NUL, or the whole length. */
  function StrLen(s: string): (n: nat)
    ensures n <= |s|
    ensures forall i | 0 <= i < n :: s[i] != '\0'
    ensures n < |s| ==> s[n] == '\0'
  {
    if |s| == 0 then 0 else if s[0] == '\0' then 0 else 1 + StrLen(s[1..])
  }

  /** A binary's byte. */
  function Octet(b: Byte): bv8
  {
    b as bv8
  }

  /** An atom's byte, as the unsigned value it holds. */
  function AtomOctet(c: char): bv8
  {
    ToByte(c as int) as bv8
  }

  /**
   * `tag_from_term`: a binary must have exactly four bytes (any other
   * binary is refused without trying the atom form); otherwise an atom of
   * fewer than 16 bytes whose C length is four. Bytes are packed as
   * unsigned values.
   */
  function TagFromTerm(t: Term): (r: Option<Tag>)
    ensures t.Binary? ==> (r.Some? <==> |t.bytes| == 4)
    ensures t.Atom? ==> (r.Some? <==> |t.name| < 16 && StrLen(t.name) == 4)
    ensures !t.Binary? && !t.Atom? ==> r.None?
  {
    if t.Binary? then
      if |t.bytes| != 4 then None
      else Some(MakeTag(Octet(t.bytes[0]), Octet(t.bytes[1]), Octet(t.bytes[2]), Octet(t.bytes[3])))
    else match GetAtom(t, 16)
      case None => None
      case Some(name) =>
        if StrLen(name) != 4 then None
        else Some(MakeTag(AtomOctet(name[0]), AtomOctet(name[1]), AtomOctet(name[2]), AtomOctet(name[3])))
  }

  /** A four-byte binary's bytes come back out of its tag, in order. */
  lemma BinaryTagBytes(t: Term)
    requires t.Binary? && |t.bytes| == 4
    ensures TagBytes(TagFromTerm(t).value) == [Octet(t.bytes[0]), Octet(t.bytes[1]), Octet(t.bytes[2]), Octet(t.bytes[3])]
  {
    TagBytesOfMake(Octet(t.bytes[0]), Octet(t.bytes[1]), Octet(t.bytes[2]), Octet(t.bytes[3]));
  }

  /** An atom's first four bytes come back out of its tag, in order. */
  lemma AtomTagBytes(t: Term)
    requires t.Atom? && |t.name| < 16 && StrLen(t.name) == 4
    ensures TagBytes(TagFromTerm(t).value) == [AtomOctet(t.name[0]), AtomOctet(t.name[1]), AtomOctet(t.name[2]), AtomOctet(t.name[3])]
  {
    TagBytesOfMake(AtomOctet(t.name[0]), AtomOctet(t.name[1]), AtomOctet(t.name[2]), AtomOctet(t.name[3]));
  }

  /**
   * A plain `char` converted to a 32-bit tag where `char` is signed: a
   * byte of 0x80 or more is sign-extended.
   */
  function SignedCharTag(b: bv8): Tag
  {
    if b < 0x80 then b as bv32 else (b as bv32) | 0xFFFF_FF00
  }

  /** `BL_MAKE_TAG` over the atom buffer's plain `char`s, as the atom branch is written. */
  function MakeTagFromChars(a: bv8, b: bv8, c: bv8, d: bv8): Tag
  {
    (SignedCharTag(a) << 24) | (SignedCharTag(b) << 16) | (SignedCharTag(c) << 8) | SignedCharTag(d)
  }

  /** `tag_from_term` as written: the atom branch packs sign-extended chars. */
  function TagFromTermAsWritten(t: Term): Option<Tag>
  {
    if t.Binary? then
      if |t.bytes| != 4 then None
      else Some(MakeTag(Octet(t.bytes[0]), Octet(t.bytes[1]), Octet(t.bytes[2]), Octet(t.bytes[3])))
    else match GetAtom(t, 16)
      case None => None
      case Some(name) =>
        if StrLen(name) != 4 then None
        else Some(MakeTagFromChars(AtomOctet(name[0]), AtomOctet(name[1]), AtomOctet(name[2]), AtomOctet(name[3])))
  }

  /** For ASCII bytes the written form packs the same tag. */
  lemma AsWrittenAgreesOnAscii(a: bv8, b: bv8, c: bv8, d: bv8)
    requires a < 0x80 && b < 0x80 && c < 0x80 && d < 0x80
    ensures MakeTagFromChars(a, b, c, d) == MakeTag(a, b, c, d)
  {
  }

  /**
   * The bytes 61 62 C3 A9 (the UTF-8 atom `'abé'`) pack to FFFFFFA9 as
   * written, not 6162C3A9: the sign-extended last byte covers the others.
   */
  lemma AsWrittenSignExtends()
    ensures MakeTagFromChars(0x61, 0x62, 0xC3, 0xA9) == 0xFFFF_FFA9
    ensures MakeTag(0x61, 0x62, 0xC3, 0xA9) == 0x6162_C3A9
  {
  }

  /** The atom `'abé'` decodes to different tags as written and as corrected. */
  lemma AsWrittenAtomDiffers()
    ensures var t := Atom(['a', 'b', 0xC3 as char, 0xA9 as char]);
            TagFromTermAsWritten(t) == Some(0xFFFF_FFA9) && TagFromTerm(t) == Some(0x6162_C3A9)
  {
    var name := ['a', 'b', 0xC3 as char, 0xA9 as char];
    assert StrLen(name[3..]) == 1;
    assert StrLen(name) == 4;
    assert AtomOctet(name[2]) == 0xC3 && AtomOctet(name[3]) == 0xA9;
    assert AtomOctet(name[0]) == 0x61 && AtomOctet(name[1]) == 0x62;
    AsWrittenSignExtends();
  }

  // ---------------------------------------------------------------------
  // font_create_with_features
  // ---------------------------------------------------------------------

  /** Feature settings: tag (by its numeric value) to value, a later setting of a tag replacing an earlier one. */
  type Features = map<U32, U32>

  /** A tag's numeric value, the key of the settings. */
  function TagKey(t: Tag): U32
  {
    t as int
  }

  /** One `{Tag, Value}` entry, or the error it raises. `setOk` says whether the settings accept it. */
  function FeatureEntry(e: Term, setOk: (Tag, U32) -> bool): (r: Result<(Tag, U32), string>)
    ensures r.Ok? ==> e.Tuple? && |e.elems| == 2 && TagFromTerm(e.elems[0]) == Some(r.value.0) &&
                      GetUint(e.elems[1]) == Some(r.value.1) && setOk(r.value.0, r.value.1)
  {
    if !e.Tuple? || |e.elems| != 2 then Err("font_create_with_features_invalid_feature_tuple")
    else match TagFromTerm(e.elems[0])
      case None => Err("font_create_with_features_invalid_feature_tag")
      case Some(tag) =>
        match GetUint(e.elems[1])
        case None => Err("font_create_with_features_invalid_feature_value")
        case Some(v) =>
          if !setOk(tag, v) then Err("font_create_with_features_feature_set_value_failed") else Ok((tag, v))
  }

  /** The outcome of each entry of a list, in order. */
  function Entries(items: seq<Term>, setOk: (Tag, U32) -> bool): (r: seq<Result<(Tag, U32), string>>)
    ensures |r| == |items|
    ensures forall i | 0 <= i < |items| :: r[i] == FeatureEntry(items[i], setOk)
  {
    seq(|items|, i requires 0 <= i < |items| => FeatureEntry(items[i], setOk))
  }

  /** The settings after a run of entry outcomes, or the first error among them. */
  function Settle(rs: seq<Result<(Tag, U32), string>>): Result<Features, string>
  {
    if |rs| == 0 then Ok(map[])
    else match Settle(rs[..|rs| - 1])
      case Err(e) => Err(e)
      case Ok(m) =>
        match rs[|rs| - 1]
        case Err(e) => Err(e)
        case Ok(kv) => Ok(m[TagKey(kv.0) := kv.1])
  }

  /** The settings after a list of entries, or the error of the first bad one. */
  function FeaturesAfter(items: seq<Term>, setOk: (Tag, U32) -> bool): Result<Features, string>
  {
    Settle(Entries(items, setOk))
  }

  /** The cells of a list; the list walk stops at once on anything else. */
  function ListElems(t: Term): seq<Term>
  {
    if t.List? then t.elems else []
  }

  /** The loop of `font_create_with_features`: set each entry in turn, stopping at the first bad one. */
  method ParseFeatures(list: Term, setOk: (Tag, U32) -> bool) returns (r: Result<Features, string>)
    ensures r == FeaturesAfter(ListElems(list), setOk)
  {
    var items := ListElems(list);
    ghost var rs := Entries(items, setOk);
    var feats: Features := map[];
    var i := 0;
    while i < |items|
      invariant 0 <= i <= |items|
      invariant Settle(rs[..i]) == Ok(feats)
    {
      assert rs[..i + 1][..i] == rs[..i];
      var e := FeatureEntry(items[i], setOk);
      if e.Err? {
        SettleErrStays(rs, i + 1);
        assert rs[..|rs|] == rs;
        return Err(e.error);
      }
      feats := feats[TagKey(e.value.0) := e.value.1];
      i := i + 1;
    }
    assert rs[..i] == rs;
    r := Ok(feats);
  }

  /** Once an entry fails, the error stands whatever follows. */
  lemma {:induction false} SettleErrStays(rs: seq<Result<(Tag, U32), string>>, n: nat)
    requires 0 < n <= |rs| && Settle(rs[..n]).Err?
    ensures Settle(rs) == Settle(rs[..n])
    decreases |rs| - n
  {
    if n < |rs| {
      assert rs[..n + 1][..n] == rs[..n];
      SettleErrStays(rs, n + 1);
    } else {
      assert rs[..n] == rs;
    }
  }

  /** The settings are built exactly when every outcome is a success. */
  lemma {:induction false} SettleOkIff(rs: seq<Result<(Tag, U32), string>>)
    ensures Settle(rs).Ok? <==> forall i | 0 <= i < |rs| :: rs[i].Ok?
    decreases |rs|
  {
    if |rs| > 0 {
      SettleOkIff(rs[..|rs| - 1]);
    }
  }

  /** A failure is the error of the first failing outcome. */
  lemma {:induction false} SettleFirstError(rs: seq<Result<(Tag, U32), string>>)
    requires Settle(rs).Err?
    ensures exists k | 0 <= k < |rs| :: rs[k] == Err(Settle(rs).error) && forall i | 0 <= i < k :: rs[i].Ok?
    decreases |rs|
  {
    var init := rs[..|rs| - 1];
    if Settle(init).Err? {
      SettleFirstError(init);
      var k :| 0 <= k < |init| && init[k] == Err(Settle(init).error) && forall i | 0 <= i < k :: init[i].Ok?;
      assert Settle(rs).error == Settle(init).error;
      assert forall i | 0 <= i <= k :: rs[i] == init[i];
      assert rs[k] == Err(Settle(rs).error) && forall i | 0 <= i < k :: rs[i].Ok?;
    } else {
      SettleOkIff(init);
      var k := |rs| - 1;
      assert rs[k] == Err(Settle(rs).error);
      assert forall i | 0 <= i < k :: rs[i] == init[i];
    }
  }

  /** Every successful outcome's tag is set, to the value of its last occurrence. */
  lemma {:induction false} SettleLastWins(rs: seq<Result<(Tag, U32), string>>)
    requires Settle(rs).Ok?
    ensures forall i | 0 <= i < |rs| :: rs[i].Ok? && TagKey(rs[i].value.0) in Settle(rs).value
    ensures forall i | 0 <= i < |rs| && LastOfTag(rs, i) :: Settle(rs).value[TagKey(rs[i].value.0)] == rs[i].value.1
    decreases |rs|
  {
    SettleOkIff(rs);
    if |rs| > 0 {
      var init := rs[..|rs| - 1];
      SettleOkIff(init);
      SettleLastWins(init);
      var m := Settle(init).value;
      var last := rs[|rs| - 1].value;
      assert Settle(rs).value == m[TagKey(last.0) := last.1];
      assert forall i | 0 <= i < |init| :: rs[i] == init[i];
      forall i | 0 <= i < |rs| && LastOfTag(rs, i)
        ensures Settle(rs).value[TagKey(rs[i].value.0)] == rs[i].value.1
      {
        if i < |init| {
          LastOfTagInit(rs, i);
          assert TagKey(rs[i].value.0) != TagKey(last.0);
          assert m[TagKey(rs[i].value.0)] == rs[i].value.1;
        }
      }
    }
  }

  /** The last occurrence of a tag before the final entry is also its last occurrence in the prefix. */
  lemma LastOfTagInit(rs: seq<Result<(Tag, U32), string>>, i: int)
    requires 0 <= i < |rs| - 1 && rs[i].Ok? && LastOfTag(rs, i)
    ensures rs[..|rs| - 1][i] == rs[i] && LastOfTag(rs[..|rs| - 1], i)
  {
    var init := rs[..|rs| - 1];
    forall j | i < j < |init| && init[j].Ok?
      ensures TagKey(init[j].value.0) != TagKey(init[i].value.0)
    {
      assert init[j] == rs[j];
    }
  }

  /** No later outcome sets the tag of outcome `i`. */
  predicate LastOfTag(rs: seq<Result<(Tag, U32), string>>, i: int)
    requires 0 <= i < |rs| && rs[i].Ok?
  {
    forall j | i < j < |rs| :: rs[j].Ok? ==> TagKey(rs[j].value.0) != TagKey(rs[i].value.0)
  }

  /** The settings are built exactly when every entry is well formed and accepted. */
  lemma FeaturesOkIff(items: seq<Term>, setOk: (Tag, U32) -> bool)
    ensures FeaturesAfter(items, setOk).Ok? <==> forall i | 0 <= i < |items| :: FeatureEntry(items[i], setOk).Ok?
  {
    SettleOkIff(Entries(items, setOk));
  }

  /** A failure is the error of the first bad entry, and every entry before it is good. */
  lemma FeaturesFirstError(items: seq<Term>, setOk: (Tag, U32) -> bool)
    requires FeaturesAfter(items, setOk).Err?
    ensures exists k | 0 <= k < |items| ::
              FeatureEntry(items[k], setOk) == Err(FeaturesAfter(items, setOk).error) &&
              forall i | 0 <= i < k :: FeatureEntry(items[i], setOk).Ok?
  {
    var rs := Entries(items, setOk);
    SettleFirstError(rs);
    var k :| 0 <= k < |rs| && rs[k] == Err(Settle(rs).error) && forall i | 0 <= i < k :: rs[i].Ok?;
    assert FeatureEntry(items[k], setOk) == Err(FeaturesAfter(items, setOk).error);
  }

  datatype FontReply = FontBadArg | FontError(reason: string) | FontCreated(size: real, features: Features)

  /**
   * `font_create_with_features`: the face, the size and then the feature
   * list, each with its own error; `createOk` is whether the font engine
   * builds the font.
   */
  method CreateWithFeatures(argc: int, argv: seq<Term>, setOk: (Tag, U32) -> bool, createOk: bool) returns (r: FontReply)
    requires argc == |argv|
    ensures argc != 3 ==> r == FontBadArg
    ensures argc == 3 && GetResource(argv[0], FaceRes).None? ==>
              r == FontError("font_create_with_features_invalid_resource")
    ensures argc == 3 && GetResource(argv[0], FaceRes).Some? && GetDouble(argv[1]).None? ==>
              r == FontError("font_create_with_features_invalid_size")
    ensures argc == 3 && GetResource(argv[0], FaceRes).Some? && GetDouble(argv[1]).Some? ==>
              match FeaturesAfter(ListElems(argv[2]), setOk)
              case Err(e) => r == FontError(e)
              case Ok(m) => r == (if createOk then FontCreated(argv[1].f, m) else FontError("font_create_with_features_failed"))
  {
    if argc != 3 {
      return FontBadArg;
    }
    if GetResource(argv[0], FaceRes).None? {
      return FontError("font_create_with_features_invalid_resource");
    }
    var size := GetDouble(argv[1]);
    if size.None? {
      return FontError("font_create_with_features_invalid_size");
    }
    var feats := ParseFeatures(argv[2], setOk);
    if feats.Err? {
      return FontError(feats.error);
    }
    if !createOk {
      return FontError("font_create_with_features_failed");
    }
    r := FontCreated(size.value, feats.value);
  }

  // ---------------------------------------------------------------------
  // font_get_glyph_bounds
  // ---------------------------------------------------------------------

  /** An integer box `BLBoxI`. */
  datatype BoxI = BoxI(x0: int, y0: int, x1: int, y1: int)

  function BoxTerm(b: BoxI): Term
  {
    Tuple([Float(b.x0 as real), Float(b.y0 as real), Float(b.x1 as real), Float(b.y1 as real)])
  }

  datatype BoundsReply = BoundsBadArg | BoundsError(reason: string) | BoundsOk(value: Term)

  /** Whether every element is an unsigned 32-bit glyph id. */
  predicate AllGlyphIds(items: seq<Term>)
  {
    forall i | 0 <= i < |items| :: GetUint(items[i]).Some?
  }

  /**
   * What `font_get_glyph_bounds` answers for a list of glyph ids: `[]` for
   * the empty list, a badarg if any id is malformed, the engine's error,
   * or one box per id in the list's order.
   */
  function BoundsOfList(items: seq<Term>, bounds: U32 -> BoxI, boundsOk: bool): BoundsReply
  {
    if |items| == 0 then BoundsOk(List([]))
    else if !AllGlyphIds(items) then BoundsBadArg
    else if !boundsOk then BoundsError("font_get_glyph_bounds")
    else BoundsOk(List(seq(|items|, i requires 0 <= i < |items| && AllGlyphIds(items) => BoxTerm(bounds(items[i].i)))))
  }

  /** The first pass: collect the glyph ids, stopping with a badarg at the first malformed one. */
  method CollectGlyphIds(items: seq<Term>) returns (ids: Option<seq<U32>>)
    ensures ids.Some? <==> AllGlyphIds(items)
    ensures ids.Some? ==> |ids.value| == |items| && forall i | 0 <= i < |items| :: ids.value[i] == items[i].i
  {
    var glyphs: seq<U32> := [];
    var idx := 0;
    while idx < |items|
      invariant 0 <= idx <= |items| && |glyphs| == idx
      invariant forall i | 0 <= i < idx :: GetUint(items[i]).Some? && glyphs[i] == items[i].i
    {
      var g := GetUint(items[idx]);
      if g.None? {
        return None;
      }
      glyphs := glyphs + [g.value];
      idx := idx + 1;
    }
    ids := Some(glyphs);
  }

  /** The last pass: build the list of boxes from the back, consing each in front. */
  method BoxList(ids: seq<U32>, bounds: U32 -> BoxI) returns (acc: seq<Term>)
    ensures acc == seq(|ids|, i requires 0 <= i < |ids| => BoxTerm(bounds(ids[i])))
  {
    acc := [];
    var i := |ids| - 1;
    while i >= 0
      invariant -1 <= i < |ids|
      invariant acc == seq(|ids| - 1 - i, k requires 0 <= k < |ids| - 1 - i => BoxTerm(bounds(ids[i + 1 + k])))
    {
      acc := [BoxTerm(bounds(ids[i]))] + acc;
      i := i - 1;
    }
  }

  /**
   * `font_get_glyph_bounds`: one id gives one box; a list gives a list of
   * boxes in the same order; anything else is a badarg.
   */
  method GlyphBounds(argc: int, argv: seq<Term>, bounds: U32 -> BoxI, boundsOk: bool) returns (r: BoundsReply)
    requires argc == |argv|
    ensures argc != 2 ==> r == BoundsBadArg
    ensures argc == 2 && GetResource(argv[0], FontRes).None? ==> r == BoundsError("font_get_glyph_bounds_invalid_font")
    ensures argc == 2 && GetResource(argv[0], FontRes).Some? ==>
              (GetUint(argv[1]).Some? ==>
                 r == (if boundsOk then BoundsOk(BoxTerm(bounds(argv[1].i))) else BoundsError("font_get_glyph_bounds"))) &&
              (GetUint(argv[1]).None? && argv[1].List? ==> r == BoundsOfList(argv[1].elems, bounds, boundsOk)) &&
              (GetUint(argv[1]).None? && !argv[1].List? ==> r == BoundsBadArg)
  {
    if argc != 2 {
      return BoundsBadArg;
    }
    if GetResource(argv[0], FontRes).None? {
      return BoundsError("font_get_glyph_bounds_invalid_font");
    }
    var gid := GetUint(argv[1]);
    if gid.Some? {
      if !boundsOk {
        return BoundsError("font_get_glyph_bounds");
      }
      return BoundsOk(BoxTerm(bounds(gid.value)));
    }
    if !argv[1].List? {
      return BoundsBadArg;
    }
    var items := argv[1].elems;
    if |items| == 0 {
      return BoundsOk(List([]));
    }
    var ids := CollectGlyphIds(items);
    if ids.None? {
      return BoundsBadArg;
    }
    if !boundsOk {
      return BoundsError("font_get_glyph_bounds");
    }
    var boxes := BoxList(ids.value, bounds);
    assert boxes == seq(|items|, i requires 0 <= i < |items| && AllGlyphIds(items) => BoxTerm(bounds(items[i].i)));
    r := BoundsOk(List(boxes));
  }

  /** The list form answers box `i` for id `i`: the order of the ids is kept. */
  lemma BoundsKeepOrder(items: seq<Term>, bounds: U32 -> BoxI)
    requires AllGlyphIds(items) && |items| > 0
    ensures var r := BoundsOfList(items, bounds, true);
            r.BoundsOk? && r.value.List? && |r.value.elems| == |items| &&
            forall i | 0 <= i < |items| :: r.value.elems[i] == BoxTerm(bounds(items[i].i))
  {
  }

  // ---------------------------------------------------------------------
  // font_get_glyph_outlines
  // ---------------------------------------------------------------------

  /** One path command with its vertex. */
  datatype Segment = Segment(cmd: Byte, x: real, y: real)

  /** A path resource: its commands, changed in place. */
  class PathObject {
    var segments: seq<Segment>

    constructor (s: seq<Segment>)
      ensures segments == s
    {
      segments := s;
    }
  }

  datatype OutlineReply = OutlineBadArg | OutlineError(reason: string) | OutlineOk

  /**
   * `font_get_glyph_outlines`: after the four arguments check, the path is
   * cleared and then receives the glyph's outline, so it never keeps
   * earlier contents. `outline` is the engine's outline for a glyph under
   * the given matrix, `None` when it fails (leaving the path cleared).
   */
  method GlyphOutlines(argc: int, argv: seq<Term>, path: PathObject, outline: (U32, nat) -> Option<seq<Segment>>)
    returns (r: OutlineReply)
    requires argc == |argv|
    modifies path
    ensures argc != 4 ==> r == OutlineBadArg && path.segments == old(path.segments)
    ensures argc == 4 && GetResource(argv[0], FontRes).None? ==>
              r == OutlineError("font_get_glyph_outlines_invalid_font")
    ensures argc == 4 && GetResource(argv[0], FontRes).Some? && GetUint(argv[1]).None? ==>
              r == OutlineError("font_get_glyph_outlines_invalid_glyph_id")
    ensures argc == 4 && GetResource(argv[0], FontRes).Some? && GetUint(argv[1]).Some? &&
            GetResource(argv[2], MatrixRes).None? ==>
              r == OutlineError("font_get_glyph_outlines_invalid_matrix")
    ensures argc == 4 && GetResource(argv[0], FontRes).Some? && GetUint(argv[1]).Some? &&
            GetResource(argv[2], MatrixRes).Some? && GetResource(argv[3], PathRes).None? ==>
              r == OutlineError("font_get_glyph_outlines_invalid_path")
    ensures argc == 4 && r.OutlineError? && r.reason != "font_get_glyph_outlines_failed" ==>
              path.segments == old(path.segments)
    ensures argc == 4 && GetResource(argv[0], FontRes).Some? && GetUint(argv[1]).Some? &&
            GetResource(argv[2], MatrixRes).Some? && GetResource(argv[3], PathRes).Some? ==>
              match outline(argv[1].i, argv[2].handle)
              case None => r == OutlineError("font_get_glyph_outlines_failed") && path.segments == []
              case Some(segs) => r == OutlineOk && path.segments == segs
  {
    if argc != 4 {
      return OutlineBadArg;
    }
    if GetResource(argv[0], FontRes).None? {
      return OutlineError("font_get_glyph_outlines_invalid_font");
    }
    var glyph := GetUint(argv[1]);
    if glyph.None? {
      return OutlineError("font_get_glyph_outlines_invalid_glyph_id");
    }
    var matrix := GetResource(argv[2], MatrixRes);
    if matrix.None? {
      return OutlineError("font_get_glyph_outlines_invalid_matrix");
    }
    if GetResource(argv[3], PathRes).None? {
      return OutlineError("font_get_glyph_outlines_invalid_path");
    }
    path.segments := [];
    var segs := outline(glyph.value, matrix.value);
    if segs.None? {
      return OutlineError("font_get_glyph_outlines_failed");
    }
    path.segments := path.segments + segs.value;
    r := OutlineOk;
  }
}

/**
 * The host values the native functions receive, and the decoders of the
 * host's native-function interface that the modelled code relies on.
 * Atom texts are written one char per UTF-8 byte.
 */
module Terms {
  import opened Common

  /** Kinds of resource handles the modelled functions look up. */
  datatype ResourceKind =
    | ColorRes | GradientRes | PatternRes | CanvasRes | PathRes
    | FontRes | FaceRes | GlyphRunRes | GlyphBufferRes | MatrixRes | RandRes | ImageRes

  datatype Term =
    | Atom(name: string)
    | Int(i: int)
    | Float(f: real)
    | Binary(bytes: seq<Byte>)
    | Tuple(elems: seq<Term>)
    | List(elems: seq<Term>)
    | Resource(kind: ResourceKind, handle: nat)
    | MapTerm(entries: seq<(Term, Term)>)

  /** `enif_get_atom` into a buffer of `bufSize` bytes: the text and its NUL must fit. */
  function GetAtom(t: Term, bufSize: nat): (r: Option<string>)
    ensures r.Some? <==> t.Atom? && |t.name| < bufSize
    ensures r.Some? ==> r.value == t.name
  {
    if t.Atom? && |t.name| < bufSize then Some(t.name) else None
  }

  /** `enif_get_double`: only a float term decodes; an integer does not. */
  function GetDouble(t: Term): (r: Option<real>)
    ensures r.Some? <==> t.Float?
    ensures r.Some? ==> r.value == t.f
  {
    if t.Float? then Some(t.f) else None
  }

  /** `enif_get_int`: an integer that fits a signed 32-bit int. */
  function GetInt(t: Term): (r: Option<int>)
    ensures r.Some? <==> t.Int? && -0x8000_0000 <= t.i < 0x8000_0000
    ensures r.Some? ==> r.value == t.i
  {
    if t.Int? && -0x8000_0000 <= t.i < 0x8000_0000 then Some(t.i) else None
  }

  /** `enif_get_uint`: an integer that fits an unsigned 32-bit int. */
  function GetUint(t: Term): (r: Option<U32>)
    ensures r.Some? <==> t.Int? && 0 <= t.i < TWO_32
    ensures r.Some? ==> r.value == t.i
  {
    if t.Int? && 0 <= t.i < TWO_32 then Some(t.i) else None
  }

  /** `enif_get_uint64` and `enif_get_ulong` (64-bit `unsigned long`). */
  function GetUint64(t: Term): (r: Option<nat>)
    ensures r.Some? <==> t.Int? && 0 <= t.i < TWO_64
    ensures r.Some? ==> r.value == t.i
  {
    if t.Int? && 0 <= t.i < TWO_64 then Some(t.i) else None
  }

  /** `enif_get_int64`: an integer that fits a signed 64-bit int. */
  function GetInt64(t: Term): (r: Option<int>)
    ensures r.Some? <==> t.Int? && -0x8000_0000_0000_0000 <= t.i < 0x8000_0000_0000_0000
    ensures r.Some? ==> r.value == t.i
  {
    if t.Int? && -0x8000_0000_0000_0000 <= t.i < 0x8000_0000_0000_0000 then Some(t.i) else None
  }

  /** `enif_get_tuple` followed by an arity test. */
  function GetTuple(t: Term, arity: nat): (r: Option<seq<Term>>)
    ensures r.Some? <==> t.Tuple? && |t.elems| == arity
    ensures r.Some? ==> r.value == t.elems
  {
    if t.Tuple? && |t.elems| == arity then Some(t.elems) else None
  }

  /** `NifResource<T>::get`: a handle of the expected kind. */
  function GetResource(t: Term, kind: ResourceKind): (r: Option<nat>)
    ensures r.Some? <==> t.Resource? && t.kind == kind
    ensures r.Some? ==> r.value == t.handle
  {
    if t.Resource? && t.kind == kind then Some(t.handle) else None
  }

  /** The value under the first entry whose key is `key`. */
  function Lookup(entries: seq<(Term, Term)>, key: Term): (r: Option<Term>)
    ensures r.Some? ==> exists i :: 0 <= i < |entries| && entries[i] == (key, r.value)
    ensures r.None? ==> forall i :: 0 <= i < |entries| ==> entries[i].0 != key
  {
    if |entries| == 0 then None
    else if entries[0].0 == key then Some(entries[0].1)
    else
      var r := Lookup(entries[1..], key);
      if r.Some? then
        assert entries[1..][0] == entries[1];
        r
      else r
  }

  /** `enif_get_map_value`: the value stored under `key` in a map term. */
  function MapGet(t: Term, key: Term): (r: Option<Term>)
    ensures r.Some? ==> t.MapTerm?
  {
    if t.MapTerm? then Lookup(t.entries, key) else None
  }

  /**
   * An option-list entry `{key, value}`: a 2-tuple whose first element is
   * an atom that `enif_get_atom` reads into a 64-byte key buffer.
   */
  function GetOptionPair(t: Term): (r: Option<(string, Term)>)
    ensures r.Some? <==> t.Tuple? && |t.elems| == 2 && t.elems[0].Atom? && |t.elems[0].name| < 64
    ensures r.Some? ==> r.value == (t.elems[0].name, t.elems[1])
  {
    match GetTuple(t, 2)
    case None => None
    case Some(tup) =>
      match GetAtom(tup[0], 64)
      case None => None
      case Some(key) => Some((key, tup[1]))
  }
}

/** The binary KeyValue tree format of the native client's statistics
    schema files: at every level, a tag byte, a NUL-terminated name and a
    tag-dependent payload, until an End tag closes the level. The decoder
    builds a tree of named nodes; accessors read a node's value with
    coercion and a caller-supplied default, and never fail. */
module KeyValue {
  import opened Common
  import LittleEndian
  import Utf8
  import Decimal
  import opened Float

  /** The tag byte that starts every entry; the discriminants are 0 to 8. */
  datatype KeyValueType =
    | NoneTag | StringTag | Int32Tag | Float32Tag | PointerTag
    | WideStringTag | ColorTag | UInt64Tag | EndTag

  /** The byte that stands for each tag in the stream. */
  function TagByte(t: KeyValueType): (b: byte)
    ensures b <= 8
  {
    match t
    case NoneTag => 0
    case StringTag => 1
    case Int32Tag => 2
    case Float32Tag => 3
    case PointerTag => 4
    case WideStringTag => 5
    case ColorTag => 6
    case UInt64Tag => 7
    case EndTag => 8
  }

  datatype IoErrorKind = UnexpectedEof

  datatype KeyValueError =
    | Io(kind: IoErrorKind)
    | Format(message: string)
    | UnsupportedType(tag: KeyValueType)

  /** Decoding a tag byte: bytes 0 to 8 name a tag, anything else is a
      format error that quotes the byte. */
  function TypeFromByte(b: byte): (r: Result<KeyValueType, KeyValueError>)
    ensures r.Ok? <==> b <= 8
    ensures r.Ok? ==> TagByte(r.value) == b
    ensures r.Err? ==> r.error == Format("Invalid KeyValueType: " + Decimal.NatToString(b))
  {
    if b == 0 then Ok(NoneTag)
    else if b == 1 then Ok(StringTag)
    else if b == 2 then Ok(Int32Tag)
    else if b == 3 then Ok(Float32Tag)
    else if b == 4 then Ok(PointerTag)
    else if b == 5 then Ok(WideStringTag)
    else if b == 6 then Ok(ColorTag)
    else if b == 7 then Ok(UInt64Tag)
    else if b == 8 then Ok(EndTag)
    else Err(Format("Invalid KeyValueType: " + Decimal.NatToString(b)))
  }

  /** Every tag is read back from its own byte. */
  lemma TypeFromTagByte(t: KeyValueType)
    ensures TypeFromByte(TagByte(t)) == Ok(t)
  {
  }

  /** The value held by a node. Pointer entries are stored as `Color`. */
  datatype KeyValueData =
    | NoData
    | Text(text: string)
    | Int32(int32: i32)
    | Float32(float32: F32)
    | UInt64(uint64: u64)
    | Color(color: u32)

  /** A node: its name, its value, its children by name, and whether it is
      a real node (true) or the lookup-miss sentinel (false). */
  datatype KeyValue = KeyValue(
    name: string,
    data: KeyValueData,
    children: map<string, KeyValue>,
    valid: bool)

  /** The node a decode starts from. */
  function Root(): (r: KeyValue)
    ensures r.name == "<root>" && r.data == NoData && r.valid && |r.children| == 0
  {
    KeyValue("<root>", NoData, map[], true)
  }

  /** The shared sentinel returned by a lookup that finds nothing. */
  function Invalid(): (r: KeyValue)
    ensures !r.valid && r.data == NoData && |r.children| == 0
  {
    KeyValue("<invalid>", NoData, map[], false)
  }

  /** The child called `key`, or the invalid sentinel when there is none. */
  function Get(kv: KeyValue, key: string): (r: KeyValue)
    ensures key in kv.children ==> r == kv.children[key]
    ensures key !in kv.children ==> r == Invalid()
  {
    if key in kv.children then kv.children[key] else Invalid()
  }

  /** The node's value as text. Numbers are printed in decimal; the text of
      a float comes from `floatText`, which stands for Rust's float
      formatting. A sentinel or a node without data gives the default. */
  function AsString(kv: KeyValue, default: string, floatText: F32 -> string): (r: string)
    ensures !kv.valid || kv.data.NoData? ==> r == default
    ensures kv.valid && kv.data.Text? ==> r == kv.data.text
    ensures kv.valid && kv.data.Int32? ==>
      r == Decimal.IntToString(kv.data.int32) && Decimal.ParseI32(r) == Some(kv.data.int32)
    ensures kv.valid && kv.data.Color? ==>
      r == Decimal.NatToString(kv.data.color) && Decimal.ParseU32(r) == Some(kv.data.color)
    ensures kv.valid && kv.data.UInt64? ==>
      r == Decimal.NatToString(kv.data.uint64) &&
      Decimal.ParseInteger(r, false, 0, 0xFFFF_FFFF_FFFF_FFFF) == Some(kv.data.uint64)
    ensures kv.valid && kv.data.Float32? ==> r == floatText(kv.data.float32)
  {
    if !kv.valid then default
    else
      match kv.data
      case Text(s) => s
      case Int32(i) => Decimal.I32RoundTrip(i); Decimal.IntToString(i)
      case Float32(f) => floatText(f)
      case UInt64(u) =>
        Decimal.ParseNatToString(u, false, 0, 0xFFFF_FFFF_FFFF_FFFF);
        Decimal.NatToString(u)
      case Color(c) => Decimal.U32RoundTrip(c); Decimal.NatToString(c)
      case NoData => default
  }

  /** The node's value as an `i32`. Text must parse as an `i32`; a 64-bit
      value keeps its low 32 bits; a float is converted with `as i32`.
      Color data, no data, an unparsable text and the sentinel give the default. */
  function AsI32(kv: KeyValue, default: i32): (r: i32)
    ensures !kv.valid ==> r == default
    ensures kv.valid && (kv.data.NoData? || kv.data.Color?) ==> r == default
    ensures kv.valid && kv.data.Int32? ==> r == kv.data.int32
    ensures kv.valid && kv.data.UInt64? ==> (r - kv.data.uint64) % 0x1_0000_0000 == 0
    ensures kv.valid && kv.data.Text? ==> r == Decimal.ParseI32(kv.data.text).GetOr(default)
    ensures kv.valid && kv.data.Float32? && kv.data.float32.IsNaN() ==> r == 0
  {
    if !kv.valid then default
    else
      match kv.data
      case Text(s) => Decimal.ParseI32(s).GetOr(default)
      case Int32(i) => i
      case Float32(f) => Float.ToI32(f)
      case UInt64(u) => ReinterpretI32(u % 0x1_0000_0000)
      case _ => default
  }

  /** The node's value as a `bool`: non-zero means true. Text must parse as
      an `i32`. Color data, no data, an unparsable text and the sentinel
      give the default. */
  function AsBool(kv: KeyValue, default: bool): (r: bool)
    ensures !kv.valid ==> r == default
    ensures kv.valid && (kv.data.NoData? || kv.data.Color?) ==> r == default
    ensures kv.valid && kv.data.Int32? ==> (r <==> kv.data.int32 != 0)
    ensures kv.valid && kv.data.UInt64? ==> (r <==> kv.data.uint64 != 0)
    ensures kv.valid && kv.data.Float32? ==> (r <==> !Float.Eq(kv.data.float32, PositiveZero))
    ensures kv.valid && kv.data.Text? && Decimal.ParseI32(kv.data.text).None? ==> r == default
    ensures kv.valid && kv.data.Text? && Decimal.ParseI32(kv.data.text).Some? ==>
      (r <==> Decimal.ParseI32(kv.data.text).value != 0)
  {
    if !kv.valid then default
    else
      match kv.data
      case Text(s) =>
        (match Decimal.ParseI32(s)
         case Some(v) => v != 0
         case None => default)
      case Int32(i) => i != 0
      case Float32(f) => !Float.Eq(f, PositiveZero)
      case UInt64(u) => u != 0
      case _ => default
  }

  // ---------------------------------------------------------------------
  // Decoding

  /** `n` bytes from the front of the stream, or an end-of-file error. */
  function ReadExact(s: bytes, n: nat): (r: Result<(bytes, bytes), KeyValueError>)
    ensures r.Ok? <==> n <= |s|
    ensures r.Ok? ==> r.value.0 == s[..n] && r.value.1 == s[n..]
    ensures r.Err? ==> r.error == Io(UnexpectedEof)
  {
    if n <= |s| then Ok((s[..n], s[n..])) else Err(Io(UnexpectedEof))
  }

  /** Index of the first NUL byte, if any. */
  function FirstNul(s: bytes): (k: Option<nat>)
    ensures k.Some? ==> k.value < |s| && s[k.value] == 0
    ensures k.Some? ==> forall j :: 0 <= j < k.value ==> s[j] != 0
    ensures k.None? ==> forall j :: 0 <= j < |s| ==> s[j] != 0
  {
    if |s| == 0 then None
    else if s[0] == 0 then Some(0)
    else
      match FirstNul(s[1..])
      case None => None
      case Some(k) => Some(k + 1)
  }

  /** The text of a name or string value: UTF-8, or empty when the bytes
      are not well-formed UTF-8. */
  function TextOf(b: bytes): string {
    Utf8.Decode(b).GetOr("")
  }

  /** Reads a NUL-terminated string: consumes the bytes up to and including
      the first NUL and returns the text of the bytes before it. A stream
      that ends before a NUL is an end-of-file error. */
  function ReadString(s: bytes): (r: Result<(string, bytes), KeyValueError>)
    ensures r.Err? <==> forall j :: 0 <= j < |s| ==> s[j] != 0
    ensures r.Err? ==> r.error == Io(UnexpectedEof)
    ensures r.Ok? ==>
      var k := |s| - |r.value.1| - 1;
      && 0 <= k < |s| && s[k] == 0
      && (forall j :: 0 <= j < k ==> s[j] != 0)
      && r.value.1 == s[k + 1..]
      && r.value.0 == TextOf(s[..k])
  {
    match FirstNul(s)
    case None => Err(Io(UnexpectedEof))
    case Some(k) => Ok((TextOf(s[..k]), s[k + 1..]))
  }

  /** The reader loop behind `ReadString`: one byte at a time into a buffer
      that starts at 128 bytes and grows by 128 whenever it is full, until a
      byte that is a NUL on its own. Computes the same as `ReadString`. */
  method ReadStringBuffered(s: bytes) returns (r: Result<(string, bytes), KeyValueError>)
    ensures r == ReadString(s)
  {
    var data: bytes := seq(128, _ => 0);
    var i := 0;
    while true
      invariant 0 <= i <= |s| && i <= |data|
      invariant data[..i] == s[..i]
      invariant forall j :: 0 <= j < i ==> s[j] != 0
      decreases |s| - i
    {
      if i + 1 > |data| {
        data := data + seq(128, _ => 0);
      }
      if i == |s| {
        NoNulMeansEof(s);
        return Err(Io(UnexpectedEof));
      }
      data := data[i := s[i]];
      assert data[..i] == s[..i];
      if s[i] == 0 {
        break;
      }
      assert data[..i + 1] == s[..i + 1];
      i := i + 1;
    }
    FirstNulIs(s, i);
    if i == 0 {
      assert Utf8.Decode([]) == Some([]);
      return Ok(("", s[1..]));
    }
    return Ok((TextOf(data[..i]), s[i + 1..]));
  }

  lemma NoNulMeansEof(s: bytes)
    requires forall j :: 0 <= j < |s| ==> s[j] != 0
    ensures ReadString(s) == Err(Io(UnexpectedEof))
  {
  }

  lemma FirstNulIs(s: bytes, k: nat)
    requires k < |s| && s[k] == 0 && forall j :: 0 <= j < k ==> s[j] != 0
    ensures ReadString(s) == Ok((TextOf(s[..k]), s[k + 1..]))
  {
    var f := FirstNul(s);
    assert f.Some?;
    assert f.value == k;
  }

  /** `rest` is what is left of `s` after some bytes were consumed from its front. */
  predicate IsSuffix(rest: bytes, s: bytes) {
    |rest| <= |s| && rest == s[|s| - |rest|..]
  }

  /** Reads the entries of one level into `node` until that level's End tag.
      Each entry is inserted under its name, replacing an earlier sibling of
      the same name. On success returns the filled node and the bytes after
      the End tag; the node's own name, data and validity are untouched. */
  function ReadAsBinary(node: KeyValue, s: bytes): (r: Result<(KeyValue, bytes), KeyValueError>)
    ensures r.Ok? ==> IsSuffix(r.value.1, s) && |r.value.1| < |s|
    ensures r.Ok? ==>
      && r.value.0.name == node.name
      && r.value.0.data == node.data
      && r.value.0.valid == node.valid
      && node.children.Keys <= r.value.0.children.Keys
    ensures |s| == 0 ==> r == Err(Io(UnexpectedEof))
    decreases |s|, 0
  {
    if |s| == 0 then Err(Io(UnexpectedEof))
    else
      match TypeFromByte(s[0])
      case Err(e) => Err(e)
      case Ok(tag) =>
        if tag == EndTag then Ok((node, s[1..]))
        else
          match ReadString(s[1..])
          case Err(e) => Err(e)
          case Ok((name, afterName)) =>
            match ReadEntry(tag, name, afterName)
            case Err(e) => Err(e)
            case Ok((child, rest)) =>
              ReadAsBinary(node.(children := node.children[name := child]), rest)
  }

  /** Reads the payload of one entry whose tag and name were just read. */
  function ReadEntry(tag: KeyValueType, name: string, s: bytes): (r: Result<(KeyValue, bytes), KeyValueError>)
    requires tag != EndTag
    ensures r.Ok? ==> IsSuffix(r.value.1, s)
    ensures r.Ok? ==> r.value.0.name == name && r.value.0.valid
    ensures r.Ok? && tag != NoneTag ==> |r.value.0.children| == 0
    ensures tag == WideStringTag ==> r == Err(UnsupportedType(WideStringTag))
    decreases |s|, 1
  {
    var current := KeyValue(name, NoData, map[], true);
    match tag
    case NoneTag => ReadAsBinary(current, s)
    case StringTag =>
      (match ReadString(s)
       case Err(e) => Err(e)
       case Ok((text, rest)) => Ok((current.(data := Text(text)), rest)))
    case WideStringTag => Err(UnsupportedType(WideStringTag))
    case Int32Tag =>
      (match ReadExact(s, 4)
       case Err(e) => Err(e)
       case Ok((b, rest)) => Ok((current.(data := Int32(ReinterpretI32(LittleEndian.FromLe(b)))), rest)))
    case UInt64Tag =>
      (match ReadExact(s, 8)
       case Err(e) => Err(e)
       case Ok((b, rest)) => Ok((current.(data := UInt64(LittleEndian.FromLe(b))), rest)))
    case Float32Tag =>
      (match ReadExact(s, 4)
       case Err(e) => Err(e)
       case Ok((b, rest)) => Ok((current.(data := Float32(F32(LittleEndian.FromLe(b)))), rest)))
    case ColorTag =>
      (match ReadExact(s, 4)
       case Err(e) => Err(e)
       case Ok((b, rest)) => Ok((current.(data := Color(LittleEndian.FromLe(b))), rest)))
    case PointerTag =>
      (match ReadExact(s, 4)
       case Err(e) => Err(e)
       case Ok((b, rest)) => Ok((current.(data := Color(LittleEndian.FromLe(b))), rest)))
  }

  /** The fixed-width payloads: Int32, Float32, Color and Pointer take
      exactly four little-endian bytes and UInt64 eight; a shorter stream is
      an end-of-file error. Color and Pointer both store Color data. */
  lemma FixedWidthPayloads(tag: KeyValueType, name: string, s: bytes)
    requires tag.Int32Tag? || tag.Float32Tag? || tag.ColorTag? || tag.PointerTag? || tag.UInt64Tag?
    ensures var width := if tag.UInt64Tag? then 8 else 4;
      var r := ReadEntry(tag, name, s);
      && (r.Ok? <==> width <= |s|)
      && (r.Err? ==> r.error == Io(UnexpectedEof))
      && (r.Ok? ==> r.value.1 == s[width..] && r.value.0.children == map[])
      && (r.Ok? && (tag.ColorTag? || tag.PointerTag?) ==> r.value.0.data == Color(LittleEndian.FromLe(s[..4])))
      && (r.Ok? && tag.UInt64Tag? ==> r.value.0.data == UInt64(LittleEndian.FromLe(s[..8])))
  {
  }

  /** Decodes a whole schema stream into a fresh root. Bytes after the
      root level's End tag are ignored. */
  function LoadAsBinary(s: bytes): (r: Result<KeyValue, KeyValueError>)
    ensures r.Ok? ==> r.value.name == "<root>" && r.value.valid && r.value.data == NoData
  {
    match ReadAsBinary(Root(), s)
    case Err(e) => Err(e)
    case Ok((kv, _)) => Ok(kv)
  }

  // ---------------------------------------------------------------------
  // Lookups and the smallest streams

  /** A lookup that misses gives the sentinel, and every accessor on the
      sentinel gives back the caller's default. */
  lemma MissingKeyGivesDefaults(kv: KeyValue, key: string, ds: string, di: i32, db: bool, floatText: F32 -> string)
    requires key !in kv.children
    ensures !Get(kv, key).valid
    ensures AsString(Get(kv, key), ds, floatText) == ds
    ensures AsI32(Get(kv, key), di) == di
    ensures AsBool(Get(kv, key), db) == db
  {
  }

  /** A stream holding only an End tag loads as an empty root, and a stream
      that starts with a byte above 8 is rejected with that byte quoted. */
  lemma SmallestStreams(b: byte, rest: bytes)
    requires b > 8
    ensures LoadAsBinary([8] + rest) == Ok(Root())
    ensures LoadAsBinary([b] + rest) == Err(Format("Invalid KeyValueType: " + Decimal.NatToString(b)))
    ensures LoadAsBinary([]) == Err(Io(UnexpectedEof))
  {
    assert ([8] + rest)[1..] == rest;
  }

  /** A WideString entry fails the decode with UnsupportedType once its
      name has been read, whatever follows it. */
  lemma WideStringRejected(node: KeyValue, nameBytes: bytes, rest: bytes)
    requires forall j :: 0 <= j < |nameBytes| ==> nameBytes[j] != 0
    ensures ReadAsBinary(node, [TagByte(WideStringTag)] + nameBytes + [0] + rest)
         == Err(UnsupportedType(WideStringTag))
  {
    var s := [TagByte(WideStringTag)] + nameBytes + [0] + rest;
    var t := nameBytes + [0] + rest;
    assert s[0] == TagByte(WideStringTag) && s[1..] == t;
    assert TypeFromByte(s[0]) == Ok(WideStringTag);
    assert t[|nameBytes|] == 0;
    FirstNulIs(t, |nameBytes|);
    assert ReadString(s[1..]).Ok?;
  }
}

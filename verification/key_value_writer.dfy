/** A reference writer for the KeyValue binary format, used to state what
    the decoder reads: the entries of a level in stream order, and the tree
    the decoder is expected to build from them (later same-named siblings
    replacing earlier ones). The program itself only reads this format. */
module KeyValueWriter {
  import opened Common
  import LittleEndian
  import Utf8
  import opened Float
  import opened KeyValue

  /** One entry of a level, as written in the stream. */
  datatype Entry =
    | Group(name: string, entries: seq<Entry>)
    | TextEntry(name: string, text: string)
    | Int32Entry(name: string, int32: i32)
    | Float32Entry(name: string, float32: F32)
    | PointerEntry(name: string, pointer: u32)
    | ColorEntry(name: string, color: u32)
    | UInt64Entry(name: string, uint64: u64)

  function Size(e: Entry): (n: nat)
    ensures n >= 1
    decreases e
  {
    match e
    case Group(_, es) => 1 + SizeAll(es)
    case _ => 1
  }

  function SizeAll(es: seq<Entry>): nat
    decreases es
  {
    if |es| == 0 then 0 else Size(es[0]) + SizeAll(es[1..])
  }

  predicate NoNul(s: string) {
    forall i :: 0 <= i < |s| ==> s[i] != '\0'
  }

  /** Names and texts can be written as NUL-terminated strings. */
  predicate WellFormed(e: Entry)
    decreases Size(e), 0
  {
    NoNul(e.name) &&
    match e
    case Group(_, es) => AllWellFormed(es)
    case TextEntry(_, t) => NoNul(t)
    case _ => true
  }

  predicate AllWellFormed(es: seq<Entry>)
    decreases SizeAll(es), 1
  {
    |es| > 0 ==> WellFormed(es[0]) && AllWellFormed(es[1..])
  }

  function Tag(e: Entry): KeyValueType {
    match e
    case Group(_, _) => NoneTag
    case TextEntry(_, _) => StringTag
    case Int32Entry(_, _) => Int32Tag
    case Float32Entry(_, _) => Float32Tag
    case PointerEntry(_, _) => PointerTag
    case ColorEntry(_, _) => ColorTag
    case UInt64Entry(_, _) => UInt64Tag
  }

  function WriteString(s: string): bytes {
    Utf8.Encode(s) + [0]
  }

  /** The bytes of an entry after its tag and name. */
  function WritePayload(e: Entry): bytes
    decreases Size(e), 0
  {
    match e
    case Group(_, es) => WriteLevel(es)
    case TextEntry(_, t) => WriteString(t)
    case Int32Entry(_, v) => LittleEndian.ToLe(ReinterpretU32(v), 4)
    case Float32Entry(_, f) => LittleEndian.ToLe(f.bits, 4)
    case PointerEntry(_, p) => LittleEndian.ToLe(p, 4)
    case ColorEntry(_, c) => LittleEndian.ToLe(c, 4)
    case UInt64Entry(_, u) => LittleEndian.ToLe(u, 8)
  }

  function WriteEntry(e: Entry): bytes
    decreases Size(e), 1
  {
    [TagByte(Tag(e))] + WriteString(e.name) + WritePayload(e)
  }

  /** The entries of one level followed by that level's End tag. */
  function WriteLevel(es: seq<Entry>): bytes
    decreases SizeAll(es), 2
  {
    if |es| == 0 then [TagByte(EndTag)] else WriteEntry(es[0]) + WriteLevel(es[1..])
  }

  /** The node an entry stands for. */
  function NodeOf(e: Entry): KeyValue
    decreases Size(e), 0
  {
    match e
    case Group(n, es) => InsertAll(KeyValue(n, NoData, map[], true), es)
    case TextEntry(n, t) => KeyValue(n, Text(t), map[], true)
    case Int32Entry(n, v) => KeyValue(n, Int32(v), map[], true)
    case Float32Entry(n, f) => KeyValue(n, Float32(f), map[], true)
    case PointerEntry(n, p) => KeyValue(n, Color(p), map[], true)
    case ColorEntry(n, c) => KeyValue(n, Color(c), map[], true)
    case UInt64Entry(n, u) => KeyValue(n, UInt64(u), map[], true)
  }

  /** Inserts the entries' nodes into `parent` in order, each under its name. */
  function InsertAll(parent: KeyValue, es: seq<Entry>): KeyValue
    decreases SizeAll(es), 1
  {
    if |es| == 0 then parent
    else InsertAll(parent.(children := parent.children[es[0].name := NodeOf(es[0])]), es[1..])
  }

  // ---------------------------------------------------------------------
  // What InsertAll builds

  /** Index of the last entry named `k`, if there is one. */
  function LastNamed(es: seq<Entry>, k: string): (i: Option<nat>)
    ensures i.Some? ==> i.value < |es| && es[i.value].name == k
    ensures i.Some? ==> forall j :: i.value < j < |es| ==> es[j].name != k
    ensures i.None? ==> forall j :: 0 <= j < |es| ==> es[j].name != k
  {
    if |es| == 0 then None
    else if es[|es| - 1].name == k then Some(|es| - 1)
    else LastNamed(es[..|es| - 1], k)
  }

  /** Last write wins: after inserting a level, each name maps to the node
      of the last entry of that name; names no entry uses keep the parent's
      earlier child; nothing else about the parent changes. */
  lemma {:induction false} InsertAllLastWins(parent: KeyValue, es: seq<Entry>, k: string)
    ensures var r := InsertAll(parent, es);
      && r.name == parent.name && r.data == parent.data && r.valid == parent.valid
      && (LastNamed(es, k).Some? ==> k in r.children && r.children[k] == NodeOf(es[LastNamed(es, k).value]))
      && (LastNamed(es, k).None? ==>
            (k in r.children <==> k in parent.children) &&
            (k in parent.children ==> r.children[k] == parent.children[k]))
    decreases |es|
  {
    if |es| > 0 {
      var last := es[|es| - 1];
      var front := es[..|es| - 1];
      InsertAllSnoc(parent, front, last);
      assert es == front + [last];
      InsertAllLastWins(parent, front, k);
    }
  }

  /** Inserting a level and then one more entry. */
  lemma {:induction false} InsertAllSnoc(parent: KeyValue, es: seq<Entry>, e: Entry)
    ensures var r := InsertAll(parent, es);
      InsertAll(parent, es + [e]) == r.(children := r.children[e.name := NodeOf(e)])
    decreases |es|
  {
    if |es| == 0 {
      assert es + [e] == [e];
    } else {
      var p' := parent.(children := parent.children[es[0].name := NodeOf(es[0])]);
      assert (es + [e])[0] == es[0];
      assert (es + [e])[1..] == es[1..] + [e];
      InsertAllSnoc(p', es[1..], e);
    }
  }

  // ---------------------------------------------------------------------
  // The decoder reads back what the writer writes

  /** A string written with its NUL terminator is read back exactly, and
      reading stops right after the terminator. */
  lemma ReadWrittenString(t: string, rest: bytes)
    requires NoNul(t)
    ensures ReadString(WriteString(t) + rest) == Ok((t, rest))
  {
    var e := Utf8.Encode(t);
    var s := WriteString(t) + rest;
    Utf8.EncodeHasNoNul(t);
    Utf8.DecodeEncode(t);
    assert s == e + [0] + rest;
    assert s[|e|] == 0;
    assert forall j :: 0 <= j < |e| ==> s[j] == e[j];
    FirstNulAt(s, |e|);
    assert s[..|e|] == e;
    assert s[|e| + 1..] == rest;
  }

  lemma {:induction false} FirstNulAt(s: bytes, k: nat)
    requires k < |s| && s[k] == 0
    requires forall j :: 0 <= j < k ==> s[j] != 0
    ensures FirstNul(s) == Some(k)
    decreases k
  {
    if k > 0 {
      assert s[0] != 0;
      FirstNulAt(s[1..], k - 1);
    }
  }

  /** Fixed-width fields read back as the written value. */
  lemma ReadWrittenFixed(n: nat, width: nat, rest: bytes)
    requires n < LittleEndian.Pow256(width)
    ensures ReadExact(LittleEndian.ToLe(n, width) + rest, width)
         == Ok((LittleEndian.ToLe(n, width), rest))
    ensures LittleEndian.FromLe(LittleEndian.ToLe(n, width)) == n
  {
    var b := LittleEndian.ToLe(n, width);
    assert (b + rest)[..width] == b;
    assert (b + rest)[width..] == rest;
    LittleEndian.DecodeEncode(n, width);
  }

  lemma Pow256Values()
    ensures LittleEndian.Pow256(4) == 0x1_0000_0000
    ensures LittleEndian.Pow256(8) == 0x1_0000_0000_0000_0000
  {
    assert LittleEndian.Pow256(2) == 0x1_0000;
    assert LittleEndian.Pow256(4) == 0x1_0000_0000;
    assert LittleEndian.Pow256(6) == 0x1_0000_0000_0000;
  }

  /** The payload of a well-formed entry is read back as that entry's node. */
  lemma {:induction false} ReadWrittenPayload(e: Entry, rest: bytes)
    requires WellFormed(e)
    ensures ReadEntry(Tag(e), e.name, WritePayload(e) + rest) == Ok((NodeOf(e), rest))
    decreases Size(e), 0
  {
    Pow256Values();
    match e
    case Group(n, es) =>
      ReadWrittenLevel(KeyValue(n, NoData, map[], true), es, rest);
    case TextEntry(n, t) =>
      ReadWrittenString(t, rest);
    case Int32Entry(n, v) =>
      ReadWrittenFixed(ReinterpretU32(v), 4, rest);
    case Float32Entry(n, f) =>
      ReadWrittenFixed(f.bits, 4, rest);
    case PointerEntry(n, p) =>
      ReadWrittenFixed(p, 4, rest);
    case ColorEntry(n, c) =>
      ReadWrittenFixed(c, 4, rest);
    case UInt64Entry(n, u) =>
      ReadWrittenFixed(u, 8, rest);
  }

  /** A written level is read back as the parent with the level's entries
      inserted in order, and reading stops right after the level's End tag. */
  lemma {:induction false} ReadWrittenLevel(parent: KeyValue, es: seq<Entry>, rest: bytes)
    requires AllWellFormed(es)
    ensures ReadAsBinary(parent, WriteLevel(es) + rest) == Ok((InsertAll(parent, es), rest))
    decreases SizeAll(es), 1
  {
    var s := WriteLevel(es) + rest;
    if |es| == 0 {
      assert s[0] == 8 && s[1..] == rest;
    } else {
      var e := es[0];
      var afterEntry := WriteLevel(es[1..]) + rest;
      var afterName := WritePayload(e) + afterEntry;
      WriteLevelSplit(es, rest);
      TypeFromTagByte(Tag(e));
      ReadWrittenString(e.name, afterName);
      ReadWrittenPayload(e, afterEntry);
      ReadAsBinaryStep(parent, s, Tag(e), e.name, afterName, NodeOf(e), afterEntry);
      ReadWrittenLevel(parent.(children := parent.children[e.name := NodeOf(e)]), es[1..], rest);
    }
  }

  /** How a non-empty written level followed by `rest` splits up. */
  lemma WriteLevelSplit(es: seq<Entry>, rest: bytes)
    requires |es| > 0
    ensures var s := WriteLevel(es) + rest;
      && |s| > 0 && s[0] == TagByte(Tag(es[0]))
      && s[1..] == WriteString(es[0].name) + (WritePayload(es[0]) + (WriteLevel(es[1..]) + rest))
  {
    var e := es[0];
    var t, n, p, l := [TagByte(Tag(e))], WriteString(e.name), WritePayload(e), WriteLevel(es[1..]);
    assert WriteLevel(es) == WriteEntry(e) + l;
    Regroup(t, n, p, l, rest);
  }

  lemma Regroup(t: bytes, n: bytes, p: bytes, l: bytes, rest: bytes)
    requires |t| == 1
    ensures (t + n + p + l + rest)[0] == t[0]
    ensures (t + n + p + l + rest)[1..] == n + (p + (l + rest))
  {
    assert t + n + p + l + rest == t + (n + (p + (l + rest)));
  }

  /** One entry step of the decoder, unfolded. */
  lemma ReadAsBinaryStep(node: KeyValue, s: bytes, tag: KeyValueType, name: string,
                         afterName: bytes, child: KeyValue, rest: bytes)
    requires |s| > 0 && TypeFromByte(s[0]) == Ok(tag) && tag != EndTag
    requires ReadString(s[1..]) == Ok((name, afterName))
    requires ReadEntry(tag, name, afterName) == Ok((child, rest))
    ensures ReadAsBinary(node, s) == ReadAsBinary(node.(children := node.children[name := child]), rest)
  {
  }

  /** A whole written schema loads as the root with the entries inserted,
      whatever follows the root level's End tag. */
  lemma LoadWritten(es: seq<Entry>, trailing: bytes)
    requires AllWellFormed(es)
    ensures LoadAsBinary(WriteLevel(es) + trailing) == Ok(InsertAll(Root(), es))
  {
    ReadWrittenLevel(Root(), es, trailing);
  }
}

/**
 The type-directed codec of src/ipc/ipc-common/IPCTypeHandler.h: values are written to a byte
 stream without any type information and read back by the same type.

 Primitives have QDataStream's layout: big-endian integers, and strings as a byte count followed
 by UTF-16 code units.  Reading never fails: past the end of the stream, QDataStream reads zeros
 and empty strings.
 */
module WireCodec {

  import opened Wrappers

  type Byte = b: int | 0 <= b < 256
  type Bytes = seq<Byte>

  // A QString: UTF-16 code units.
  type Unit = u: int | 0 <= u < 0x1_0000
  type Text = seq<Unit>

  datatype Kind =
    | Int | Bool | Double | String | Enum
    | Tuple(fields: seq<Kind>)          // a structure is written as its tuple
    | List(element: Kind)
    | Map(element: Kind)                // keys are strings

  datatype Value =
    | IntValue(i: int)
    | BoolValue(b: bool)
    | DoubleValue(bits: nat)            // the IEEE 754 bit pattern
    | StringValue(s: Text)
    | EnumValue(e: int)
    | TupleValue(fields: seq<Value>)
    | ListValue(elements: seq<Value>)
    | MapValue(entries: seq<Entry>)     // a QMap in the order of its keys

  datatype Entry = Entry(key: Text, value: Value)

  // ----- primitives

  predicate IsInt(i: int) {
    INT_MIN <= i <= INT_MAX
  }

  function Power256(w: nat): nat {
    if w == 0 then 1 else 256 * Power256(w - 1)
  }

  function BigEndian(n: nat, w: nat): (r: Bytes)
    ensures |r| == w
  {
    if w == 0 then [] else BigEndian(n / 256, w - 1) + [n % 256]
  }

  function FromBigEndian(s: Bytes): nat {
    if s == [] then 0 else FromBigEndian(s[..|s| - 1]) * 256 + s[|s| - 1]
  }

  lemma {:induction false} BigEndianRoundTrip(n: nat, w: nat)
    requires n < Power256(w)
    ensures FromBigEndian(BigEndian(n, w)) == n
  {
    if w > 0 {
      BigEndianRoundTrip(n / 256, w - 1);
      assert BigEndian(n, w)[..w - 1] == BigEndian(n / 256, w - 1);
    }
  }

  // The first byte is the most significant one.
  lemma {:induction false} MostSignificantFirst(b: Byte, s: Bytes)
    ensures FromBigEndian([b] + s) == b * Power256(|s|) + FromBigEndian(s)
  {
    if s == [] {
      assert ([b] + s)[..0] == [];
    } else {
      var n := |s| - 1;
      assert ([b] + s)[..n + 1] == [b] + s[..n];
      MostSignificantFirst(b, s[..n]);
    }
  }

  function WriteInt(i: int): (r: Bytes)
    requires IsInt(i)
  {
    BigEndian(i % 0x1_0000_0000, 4)
  }

  function Signed(n: nat): int {
    if n > INT_MAX then n - 0x1_0000_0000 else n
  }

  // The next n bytes of a stream; a shorter one is used up.
  function Take(bytes: Bytes, n: nat): (Bytes, Bytes) {
    if n <= |bytes| then (bytes[..n], bytes[n..]) else ([], [])
  }

  function ReadInt(bytes: Bytes): (int, Bytes) {
    var (head, rest) := Take(bytes, 4);
    (Signed(FromBigEndian(head)), rest)
  }

  lemma TakePrefix(head: Bytes, rest: Bytes)
    ensures Take(head + rest, |head|) == (head, rest)
  {
    assert (head + rest)[..|head|] == head && (head + rest)[|head|..] == rest;
  }

  lemma IntRoundTrip(i: int, rest: Bytes)
    requires IsInt(i)
    ensures ReadInt(WriteInt(i) + rest) == (i, rest)
  {
    assert Power256(4) == 0x1_0000_0000 by {
      assert Power256(1) == 256 && Power256(2) == 0x1_0000 && Power256(3) == 0x100_0000;
    }
    BigEndianRoundTrip(i % 0x1_0000_0000, 4);
    TakePrefix(WriteInt(i), rest);
  }

  function WriteUnits(s: Text): (r: Bytes)
    ensures |r| == 2 * |s|
  {
    if s == [] then [] else BigEndian(s[0], 2) + WriteUnits(s[1..])
  }

  function ReadUnits(bytes: Bytes): Text
    requires |bytes| % 2 == 0
  {
    if bytes == [] then []
    else
      var high: int := bytes[0];
      [high * 256 + bytes[1]] + ReadUnits(bytes[2..])
  }

  predicate IsText(s: Text) {
    2 * |s| <= INT_MAX
  }

  function WriteText(s: Text): Bytes {
    BigEndian(2 * |s|, 4) + WriteUnits(s)
  }

  // An odd count, such as that of a null string, has no text behind it.
  function ReadText(bytes: Bytes): (Text, Bytes) {
    var (head, rest) := Take(bytes, 4);
    var n := FromBigEndian(head);
    if n % 2 == 1 then ([], rest)
    else
      var (units, rest') := Take(rest, n);
      (ReadUnits(units), rest')
  }

  lemma {:induction false} UnitsRoundTrip(s: Text)
    ensures ReadUnits(WriteUnits(s)) == s
  {
    if s != [] {
      var bytes := WriteUnits(s);
      var first := BigEndian(s[0], 2);
      assert BigEndian(s[0], 2) == [s[0] / 256 % 256, s[0] % 256] by {
        assert BigEndian(s[0] / 256, 1) == BigEndian(s[0] / 256 / 256, 0) + [s[0] / 256 % 256];
      }
      assert bytes[0] == s[0] / 256 && bytes[1] == s[0] % 256;
      assert bytes[2..] == WriteUnits(s[1..]);
      UnitsRoundTrip(s[1..]);
    }
  }

  lemma TextRoundTrip(s: Text, rest: Bytes)
    requires IsText(s)
    ensures ReadText(WriteText(s) + rest) == (s, rest)
  {
    var count := BigEndian(2 * |s|, 4);
    assert Power256(4) == 0x1_0000_0000 by {
      assert Power256(1) == 256 && Power256(2) == 0x1_0000 && Power256(3) == 0x100_0000;
    }
    BigEndianRoundTrip(2 * |s|, 4);
    assert WriteText(s) + rest == count + (WriteUnits(s) + rest);
    TakePrefix(count, WriteUnits(s) + rest);
    TakePrefix(WriteUnits(s), rest);
    UnitsRoundTrip(s);
  }

  // ----- QMap: entries in ascending order of their keys

  predicate Less(a: Text, b: Text) {
    b != [] && (a == [] || a[0] < b[0] || (a[0] == b[0] && Less(a[1..], b[1..])))
  }

  lemma {:induction false} LessAsymmetric(a: Text, b: Text)
    requires Less(a, b)
    ensures a != b && !Less(b, a)
  {
    if a != [] && a[0] == b[0] {
      LessAsymmetric(a[1..], b[1..]);
    }
  }

  predicate Ascending(entries: seq<Entry>) {
    forall i, j :: 0 <= i < j < |entries| ==> Less(entries[i].key, entries[j].key)
  }

  // QMap::insert()
  function InsertEntry(entries: seq<Entry>, key: Text, value: Value): seq<Entry> {
    if entries == [] || Less(key, entries[0].key) then [Entry(key, value)] + entries
    else if entries[0].key == key then [Entry(key, value)] + entries[1..]
    else [entries[0]] + InsertEntry(entries[1..], key, value)
  }

  lemma {:induction false} InsertLast(entries: seq<Entry>, key: Text, value: Value)
    requires forall i :: 0 <= i < |entries| ==> Less(entries[i].key, key)
    ensures InsertEntry(entries, key, value) == entries + [Entry(key, value)]
  {
    if entries != [] {
      LessAsymmetric(entries[0].key, key);
      InsertLast(entries[1..], key, value);
    }
  }

  lemma {:induction false} LessTotal(a: Text, b: Text)
    ensures Less(a, b) || a == b || Less(b, a)
  {
    if a != [] && b != [] && a[0] == b[0] {
      LessTotal(a[1..], b[1..]);
      assert a == [a[0]] + a[1..] && b == [b[0]] + b[1..];
    }
  }

  lemma {:induction false} LessTransitive(a: Text, b: Text, c: Text)
    requires Less(a, b) && Less(b, c)
    ensures Less(a, c)
  {
    if a != [] && a[0] == b[0] && b[0] == c[0] {
      LessTransitive(a[1..], b[1..], c[1..]);
    }
  }

  // The value of a key, if there is one.
  function Find(entries: seq<Entry>, key: Text): Option<Value> {
    if entries == [] then None
    else if entries[0].key == key then Some(entries[0].value)
    else Find(entries[1..], key)
  }

  lemma {:induction false} NotFound(entries: seq<Entry>, key: Text)
    requires forall i :: 0 <= i < |entries| ==> entries[i].key != key
    ensures Find(entries, key) == None
  {
    if entries != [] {
      NotFound(entries[1..], key);
    }
  }

  /** Inserting an entry keeps the keys in order; the key then has the value, also if it had another,
      and the other keys keep theirs. */
  lemma {:induction false} InsertFinds(entries: seq<Entry>, key: Text, value: Value, x: Text)
    requires Ascending(entries)
    ensures Ascending(InsertEntry(entries, key, value))
    ensures Find(InsertEntry(entries, key, value), x) == if x == key then Some(value) else Find(entries, x)
    ensures forall e :: e in InsertEntry(entries, key, value) ==> e == Entry(key, value) || e in entries
    decreases |entries|
  {
    var r := InsertEntry(entries, key, value);
    if entries == [] {
    } else if Less(key, entries[0].key) {
      InsertsFirst(entries, key, value);
      assert r[1..] == entries;
    } else if entries[0].key == key {
      assert r[1..] == entries[1..];
    } else {
      LessTotal(key, entries[0].key);
      InsertFinds(entries[1..], key, value, x);
      assert r[1..] == InsertEntry(entries[1..], key, value);
      forall j | 0 < j < |r|
        ensures Less(r[0].key, r[j].key)
      {
        assert r[j] in r[1..];
        if r[j] in entries[1..] {
          var i :| 0 <= i < |entries[1..]| && entries[1..][i] == r[j];
          assert entries[i + 1] == r[j];
        }
      }
      AscendingCons(r);
    }
  }

  lemma AscendingCons(r: seq<Entry>)
    requires r != [] && Ascending(r[1..]) && forall j :: 0 < j < |r| ==> Less(r[0].key, r[j].key)
    ensures Ascending(r)
  {
    forall i, j | 0 <= i < j < |r|
      ensures Less(r[i].key, r[j].key)
    {
      if i > 0 {
        assert r[i] == r[1..][i - 1] && r[j] == r[1..][j - 1];
      }
    }
  }

  lemma InsertsFirst(entries: seq<Entry>, key: Text, value: Value)
    requires Ascending(entries) && entries != [] && Less(key, entries[0].key)
    ensures Ascending([Entry(key, value)] + entries)
  {
    var r := [Entry(key, value)] + entries;
    forall j | 0 < j < |r|
      ensures Less(key, r[j].key)
    {
      if j > 1 {
        LessTransitive(key, entries[0].key, entries[j - 1].key);
      }
    }
    assert r[1..] == entries;
    AscendingCons(r);
  }

  // ----- values

  predicate HasKind(v: Value, k: Kind)
    decreases v
  {
    match k
    case Int => v.IntValue? && IsInt(v.i)
    case Bool => v.BoolValue?
    case Double => v.DoubleValue? && v.bits < Power256(8)
    case String => v.StringValue? && IsText(v.s)
    case Enum => v.EnumValue? && IsInt(v.e)
    case Tuple(fields) =>
      && v.TupleValue? && |v.fields| == |fields|
      && forall i :: 0 <= i < |fields| ==> HasKind(v.fields[i], fields[i])
    case List(element) =>
      && v.ListValue? && |v.elements| <= INT_MAX
      && forall i :: 0 <= i < |v.elements| ==> HasKind(v.elements[i], element)
    case Map(element) =>
      && v.MapValue? && |v.entries| <= INT_MAX && Ascending(v.entries)
      && forall i :: 0 <= i < |v.entries| ==> IsText(v.entries[i].key) && HasKind(v.entries[i].value, element)
  }

  // write()
  function Write(v: Value): Bytes
    decreases v, 0
  {
    match v
    case IntValue(i) => if IsInt(i) then WriteInt(i) else []
    case BoolValue(b) => [if b then 1 else 0]
    case DoubleValue(bits) => BigEndian(bits, 8)
    case StringValue(s) => WriteText(s)
    case EnumValue(e) => if IsInt(e) then WriteInt(e) else []
    case TupleValue(fields) => WriteAll(fields)
    case ListValue(elements) => (if IsInt(|elements|) then WriteInt(|elements|) else []) + WriteAll(elements)
    case MapValue(entries) => (if IsInt(|entries|) then WriteInt(|entries|) else []) + WriteEntries(entries)
  }

  function WriteAll(vs: seq<Value>): Bytes
    decreases vs, 1
  {
    if vs == [] then [] else Write(vs[0]) + WriteAll(vs[1..])
  }

  function WriteEntries(entries: seq<Entry>): Bytes
    decreases entries, 1
  {
    if entries == [] then [] else WriteEntry(entries[0]) + WriteEntries(entries[1..])
  }

  function WriteEntry(e: Entry): Bytes
    decreases e, 1
  {
    WriteText(e.key) + Write(e.value)
  }

  // read()
  function Read(k: Kind, bytes: Bytes): (Value, Bytes)
    decreases k, 0
  {
    match k
    case Int => var (i, rest) := ReadInt(bytes); (IntValue(i), rest)
    case Bool => var (head, rest) := Take(bytes, 1); (BoolValue(FromBigEndian(head) != 0), rest)
    case Double => var (head, rest) := Take(bytes, 8); (DoubleValue(FromBigEndian(head)), rest)
    case String => var (s, rest) := ReadText(bytes); (StringValue(s), rest)
    case Enum => var (i, rest) := ReadInt(bytes); (EnumValue(i), rest)
    case Tuple(fields) => var (vs, rest) := ReadFields(fields, bytes); (TupleValue(vs), rest)
    case List(element) =>
      var (count, rest) := ReadInt(bytes);
      var (vs, rest') := ReadElements(element, count, rest);
      (ListValue(vs), rest')
    case Map(element) =>
      var (count, rest) := ReadInt(bytes);
      var (entries, rest') := ReadEntries(element, count, rest, []);
      (MapValue(entries), rest')
  }

  function ReadFields(kinds: seq<Kind>, bytes: Bytes): (seq<Value>, Bytes)
    decreases kinds, 1
  {
    if kinds == [] then ([], bytes)
    else
      var (v, rest) := Read(kinds[0], bytes);
      var (vs, rest') := ReadFields(kinds[1..], rest);
      ([v] + vs, rest')
  }

  // The list loop: `count` more elements.
  function ReadElements(k: Kind, count: int, bytes: Bytes): (seq<Value>, Bytes)
    decreases k, 1, count
  {
    if count <= 0 then ([], bytes)
    else
      var (v, rest) := Read(k, bytes);
      var (vs, rest') := ReadElements(k, count - 1, rest);
      ([v] + vs, rest')
  }

  // The map loop: `count` more entries, inserted into what was read before.
  function ReadEntries(k: Kind, count: int, bytes: Bytes, before: seq<Entry>): (seq<Entry>, Bytes)
    decreases k, 1, count
  {
    if count <= 0 then (before, bytes)
    else
      var (key, rest) := ReadText(bytes);
      var (v, rest') := Read(k, rest);
      ReadEntries(k, count - 1, rest', InsertEntry(before, key, v))
  }

  // What is read where a stream has ended.
  function Default(k: Kind): Value
    decreases k, 0
  {
    match k
    case Int => IntValue(0)
    case Bool => BoolValue(false)
    case Double => DoubleValue(0)
    case String => StringValue([])
    case Enum => EnumValue(0)
    case Tuple(fields) => TupleValue(Defaults(fields))
    case List(_) => ListValue([])
    case Map(_) => MapValue([])
  }

  function Defaults(kinds: seq<Kind>): (r: seq<Value>)
    ensures |r| == |kinds|
    decreases kinds, 1
  {
    if kinds == [] then [] else [Default(kinds[0])] + Defaults(kinds[1..])
  }

  /** Past the end of a stream every value reads as zero, false or empty, and nothing is left. */
  lemma {:induction false} ReadNothing(k: Kind)
    ensures Read(k, []) == (Default(k), [])
    decreases k, 0
  {
    if k.Tuple? {
      ReadNoFields(k.fields);
    }
  }

  lemma {:induction false} ReadNoFields(kinds: seq<Kind>)
    ensures ReadFields(kinds, []) == (Defaults(kinds), [])
    decreases kinds, 1
  {
    if kinds != [] {
      ReadNothing(kinds[0]);
      ReadNoFields(kinds[1..]);
    }
  }

  /** A number or text that is cut off reads as zero or empty, and uses the stream up. */
  lemma ShortReads(bytes: Bytes)
    ensures |bytes| < 4 ==> ReadInt(bytes) == (0, []) && ReadText(bytes) == ([], [])
    ensures |bytes| < 8 ==> Read(Double, bytes) == (DoubleValue(0), [])
  {
  }

  /** Round trip: reading a written value of its kind, with anything behind it, gives back the value
      and leaves exactly what was behind. */
  lemma {:induction false} RoundTrip(v: Value, k: Kind, rest: Bytes)
    requires HasKind(v, k)
    ensures Read(k, Write(v) + rest) == (v, rest)
    decreases v, 0
  {
    hide WriteInt, ReadInt, ReadText, WriteText, ReadFields, WriteAll, ReadElements, ReadEntries, WriteEntries;
    match k
    case Int => IntRoundTrip(v.i, rest);
    case Enum => IntRoundTrip(v.e, rest);
    case Bool =>
      TakePrefix(Write(v), rest);
      assert FromBigEndian([1]) == 1 && FromBigEndian([0]) == 0;
    case Double =>
      BigEndianRoundTrip(v.bits, 8);
      TakePrefix(Write(v), rest);
    case String => TextRoundTrip(v.s, rest);
    case Tuple(fields) => FieldsRoundTrip(v.fields, fields, rest);
    case List(element) => ListRoundTrip(v.elements, element, rest);
    case Map(element) => MapRoundTrip(v.entries, element, rest);
  }

  lemma {:induction false} ListRoundTrip(vs: seq<Value>, element: Kind, rest: Bytes)
    requires HasKind(ListValue(vs), List(element))
    ensures Read(List(element), Write(ListValue(vs)) + rest) == (ListValue(vs), rest)
    decreases vs, 2
  {
    hide WriteInt, ReadInt, ReadElements, WriteAll;
    assert Write(ListValue(vs)) + rest == WriteInt(|vs|) + (WriteAll(vs) + rest);
    IntRoundTrip(|vs|, WriteAll(vs) + rest);
    ElementsRoundTrip(vs, element, rest);
  }

  lemma {:induction false} MapRoundTrip(entries: seq<Entry>, element: Kind, rest: Bytes)
    requires HasKind(MapValue(entries), Map(element))
    ensures Read(Map(element), Write(MapValue(entries)) + rest) == (MapValue(entries), rest)
    decreases entries, 2
  {
    hide WriteInt, ReadInt, ReadEntries, WriteEntries;
    assert Write(MapValue(entries)) + rest == WriteInt(|entries|) + (WriteEntries(entries) + rest);
    IntRoundTrip(|entries|, WriteEntries(entries) + rest);
    assert [] + entries == entries;
    EntriesRoundTrip(entries, element, rest, []);
  }

  /** Whole argument tuples round-trip. */
  lemma {:induction false} FieldsRoundTrip(vs: seq<Value>, kinds: seq<Kind>, rest: Bytes)
    requires |vs| == |kinds| && forall i :: 0 <= i < |vs| ==> HasKind(vs[i], kinds[i])
    ensures ReadFields(kinds, WriteAll(vs) + rest) == (vs, rest)
    decreases vs, 1
  {
    hide Read, Write, HasKind;
    if vs == [] {
      assert WriteAll(vs) + rest == rest;
    } else {
      assert WriteAll(vs) + rest == Write(vs[0]) + (WriteAll(vs[1..]) + rest);
      RoundTrip(vs[0], kinds[0], WriteAll(vs[1..]) + rest);
      FieldsRoundTrip(vs[1..], kinds[1..], rest);
      assert [vs[0]] + vs[1..] == vs;
    }
  }

  lemma {:induction false} ElementsRoundTrip(vs: seq<Value>, k: Kind, rest: Bytes)
    requires forall i :: 0 <= i < |vs| ==> HasKind(vs[i], k)
    ensures ReadElements(k, |vs|, WriteAll(vs) + rest) == (vs, rest)
    decreases vs, 1
  {
    hide Read, Write, HasKind;
    if vs == [] {
      assert WriteAll(vs) + rest == rest;
    } else {
      assert WriteAll(vs) + rest == Write(vs[0]) + (WriteAll(vs[1..]) + rest);
      RoundTrip(vs[0], k, WriteAll(vs[1..]) + rest);
      ElementsRoundTrip(vs[1..], k, rest);
      assert [vs[0]] + vs[1..] == vs;
    }
  }

  lemma {:induction false} EntriesRoundTrip(entries: seq<Entry>, k: Kind, rest: Bytes, before: seq<Entry>)
    requires Ascending(before + entries)
    requires forall i :: 0 <= i < |entries| ==> IsText(entries[i].key) && HasKind(entries[i].value, k)
    ensures ReadEntries(k, |entries|, WriteEntries(entries) + rest, before) == (before + entries, rest)
    decreases entries, 1
  {
    hide Read, Write, HasKind, ReadText, WriteText;
    if entries == [] {
      assert WriteEntries(entries) + rest == rest && before + entries == before;
    } else {
      var Entry(key, v) := entries[0];
      var tail := WriteEntries(entries[1..]) + rest;
      assert WriteEntries(entries) + rest == WriteText(key) + (Write(v) + tail);
      TextRoundTrip(key, Write(v) + tail);
      RoundTrip(v, k, tail);
      forall i | 0 <= i < |before|
        ensures Less(before[i].key, key)
      {
        assert (before + entries)[i] == before[i] && (before + entries)[|before|] == entries[0];
      }
      InsertLast(before, key, v);
      assert (before + [Entry(key, v)]) + entries[1..] == before + entries;
      EntriesRoundTrip(entries[1..], k, rest, before + [Entry(key, v)]);
    }
  }
}

/**
 The codec as it runs: writing to an OutputPayLoad and reading from an InputPayLoad in place.
 */
module WireStreams {

  import opened WireCodec

  class OutputPayLoad {
    var content: Bytes

    constructor ()
      ensures content == []
    {
      content := [];
    }

    method Append(bytes: Bytes)
      modifies this
      ensures content == old(content) + bytes
    {
      content := content + bytes;
    }
  }

  class InputPayLoad {
    var rest: Bytes        // what has not been read yet

    constructor (content: Bytes)
      ensures rest == content
    {
      rest := content;
    }

    // readNextParameter() of an int
    method NextInt() returns (i: int)
      modifies this
      ensures (i, rest) == ReadInt(old(rest))
    {
      var r := ReadInt(rest);
      i, rest := r.0, r.1;
    }

    // readNextParameter() of a QString
    method NextText() returns (s: Text)
      modifies this
      ensures (s, rest) == ReadText(old(rest))
    {
      var r := ReadText(rest);
      s, rest := r.0, r.1;
    }
  }

  method WriteValue(msg: OutputPayLoad, v: Value, k: Kind)
    requires HasKind(v, k)
    modifies msg
    ensures msg.content == old(msg.content) + Write(v)
    decreases v, 0
  {
    match v
    case IntValue(i) => msg.Append(WriteInt(i));
    case BoolValue(b) => msg.Append([if b then 1 else 0]);
    case DoubleValue(bits) => msg.Append(BigEndian(bits, 8));
    case StringValue(s) => msg.Append(WriteText(s));
    case EnumValue(e) => msg.Append(WriteInt(e));
    case TupleValue(fields) => WriteTuple(msg, fields, k.fields);
    case ListValue(elements) => WriteList(msg, elements, k.element);
    case MapValue(entries) => WriteMap(msg, entries, k.element);
  }

  // for_each_in_tuple_const() with StreamWriteFunction
  method WriteTuple(msg: OutputPayLoad, fields: seq<Value>, kinds: seq<Kind>)
    requires |fields| == |kinds| && forall i :: 0 <= i < |fields| ==> HasKind(fields[i], kinds[i])
    modifies msg
    ensures msg.content == old(msg.content) + WriteAll(fields)
    decreases fields, 1
  {
    hide Write, HasKind;
    if fields != [] {
      WriteValue(msg, fields[0], kinds[0]);
      WriteTuple(msg, fields[1..], kinds[1..]);
    }
  }

  lemma WriteAllNext(content: Bytes, list: seq<Value>, i: nat)
    requires i < |list|
    ensures content + WriteAll(list[i..]) == (content + Write(list[i])) + WriteAll(list[i + 1..])
  {
    hide Write;
    assert list[i..][1..] == list[i + 1..];
  }

  lemma WriteAllEnd(list: seq<Value>)
    ensures WriteAll(list[|list|..]) == []
  {
  }

  method WriteList(msg: OutputPayLoad, list: seq<Value>, k: Kind)
    requires HasKind(ListValue(list), List(k))
    modifies msg
    ensures msg.content == old(msg.content) + Write(ListValue(list))
    decreases list, 1
  {
    assert forall i :: 0 <= i < |list| ==> HasKind(list[i], k);
    assert Write(ListValue(list)) == WriteInt(|list|) + WriteAll(list);
    hide Write, HasKind, WriteInt;
    msg.Append(WriteInt(|list|));
    ghost var target := msg.content + WriteAll(list);
    assert list[0..] == list && target == old(msg.content) + Write(ListValue(list));
    hide WriteAll;
    for i := 0 to |list|
      invariant msg.content + WriteAll(list[i..]) == target
    {
      WriteAllNext(msg.content, list, i);
      WriteValue(msg, list[i], k);
    }
    WriteAllEnd(list);
    assert msg.content + [] == msg.content;
  }

  method WriteMapEntry(msg: OutputPayLoad, e: Entry, k: Kind)
    requires HasKind(e.value, k)
    modifies msg
    ensures msg.content == old(msg.content) + WriteEntry(e)
    decreases e, 0
  {
    hide Write, HasKind, WriteText;
    msg.Append(WriteText(e.key));
    WriteValue(msg, e.value, k);
  }

  lemma WriteEntriesNext(content: Bytes, entries: seq<Entry>, i: nat)
    requires i < |entries|
    ensures content + WriteEntries(entries[i..]) == (content + WriteEntry(entries[i])) + WriteEntries(entries[i + 1..])
  {
    hide WriteEntry;
    assert entries[i..][1..] == entries[i + 1..];
  }

  lemma WriteEntriesEnd(entries: seq<Entry>)
    ensures WriteEntries(entries[|entries|..]) == []
  {
  }

  method WriteMap(msg: OutputPayLoad, entries: seq<Entry>, k: Kind)
    requires HasKind(MapValue(entries), Map(k))
    modifies msg
    ensures msg.content == old(msg.content) + Write(MapValue(entries))
    decreases entries, 1
  {
    assert forall i :: 0 <= i < |entries| ==> HasKind(entries[i].value, k);
    assert Write(MapValue(entries)) == WriteInt(|entries|) + WriteEntries(entries);
    hide Write, HasKind, WriteInt, WriteEntry;
    msg.Append(WriteInt(|entries|));
    ghost var target := msg.content + WriteEntries(entries);
    assert entries[0..] == entries && target == old(msg.content) + Write(MapValue(entries));
    hide WriteEntries;
    for i := 0 to |entries|
      invariant msg.content + WriteEntries(entries[i..]) == target
    {
      WriteEntriesNext(msg.content, entries, i);
      WriteMapEntry(msg, entries[i], k);
    }
    WriteEntriesEnd(entries);
    assert msg.content + [] == msg.content;
  }

  method ReadValue(msg: InputPayLoad, k: Kind) returns (v: Value)
    modifies msg
    ensures (v, msg.rest) == Read(k, old(msg.rest))
    decreases k, 0
  {
    hide ReadInt, ReadText, Take, ReadFields, ReadElements, ReadEntries;
    match k
    case Int =>
      var i := msg.NextInt();
      v := IntValue(i);
    case Bool =>
      var r := Take(msg.rest, 1);
      v := BoolValue(FromBigEndian(r.0) != 0);
      msg.rest := r.1;
    case Double =>
      var r := Take(msg.rest, 8);
      v := DoubleValue(FromBigEndian(r.0));
      msg.rest := r.1;
    case String =>
      var s := msg.NextText();
      v := StringValue(s);
    case Enum =>
      var i := msg.NextInt();
      v := EnumValue(i);
    case Tuple(fields) =>
      var vs := ReadTuple(msg, fields);
      v := TupleValue(vs);
    case List(element) =>
      var count := msg.NextInt();
      var list := ReadList(msg, element, count);
      v := ListValue(list);
    case Map(element) =>
      var count := msg.NextInt();
      var entries := ReadMap(msg, element, count);
      v := MapValue(entries);
  }

  // for_each_in_tuple() with StreamReadFunction
  method ReadTuple(msg: InputPayLoad, kinds: seq<Kind>) returns (vs: seq<Value>)
    modifies msg
    ensures (vs, msg.rest) == ReadFields(kinds, old(msg.rest))
    decreases kinds, 1
  {
    hide Read;
    vs := [];
    if kinds != [] {
      var v := ReadValue(msg, kinds[0]);
      vs := ReadTuple(msg, kinds[1..]);
      vs := [v] + vs;
    }
  }

  method ReadList(msg: InputPayLoad, k: Kind, count: int) returns (list: seq<Value>)
    modifies msg
    ensures (list, msg.rest) == ReadElements(k, count, old(msg.rest))
    decreases k, 1
  {
    hide Read;
    list := [];
    var i := 0;
    ghost var outcome := ReadElements(k, count, msg.rest);
    while i < count
      invariant outcome.0 == list + ReadElements(k, count - i, msg.rest).0
      invariant outcome.1 == ReadElements(k, count - i, msg.rest).1
    {
      var e := ReadValue(msg, k);
      list := list + [e];
      i := i + 1;
    }
    assert outcome.0 == list && outcome.1 == msg.rest;
  }

  method ReadMap(msg: InputPayLoad, k: Kind, count: int) returns (entries: seq<Entry>)
    modifies msg
    ensures (entries, msg.rest) == ReadEntries(k, count, old(msg.rest), [])
    decreases k, 1
  {
    hide Read, ReadText, InsertEntry;
    entries := [];
    var i := 0;
    while i < count
      invariant ReadEntries(k, count - i, msg.rest, entries) == ReadEntries(k, count, old(msg.rest), [])
    {
      var key := msg.NextText();
      var value := ReadValue(msg, k);
      entries := InsertEntry(entries, key, value);
      i := i + 1;
    }
  }

  /** A value sent through a payload arrives, and the payload is read to its end. */
  method Transfer(v: Value, k: Kind) returns (received: Value)
    requires HasKind(v, k)
    ensures received == v
  {
    var output := new OutputPayLoad();
    WriteValue(output, v, k);
    RoundTrip(v, k, []);
    assert output.content == Write(v) + [];
    var input := new InputPayLoad(output.content);
    received := ReadValue(input, k);
    assert input.rest == [];
  }
}

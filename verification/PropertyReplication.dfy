/**
 How a service adapter keeps the property values of its proxies up to date: full snapshots on
 request, and ahead of each signal the values that changed since the last signal.

 src/ipc/dbus/IPCDBusServiceAdapterBase.{h,cpp}, src/ipc/dbus/DBusIPCProxy.h and the generated
 code of codegen/facelift/templates/IPC{ServiceAdapter,ProxyAdapter}.template.cpp.
 */
module PropertyReplication {

  import opened Wrappers

  /** What a payload is made of.  A type V stands for the values of all properties; of an interface
      property the object path is sent, of a model property the size. */
  datatype Token<V> = Flag(flag: bool) | Value(value: V) | Signal(id: nat)

  type Payload<V> = seq<Token<V>>

  datatype PropertyKind = Ordinary | Ready | Interface | Model {
    // Does connectSignals() set the copy of the value last sent?
    predicate Seeded() {
      Ordinary?
    }

    // Is there such a copy?  Of a model property only snapshots carry the size.
    predicate HasPrevious() {
      !Model?
    }
  }

  // ----- the wire format

  // One serializeOptionalValue(), or for a model property the size in a snapshot
  function EncodeOptional<V(==)>(kind: PropertyKind, previous: V, current: V, isCompleteSnapshot: bool): Payload<V> {
    if isCompleteSnapshot then [Value(current)]
    else if !kind.HasPrevious() then []
    else if previous == current then [Flag(false)]
    else [Flag(true), Value(current)]
  }

  // serializePropertyValues()
  function Encode<V(==)>(kinds: seq<PropertyKind>, previous: seq<V>, current: seq<V>,
                         isCompleteSnapshot: bool): Payload<V>
    requires |kinds| == |previous| == |current|
  {
    if current == [] then []
    else EncodeOptional(kinds[0], previous[0], current[0], isCompleteSnapshot)
         + Encode(kinds[1..], previous[1..], current[1..], isCompleteSnapshot)
  }

  // What is left to write from property i on.
  ghost function EncodeFrom<V>(kinds: seq<PropertyKind>, previous: seq<V>, current: seq<V>,
                               isCompleteSnapshot: bool, i: nat): Payload<V>
    requires |kinds| == |previous| == |current| && i <= |current|
  {
    Encode(kinds[i..], previous[i..], current[i..], isCompleteSnapshot)
  }

  lemma EncodeNext<V>(kinds: seq<PropertyKind>, previous: seq<V>, current: seq<V>, isCompleteSnapshot: bool, i: nat)
    requires |kinds| == |previous| == |current| && i < |current|
    ensures EncodeFrom(kinds, previous, current, isCompleteSnapshot, i)
            == EncodeOptional(kinds[i], previous[i], current[i], isCompleteSnapshot)
               + EncodeFrom(kinds, previous, current, isCompleteSnapshot, i + 1)
  {
    assert current[i..][1..] == current[i + 1..] && previous[i..][1..] == previous[i + 1..];
    assert kinds[i..][1..] == kinds[i + 1..];
  }

  lemma EncodeEnds<V>(kinds: seq<PropertyKind>, previous: seq<V>, current: seq<V>, isCompleteSnapshot: bool)
    requires |kinds| == |previous| == |current|
    ensures EncodeFrom(kinds, previous, current, isCompleteSnapshot, 0)
        == Encode(kinds, previous, current, isCompleteSnapshot)
    ensures EncodeFrom(kinds, previous, current, isCompleteSnapshot, |current|) == []
  {
    assert current[0..] == current && previous[0..] == previous && kinds[0..] == kinds;
  }

  // A payload that lacks what is to come from property i on.
  ghost predicate Begins<V>(payload: Payload<V>, kinds: seq<PropertyKind>, previous: seq<V>, current: seq<V>,
                            isCompleteSnapshot: bool, i: nat)
    requires |kinds| == |previous| == |current| && i <= |current|
  {
    payload + EncodeFrom(kinds, previous, current, isCompleteSnapshot, i)
        == Encode(kinds, previous, current, isCompleteSnapshot)
  }

  lemma BeginsNext<V>(payload: Payload<V>, kinds: seq<PropertyKind>, previous: seq<V>, current: seq<V>,
                      isCompleteSnapshot: bool, i: nat)
    requires |kinds| == |previous| == |current| && i < |current|
    requires Begins(payload, kinds, previous, current, isCompleteSnapshot, i)
    ensures Begins(payload + EncodeOptional(kinds[i], previous[i], current[i], isCompleteSnapshot),
                   kinds, previous, current, isCompleteSnapshot, i + 1)
  {
    EncodeNext(kinds, previous, current, isCompleteSnapshot, i);
    hide Encode, EncodeFrom, EncodeOptional;
    var tokens := EncodeOptional(kinds[i], previous[i], current[i], isCompleteSnapshot);
    var later := EncodeFrom(kinds, previous, current, isCompleteSnapshot, i + 1);
    assert payload + (tokens + later) == (payload + tokens) + later;
  }

  lemma BeginsEnds<V>(payload: Payload<V>, kinds: seq<PropertyKind>, previous: seq<V>, current: seq<V>,
                      isCompleteSnapshot: bool)
    requires |kinds| == |previous| == |current|
    ensures Begins([], kinds, previous, current, isCompleteSnapshot, 0)
    ensures Begins(payload, kinds, previous, current, isCompleteSnapshot, |current|)
            ==> payload == Encode(kinds, previous, current, isCompleteSnapshot)
  {
    EncodeEnds(kinds, previous, current, isCompleteSnapshot);
    hide Encode, EncodeFrom;
    assert payload + [] == payload;
  }

  // ----- reading; past the end of a payload, flags read as false and values as `zero`

  function NextFlag<V>(payload: Payload<V>): (bool, Payload<V>) {
    if payload == [] then (false, [])
    else (payload[0].Flag? && payload[0].flag, payload[1..])
  }

  function NextValue<V>(payload: Payload<V>, zero: V): (V, Payload<V>) {
    if payload == [] then (zero, [])
    else (if payload[0].Value? then payload[0].value else zero, payload[1..])
  }

  // A property as read: its value, whether the payload carried one, and what follows.
  datatype Item<V> = Item(value: V, carried: bool, rest: Payload<V>)

  // One deserializeOptionalValue(), or for a model property the size in a snapshot
  function DecodeOptional<V>(kind: PropertyKind, value: V, payload: Payload<V>, isCompleteSnapshot: bool,
                             zero: V): Item<V>
  {
    if !isCompleteSnapshot && !kind.HasPrevious() then Item(value, false, payload)
    else
      var (b, rest) := if isCompleteSnapshot then (true, payload) else NextFlag(payload);
      if b then Item(NextValue(rest, zero).0, true, NextValue(rest, zero).1) else Item(value, false, rest)
  }

  datatype Decoded<V> = Decoded(values: seq<V>, carried: seq<bool>, rest: Payload<V>)

  // deserializePropertyValues()
  function Decode<V>(kinds: seq<PropertyKind>, values: seq<V>, payload: Payload<V>,
                     isCompleteSnapshot: bool, zero: V): (r: Decoded<V>)
    requires |kinds| == |values|
    ensures |r.values| == |r.carried| == |values|
  {
    if values == [] then Decoded([], [], payload)
    else
      var first := DecodeOptional(kinds[0], values[0], payload, isCompleteSnapshot, zero);
      var next := Decode(kinds[1..], values[1..], first.rest, isCompleteSnapshot, zero);
      Decoded([first.value] + next.values, [first.carried] + next.carried, next.rest)
  }

  // What is left to read from property i on.
  ghost function DecodeFrom<V>(kinds: seq<PropertyKind>, values: seq<V>, payload: Payload<V>,
                               isCompleteSnapshot: bool, zero: V, i: nat): (r: Decoded<V>)
    requires |kinds| == |values| && i <= |values|
    ensures |r.values| == |r.carried| == |values| - i
  {
    Decode(kinds[i..], values[i..], payload, isCompleteSnapshot, zero)
  }

  lemma DecodeNext<V>(kinds: seq<PropertyKind>, values: seq<V>, payload: Payload<V>, isCompleteSnapshot: bool,
                      zero: V, i: nat)
    requires |kinds| == |values| && i < |values|
    ensures var first := DecodeOptional(kinds[i], values[i], payload, isCompleteSnapshot, zero);
            var next := DecodeFrom(kinds, values, first.rest, isCompleteSnapshot, zero, i + 1);
            DecodeFrom(kinds, values, payload, isCompleteSnapshot, zero, i)
            == Decoded([first.value] + next.values, [first.carried] + next.carried, next.rest)
  {
    assert values[i..][1..] == values[i + 1..] && kinds[i..][1..] == kinds[i + 1..];
  }

  lemma DecodeEnds<V>(kinds: seq<PropertyKind>, values: seq<V>, payload: Payload<V>, isCompleteSnapshot: bool, zero: V)
    requires |kinds| == |values|
    ensures DecodeFrom(kinds, values, payload, isCompleteSnapshot, zero, 0)
            == Decode(kinds, values, payload, isCompleteSnapshot, zero)
    ensures DecodeFrom(kinds, values, payload, isCompleteSnapshot, zero, |values|) == Decoded([], [], payload)
  {
    assert kinds[0..] == kinds && values[0..] == values;
  }

  /** An empty payload: a snapshot reads zeros, a delta leaves all values as they are. */
  lemma {:induction false} DecodeNothing<V>(kinds: seq<PropertyKind>, values: seq<V>, isCompleteSnapshot: bool, zero: V)
    requires |kinds| == |values|
    ensures var decoded := Decode(kinds, values, [], isCompleteSnapshot, zero);
            && decoded.rest == []
            && forall i :: 0 <= i < |values| ==> decoded.values[i] == if isCompleteSnapshot then zero else values[i]
  {
    if values != [] {
      DecodeNothing(kinds[1..], values[1..], isCompleteSnapshot, zero);
    }
  }

  // Does a message carry a value, given the value last sent and the one at sending time?
  predicate Carries<V(==)>(kind: PropertyKind, previous: V, current: V, isCompleteSnapshot: bool) {
    isCompleteSnapshot || (kind.HasPrevious() && previous != current)
  }

  // What a replica makes of a message sent when the values last sent were `previous`.
  function Patch<V(==)>(kinds: seq<PropertyKind>, values: seq<V>, previous: seq<V>, current: seq<V>,
                        isCompleteSnapshot: bool): (r: seq<V>)
    requires |kinds| == |values| == |previous| == |current|
    ensures |r| == |values|
  {
    seq(|values|, i requires 0 <= i < |values| =>
      if Carries(kinds[i], previous[i], current[i], isCompleteSnapshot) then current[i] else values[i])
  }

  function Carried<V(==)>(kinds: seq<PropertyKind>, previous: seq<V>, current: seq<V>,
                          isCompleteSnapshot: bool): (r: seq<bool>)
    requires |kinds| == |previous| == |current|
    ensures |r| == |current|
  {
    seq(|current|, i requires 0 <= i < |current| => Carries(kinds[i], previous[i], current[i], isCompleteSnapshot))
  }

  lemma OptionalRoundTrip<V>(kind: PropertyKind, value: V, previous: V, current: V,
                             isCompleteSnapshot: bool, zero: V, rest: Payload<V>)
    ensures var carries := Carries(kind, previous, current, isCompleteSnapshot);
            var payload := EncodeOptional(kind, previous, current, isCompleteSnapshot) + rest;
            DecodeOptional(kind, value, payload, isCompleteSnapshot, zero)
            == Item(if carries then current else value, carries, rest)
  {
    var head := EncodeOptional(kind, previous, current, isCompleteSnapshot);
    assert (head + rest)[|head|..] == rest;
    if |head| == 2 {
      assert (head + rest)[1..] == [Value(current)] + rest && ([Value(current)] + rest)[1..] == rest;
    }
  }

  /** A snapshot replaces all values, a delta exactly those that differ from the last ones sent;
      either leaves what follows it, such as the signal, unread. */
  lemma {:induction false} DecodeEncode<V>(kinds: seq<PropertyKind>, values: seq<V>, previous: seq<V>, current: seq<V>,
                                           isCompleteSnapshot: bool, zero: V, rest: Payload<V>)
    requires |kinds| == |values| == |previous| == |current|
    ensures Decode(kinds, values, Encode(kinds, previous, current, isCompleteSnapshot) + rest, isCompleteSnapshot, zero)
            == Decoded(Patch(kinds, values, previous, current, isCompleteSnapshot),
                       Carried(kinds, previous, current, isCompleteSnapshot), rest)
  {
    var patched := Patch(kinds, values, previous, current, isCompleteSnapshot);
    var carried := Carried(kinds, previous, current, isCompleteSnapshot);
    if current == [] {
      assert Encode(kinds, previous, current, isCompleteSnapshot) + rest == rest && patched == [] && carried == [];
    } else {
      EncodeFirst(kinds, previous, current, isCompleteSnapshot, rest);
      PatchFirst(kinds, values, previous, current, isCompleteSnapshot);
      hide Encode, Patch, Carried, DecodeOptional, EncodeOptional;
      var tail := Encode(kinds[1..], previous[1..], current[1..], isCompleteSnapshot) + rest;
      OptionalRoundTrip(kinds[0], values[0], previous[0], current[0], isCompleteSnapshot, zero, tail);
      DecodeEncode(kinds[1..], values[1..], previous[1..], current[1..], isCompleteSnapshot, zero, rest);
    }
  }

  lemma EncodeFirst<V>(kinds: seq<PropertyKind>, previous: seq<V>, current: seq<V>, isCompleteSnapshot: bool,
                       rest: Payload<V>)
    requires |kinds| == |previous| == |current| > 0
    ensures Encode(kinds, previous, current, isCompleteSnapshot) + rest
            == EncodeOptional(kinds[0], previous[0], current[0], isCompleteSnapshot)
               + (Encode(kinds[1..], previous[1..], current[1..], isCompleteSnapshot) + rest)
  {
  }

  lemma PatchFirst<V>(kinds: seq<PropertyKind>, values: seq<V>, previous: seq<V>, current: seq<V>,
                      isCompleteSnapshot: bool)
    requires |kinds| == |values| == |previous| == |current| > 0
    ensures var carries := Carries(kinds[0], previous[0], current[0], isCompleteSnapshot);
            && Patch(kinds, values, previous, current, isCompleteSnapshot)
               == [if carries then current[0] else values[0]]
                  + Patch(kinds[1..], values[1..], previous[1..], current[1..], isCompleteSnapshot)
            && Carried(kinds, previous, current, isCompleteSnapshot)
               == [carries] + Carried(kinds[1..], previous[1..], current[1..], isCompleteSnapshot)
  {
  }

  // ----- the service's end

  datatype Server<V> = Server(
    kinds: seq<PropertyKind>,
    current: seq<V>,       // the service's property values
    previous: seq<V>,      // m_previous*: the value last sent ahead of a signal
    connected: bool)       // m_signalsConnected
  {
    predicate Valid() {
      |current| == |previous| == |kinds|
    }
  }

  // The first GetAllProperties connects the signals.
  function Connect<V>(s: Server<V>): (s': Server<V>)
    requires s.Valid()
    ensures s'.Valid()
  {
    if s.connected then s
    else s.(connected := true,
            previous := seq(|s.current|, i requires 0 <= i < |s.current| =>
              if s.kinds[i].Seeded() then s.current[i] else s.previous[i]))
  }

  // The server after a signal.
  function Updated<V>(s: Server<V>): (s': Server<V>)
    requires s.Valid()
    ensures s'.Valid()
  {
    s.(previous := seq(|s.current|, i requires 0 <= i < |s.current| =>
      if s.kinds[i].HasPrevious() then s.current[i] else s.previous[i]))
  }

  // The signal's identifier and arguments, which follow the property values.
  function SignalTokens<V>(id: nat, arguments: seq<V>): Payload<V> {
    [Signal(id)] + seq(|arguments|, i requires 0 <= i < |arguments| => Value(arguments[i]))
  }

  // deserializeSignal(): the identifier, and the rest as arguments
  function ReadSignal<V>(payload: Payload<V>, zero: V): (nat, seq<V>) {
    if payload == [] then (0, [])
    else
      (if payload[0].Signal? then payload[0].id else 0,
       seq(|payload| - 1, i requires 0 <= i < |payload| - 1 => NextValue(payload[i + 1..], zero).0))
  }

  /** A signal is read as it was sent, with its arguments; on the wire they follow the identifier in
      order. */
  lemma SignalRoundTrip<V>(id: nat, arguments: seq<V>, zero: V)
    ensures ReadSignal(SignalTokens(id, arguments), zero) == (id, arguments)
    ensures var tokens := SignalTokens(id, arguments);
            && |tokens| == 1 + |arguments| && tokens[0] == Signal(id)
            && forall k :: 0 <= k < |arguments| ==> tokens[1 + k] == Value(arguments[k])
  {
    assert ReadSignal(SignalTokens(id, arguments), zero).1 == arguments;
  }

  // The message of a signal
  function SignalPayload<V(==)>(s: Server<V>, id: nat, arguments: seq<V>): Payload<V>
    requires s.Valid()
  {
    Encode(s.kinds, s.previous, s.current, false) + SignalTokens(id, arguments)
  }

  /** A message is read as the values that changed since the last one, followed by the signal with
      its identifier and all its arguments in order. */
  lemma SignalPayloadRead<V>(s: Server<V>, id: nat, arguments: seq<V>, values: seq<V>, zero: V)
    requires s.Valid() && |values| == |s.kinds|
    ensures var decoded := Decode(s.kinds, values, SignalPayload(s, id, arguments), false, zero);
            && (forall i :: 0 <= i < |values| ==>
                  decoded.values[i] == if !s.kinds[i].Model? && s.previous[i] != s.current[i] then s.current[i]
                                       else values[i])
            && |decoded.rest| == 1 + |arguments| && decoded.rest[0] == Signal(id)
            && (forall k :: 0 <= k < |arguments| ==> decoded.rest[1 + k] == Value(arguments[k]))
            && ReadSignal(decoded.rest, zero) == (id, arguments)
  {
    DecodeEncode(s.kinds, values, s.previous, s.current, false, zero, SignalTokens(id, arguments));
    SignalRoundTrip(id, arguments, zero);
  }

  class ServiceAdapter<V(==)> {
    const kinds: seq<PropertyKind>
    var current: seq<V>
    var previous: seq<V>
    var signalsConnected: bool
    var connections: set<nat>                 // the properties whose change signal leads to sendSignal()
    var handlers: set<nat>                    // the model properties whose handler is connected
    var adapters: set<nat>                    // the interface properties whose adapter follows them
    const signalCount: nat                    // the service's own signals,
    var forwarded: set<nat>                   // and those connected to their sending methods
    var pending: Option<Payload<V>>           // m_pendingOutgoingMessage
    var sent: seq<Payload<V>>

    ghost function State(): Server<V>
      reads this
    {
      Server(kinds, current, previous, signalsConnected)
    }

    ghost predicate Valid()
      reads this
    {
      && State().Valid()
      && forall i: nat :: i in connections <==> signalsConnected && i < |kinds|
    }

    constructor (kinds: seq<PropertyKind>, values: seq<V>, initialPrevious: seq<V>, signalCount: nat)
      requires |values| == |initialPrevious| == |kinds|
      ensures Valid() && State() == Server(kinds, values, initialPrevious, false) && pending == None && sent == []
    {
      this.kinds, current, previous, signalsConnected := kinds, values, initialPrevious, false;
      this.signalCount, handlers, adapters, forwarded := signalCount, {}, {}, {};
      connections, pending, sent := {}, None, [];
    }

    // The first loop of connectSignals(): model handlers, and the previous copies
    method ConnectModels()
      requires State().Valid()
      modifies this`previous, this`handlers
      ensures previous == Connect(old(State()).(connected := false)).previous
      ensures forall i: nat :: i in handlers <==> i in old(handlers) || (i < |kinds| && kinds[i].Model?)
    {
      for i := 0 to |kinds|
        invariant |previous| == |kinds|
        invariant forall k :: 0 <= k < |kinds| ==>
          previous[k] == if k < i && kinds[k].Seeded() then current[k] else old(previous)[k]
        invariant forall k: nat :: k in handlers <==> k in old(handlers) || (k < i && kinds[k].Model?)
      {
        if kinds[i].Model? {
          handlers := handlers + {i};
        } else if kinds[i].Seeded() {
          previous := previous[i := current[i]];
        }
      }
      assert previous == Connect(old(State()).(connected := false)).previous;
    }

    // Its last loop
    method ConnectServiceSignals()
      modifies this`forwarded
      ensures forall j: nat :: j in forwarded <==> j in old(forwarded) || j < signalCount
    {
      for j := 0 to signalCount
        invariant forall k: nat :: k in forwarded <==> k in old(forwarded) || k < j
      {
        forwarded := forwarded + {j};
      }
    }

    // connectSignals(): then the properties but ready, and the service's own signals
    method ConnectSignals()
      requires State().Valid()
      modifies this`previous, this`connections, this`handlers, this`adapters, this`forwarded
      ensures previous == Connect(old(State()).(connected := false)).previous
      ensures forall i: nat :: i in connections <==> i in old(connections) || (i < |kinds| && !kinds[i].Ready?)
      ensures forall i: nat :: i in handlers <==> i in old(handlers) || (i < |kinds| && kinds[i].Model?)
      ensures forall i: nat :: i in adapters <==> i in old(adapters) || (i < |kinds| && kinds[i].Interface?)
      ensures forall j: nat :: j in forwarded <==> j in old(forwarded) || j < signalCount
    {
      ConnectModels();
      ghost var seeded, models := previous, handlers;
      for i := 0 to |kinds|
        invariant previous == seeded && handlers == models && forwarded == old(forwarded)
        invariant forall k: nat :: k in connections <==> k in old(connections) || (k < i && !kinds[k].Ready?)
        invariant forall k: nat :: k in adapters <==> k in old(adapters) || (k < i && kinds[k].Interface?)
      {
        if kinds[i].Interface? {
          adapters := adapters + {i};
        }
        if !kinds[i].Ready? {
          connections := connections + {i};
        }
      }
      ConnectServiceSignals();
    }

    // serializeOptionalValue() for property i, or the size of a model property
    method SerializeOptionalValue(i: nat, isCompleteSnapshot: bool) returns (tokens: Payload<V>)
      requires State().Valid() && i < |current|
      modifies this`previous
      ensures previous == if isCompleteSnapshot || !kinds[i].HasPrevious() then old(previous)
                          else old(previous)[i := current[i]]
      ensures tokens == EncodeOptional(kinds[i], old(previous)[i], current[i], isCompleteSnapshot)
    {
      if isCompleteSnapshot {
        tokens := [Value(current[i])];
      } else if !kinds[i].HasPrevious() {
        tokens := [];
      } else {
        if previous[i] == current[i] {
          tokens := [Flag(false)];
        } else {
          tokens := [Flag(true), Value(current[i])];
          previous := previous[i := current[i]];
        }
      }
    }

    method SerializePropertyValues(isCompleteSnapshot: bool) returns (payload: Payload<V>)
      requires State().Valid()
      modifies this`previous
      ensures payload == Encode(kinds, old(previous), current, isCompleteSnapshot)
      ensures State() == if isCompleteSnapshot then old(State()) else Updated(old(State()))
    {
      payload := [];
      ghost var was := previous;
      hide Encode, EncodeOptional, Begins;
      BeginsEnds(payload, kinds, was, current, isCompleteSnapshot);
      for i := 0 to |kinds|
        invariant |previous| == |kinds|
        invariant forall k :: 0 <= k < |kinds| ==>
          previous[k] == if isCompleteSnapshot || k >= i || !kinds[k].HasPrevious() then was[k] else current[k]
        invariant Begins(payload, kinds, was, current, isCompleteSnapshot, i)
      {
        BeginsNext(payload, kinds, was, current, isCompleteSnapshot, i);
        var tokens := SerializeOptionalValue(i, isCompleteSnapshot);
        payload := payload + tokens;
      }
      BeginsEnds(payload, kinds, was, current, isCompleteSnapshot);
      assert previous == if isCompleteSnapshot then was else Updated(old(State())).previous;
    }

    // handleMessage() for GetAllProperties
    method HandleGetAllProperties() returns (reply: Payload<V>)
      requires Valid()
      modifies this`previous, this`signalsConnected, this`connections, this`handlers, this`adapters, this`forwarded
      ensures Valid() && State() == Connect(old(State()))
      ensures reply == Encode(kinds, previous, current, true)
    {
      if !signalsConnected {
        signalsConnected := true;
        connections := connections + set i | 0 <= i < |kinds| && kinds[i].Ready?;
        ConnectSignals();
      }
      reply := SerializePropertyValues(true);
    }

    method InitOutgoingSignalMessage()
      requires State().Valid()
      modifies this`previous, this`pending
      ensures State() == Updated(old(State()))
      ensures pending == Some(Encode(kinds, old(previous), current, false))
    {
      var payload := SerializePropertyValues(false);
      pending := Some(payload);
    }

    method Flush()
      modifies this`sent, this`pending
      ensures pending == None
      ensures sent == if old(pending).Some? then old(sent) + [old(pending).value] else old(sent)
    {
      if pending.Some? {
        sent := sent + [pending.value];
        pending := None;
      }
    }

    // sendSignal(): the changed values go ahead of the signal; while a message is being made, another is not
    method SendSignal(id: nat, arguments: seq<V>)
      requires Valid()
      modifies this`previous, this`pending, this`sent
      ensures Valid() && pending == old(pending)
      ensures old(pending).Some? ==> State() == old(State()) && sent == old(sent)
      ensures old(pending).None? ==> State() == Updated(old(State()))
      ensures old(pending).None? ==> sent == old(sent) + [SignalPayload(old(State()), id, arguments)]
    {
      if pending.None? {
        InitOutgoingSignalMessage();
        ghost var values := pending.value;
        pending := Some(pending.value + [Signal(id)]);
        assert SignalTokens(id, arguments[..0]) == [Signal(id)];
        for i := 0 to |arguments|
          invariant State() == Updated(old(State())) && sent == old(sent)
          invariant pending == Some(values + SignalTokens(id, arguments[..i]))
        {
          assert values + SignalTokens(id, arguments[..i + 1])
              == (values + SignalTokens(id, arguments[..i])) + [Value(arguments[i])];
          pending := Some(pending.value + [Value(arguments[i])]);
        }
        assert arguments[..|arguments|] == arguments;
        Flush();
      }
    }

    // The lambda connected to the change signal of property i
    method OnPropertyChanged(i: nat)
      requires Valid() && i < |kinds| && pending.None?
      modifies this`previous, this`pending, this`sent
      ensures Valid() && pending.None?
      ensures State() == if signalsConnected then Updated(old(State())) else old(State())
      ensures sent == if signalsConnected then old(sent) + [SignalPayload(old(State()), i, [])] else old(sent)
    {
      if i in connections {
        SendSignal(i, []);
      }
    }
  }

  // ----- the proxy's end

  // Is the change of a property announced, once all values are read?
  predicate Announces<V(==)>(kind: PropertyKind, isCompleteSnapshot: bool, carried: bool, before: V, after: V) {
    match kind
    case Interface => carried
    case Model => isCompleteSnapshot
    case Ordinary => isCompleteSnapshot && before != after
    case Ready => isCompleteSnapshot && before != after
  }

  /** After a snapshot, interface and model properties are announced and, of the others, exactly
      those whose value changed: a view that shows the old values and reads the announced properties
      again shows the server's. */
  lemma SnapshotAnnounces<V>(s: Server<V>, values: seq<V>, zero: V, rest: Payload<V>)
    requires s.Valid() && |values| == |s.kinds|
    ensures var decoded := Decode(s.kinds, values, Encode(s.kinds, s.previous, s.current, true) + rest, true, zero);
            && decoded.values == s.current && decoded.rest == rest
            && (forall i :: 0 <= i < |values| ==>
                  (Announces(s.kinds[i], true, decoded.carried[i], values[i], decoded.values[i])
                   <==> s.kinds[i].Interface? || s.kinds[i].Model? || values[i] != s.current[i]))
            && (forall i :: 0 <= i < |values| ==>
                  s.current[i] == if Announces(s.kinds[i], true, decoded.carried[i], values[i], decoded.values[i])
                                  then decoded.values[i] else values[i])
  {
    DecodeEncode(s.kinds, values, s.previous, s.current, true, zero, rest);
  }

  /** Ahead of a signal only interface properties are announced, exactly those that differ from the
      value last sent: the others are announced by their own signals. */
  lemma DeltaAnnounces<V>(s: Server<V>, values: seq<V>, zero: V, rest: Payload<V>)
    requires s.Valid() && |values| == |s.kinds|
    ensures var decoded := Decode(s.kinds, values, Encode(s.kinds, s.previous, s.current, false) + rest, false, zero);
            forall i :: 0 <= i < |values| ==>
              (Announces(s.kinds[i], false, decoded.carried[i], values[i], decoded.values[i])
               <==> s.kinds[i].Interface? && s.previous[i] != s.current[i])
  {
    DecodeEncode(s.kinds, values, s.previous, s.current, false, zero, rest);
  }

  class ProxyAdapter<V(==)> {
    const kinds: seq<PropertyKind>
    const zero: V
    var values: seq<V>
    var announced: seq<nat>          // the properties whose change signal was emitted, in order
    var signals: seq<(nat, seq<V>)>  // the signals emitted, with their arguments

    constructor (kinds: seq<PropertyKind>, initial: seq<V>, zero: V)
      requires |initial| == |kinds|
      ensures values == initial && this.kinds == kinds && this.zero == zero && announced == [] && signals == []
    {
      this.kinds, this.zero, values, announced, signals := kinds, zero, initial, [], [];
    }

    // deserializeOptionalValue() for property i, or the size of a model property
    method DeserializeOptionalValue(i: nat, payload: Payload<V>, isCompleteSnapshot: bool)
      returns (carried: bool, rest: Payload<V>)
      requires i < |values| == |kinds|
      modifies this`values
      ensures var item := DecodeOptional(kinds[i], old(values)[i], payload, isCompleteSnapshot, zero);
              values == old(values)[i := item.value] && carried == item.carried && rest == item.rest
    {
      carried, rest := true, payload;
      if !isCompleteSnapshot {
        if !kinds[i].HasPrevious() {
          return false, payload;
        }
        var flag := NextFlag(rest);
        carried, rest := flag.0, flag.1;
      }
      if carried {
        var next := NextValue(rest, zero);
        values, rest := values[i := next.0], next.1;
      }
    }

    // The reading part of deserializePropertyValues(), and the properties whose change it will announce
    method ReadPropertyValues(payload: Payload<V>, isCompleteSnapshot: bool)
      returns (changed: seq<nat>, rest: Payload<V>)
      requires |values| == |kinds|
      modifies this`values
      ensures |values| == |kinds|
      ensures var decoded := Decode(kinds, old(values), payload, isCompleteSnapshot, zero);
              && values == decoded.values && rest == decoded.rest
              && forall i: nat :: i < |kinds| ==>
                   (i in changed <==>
                    Announces(kinds[i], isCompleteSnapshot, decoded.carried[i], old(values)[i], values[i]))
    {
      rest, changed := payload, [];
      ghost var was, front: seq<V>, carries: seq<bool> := values, [], [];
      ghost var decoded := Decode(kinds, values, payload, isCompleteSnapshot, zero);
      DecodeEnds(kinds, was, payload, isCompleteSnapshot, zero);
      hide DecodeOptional, Decode, DecodeFrom, Announces, Joins;
      JoinsAll(decoded);
      for i := 0 to |kinds|
        invariant |values| == |was| == |kinds| && |front| == |carries| == i
        invariant forall k :: 0 <= k < i ==> values[k] == front[k]
        invariant forall k :: i <= k < |was| ==> values[k] == was[k]
        invariant Joins(decoded, front, carries, DecodeFrom(kinds, was, rest, isCompleteSnapshot, zero, i))
        invariant forall k :: k in changed ==> k < i
        invariant forall k: nat :: k < i ==>
          (k in changed <==> Announces(kinds[k], isCompleteSnapshot, carries[k], was[k], front[k]))
      {
        ghost var item := DecodeOptional(kinds[i], was[i], rest, isCompleteSnapshot, zero);
        DecodeNext(kinds, was, rest, isCompleteSnapshot, zero, i);
        JoinsNext(decoded, front, carries, item, DecodeFrom(kinds, was, item.rest, isCompleteSnapshot, zero, i + 1));
        var previousValue := values[i];
        var carried;
        carried, rest := DeserializeOptionalValue(i, rest, isCompleteSnapshot);
        if Announces(kinds[i], isCompleteSnapshot, carried, previousValue, values[i]) {
          changed := changed + [i];
        }
        front, carries := front + [item.value], carries + [item.carried];
      }
      DecodeEnds(kinds, was, rest, isCompleteSnapshot, zero);
      JoinsNothing(decoded, front, carries, rest);
      assert values == front;
    }

    // Changes are announced only after all values are read.
    method DeserializePropertyValues(payload: Payload<V>, isCompleteSnapshot: bool) returns (rest: Payload<V>)
      requires |values| == |kinds|
      modifies this`values, this`announced
      ensures |values| == |kinds| && old(announced) <= announced
      ensures var decoded := Decode(kinds, old(values), payload, isCompleteSnapshot, zero);
              && values == decoded.values && rest == decoded.rest
              && forall i: nat :: i < |kinds| ==>
                   (i in announced[|old(announced)|..] <==>
                    Announces(kinds[i], isCompleteSnapshot, decoded.carried[i], old(values)[i], values[i]))
    {
      hide Decode, Announces;
      var changed;
      changed, rest := ReadPropertyValues(payload, isCompleteSnapshot);
      announced := announced + changed;
      assert announced[|old(announced)|..] == changed;
    }

    // onSignalTriggered(): the signal is emitted once all values are read
    method OnSignalTriggered(payload: Payload<V>)
      requires |values| == |kinds|
      modifies this
      ensures var decoded := Decode(kinds, old(values), payload, false, zero);
              values == decoded.values && signals == old(signals) + [ReadSignal(decoded.rest, zero)]
    {
      var rest := DeserializePropertyValues(payload, false);
      DeserializeSignal(rest);
    }

    method DeserializeSignal(payload: Payload<V>)
      modifies this`signals
      ensures signals == old(signals) + [ReadSignal(payload, zero)]
    {
      var id := if payload != [] && payload[0].Signal? then payload[0].id else 0;
      var arguments: seq<V> := [];
      if payload != [] {
        for i := 1 to |payload|
          invariant |arguments| == i - 1 && signals == old(signals)
          invariant forall k :: 0 <= k < i - 1 ==> arguments[k] == NextValue(payload[k + 1..], zero).0
        {
          var next := NextValue(payload[i..], zero);
          arguments := arguments + [next.0];
        }
      }
      assert arguments == ReadSignal(payload, zero).1;
      signals := signals + [(id, arguments)];
    }
  }

  // What was decoded in two parts.
  ghost predicate Joins<V>(decoded: Decoded<V>, values: seq<V>, carried: seq<bool>, later: Decoded<V>) {
    decoded == Decoded(values + later.values, carried + later.carried, later.rest)
  }

  lemma JoinsAll<V>(decoded: Decoded<V>)
    ensures Joins(decoded, [], [], decoded)
  {
    assert [] + decoded.values == decoded.values && [] + decoded.carried == decoded.carried;
  }

  lemma JoinsNext<V>(decoded: Decoded<V>, values: seq<V>, carried: seq<bool>, item: Item<V>, next: Decoded<V>)
    requires Joins(decoded, values, carried,
                   Decoded([item.value] + next.values, [item.carried] + next.carried, next.rest))
    ensures Joins(decoded, values + [item.value], carried + [item.carried], next)
  {
    assert (values + [item.value]) + next.values == values + ([item.value] + next.values);
    assert (carried + [item.carried]) + next.carried == carried + ([item.carried] + next.carried);
  }

  lemma JoinsNothing<V>(decoded: Decoded<V>, values: seq<V>, carried: seq<bool>, rest: Payload<V>)
    requires Joins(decoded, values, carried, Decoded([], [], rest))
    ensures decoded == Decoded(values, carried, rest)
  {
    assert values + [] == values && carried + [] == carried;
  }
}

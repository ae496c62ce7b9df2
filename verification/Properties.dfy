/** MQTT 5 property lists: kept length, written bytes, reading. */
module Properties {
  import opened Wrappers
  import opened Sequences
  import opened Bytes

  datatype PropertyType = ByteType | TwoByteType | FourByteType | VarByteType | BinaryType | Utf8Type | PairType

  /** The union of the source; NoValue is what an unknown identifier leaves behind. */
  datatype Value =
    | NoValue
    | Byte(b: byte)
    | Short(v: int)
    | Int(v: int)
    | Data(data: bytes)
    | Pair(data: bytes, value: bytes)

  datatype Property = Property(identifier: byte, value: Value)

  /** Section 2.2.2.2 of MQTT 5.0. */
  function Types(): map<int, PropertyType> {
    map[1 := ByteType, 2 := FourByteType, 3 := Utf8Type, 8 := Utf8Type, 9 := BinaryType, 11 := VarByteType,
        17 := FourByteType, 18 := Utf8Type, 19 := TwoByteType, 21 := Utf8Type, 22 := BinaryType, 23 := ByteType,
        24 := FourByteType, 25 := ByteType, 26 := Utf8Type, 28 := Utf8Type, 31 := Utf8Type, 33 := TwoByteType,
        34 := TwoByteType, 35 := TwoByteType, 36 := ByteType, 37 := ByteType, 38 := PairType, 39 := FourByteType,
        40 := ByteType, 41 := ByteType, 42 := ByteType]
  }

  function TypeOf(identifier: int): Option<PropertyType> {
    if identifier in Types() then Some(Types()[identifier]) else None
  }

  /** The union member that belongs to the type has been set; a C short and a C int have their range. */
  predicate Typed(p: Property) {
    match TypeOf(p.identifier)
    case None => false
    case Some(t) =>
      match t
      case ByteType => p.value.Byte?
      case TwoByteType => p.value.Short? && -0x8000 <= p.value.v < 0x8000
      case FourByteType => p.value.Int? && -0x8000_0000 <= p.value.v < 0x8000_0000
      case VarByteType => p.value.Int? && -0x8000_0000 <= p.value.v < 0x8000_0000
      case BinaryType => p.value.Data?
      case Utf8Type => p.value.Data?
      case PairType => p.value.Pair?
  }

  ghost predicate AllTyped(ps: seq<Property>) {
    forall i :: 0 <= i < |ps| ==> Typed(ps[i])
  }

  // ---------------------------------------------------------------- lengths and bytes

  /** What MQTTProperties_add adds to the length: value and identifier. */
  function Size(p: Property): int
    requires Typed(p)
  {
    1 + match TypeOf(p.identifier).value
        case ByteType => 1
        case TwoByteType => 2
        case FourByteType => 4
        case VarByteType => VbiLen(p.value.v)
        case BinaryType => 2 + |p.value.data|
        case Utf8Type => 2 + |p.value.data|
        case PairType => 2 + |p.value.data| + (2 + |p.value.value|)
  }

  function TotalSize(ps: seq<Property>): int
    requires AllTyped(ps)
  {
    if ps == [] then 0 else TotalSize(ps[..|ps| - 1]) + Size(ps[|ps| - 1])
  }

  /** The parameter of MQTTPacket_encode is a size_t: a negative int becomes a huge length. */
  function AsSize(v: int): (n: nat)
    requires -0x8000_0000 <= v
  {
    if v < 0 then v + 0x1_0000_0000_0000_0000 else v
  }

  function LenString(d: bytes): bytes {
    IntBytes(|d|) + d
  }

  function ValueBytes(p: Property): bytes
    requires Typed(p)
  {
    match TypeOf(p.identifier).value
    case ByteType => [p.value.b]
    case TwoByteType => IntBytes(p.value.v)
    case FourByteType => Int4Bytes(p.value.v)
    case VarByteType => EncodeVbi(AsSize(p.value.v))
    case BinaryType => LenString(p.value.data)
    case Utf8Type => LenString(p.value.data)
    case PairType => LenString(p.value.data) + LenString(p.value.value)
  }

  function Encoded(p: Property): bytes
    requires Typed(p)
  {
    [p.identifier] + ValueBytes(p)
  }

  function EncodedAll(ps: seq<Property>): bytes
    requires AllTyped(ps)
  {
    if ps == [] then [] else Encoded(ps[0]) + EncodedAll(ps[1..])
  }

  /** A null list is written as an empty one. */
  function PropertiesLen(props: Option<seq<Property>>): int
    requires props.Some? ==> AllTyped(props.value)
  {
    if props.None? then 1 else TotalSize(props.value) + VbiLen(TotalSize(props.value))
  }

  function PropertiesBytes(props: Option<seq<Property>>): bytes
    requires props.Some? ==> AllTyped(props.value) && TotalSize(props.value) >= 0
  {
    if props.None? then EncodeVbi(0) else EncodeVbi(TotalSize(props.value)) + EncodedAll(props.value)
  }

  // ---------------------------------------------------------------- the kept length is the written length

  predicate VarInRange(p: Property)
    requires Typed(p)
  {
    TypeOf(p.identifier) == Some(VarByteType) ==> 0 <= p.value.v < 268435456
  }

  /** One property: exact unless a variable byte integer is out of range; then too short. */
  lemma SizeExact(p: Property)
    requires Typed(p)
    ensures 2 <= Size(p) <= |Encoded(p)| && (Size(p) == |Encoded(p)| <==> VarInRange(p))
  {
    hide EncodeVbi, Types;
    if TypeOf(p.identifier) == Some(VarByteType) {
      EncodedLength(AsSize(p.value.v));
    }
  }

  lemma {:induction false} TotalSplit(ps: seq<Property>)
    requires AllTyped(ps) && ps != []
    ensures AllTyped(ps[1..]) && TotalSize(ps) == Size(ps[0]) + TotalSize(ps[1..])
    decreases |ps|
  {
    if |ps| == 1 {
      assert ps[..0] == [] && ps[1..] == [];
    } else {
      var init, tail := ps[..|ps| - 1], ps[1..];
      TotalSplit(init);
      assert init[1..] == tail[..|tail| - 1];
      assert tail[|tail| - 1] == ps[|ps| - 1];
    }
  }

  lemma {:induction false} TotalExact(ps: seq<Property>)
    requires AllTyped(ps)
    ensures 0 <= TotalSize(ps) <= |EncodedAll(ps)|
    ensures TotalSize(ps) == |EncodedAll(ps)| <==> forall i :: 0 <= i < |ps| ==> VarInRange(ps[i])
    decreases |ps|
  {
    hide Typed, Size, Encoded, VarInRange;
    if ps != [] {
      TotalSplit(ps);
      SizeExact(ps[0]);
      TotalExact(ps[1..]);
      assert (forall i :: 0 <= i < |ps| ==> VarInRange(ps[i])) <==>
             VarInRange(ps[0]) && (forall i :: 0 <= i < |ps[1..]| ==> VarInRange(ps[1..][i])) by {
        assert forall i :: 1 <= i < |ps| ==> ps[i] == ps[1..][i - 1];
      }
    }
  }

  /** The written property length is the one computed beforehand exactly when all lengths fit. */
  predicate Sound(props: Option<seq<Property>>)
    requires props.Some? ==> AllTyped(props.value)
  {
    props.None? ||
    (TotalSize(props.value) < 268435456 && forall i :: 0 <= i < |props.value| ==> VarInRange(props.value[i]))
  }

  lemma PropertiesLenExact(props: Option<seq<Property>>)
    requires props.Some? ==> AllTyped(props.value)
    ensures props.Some? ==> TotalSize(props.value) >= 0
    ensures PropertiesLen(props) <= |PropertiesBytes(props)|
    ensures PropertiesLen(props) == |PropertiesBytes(props)| <==> Sound(props)
  {
    if props.Some? {
      TotalExact(props.value);
      EncodedLength(TotalSize(props.value));
      hide TotalSize, EncodedAll, VarInRange, EncodeVbi;
    }
  }

  // ---------------------------------------------------------------- the list

  class MQTTProperties {
    var items: array<Property>
    var count: nat
    var maxCount: nat
    var length: int

    ghost predicate Valid()
      reads this, items
    {
      && count <= maxCount == items.Length && AllTyped(items[..count])
      && length == TotalSize(items[..count])
    }

    ghost function Contents(): seq<Property>
      reads this, items
      requires count <= items.Length
    {
      items[..count]
    }

    constructor ()
      ensures Valid() && Contents() == [] && fresh(items)
    {
      count, maxCount, length := 0, 0, 0;
      items := new Property[0];
    }

    method Grow()
      requires Valid()
      modifies this`items, this`maxCount
      ensures Valid() && Contents() == old(Contents()) && count < maxCount && (items == old(items) || fresh(items))
    {
      if count == maxCount {
        maxCount := maxCount + 10;
        var bigger := new Property[maxCount];
        ghost var before := items[..count];
        forall i | 0 <= i < count { bigger[i] := items[i]; }
        assert bigger[..count] == before;
        items := bigger;
      }
    }

    /** MQTTProperties_add: an unknown identifier is refused, everything else is appended. */
    method Add(p: Property) returns (ok: bool)
      requires Valid() && (TypeOf(p.identifier).Some? ==> Typed(p))
      modifies this, items
      ensures Valid() && (items == old(items) || fresh(items)) && ok == TypeOf(p.identifier).Some?
      ensures Contents() == if ok then old(Contents()) + [p] else old(Contents())
    {
      ok := TypeOf(p.identifier).Some?;
      if !ok { return; }
      Grow();
      ghost var before := Contents();
      items[count] := p;
      count := count + 1;
      length := length + Size(p);
      assert Contents() == before + [p];
      assert Contents()[..|before|] == before;
    }
  }

  // ---------------------------------------------------------------- writing

  method WriteLenString(buf: array<byte>, p: nat, d: bytes) returns (q: nat)
    requires p + |LenString(d)| <= buf.Length
    modifies buf
    ensures q == p + |LenString(d)| && buf[..] == Written(old(buf[..]), p, LenString(d))
  {
    ghost var was := buf[..];
    q := WriteInt(buf, p, |d|);
    WrittenTwice(was, p, IntBytes(|d|), d);
    q := Copy(buf, q, d);
  }

  /** MQTTProperty_write without its return value: the bytes, and where the pointer ends. */
  method WriteProperty(buf: array<byte>, p: nat, prop: Property) returns (q: nat)
    requires Typed(prop) && p + |Encoded(prop)| <= buf.Length
    modifies buf
    ensures q == p + |Encoded(prop)| && buf[..] == Written(old(buf[..]), p, Encoded(prop))
  {
    hide Written, ValueBytes, Typed, Types;
    ghost var was := buf[..];
    q := WriteChar(buf, p, prop.identifier);
    WrittenTwice(was, p, [prop.identifier], ValueBytes(prop));
    q := WriteValue(buf, q, prop);
  }

  method WriteValue(buf: array<byte>, p: nat, prop: Property) returns (q: nat)
    requires Typed(prop) && p + |ValueBytes(prop)| <= buf.Length
    modifies buf
    ensures q == p + |ValueBytes(prop)| && buf[..] == Written(old(buf[..]), p, ValueBytes(prop))
  {
    ghost var was := buf[..];
    hide Types, Written, EncodeVbi, IntBytes, Int4Bytes;
    match TypeOf(prop.identifier).value
    case ByteType => q := WriteChar(buf, p, prop.value.b);
    case TwoByteType => q := WriteInt(buf, p, prop.value.v);
    case FourByteType => q := WriteInt4(buf, p, prop.value.v);
    case VarByteType =>
      var rc := Encode(buf, p, AsSize(prop.value.v));
      q := p + rc;
    case BinaryType => q := WriteLenString(buf, p, prop.value.data);
    case Utf8Type => q := WriteLenString(buf, p, prop.value.data);
    case PairType => q := WritePair(buf, p, prop.value.data, prop.value.value);
  }

  method WritePair(buf: array<byte>, p: nat, data: bytes, value: bytes) returns (q: nat)
    requires p + |LenString(data) + LenString(value)| <= buf.Length
    modifies buf
    ensures q == p + |LenString(data) + LenString(value)|
    ensures buf[..] == Written(old(buf[..]), p, LenString(data) + LenString(value))
  {
    ghost var was := buf[..];
    hide Written, LenString;
    q := WriteLenString(buf, p, data);
    WrittenTwice(was, p, LenString(data), LenString(value));
    q := WriteLenString(buf, q, value);
  }

  /** The bytes of the first n properties, as the loop accumulates them. */
  ghost function EncodedTo(ps: seq<Property>, n: nat): bytes
    requires AllTyped(ps) && n <= |ps|
  {
    if n == 0 then [] else EncodedTo(ps, n - 1) + Encoded(ps[n - 1])
  }

  lemma {:induction false} EncodedRest(ps: seq<Property>, n: nat)
    requires AllTyped(ps) && n <= |ps|
    ensures AllTyped(ps[n..]) && EncodedAll(ps) == EncodedTo(ps, n) + EncodedAll(ps[n..])
  {
    if n == 0 {
      assert ps[0..] == ps;
    } else {
      EncodedRest(ps, n - 1);
      RestStep(ps, n - 1);
      Associative(EncodedTo(ps, n - 1), Encoded(ps[n - 1]), EncodedAll(ps[n..]));
      hide Encoded, AllTyped, EncodedAll;
    }
  }

  lemma RestStep(ps: seq<Property>, n: nat)
    requires AllTyped(ps) && n < |ps|
    ensures AllTyped(ps[n..]) && AllTyped(ps[n + 1..])
    ensures EncodedAll(ps[n..]) == Encoded(ps[n]) + EncodedAll(ps[n + 1..])
  {
    hide Encoded, Typed;
    assert ps[n..][1..] == ps[n + 1..] && ps[n..][0] == ps[n];
  }

  lemma EncodedWhole(ps: seq<Property>)
    requires AllTyped(ps)
    ensures EncodedTo(ps, |ps|) == EncodedAll(ps)
  {
    EncodedRest(ps, |ps|);
    assert ps[|ps|..] == [];
  }

  lemma EncodedStep(ps: seq<Property>, n: nat)
    requires AllTyped(ps) && n < |ps|
    ensures EncodedTo(ps, n + 1) == EncodedTo(ps, n) + Encoded(ps[n]) && |EncodedTo(ps, n + 1)| <= |EncodedAll(ps)|
  {
    EncodedRest(ps, n + 1);
  }

  /** MQTTProperties_write: the list length first, then one property after the other. */
  method WriteProperties(buf: array<byte>, p: nat, props: MQTTProperties?) returns (q: nat)
    requires props != null ==> props.Valid() && TotalSize(props.Contents()) >= 0
    requires p + |PropertiesBytes(ListOf(props))| <= buf.Length
    modifies buf
    ensures q == p + |PropertiesBytes(old(ListOf(props)))|
    ensures buf[..] == Written(old(buf[..]), p, PropertiesBytes(old(ListOf(props))))
  {
    if props == null {
      var rc := Encode(buf, p, 0);
      return p + rc;
    }
    var list := props.items[..props.count];
    q := WriteList(buf, p, list, props.length);
  }

  ghost function ListOf(props: MQTTProperties?): Option<seq<Property>>
    requires props != null ==> props.count <= props.items.Length
    reads props, if props != null then {props.items} else {}
  {
    if props == null then None else Some(props.Contents())
  }

  method WriteList(buf: array<byte>, p: nat, list: seq<Property>, length: nat) returns (q: nat)
    requires AllTyped(list) && length == TotalSize(list) && p + |EncodeVbi(length)| + |EncodedAll(list)| <= buf.Length
    modifies buf
    ensures q == p + |EncodeVbi(length)| + |EncodedAll(list)|
    ensures buf[..] == Written(old(buf[..]), p, EncodeVbi(length) + EncodedAll(list))
  {
    hide Written, EncodeVbi, Typed, TotalSize, Encoded, EncodedAll;
    ghost var was := buf[..];
    var rc := Encode(buf, p, length);
    WrittenTwice(was, p, EncodeVbi(length), EncodedAll(list));
    q := WriteEach(buf, p + rc, list);
  }

  method WriteEach(buf: array<byte>, p: nat, list: seq<Property>) returns (q: nat)
    requires AllTyped(list) && p + |EncodedAll(list)| <= buf.Length
    modifies buf
    ensures q == p + |EncodedAll(list)| && buf[..] == Written(old(buf[..]), p, EncodedAll(list))
  {
    q := p;
    ghost var was := buf[..];
    assert EncodedTo(list, 0) == [] && buf[..] == Written(was, p, []);
    EncodedWhole(list);
    hide Written, Typed, Encoded, EncodedAll;
    var i := 0;
    while i < |list|
      invariant i <= |list| && q == p + |EncodedTo(list, i)| <= buf.Length
      invariant buf[..] == Written(was, p, EncodedTo(list, i))
    {
      EncodedStep(list, i);
      q := WriteNext(buf, p, was, EncodedTo(list, i), q, list[i]);
      i := i + 1;
    }
  }

  /** One property behind the bytes already written. */
  method WriteNext(buf: array<byte>, p: nat, ghost was: bytes, ghost before: bytes, q: nat, prop: Property) returns (next: nat)
    requires Typed(prop) && q == p + |before| && q + |Encoded(prop)| <= buf.Length == |was|
    requires buf[..] == Written(was, p, before)
    modifies buf
    ensures next == q + |Encoded(prop)| && buf[..] == Written(was, p, before + Encoded(prop))
  {
    hide Written, Typed, Encoded;
    WrittenTwice(was, p, before, Encoded(prop));
    next := WriteProperty(buf, q, prop);
  }

  // ---------------------------------------------------------------- reading

  /** The outcome, or memory used that was never set or lies behind the data. */
  datatype ReadOne = Got(prop: Property, next: nat, len: nat) | Undefined

  datatype ReadLen = LenRead(data: bytes, next: nat) | NotRead

  /** MQTTLenStringRead; on a failure the string is copied all the same, from an unset pointer. */
  function ReadLenString(s: bytes, p: nat, end: nat): ReadLen
    requires end <= |s|
  {
    if p + 1 >= end then NotRead
    else
      var n := ReadInt(s[p], s[p + 1]);
      if p + 2 + n <= end then LenRead(s[p + 2..p + 2 + n], p + 2 + n) else NotRead
  }

  /** MQTTProperty_read: only strings are checked against the end of the data. */
  function ReadProperty(s: bytes, p: nat, end: nat): (r: ReadOne)
    requires end <= |s|
    ensures r.Got? ==> r.len >= 1
  {
    if p >= |s| then Undefined
    else
      var id := s[p];
      match TypeOf(id)
      case None => Got(Property(id, NoValue), p + 1, 1)
      case Some(t) => ReadValue(s, p + 1, end, id, t)
  }

  function ReadValue(s: bytes, p: nat, end: nat, id: byte, t: PropertyType): (r: ReadOne)
    requires end <= |s| && p <= |s|
    ensures r.Got? ==> r.len >= 1
  {
    match t
    case ByteType => if p + 1 > |s| then Undefined else Got(Property(id, Byte(s[p])), p + 1, 2)
    case TwoByteType =>
      if p + 2 > |s| then Undefined else Got(Property(id, Short(AsShort(ReadInt(s[p], s[p + 1])))), p + 2, 3)
    case FourByteType =>
      if p + 4 > |s| then Undefined
      else Got(Property(id, Int(AsInt(ReadInt4(s[p], s[p + 1], s[p + 2], s[p + 3])))), p + 4, 5)
    case VarByteType =>
      var d := DecodeVbi(s[p..]);
      if d.Overrun? then Undefined else Got(Property(id, Int(d.value)), p + d.len, 1 + d.len)
    case BinaryType => ReadData(s, p, end, id)
    case Utf8Type => ReadData(s, p, end, id)
    case PairType =>
      var name := ReadLenString(s, p, end);
      if name.NotRead? then Undefined
      else
        var value := ReadLenString(s, name.next, end);
        if value.NotRead? then Undefined
        else Got(Property(id, Pair(name.data, value.data)), value.next, 5 + |name.data| + |value.data|)
  }

  function ReadData(s: bytes, p: nat, end: nat, id: byte): (r: ReadOne)
    requires end <= |s|
    ensures r.Got? ==> r.len >= 1
  {
    var d := ReadLenString(s, p, end);
    if d.NotRead? then Undefined else Got(Property(id, Data(d.data)), d.next, 3 + |d.data|)
  }

  datatype ReadAll = List(props: seq<Property>, next: nat, rc: int) | UndefinedList

  /** The loop over the remaining length; a property that is longer than that fails the list. */
  function ReadLoop(s: bytes, p: nat, end: nat, remaining: int): ReadAll
    requires end <= |s|
    decreases remaining
  {
    if remaining <= 0 then List([], p, if remaining == 0 then 1 else 0)
    else
      match ReadProperty(s, p, end)
      case Undefined => UndefinedList
      case Got(prop, next, len) =>
        match ReadLoop(s, next, end, remaining - len) {
          case UndefinedList => UndefinedList
          case List(rest, after, rc) => List([prop] + rest, after, rc)
        }
  }

  /** MQTTProperties_read into an empty list; a failure drops what was read. */
  function ReadProperties(s: bytes, p: nat, end: nat): ReadAll
    requires end <= |s|
  {
    if p >= end then List([], p, 0)
    else
      match DecodeVbi(s[p..])
      case Overrun => UndefinedList
      case Vbi(len, value) =>
        match ReadLoop(s, p + len, end, value) {
          case UndefinedList => UndefinedList
          case List(props, next, rc) => if rc == 1 then List(props, next, 1) else List([], next, 0)
        }
  }

  // ---------------------------------------------------------------- the round trip

  lemma AtWhole(s: bytes, p: nat, t: bytes)
    requires At(s, p, t)
    ensures s[p..p + |t|] == t && s[p..] == t + s[p + |t|..]
  {
  }

  /** Strings and variable byte integers that keep the reader in step. */
  predicate InStep(p: Property)
    requires Typed(p)
  {
    && VarInRange(p)
    && (p.value.Data? ==> |p.value.data| < 0x1_0000)
    && (p.value.Pair? ==> |p.value.data| < 0x1_0000 && |p.value.value| < 0x1_0000)
  }

  ghost predicate AllInStep(ps: seq<Property>) {
    AllTyped(ps) && forall i :: 0 <= i < |ps| ==> InStep(ps[i])
  }

  /** The value that comes back. */
  function Seen(p: Property): Property
    requires Typed(p)
  {
    match TypeOf(p.identifier).value
    case TwoByteType =>
      var b := IntBytes(p.value.v); p.(value := Short(AsShort(ReadInt(b[0], b[1]))))
    case FourByteType =>
      var b := Int4Bytes(p.value.v); p.(value := Int(AsInt(ReadInt4(b[0], b[1], b[2], b[3]))))
    case _ => p
  }

  /** A negative short or int comes back only if its low bytes are zero. */
  predicate Survives(p: Property)
    requires Typed(p)
  {
    match TypeOf(p.identifier).value
    case TwoByteType => p.value.v >= 0 || p.value.v % 256 == 0
    case FourByteType => p.value.v >= 0 || p.value.v % 16777216 == 0
    case _ => true
  }

  lemma SeenSurvives(p: Property)
    requires Typed(p)
    ensures Seen(p) == p <==> Survives(p)
  {
    hide IntBytes, Int4Bytes, Types, AsInt, AsShort, ReadInt, ReadInt4;
    match TypeOf(p.identifier).value
    case TwoByteType => ShortRoundTrip(p.value.v);
    case FourByteType => Int4RoundTrip(p.value.v);
    case _ =>
  }

  lemma LenStringRead(s: bytes, p: nat, end: nat, d: bytes)
    requires At(s, p, LenString(d)) && |d| < 0x1_0000 && p + |LenString(d)| <= end <= |s|
    ensures ReadLenString(s, p, end) == LenRead(d, p + |LenString(d)|)
  {
    AtParts(s, p, IntBytes(|d|), d);
    AtWhole(s, p + 2, d);
    IntRoundTrip(|d|);
    assert s[p] == IntBytes(|d|)[0] && s[p + 1] == IntBytes(|d|)[1];
    hide IntBytes, At;
  }

  lemma ValueRead(s: bytes, p: nat, end: nat, prop: Property)
    requires Typed(prop) && InStep(prop) && At(s, p, ValueBytes(prop)) && p + |ValueBytes(prop)| <= end <= |s|
    ensures ReadValue(s, p, end, prop.identifier, TypeOf(prop.identifier).value)
         == Got(Seen(prop), p + |ValueBytes(prop)|, 1 + |ValueBytes(prop)|)
  {
    hide Types, EncodeVbi, DecodeVbi, IntBytes, Int4Bytes, AsInt, AsShort, ReadInt, ReadInt4, ReadLenString;
    match TypeOf(prop.identifier).value
    case ByteType =>
      assert s[p] == [prop.value.b][0];
    case TwoByteType =>
      assert s[p] == IntBytes(prop.value.v)[0] && s[p + 1] == IntBytes(prop.value.v)[1];
    case FourByteType =>
      var b := Int4Bytes(prop.value.v);
      assert s[p] == b[0] && s[p + 1] == b[1] && s[p + 2] == b[2] && s[p + 3] == b[3];
    case VarByteType =>
      var e := EncodeVbi(prop.value.v);
      AtWhole(s, p, e);
      VbiRoundTrip(prop.value.v, s[p + |e|..]);
    case BinaryType => LenStringRead(s, p, end, prop.value.data);
    case Utf8Type => LenStringRead(s, p, end, prop.value.data);
    case PairType =>
      AtParts(s, p, LenString(prop.value.data), LenString(prop.value.value));
      LenStringRead(s, p, end, prop.value.data);
      LenStringRead(s, p + |LenString(prop.value.data)|, end, prop.value.value);
  }

  lemma PropertyRead(s: bytes, p: nat, end: nat, prop: Property)
    requires Typed(prop) && InStep(prop) && At(s, p, Encoded(prop)) && p + |Encoded(prop)| <= end <= |s|
    ensures ReadProperty(s, p, end) == Got(Seen(prop), p + |Encoded(prop)|, |Encoded(prop)|)
  {
    AtParts(s, p, [prop.identifier], ValueBytes(prop));
    assert s[p] == [prop.identifier][0];
    ValueRead(s, p + 1, end, prop);
    hide Types, ReadValue, ValueBytes, At, InStep, Seen;
  }

  function SeenAll(ps: seq<Property>): (r: seq<Property>)
    requires AllTyped(ps)
    ensures |r| == |ps| && forall i :: 0 <= i < |ps| ==> r[i] == Seen(ps[i])
  {
    if ps == [] then [] else [Seen(ps[0])] + SeenAll(ps[1..])
  }

  lemma LoopStep(s: bytes, p: nat, end: nat, remaining: int, prop: Property, next: nat, len: nat, rest: seq<Property>, after: nat)
    requires end <= |s| && remaining > 0 && ReadProperty(s, p, end) == Got(prop, next, len)
    requires ReadLoop(s, next, end, remaining - len) == List(rest, after, 1)
    ensures ReadLoop(s, p, end, remaining) == List([prop] + rest, after, 1)
  {
    hide ReadProperty;
  }

  lemma LoopEnd(s: bytes, p: nat, end: nat, ps: seq<Property>)
    requires end <= |s| && ps == [] && AllTyped(ps)
    ensures ReadLoop(s, p, end, TotalSize(ps)) == List(SeenAll(ps), p + |EncodedAll(ps)|, 1)
  {
  }

  /** The first property of a list and the others. */
  lemma FirstProperty(ps: seq<Property>)
    requires AllInStep(ps) && ps != []
    ensures var rest := ps[1..];
            && AllTyped(ps) && Typed(ps[0]) && InStep(ps[0]) && AllInStep(rest) && AllTyped(rest)
            && EncodedAll(ps) == Encoded(ps[0]) + EncodedAll(rest) && SeenAll(ps) == [Seen(ps[0])] + SeenAll(rest)
            && TotalSize(ps) == |Encoded(ps[0])| + TotalSize(rest) && TotalSize(rest) >= 0 && |Encoded(ps[0])| >= 1
  {
    var rest := ps[1..];
    assert InStep(ps[0]) && VarInRange(ps[0]);
    assert forall i :: 0 <= i < |rest| ==> rest[i] == ps[i + 1];
    SizeExact(ps[0]);
    TotalSplit(ps);
    hide Typed, InStep, Encoded, Seen, Size, VarInRange;
    TotalExact(rest);
  }

  lemma {:induction false} LoopRead(s: bytes, p: nat, end: nat, ps: seq<Property>)
    requires AllInStep(ps)
    requires At(s, p, EncodedAll(ps)) && p + |EncodedAll(ps)| <= end <= |s|
    ensures ReadLoop(s, p, end, TotalSize(ps)) == List(SeenAll(ps), p + |EncodedAll(ps)|, 1)
    decreases |ps|, 1
  {
    hide *;
    if ps == [] {
      LoopEnd(s, p, end, ps);
    } else {
      FirstProperty(ps);
      LoopReadMore(s, p, end, ps);
    }
  }

  lemma {:induction false} LoopReadMore(s: bytes, p: nat, end: nat, ps: seq<Property>)
    requires ps != [] && AllTyped(ps) && AllInStep(ps) && Typed(ps[0]) && InStep(ps[0]) && AllInStep(ps[1..]) && AllTyped(ps[1..])
    requires EncodedAll(ps) == Encoded(ps[0]) + EncodedAll(ps[1..]) && SeenAll(ps) == [Seen(ps[0])] + SeenAll(ps[1..])
    requires TotalSize(ps) == |Encoded(ps[0])| + TotalSize(ps[1..]) && TotalSize(ps[1..]) >= 0 && |Encoded(ps[0])| >= 1
    requires At(s, p, EncodedAll(ps)) && p + |EncodedAll(ps)| <= end <= |s|
    ensures ReadLoop(s, p, end, TotalSize(ps)) == List(SeenAll(ps), p + |EncodedAll(ps)|, 1)
    decreases |ps|, 0
  {
    hide *;
    var rest, e := ps[1..], |Encoded(ps[0])|;
    AtParts(s, p, Encoded(ps[0]), EncodedAll(rest));
    PropertyRead(s, p, end, ps[0]);
    LoopRead(s, p + e, end, rest);
    LoopStep(s, p, end, TotalSize(ps), Seen(ps[0]), p + e, e, SeenAll(rest), p + |EncodedAll(ps)|);
  }

  lemma LengthRead(s: bytes, p: nat, n: nat)
    requires At(s, p, EncodeVbi(n)) && n < 268435456
    ensures p < |s| && DecodeVbi(s[p..]) == Vbi(|EncodeVbi(n)|, n)
  {
    hide EncodeVbi, DecodeVbi;
    AtWhole(s, p, EncodeVbi(n));
    VbiRoundTrip(n, s[p + |EncodeVbi(n)|..]);
  }

  lemma ReadStep(s: bytes, p: nat, end: nat, len: nat, value: int, props: seq<Property>, next: nat)
    requires p < end <= |s| && DecodeVbi(s[p..]) == Vbi(len, value) && ReadLoop(s, p + len, end, value) == List(props, next, 1)
    ensures ReadProperties(s, p, end) == List(props, next, 1)
  {
    hide DecodeVbi, ReadLoop;
  }

  lemma StepsAreSound(ps: seq<Property>)
    requires AllInStep(ps) && TotalSize(ps) < 268435456
    ensures Sound(Some(ps))
  {
    hide Typed, TotalSize;
    forall i | 0 <= i < |ps| ensures VarInRange(ps[i]) { assert InStep(ps[i]); }
  }

  lemma ListBytes(ps: seq<Property>)
    requires AllTyped(ps) && TotalSize(ps) >= 0
    ensures PropertiesBytes(Some(ps)) == EncodeVbi(TotalSize(ps)) + EncodedAll(ps)
  {
  }

  lemma ListRead(s: bytes, p: nat, end: nat, ps: seq<Property>)
    requires AllInStep(ps) && AllTyped(ps) && 0 <= TotalSize(ps) < 268435456
    requires At(s, p, EncodeVbi(TotalSize(ps)) + EncodedAll(ps))
    requires p + |EncodeVbi(TotalSize(ps))| + |EncodedAll(ps)| <= end <= |s|
    ensures ReadProperties(s, p, end)
         == List(SeenAll(ps), p + |EncodeVbi(TotalSize(ps))| + |EncodedAll(ps)|, 1)
  {
    hide *;
    var n, e := TotalSize(ps), |EncodeVbi(TotalSize(ps))|;
    AtParts(s, p, EncodeVbi(n), EncodedAll(ps));
    LengthRead(s, p, n);
    LoopRead(s, p + e, end, ps);
    ReadStep(s, p, end, e, n, SeenAll(ps), p + e + |EncodedAll(ps)|);
  }

  /**
   Reading what was written: 1 is returned, the pointer ends where the writer's did, and the
   list is the one written with its negative numbers changed as two unsigned bytes change them.
   */
  lemma PropertiesRead(s: bytes, p: nat, end: nat, ps: seq<Property>)
    requires AllInStep(ps) && 0 <= TotalSize(ps) < 268435456
    requires At(s, p, PropertiesBytes(Some(ps))) && p + |PropertiesBytes(Some(ps))| <= end <= |s|
    ensures ReadProperties(s, p, end) == List(SeenAll(ps), p + PropertiesLen(Some(ps)), 1)
  {
    StepsAreSound(ps);
    assert AllTyped(ps);
    hide *;
    PropertiesLenExact(Some(ps));
    ListBytes(ps);
    ListRead(s, p, end, ps);
  }

  /** The same list comes back exactly when every number in it survives. */
  lemma SameListBack(ps: seq<Property>)
    requires AllTyped(ps)
    ensures SeenAll(ps) == ps <==> forall i :: 0 <= i < |ps| ==> Survives(ps[i])
  {
    hide Seen, Survives, Typed;
    forall i | 0 <= i < |ps| ensures Seen(ps[i]) == ps[i] <==> Survives(ps[i]) { SeenSurvives(ps[i]); }
    if SeenAll(ps) == ps {
      forall i | 0 <= i < |ps| ensures Survives(ps[i]) { assert SeenAll(ps)[i] == ps[i]; }
    }
  }

  /** The properties read so far, in front of the ones to come. */
  function After(done: seq<Property>, r: ReadAll): ReadAll {
    match r
    case UndefinedList => UndefinedList
    case List(rest, next, rc) => List(done + rest, next, rc)
  }

  lemma AfterNext(done: seq<Property>, prop: Property, r: ReadAll)
    ensures After(done, After([prop], r)) == After(done + [prop], r)
  {
    if r.List? { assert done + ([prop] + r.props) == done + [prop] + r.props; }
  }

  lemma AfterNothing(r: ReadAll)
    ensures After([], r) == r
  {
    if r.List? { assert [] + r.props == r.props; }
  }

  lemma LoopUnfold(s: bytes, p: nat, end: nat, remaining: int)
    requires end <= |s| && remaining > 0
    ensures var one := ReadProperty(s, p, end);
            && (one.Undefined? ==> ReadLoop(s, p, end, remaining) == UndefinedList)
            && (one.Got? ==> ReadLoop(s, p, end, remaining) == After([one.prop], ReadLoop(s, one.next, end, remaining - one.len)))
  {
    hide ReadProperty;
  }

  /** MQTTProperties_read: the array grows by ten, and is dropped when the lengths do not work out. */
  class Reader {
    var items: array<Property>
    var count: nat

    constructor ()
      ensures count == 0 && items.Length == 0 && fresh(items)
    {
      items, count := new Property[0], 0;
    }

    method Append(prop: Property)
      requires count <= items.Length
      modifies this, items
      ensures count <= items.Length && (items == old(items) || fresh(items))
      ensures items[..count] == old(items[..count]) + [prop]
    {
      if count == items.Length {
        var bigger := new Property[count + 10];
        ghost var before := items[..count];
        forall i | 0 <= i < count { bigger[i] := items[i]; }
        assert bigger[..count] == before;
        items := bigger;
      }
      items[count] := prop;
      count := count + 1;
    }

    /** `defined` is false where the source uses memory that was never set or lies behind the data. */
    method Read(s: bytes, p: nat, end: nat) returns (defined: bool, rc: int, next: nat)
      requires end <= |s| && count == 0
      modifies this, items
      ensures count <= items.Length
      ensures ReadProperties(s, p, end) == if defined then List(items[..count], next, rc) else UndefinedList
    {
      defined, rc, next := true, 0, p;
      assert items[..0] == [];
      if p >= end { return; }
      var d := DecodeVbi(s[p..]);
      if d.Overrun? { return false, 0, p; }
      defined, rc, next := ReadRemaining(s, p + d.len, end, d.value);
      if defined && rc != 1 { items, count := new Property[0], 0; }
    }

    method ReadRemaining(s: bytes, p: nat, end: nat, length: int) returns (defined: bool, rc: int, next: nat)
      requires end <= |s| && count == 0
      modifies this, items
      ensures count <= items.Length
      ensures ReadLoop(s, p, end, length) == if defined then List(items[..count], next, rc) else UndefinedList
      ensures defined ==> rc == 0 || rc == 1
    {
      hide ReadProperty, ReadLoop;
      var remaining := length;
      defined, rc, next := true, 0, p;
      ghost var goal := ReadLoop(s, p, end, length);
      AfterNothing(goal);
      assert items[..count] == [];
      while remaining > 0
        invariant count <= items.Length && (items == old(items) || fresh(items))
        invariant goal == After(items[..count], ReadLoop(s, next, end, remaining))
        decreases remaining
      {
        LoopUnfold(s, next, end, remaining);
        var one := ReadProperty(s, next, end);
        if one.Undefined? { return false, 0, next; }
        AfterNext(items[..count], one.prop, ReadLoop(s, one.next, end, remaining - one.len));
        Append(one.prop);
        next := one.next;
        remaining := remaining - one.len;
      }
      rc := if remaining == 0 then 1 else 0;
      LoopOver(s, next, end, remaining);
      assert items[..count] + [] == items[..count];
    }
  }

  lemma LoopOver(s: bytes, p: nat, end: nat, remaining: int)
    requires end <= |s| && remaining <= 0
    ensures ReadLoop(s, p, end, remaining) == List([], p, if remaining == 0 then 1 else 0)
  {
  }
}

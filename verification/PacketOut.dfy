/** CONNECT, SUBSCRIBE, UNSUBSCRIBE: computed length, bytes written. */
module PacketOut {
  import opened Wrappers
  import opened Bytes
  import opened Properties
  import P = Packets

  const CONNECT := 1
  const SUBSCRIBE := 8
  const UNSUBSCRIBE := 10
  const V31 := 3
  const V311 := 4
  const V5 := 5

  datatype Will = Will(topic: bytes, payload: bytes, qos: int, retained: bool)

  datatype Client = Client(clientID: bytes, will: Option<Will>, username: Option<bytes>, password: Option<bytes>,
                           keepAlive: int, cleanstart: bool, cleansession: bool)

  type Props = Option<seq<Property>>

  ghost predicate Usable(props: Props) {
    props.Some? ==> AllTyped(props.value) && TotalSize(props.value) >= 0
  }

  // ---------------------------------------------------------------- the length computed first

  function WillLen(w: Option<Will>): int {
    if w.Some? then |w.value.topic| + 2 + |w.value.payload| + 2 else 0
  }

  function FieldLen(f: Option<bytes>): int {
    if f.Some? then |f.value| + 2 else 0
  }

  function ConnectLen(c: Client, version: int, connect: Props, will: Props): int
    requires Usable(connect) && Usable(will)
  {
    (if version == V31 then 12 else 10) + |c.clientID| + 2 + WillLen(c.will) + FieldLen(c.username) + FieldLen(c.password)
    + (if version >= V5 then PropertiesLen(connect) + (if c.will.Some? then PropertiesLen(will) else 0) else 0)
  }

  function TopicsLen(topics: seq<bytes>): int {
    if topics == [] then 0 else |topics[0]| + TopicsLen(topics[1..])
  }

  function SubscribeLen(topics: seq<bytes>, version: int, props: Props): int
    requires Usable(props)
  {
    2 + |topics| * 3 + TopicsLen(topics) + (if version >= V5 then PropertiesLen(props) else 0)
  }

  function UnsubscribeLen(topics: seq<bytes>, version: int, props: Props): int
    requires Usable(props)
  {
    2 + |topics| * 2 + TopicsLen(topics) + (if version >= V5 then PropertiesLen(props) else 0)
  }

  // ---------------------------------------------------------------- the bytes

  function Bit(b: bool, weight: int): int {
    if b then weight else 0
  }

  function ConnectFlags(c: Client, version: int): byte
    requires c.will.Some? ==> 0 <= c.will.value.qos < 4
  {
    Bit(if version >= V5 then c.cleanstart else c.cleansession, 2)
    + (if c.will.Some? then 4 + 8 * c.will.value.qos + Bit(c.will.value.retained, 32) else 0)
    + Bit(c.password.Some?, 64) + Bit(c.username.Some?, 128)
  }

  /** Which fields follow, and the will's QoS, can be read back from the flags (section 3.1.2.3 of MQTT 3.1.1). */
  lemma ConnectFlagsRead(c: Client, version: int)
    requires c.will.Some? ==> 0 <= c.will.value.qos < 4
    ensures var f := ConnectFlags(c, version);
            && (f / 128 == 1 <==> c.username.Some?) && (f / 64 % 2 == 1 <==> c.password.Some?)
            && (f / 4 % 2 == 1 <==> c.will.Some?) && f % 2 == 0
            && (f / 2 % 2 == 1 <==> if version >= V5 then c.cleanstart else c.cleansession)
    ensures var f := ConnectFlags(c, version);
            c.will.Some? ==> f / 8 % 4 == c.will.value.qos && (f / 32 % 2 == 1 <==> c.will.value.retained)
  {
    BitsRead(c.username.Some?, c.password.Some?, if c.will.Some? then c.will.value.retained else false,
             if c.will.Some? then c.will.value.qos else 0, c.will.Some?,
             if version >= V5 then c.cleanstart else c.cleansession);
  }

  lemma BitsRead(a: bool, b: bool, c: bool, d: int, e: bool, f: bool)
    requires 0 <= d < 4
    ensures var x := Bit(f, 2) + (Bit(e, 4) + 8 * d + Bit(c, 32)) + Bit(b, 64) + Bit(a, 128);
            && (x / 128 == 1 <==> a) && (x / 64 % 2 == 1 <==> b) && (x / 32 % 2 == 1 <==> c)
            && x / 8 % 4 == d && (x / 4 % 2 == 1 <==> e) && (x / 2 % 2 == 1 <==> f) && x % 2 == 0
  {
    var high := Bit(a, 4) + Bit(b, 2) + Bit(c, 1);
    var low := 8 * d + Bit(e, 4) + Bit(f, 2);
    HighBits(32 * high + low, high, low);
    LowBits(32 * high + low, high, d, e, f);
  }

  lemma HighBits(x: int, high: int, low: int)
    requires x == 32 * high + low && 0 <= low < 32 && 0 <= high < 8
    ensures x / 128 == high / 4 && x / 64 == high / 2 && x / 32 == high
  {
  }

  lemma LowBits(x: int, high: int, d: int, e: bool, f: bool)
    requires x == 32 * high + (8 * d + Bit(e, 4) + Bit(f, 2)) && 0 <= d < 4 && 0 <= high < 8
    ensures x / 8 == 4 * high + d && x / 4 == 8 * high + 2 * d + Bit(e, 1) && x % 2 == 0
    ensures x / 2 == 2 * (8 * high + 2 * d + Bit(e, 1)) + Bit(f, 1)
  {
  }

  /** "MQIsdp" or "MQTT", and the version. */
  function ProtocolName(version: int): bytes {
    if version == V31 then LenString([0x4D, 0x51, 0x49, 0x73, 0x64, 0x70]) + [3]
    else LenString([0x4D, 0x51, 0x54, 0x54]) + [Low8(version)]
  }

  function Versioned(version: int, props: Props): bytes
    requires Usable(props)
  {
    if version >= V5 then PropertiesBytes(props) else []
  }

  function WillBytes(w: Option<Will>, version: int, props: Props): bytes
    requires Usable(props)
  {
    if w.Some? then Versioned(version, props) + LenString(w.value.topic) + LenString(w.value.payload) else []
  }

  function FieldBytes(f: Option<bytes>): bytes {
    if f.Some? then LenString(f.value) else []
  }

  function ConnectHead(c: Client, version: int, connect: Props): bytes
    requires Usable(connect) && (c.will.Some? ==> 0 <= c.will.value.qos < 4)
  {
    ProtocolName(version) + [ConnectFlags(c, version)] + IntBytes(c.keepAlive) + Versioned(version, connect)
  }

  function ConnectPayload(c: Client, version: int, will: Props): bytes
    requires Usable(will)
  {
    LenString(c.clientID) + WillBytes(c.will, version, will) + FieldBytes(c.username) + FieldBytes(c.password)
  }

  function ConnectBody(c: Client, version: int, connect: Props, will: Props): bytes
    requires Usable(connect) && Usable(will) && (c.will.Some? ==> 0 <= c.will.value.qos < 4)
  {
    ConnectHead(c, version, connect) + ConnectPayload(c, version, will)
  }

  type TwoBits = n: int | 0 <= n < 4

  /** Options of one subscription, version 5. */
  datatype SubOptions = SubOptions(noLocal: bool, retainAsPublished: bool, retainHandling: TwoBits)

  datatype Subscription = Subscription(topic: bytes, qos: TwoBits, options: Option<SubOptions>)

  /** QoS and, for version 5 with options given, their bits. */
  function SubByte(sub: Subscription, version: int): byte {
    sub.qos + if version >= V5 && sub.options.Some? then
                Bit(sub.options.value.noLocal, 4) + Bit(sub.options.value.retainAsPublished, 8)
                + 16 * sub.options.value.retainHandling
              else 0
  }

  /** The fields of the options byte of section 3.8.3.1 of MQTT 5.0 can be read back. */
  lemma SubByteRead(sub: Subscription, version: int)
    ensures var b := SubByte(sub, version);
            b % 4 == sub.qos && (version < V5 || sub.options.None? ==> b < 4)
    ensures var b := SubByte(sub, version);
            version >= V5 && sub.options.Some? ==>
              b % 4 == sub.qos && (b / 4 % 2 == 1 <==> sub.options.value.noLocal)
              && (b / 8 % 2 == 1 <==> sub.options.value.retainAsPublished) && b / 16 == sub.options.value.retainHandling
  {
  }

  function Filters(subs: seq<Subscription>, version: int): bytes {
    if subs == [] then [] else LenString(subs[0].topic) + [SubByte(subs[0], version)] + Filters(subs[1..], version)
  }

  function Topics(topics: seq<bytes>): bytes {
    if topics == [] then [] else LenString(topics[0]) + Topics(topics[1..])
  }

  function TopicsOf(subs: seq<Subscription>): (r: seq<bytes>)
    ensures |r| == |subs|
  {
    seq(|subs|, i requires 0 <= i < |subs| => subs[i].topic)
  }

  // ---------------------------------------------------------------- the two agree

  /** The computed length is the written length exactly when the property lengths are. */
  lemma ConnectLenExact(c: Client, version: int, connect: Props, will: Props)
    requires Usable(connect) && Usable(will) && (c.will.Some? ==> 0 <= c.will.value.qos < 4)
    requires version == V31 || version == V311 || version == V5
    ensures ConnectLen(c, version, connect, will) <= |ConnectBody(c, version, connect, will)|
    ensures ConnectLen(c, version, connect, will) == |ConnectBody(c, version, connect, will)| <==>
            (version >= V5 ==> Sound(connect) && (c.will.Some? ==> Sound(will)))
  {
    PropertiesLenExact(connect);
    PropertiesLenExact(will);
    HeadLen(c, version, connect);
    PayloadLen(c, version, will);
    hide PropertiesLen, PropertiesBytes, Sound, AllTyped, TotalSize, ConnectHead, ConnectPayload, WillLen, FieldLen;
  }

  lemma HeadLen(c: Client, version: int, connect: Props)
    requires Usable(connect) && (c.will.Some? ==> 0 <= c.will.value.qos < 4)
    ensures |ConnectHead(c, version, connect)| == (if version == V31 then 12 else 10) + |Versioned(version, connect)|
  {
    hide Versioned, ConnectFlags, IntBytes, Low8;
  }

  lemma PayloadLen(c: Client, version: int, will: Props)
    requires Usable(will)
    ensures |ConnectPayload(c, version, will)|
         == |c.clientID| + 2 + WillLen(c.will) + FieldLen(c.username) + FieldLen(c.password)
            + (if c.will.Some? then |Versioned(version, will)| else 0)
  {
    hide Versioned, IntBytes;
  }

  lemma {:induction false} FiltersLen(subs: seq<Subscription>, version: int)
    ensures |Filters(subs, version)| == 3 * |subs| + TopicsLen(TopicsOf(subs))
  {
    if subs != [] {
      FiltersLen(subs[1..], version);
      assert TopicsOf(subs)[1..] == TopicsOf(subs[1..]);
    }
  }

  lemma {:induction false} TopicsBytesLen(topics: seq<bytes>)
    ensures |Topics(topics)| == 2 * |topics| + TopicsLen(topics)
  {
    if topics != [] { TopicsBytesLen(topics[1..]); }
  }

  function SubscribeBody(subs: seq<Subscription>, msgid: int, version: int, props: Props): bytes
    requires Usable(props)
  {
    IntBytes(msgid) + Versioned(version, props) + Filters(subs, version)
  }

  function UnsubscribeBody(topics: seq<bytes>, msgid: int, version: int, props: Props): bytes
    requires Usable(props)
  {
    IntBytes(msgid) + Versioned(version, props) + Topics(topics)
  }

  lemma SubscribeLenExact(subs: seq<Subscription>, msgid: int, version: int, props: Props)
    requires Usable(props)
    ensures SubscribeLen(TopicsOf(subs), version, props) == |SubscribeBody(subs, msgid, version, props)| <==>
            (version >= V5 ==> Sound(props))
  {
    FiltersLen(subs, version);
    PropertiesLenExact(props);
    hide PropertiesLen, PropertiesBytes, Sound, Filters, TopicsLen, AllTyped, TotalSize;
  }

  lemma UnsubscribeLenExact(topics: seq<bytes>, msgid: int, version: int, props: Props)
    requires Usable(props)
    ensures UnsubscribeLen(topics, version, props) == |UnsubscribeBody(topics, msgid, version, props)| <==>
            (version >= V5 ==> Sound(props))
  {
    TopicsBytesLen(topics);
    PropertiesLenExact(props);
    hide PropertiesLen, PropertiesBytes, Sound, Topics, TopicsLen, AllTyped, TotalSize;
  }

  // ---------------------------------------------------------------- writing

  /** A block of the computed length and the pointer into it. */
  class Writer {
    const buf: array<byte>
    var ptr: nat

    constructor (len: nat)
      ensures buf.Length == len && ptr == 0 && fresh(buf)
    {
      buf := new byte[len];
      ptr := 0;
    }

    ghost predicate Room(n: nat)
      reads this
    {
      ptr + n <= buf.Length
    }

    /** What has been written. */
    ghost function Text(): bytes
      requires ptr <= buf.Length
      reads this, buf
    {
      buf[..ptr]
    }

    method Char(c: byte)
      requires Room(1)
      modifies this, buf
      ensures ptr <= buf.Length && Text() == old(Text()) + [c] && ptr == old(ptr) + 1
    {
      ghost var was := buf[..];
      var q := WriteChar(buf, ptr, c);
      PrefixWritten(was, ptr, [c]);
      ptr := q;
    }

    method Number(v: int)
      requires Room(2)
      modifies this, buf
      ensures ptr <= buf.Length && Text() == old(Text()) + IntBytes(v) && ptr == old(ptr) + 2
    {
      ghost var was := buf[..];
      var q := WriteInt(buf, ptr, v);
      PrefixWritten(was, ptr, IntBytes(v));
      hide IntBytes;
      ptr := q;
    }

    /** writeUTF and writeData. */
    method Counted(d: bytes)
      requires Room(|LenString(d)|)
      modifies this, buf
      ensures ptr <= buf.Length && Text() == old(Text()) + LenString(d) && ptr == old(ptr) + |LenString(d)|
    {
      hide LenString;
      ghost var was := buf[..];
      var q := WriteLenString(buf, ptr, d);
      PrefixWritten(was, ptr, LenString(d));
      ptr := q;
    }

    method Properties(props: MQTTProperties?)
      requires props != null ==> props.Valid() && TotalSize(props.Contents()) >= 0
      requires Room(|PropertiesBytes(ListOf(props))|)
      modifies this, buf
      ensures ptr <= buf.Length && Text() == old(Text()) + PropertiesBytes(old(ListOf(props)))
      ensures ptr == old(ptr) + |PropertiesBytes(old(ListOf(props)))|
    {
      hide PropertiesBytes, TotalSize;
      ghost var was, b := buf[..], PropertiesBytes(ListOf(props));
      var q := WriteProperties(buf, ptr, props);
      PrefixWritten(was, ptr, b);
      ptr := q;
    }
  }

  lemma PrefixWritten(was: bytes, p: nat, s: bytes)
    requires p + |s| <= |was|
    ensures Written(was, p, s)[..p + |s|] == was[..p] + s
  {
  }

  /** The list behind a pointer is one that has been built by adding. */
  ghost predicate Built(props: MQTTProperties?)
    reads props, if props != null then {props.items} else {}
  {
    props != null ==> props.Valid() && TotalSize(props.Contents()) >= 0
  }

  method WriteName(w: Writer, version: int)
    requires version == V31 || version == V311 || version == V5
    requires w.Room(|ProtocolName(version)|)
    modifies w, w.buf
    ensures w.ptr <= w.buf.Length && w.Text() == old(w.Text()) + ProtocolName(version)
    ensures w.ptr == old(w.ptr) + |ProtocolName(version)|
  {
    hide IntBytes;
    if version == V31 {
      w.Counted([0x4D, 0x51, 0x49, 0x73, 0x64, 0x70]);
      w.Char(3);
    } else {
      w.Counted([0x4D, 0x51, 0x54, 0x54]);
      w.Char(Low8(version));
    }
  }

  /** Protocol name, flags, keep alive, properties. */
  method WriteHead(w: Writer, c: Client, version: int, connect: MQTTProperties?)
    requires version == V31 || version == V311 || version == V5
    requires Built(connect) && (c.will.Some? ==> 0 <= c.will.value.qos < 4)
    requires w.Room(|ConnectHead(c, version, ListOf(connect))|)
    modifies w, w.buf
    ensures w.ptr <= w.buf.Length && w.Text() == old(w.Text() + ConnectHead(c, version, ListOf(connect)))
    ensures w.ptr == old(w.ptr + |ConnectHead(c, version, ListOf(connect))|)
  {
    hide ProtocolName, ConnectFlags, IntBytes, PropertiesBytes;
    WriteName(w, version);
    w.Char(ConnectFlags(c, version));
    w.Number(c.keepAlive);
    if version >= V5 { w.Properties(connect); }
  }

  lemma ThreeParts(done: bytes, a: bytes, b: bytes, c: bytes)
    ensures done + (a + b + c) == done + a + b + c
  {
  }

  method WriteWill(w: Writer, will: Option<Will>, version: int, props: MQTTProperties?)
    requires Built(props) && w.Room(|WillBytes(will, version, ListOf(props))|)
    modifies w, w.buf
    ensures w.ptr <= w.buf.Length && w.Text() == old(w.Text() + WillBytes(will, version, ListOf(props)))
    ensures w.ptr == old(w.ptr + |WillBytes(will, version, ListOf(props))|)
  {
    hide LenString, PropertiesBytes;
    if will.Some? {
      ghost var start, v := w.Text(), Versioned(version, ListOf(props));
      ThreeParts(start, v, LenString(will.value.topic), LenString(will.value.payload));
      if version >= V5 { w.Properties(props); }
      assert w.Text() == start + v;
      w.Counted(will.value.topic);
      w.Counted(will.value.payload);
    }
  }

  method WriteField(w: Writer, f: Option<bytes>)
    requires w.Room(|FieldBytes(f)|)
    modifies w, w.buf
    ensures w.ptr <= w.buf.Length && w.Text() == old(w.Text()) + FieldBytes(f) && w.ptr == old(w.ptr) + |FieldBytes(f)|
  {
    hide LenString;
    if f.Some? { w.Counted(f.value); }
  }

  method WritePayload(w: Writer, c: Client, version: int, will: MQTTProperties?)
    requires Built(will) && w.Room(|ConnectPayload(c, version, ListOf(will))|)
    modifies w, w.buf
    ensures w.ptr <= w.buf.Length && w.Text() == old(w.Text() + ConnectPayload(c, version, ListOf(will)))
    ensures w.ptr == old(w.ptr + |ConnectPayload(c, version, ListOf(will))|)
  {
    hide LenString, WillBytes, FieldBytes;
    w.Counted(c.clientID);
    WriteWill(w, c.will, version, will);
    WriteField(w, c.username);
    WriteField(w, c.password);
  }

  /** MQTTPacket_send_connect up to the send: no packet for a version that is not known. */
  method SendConnect(c: Client, version: int, connect: MQTTProperties?, will: MQTTProperties?) returns (frame: Option<bytes>)
    requires Built(connect) && Built(will) && (c.will.Some? ==> 0 <= c.will.value.qos < 4)
    requires version >= V5 ==> Sound(ListOf(connect)) && (c.will.Some? ==> Sound(ListOf(will)))
    ensures frame == if version == V31 || version == V311 || version == V5
                     then Some(P.Framed(16 * CONNECT, ConnectBody(c, version, ListOf(connect), ListOf(will))))
                     else None
  {
    if version != V31 && version != V311 && version != V5 { return None; }
    ghost var cp, wp := ListOf(connect), ListOf(will);
    ConnectLenExact(c, version, cp, wp);
    hide ConnectHead, ConnectPayload, Sound, AllTyped, ConnectLen, PropertiesLen;
    var len := ComputeConnect(c, version, connect, will);
    var body := WriteConnect(c, version, connect, will, len);
    OneBuffer(body);
    var sent := P.Sends(16 * CONNECT, [body]);
    frame := Some(sent);
  }

  method WriteConnect(c: Client, version: int, connect: MQTTProperties?, will: MQTTProperties?, len: nat) returns (body: bytes)
    requires version == V31 || version == V311 || version == V5
    requires Built(connect) && Built(will) && (c.will.Some? ==> 0 <= c.will.value.qos < 4)
    requires len == |ConnectBody(c, version, ListOf(connect), ListOf(will))|
    ensures body == ConnectBody(c, version, ListOf(connect), ListOf(will))
  {
    hide ConnectHead, ConnectPayload;
    ghost var head, payload := ConnectHead(c, version, ListOf(connect)), ConnectPayload(c, version, ListOf(will));
    var w := new Writer(len);
    assert w.Text() == [];
    WriteHead(w, c, version, connect);
    WritePayload(w, c, version, will);
    assert w.Text() == head + payload && w.ptr == w.buf.Length;
    body := w.buf[..];
  }

  lemma OneBuffer(b: bytes)
    ensures P.Concat([b]) == b
  {
    assert P.Concat([b]) == b + P.Concat([b][1..]);
  }

  /** MQTTProperties_len. */
  method LenOf(props: MQTTProperties?) returns (len: int)
    requires Built(props)
    ensures len == PropertiesLen(ListOf(props))
  {
    len := if props == null then 1 else props.length + VbiLen(props.length);
  }

  /** The length, field by field. */
  method ComputeConnect(c: Client, version: int, connect: MQTTProperties?, will: MQTTProperties?) returns (len: nat)
    requires Built(connect) && Built(will) && 0 <= ConnectLen(c, version, ListOf(connect), ListOf(will))
    ensures len == ConnectLen(c, version, ListOf(connect), ListOf(will))
  {
    hide PropertiesLen;
    var n := (if version == V31 then 12 else 10) + |c.clientID| + 2;
    if c.will.Some? { n := n + |c.will.value.topic| + 2 + |c.will.value.payload| + 2; }
    if c.username.Some? { n := n + |c.username.value| + 2; }
    if c.password.Some? { n := n + |c.password.value| + 2; }
    if version >= V5 {
      var m := LenOf(connect);
      n := n + m;
      if c.will.Some? {
        m := LenOf(will);
        n := n + m;
      }
    }
    len := n;
  }

  // ---------------------------------------------------------------- SUBSCRIBE and UNSUBSCRIBE

  lemma {:induction false} TopicsLenTo(topics: seq<bytes>, i: nat)
    requires i < |topics|
    ensures TopicsLen(topics[i..]) == |topics[i]| + TopicsLen(topics[i + 1..])
  {
    assert topics[i..][1..] == topics[i + 1..];
  }

  /** The loop over the topics that adds up their lengths. */
  method AddTopics(topics: seq<bytes>, start: int) returns (len: int)
    ensures len == start + TopicsLen(topics)
  {
    len := start;
    assert topics[0..] == topics;
    for i := 0 to |topics|
      invariant len + TopicsLen(topics[i..]) == start + TopicsLen(topics)
    {
      TopicsLenTo(topics, i);
      len := len + |topics[i]|;
    }
  }

  /** Message id and, for version 5, the properties. */
  method WriteId(w: Writer, msgid: int, version: int, props: MQTTProperties?)
    requires Built(props) && w.Room(2 + |Versioned(version, ListOf(props))|) && w.ptr == 0
    modifies w, w.buf
    ensures w.ptr <= w.buf.Length && w.Text() == IntBytes(msgid) + old(Versioned(version, ListOf(props)))
    ensures w.ptr == 2 + old(|Versioned(version, ListOf(props))|)
  {
    hide IntBytes, PropertiesBytes;
    w.Number(msgid);
    if version >= V5 { w.Properties(props); }
  }

  lemma FiltersStep(subs: seq<Subscription>, version: int, i: nat)
    requires i < |subs|
    ensures Filters(subs[i..], version) == LenString(subs[i].topic) + [SubByte(subs[i], version)] + Filters(subs[i + 1..], version)
  {
    assert subs[i..][1..] == subs[i + 1..];
  }

  method WriteFilters(w: Writer, subs: seq<Subscription>, version: int)
    requires w.Room(|Filters(subs, version)|)
    modifies w, w.buf
    ensures w.ptr <= w.buf.Length && w.Text() == old(w.Text()) + Filters(subs, version) && w.ptr == old(w.ptr) + |Filters(subs, version)|
  {
    ghost var whole := w.Text() + Filters(subs, version);
    assert subs[0..] == subs && Filters([], version) == [];
    hide Filters, LenString, SubByte;
    var i := 0;
    while i < |subs|
      invariant i <= |subs| && w.ptr + |Filters(subs[i..], version)| == old(w.ptr) + |Filters(subs, version)|
      invariant w.ptr <= w.buf.Length && w.Text() + Filters(subs[i..], version) == whole
    {
      FiltersStep(subs, version, i);
      ghost var done := w.Text();
      Pieces(done, LenString(subs[i].topic), [SubByte(subs[i], version)], Filters(subs[i + 1..], version));
      w.Counted(subs[i].topic);
      w.Char(SubByte(subs[i], version));
      i := i + 1;
    }
    assert subs[i..] == [];
  }

  lemma Pieces(a: bytes, b: bytes, c: bytes, d: bytes)
    ensures a + (b + c + d) == a + b + c + d
  {
  }

  method SendSubscribe(subs: seq<Subscription>, props: MQTTProperties?, msgid: int, dup: bool, version: int) returns (frame: bytes)
    requires Built(props) && (version >= V5 ==> Sound(ListOf(props)))
    ensures frame == P.Framed(P.Header(SUBSCRIBE, dup, 1, false), SubscribeBody(subs, msgid, version, ListOf(props)))
  {
    SubscribeLenExact(subs, msgid, version, ListOf(props));
    ghost var start, filters := IntBytes(msgid) + Versioned(version, ListOf(props)), Filters(subs, version);
    hide Filters, Versioned, IntBytes, PropertiesLen, Sound;
    var len := AddTopics(TopicsOf(subs), 2 + |subs| * 3);
    if version >= V5 {
      var m := LenOf(props);
      len := len + m;
    }
    var w := new Writer(len);
    WriteId(w, msgid, version, props);
    WriteFilters(w, subs, version);
    assert w.buf[..] == start + filters;
    OneBuffer(w.buf[..]);
    frame := P.Sends(P.Header(SUBSCRIBE, dup, 1, false), [w.buf[..]]);
  }

  lemma TopicsStep(topics: seq<bytes>, i: nat)
    requires i < |topics|
    ensures Topics(topics[i..]) == LenString(topics[i]) + Topics(topics[i + 1..])
  {
    assert topics[i..][1..] == topics[i + 1..];
  }

  method WriteTopics(w: Writer, topics: seq<bytes>)
    requires w.Room(|Topics(topics)|)
    modifies w, w.buf
    ensures w.ptr <= w.buf.Length && w.Text() == old(w.Text()) + Topics(topics) && w.ptr == old(w.ptr) + |Topics(topics)|
  {
    ghost var whole := w.Text() + Topics(topics);
    assert topics[0..] == topics && Topics([]) == [];
    hide Topics, LenString;
    var i := 0;
    while i < |topics|
      invariant i <= |topics| && w.ptr + |Topics(topics[i..])| == old(w.ptr) + |Topics(topics)|
      invariant w.ptr <= w.buf.Length && w.Text() + Topics(topics[i..]) == whole
    {
      TopicsStep(topics, i);
      Pieces(w.Text(), LenString(topics[i]), [], Topics(topics[i + 1..]));
      w.Counted(topics[i]);
      i := i + 1;
    }
    assert topics[i..] == [];
  }

  method SendUnsubscribe(topics: seq<bytes>, props: MQTTProperties?, msgid: int, dup: bool, version: int) returns (frame: bytes)
    requires Built(props) && (version >= V5 ==> Sound(ListOf(props)))
    ensures frame == P.Framed(P.Header(UNSUBSCRIBE, dup, 1, false), UnsubscribeBody(topics, msgid, version, ListOf(props)))
  {
    UnsubscribeLenExact(topics, msgid, version, ListOf(props));
    ghost var start, rest := IntBytes(msgid) + Versioned(version, ListOf(props)), Topics(topics);
    hide Topics, Versioned, IntBytes, PropertiesLen, Sound;
    var len := AddTopics(topics, 2 + |topics| * 2);
    if version >= V5 {
      var m := LenOf(props);
      len := len + m;
    }
    var w := new Writer(len);
    WriteId(w, msgid, version, props);
    WriteTopics(w, topics);
    assert w.buf[..] == start + rest;
    OneBuffer(w.buf[..]);
    frame := P.Sends(P.Header(UNSUBSCRIBE, dup, 1, false), [w.buf[..]]);
  }
}

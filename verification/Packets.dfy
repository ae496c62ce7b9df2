/** The packets of the QoS exchange below version 5, as bytes and back. */
module Packets {
  import opened Bytes

  datatype AckKind = Puback | Pubrec | Pubrel | Pubcomp

  datatype Packet =
    | Publish(dup: bool, qos: int, retain: bool, topic: bytes, msgid: int, payload: bytes)
    | Ack(kind: AckKind, dup: bool, msgid: int)

  const PUBLISH := 3

  function AckType(k: AckKind): (t: int)
    ensures 4 <= t <= 7
  {
    match k
    case Puback => 4
    case Pubrec => 5
    case Pubrel => 6
    case Pubcomp => 7
  }

  /** The bit fields of the header byte. */
  function Header(ptype: int, dup: bool, qos: int, retain: bool): byte
    requires 0 <= ptype < 16 && 0 <= qos < 4
  {
    16 * ptype + (if dup then 8 else 0) + 2 * qos + (if retain then 1 else 0)
  }

  lemma HeaderBits(ptype: int, dup: bool, qos: int, retain: bool)
    requires 0 <= ptype < 16 && 0 <= qos < 4
    ensures var h := Header(ptype, dup, qos, retain);
            && h / 16 == ptype && (h / 8 % 2 == 1 <==> dup) && h / 2 % 4 == qos && (h % 2 == 1 <==> retain)
  {
    var h, d := Header(ptype, dup, qos, retain), if dup then 1 else 0;
    assert h / 2 == 8 * ptype + 4 * d + qos && h / 8 == 2 * ptype + d && h / 16 == ptype;
  }

  function Concat(bufs: seq<bytes>): (r: bytes) {
    if bufs == [] then [] else bufs[0] + Concat(bufs[1..])
  }

  lemma {:induction false} ConcatAppend(a: seq<bytes>, b: bytes)
    ensures Concat(a + [b]) == Concat(a) + b
  {
    if a == [] {
      assert a + [b] == [b];
      assert Concat([b]) == b + Concat([b][1..]);
    } else {
      assert (a + [b])[1..] == a[1..] + [b];
      ConcatAppend(a[1..], b);
    }
  }

  /** A frame: header byte, remaining length, body. */
  function Framed(header: byte, body: bytes): bytes {
    [header] + EncodeVbi(|body|) + body
  }

  function PublishBody(p: Packet): bytes
    requires p.Publish?
  {
    IntBytes(|p.topic|) + p.topic + (if p.qos > 0 then IntBytes(p.msgid) else []) + p.payload
  }

  predicate HasQos(p: Packet) {
    p.Publish? ==> 0 <= p.qos < 4
  }

  function Serialized(p: Packet): bytes
    requires HasQos(p)
  {
    match p
    case Publish(dup, qos, retain, _, _, _) => Framed(Header(PUBLISH, dup, qos, retain), PublishBody(p))
    case Ack(kind, dup, msgid) => Framed(Header(AckType(kind), dup, if kind == Pubrel then 1 else 0, false), IntBytes(msgid))
  }

  /** MQTTPacket_sends: the lengths are added up, the fixed header written, the buffers follow. */
  method Sends(header: byte, bufs: seq<bytes>) returns (frame: bytes)
    ensures frame == Framed(header, Concat(bufs))
  {
    var total := 0;
    for i := 0 to |bufs|
      invariant total == |Concat(bufs[..i])|
    {
      assert bufs[..i + 1] == bufs[..i] + [bufs[i]];
      ConcatAppend(bufs[..i], bufs[i]);
      total := total + |bufs[i]|;
    }
    assert bufs[..|bufs|] == bufs;
    var buf := new byte[1 + |EncodeVbi(total)|];
    buf[0] := header;
    var n := Encode(buf, 1, total);
    var buf0len := 1 + n;
    frame := buf[..buf0len];
    assert frame == [header] + EncodeVbi(total);
    for i := 0 to |bufs|
      invariant frame == [header] + EncodeVbi(total) + Concat(bufs[..i])
    {
      assert bufs[..i + 1] == bufs[..i] + [bufs[i]];
      ConcatAppend(bufs[..i], bufs[i]);
      frame := frame + bufs[i];
    }
  }

  /** MQTTPacket_send_publish: topic length, topic, message id, payload. */
  method SendPublish(p: Packet) returns (frame: bytes)
    requires p.Publish? && 0 <= p.qos < 4
    ensures frame == Serialized(p)
  {
    var topiclen := new byte[2];
    var q := WriteInt(topiclen, 0, |p.topic|);
    assert topiclen[..] == IntBytes(|p.topic|);
    var bufs := [topiclen[..], p.topic];
    ConcatAppend([], IntBytes(|p.topic|));
    ConcatAppend([IntBytes(|p.topic|)], p.topic);
    assert [] + [IntBytes(|p.topic|)] == [IntBytes(|p.topic|)];
    assert [IntBytes(|p.topic|)] + [p.topic] == bufs;
    assert Concat(bufs) == IntBytes(|p.topic|) + p.topic;
    if p.qos > 0 {
      var ids := new byte[2];
      q := WriteInt(ids, 0, p.msgid);
      assert ids[..] == IntBytes(p.msgid);
      ConcatAppend(bufs, ids[..]);
      bufs := bufs + [ids[..]];
    }
    ConcatAppend(bufs, p.payload);
    bufs := bufs + [p.payload];
    assert Concat(bufs) == PublishBody(p);
    frame := Sends(Header(PUBLISH, p.dup, p.qos, p.retain), bufs);
  }

  // ---------------------------------------------------------------- reading

  /** A packet, a null result, a read past the data, or a packet type outside this model. */
  datatype Parsed = Good(packet: Packet) | Bad | PastEnd | Foreign

  /** MQTTPacket_publish below version 5; the message id is read without a bounds check. */
  function ParsePublish(header: byte, data: bytes): Parsed {
    if |data| <= 1 then Bad
    else
      var len := ReadInt(data[0], data[1]);
      if 2 + len > |data| then Bad
      else
        var qos := header / 2 % 4;
        var p := 2 + len;
        if qos > 0 && p + 2 > |data| then PastEnd
        else
          var msgid := if qos > 0 then ReadInt(data[p], data[p + 1]) else 0;
          var q := if qos > 0 then p + 2 else p;
          Good(Publish(header / 8 % 2 == 1, qos, header % 2 == 1, data[2..p], msgid, data[q..]))
  }

  /** MQTTPacket_ack below version 5. */
  function ParseAck(header: byte, data: bytes): Parsed
    requires 4 <= header / 16 <= 7
  {
    if |data| < 2 then PastEnd
    else
      var t := header / 16;
      Good(Ack(if t == 4 then Puback else if t == 5 then Pubrec else if t == 6 then Pubrel else Pubcomp,
               header / 8 % 2 == 1, ReadInt(data[0], data[1])))
  }

  /** MQTTPersistence_restorePacket: the length field has no limit here. */
  function RestorePacket(buffer: bytes): Parsed {
    if buffer == [] then PastEnd
    else
      var d := DecodeVbiFrom(buffer[1..], 0, |buffer| + 1, 1, 0);
      if d.Overrun? then PastEnd
      else if 1 + d.len + d.value != |buffer| || d.len > |buffer| - 1 then Bad
      else ParseBody(buffer[0], buffer[1 + d.len..])
  }

  /** The table of packet constructors; it has no entry for the types this side only sends. */
  function ParseBody(header: byte, data: bytes): Parsed {
    var ptype := header / 16;
    if ptype == PUBLISH then ParsePublish(header, data)
    else if 4 <= ptype <= 7 then ParseAck(header, data)
    else if ptype in {0, 1, 8, 10, 15} then Bad
    else Foreign
  }

  lemma FrameRestored(header: byte, body: bytes)
    ensures RestorePacket(Framed(header, body)) == ParseBody(header, body)
  {
    UnframedBody(header, body);
    hide DecodeVbiFrom, ParseBody, Framed, EncodeVbi;
  }

  /** A QoS 1 or 2 PUBLISH whose topic length and message id fit two bytes. */
  predicate Storable(p: Packet) {
    p.Publish? && (p.qos == 1 || p.qos == 2) && |p.topic| < 0x1_0000 && 0 <= p.msgid < 0x1_0000
  }

  lemma UnframedBody(header: byte, body: bytes)
    ensures var b := Framed(header, body);
            var n := |EncodeVbi(|body|)|;
            && b != [] && b[0] == header && |b| == 1 + n + |body| && b[1 + n..] == body
            && DecodeVbiFrom(b[1..], 0, |b| + 1, 1, 0) == Vbi(n, |body|)
  {
    var b := Framed(header, body);
    var n := |EncodeVbi(|body|)|;
    var s := b[1..];
    assert s == EncodeVbi(|body|) + body;
    assert s[0..] == s;
    DecodeEncoded(s, 0, |b| + 1, 1, 0, |body|);
  }

  lemma ParseWritten(p: Packet)
    requires Storable(p)
    ensures ParsePublish(Header(PUBLISH, p.dup, p.qos, p.retain), PublishBody(p)) == Good(p)
  {
    var data := PublishBody(p);
    var n := |p.topic|;
    HeaderBits(PUBLISH, p.dup, p.qos, p.retain);
    IntRoundTrip(n);
    IntRoundTrip(p.msgid);
    BodyParts(IntBytes(n), p.topic, IntBytes(p.msgid), p.payload);
    hide IntBytes, Header;
  }

  lemma BodyParts(a: bytes, topic: bytes, b: bytes, payload: bytes)
    requires |a| == |b| == 2
    ensures var data, n := a + topic + b + payload, |topic|;
            && data[0] == a[0] && data[1] == a[1] && data[2..2 + n] == topic
            && data[2 + n] == b[0] && data[3 + n] == b[1] && data[4 + n..] == payload
  {
    var data, n := a + topic + b + payload, |topic|;
    assert data[..2] == a && data[2..2 + n] == topic && data[2 + n..4 + n] == b && data[4 + n..] == payload;
    assert data[2 + n..4 + n][0] == data[2 + n] && data[2 + n..4 + n][1] == data[3 + n];
  }

  /** The record that was stored for a PUBLISH is read back as that PUBLISH. */
  lemma PublishRestored(p: Packet)
    requires Storable(p)
    ensures RestorePacket(Serialized(p)) == Good(p)
  {
    var h := Header(PUBLISH, p.dup, p.qos, p.retain);
    FrameRestored(h, PublishBody(p));
    HeaderBits(PUBLISH, p.dup, p.qos, p.retain);
    ParseWritten(p);
    hide RestorePacket, ParsePublish, PublishBody, Framed, Header;
    assert ParseBody(h, PublishBody(p)) == ParsePublish(h, PublishBody(p));
  }

  lemma AckRestored(p: Packet)
    requires p.Ack? && 0 <= p.msgid < 0x1_0000
    ensures RestorePacket(Serialized(p)) == Good(p)
  {
    var h := Header(AckType(p.kind), p.dup, if p.kind == Pubrel then 1 else 0, false);
    FrameRestored(h, IntBytes(p.msgid));
    HeaderBits(AckType(p.kind), p.dup, if p.kind == Pubrel then 1 else 0, false);
    IntRoundTrip(p.msgid);
    hide RestorePacket, Framed, Header, IntBytes;
    assert ParseBody(h, IntBytes(p.msgid)) == ParseAck(h, IntBytes(p.msgid));
  }
}

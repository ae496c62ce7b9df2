/** What MQTTPersistence_restore makes of a store, key by key, for a client below version 5. */
module Restore {
  import opened Wrappers
  import opened Bytes
  import opened Exchange
  import opened Keys
  import opened ClientState
  import opened SendOrder
  import P = Packets

  /**
   After some keys: on to the next one, no record under a listed key, a version 5 record, or a
   record whose restoration reads past its end or takes one packet for another.
   */
  datatype Restoring = Going(state: State) | NoRecord(state: State) | NewerVersion(state: State) | Undefined

  /** A stored message becomes an in-flight one; the list is still to take it. */
  function Revive(p: P.Packet, next: Awaited, touched: int, body: nat): Message<nat>
    requires p.Publish?
  {
    Message(p.msgid, p.qos, p.retain, next, touched, body)
  }

  function ReviveReceived(s: State, p: P.Packet, clock: int): State
    requires p.Publish?
  {
    Alloc(s, p.topic, p.payload).(inbound := s.inbound + [Revive(p, AwaitPubrel, clock, s.nextRef)])
  }

  /** The PUBREL record says whether PUBREC had been handled. */
  function NextOfSent(s: State, p: P.Packet): Awaited
    requires p.Publish? && p.msgid >= 0
  {
    if PubrelKey(p.msgid) in s.store then AwaitPubcomp else if p.qos == 2 then AwaitPubrec else Unset
  }

  function ReviveSent(s: State, p: P.Packet): State
    requires p.Publish? && p.msgid >= 0
  {
    Alloc(s, p.topic, p.payload).(outbound := InsertById(s.outbound, Revive(p, NextOfSent(s, p), 0, s.nextRef)))
  }

  function DropRecord(s: State, key: string): State {
    s.(store := s.store - {key})
  }

  /** What a well-formed packet under a key does; a record of the wrong kind is cast all the same. */
  function RestorePacketAt(s: State, key: string, p: P.Packet, clock: int): Restoring
    requires p.msgid >= 0
  {
    match BranchOf(key)
    case ForReceived => if p.Publish? then Going(ReviveReceived(s, p, clock)) else Undefined
    case ForSent => if p.Publish? then Going(ReviveSent(s, p)) else Undefined
    case ForPubrel =>
      if p.Publish? then Undefined
      else if SentKey(p.msgid) in s.store then Going(s)
      else Going(DropRecord(s, key))
    case _ => Going(s)
  }

  function RestoreKey(s: State, key: string, clock: int): Restoring {
    if BranchOf(key) == Skipped then Going(s)
    else if key !in s.store then NoRecord(s)
    else if BranchOf(key) == Version5 then NewerVersion(s)
    else
      match P.RestorePacket(s.store[key])
      case Good(p) => if p.msgid >= 0 then RestorePacketAt(s, key, p, clock) else Undefined
      case Bad => Going(DropRecord(s, key))
      case PastEnd => Undefined
      case Foreign => if BranchOf(key) == Unknown then Going(s) else Undefined
  }

  function RestoreKeys(s: State, keys: seq<string>, clock: int): Restoring
    decreases |keys|
  {
    if keys == [] then Going(s)
    else
      var r := RestoreKey(s, keys[0], clock);
      if r.Going? then RestoreKeys(r.state, keys[1..], clock) else r
  }

  /** The outbound list is cut at the widest gap, unless a version 5 record ended the restoration. */
  function RestoreAll(s: State, keys: seq<string>, clock: int): Restoring {
    match RestoreKeys(s, keys, clock)
    case Going(d) => Going(d.(outbound := Wrapped(d.outbound)))
    case NoRecord(d) => NoRecord(d.(outbound := Wrapped(d.outbound)))
    case NewerVersion(d) => NewerVersion(d)
    case Undefined => Undefined
  }

  /** A process that starts again: only the store is left. */
  function Restarted(s: State): State {
    State(0, [], [], map[], 0, [], s.store, [], s.delivered)
  }
}

/** Which servers and versions a connect tries, and in which order, while every attempt fails. */
module ConnectAttempts {

  const DEFAULT := 0
  const V31 := 3
  const V311 := 4

  /** The fields of a CONNECT command that the attempts change; a version of 0 is not chosen yet. */
  datatype Conn = Conn(uri: nat, version: int)

  /** One try: the index of the server URI and the version sent. */
  datatype Attempt = Attempt(uri: nat, version: int)

  // ---------------------------------------------------------------- the steps

  /** The version for the next attempt: 3.1.1 first, then 3.1, unless the client has one. */
  function Choose(c: Conn, clientVersion: int): Conn {
    if clientVersion != DEFAULT then c.(version := clientVersion)
    else if c.version == DEFAULT then c.(version := V311)
    else if c.version == V311 then c.(version := V31)
    else c
  }

  /** MQTTAsync_checkConn. */
  predicate More(c: Conn, count: nat, clientVersion: int) {
    c.uri + 1 < count || (c.version == V311 && clientVersion == DEFAULT)
  }

  /** Both versions have been tried on a server, or the only one: on to the next. */
  function Another(c: Conn, clientVersion: int): Conn {
    if clientVersion != DEFAULT then c.(uri := c.uri + 1)
    else if c.version == V31 then Conn(c.uri + 1, DEFAULT)
    else c
  }

  function Servers(count: nat): nat {
    if count == 0 then 1 else count
  }

  /** A command as it stands in the queue: 3.1 is never left as the version of a default client. */
  predicate Queued(c: Conn, count: nat, clientVersion: int) {
    c.uri < Servers(count) && (clientVersion == DEFAULT ==> c.version == DEFAULT || c.version == V311)
  }

  /** How many attempts are left at most. */
  function Left(c: Conn, count: nat, clientVersion: int): (n: nat)
    requires Queued(c, count, clientVersion)
  {
    if clientVersion != DEFAULT then Servers(count) - c.uri
    else 2 * (Servers(count) - c.uri) - (if c.version == V311 then 1 else 0)
  }

  lemma AnotherQueued(c: Conn, count: nat, clientVersion: int)
    requires Queued(c, count, clientVersion) && More(Choose(c, clientVersion), count, clientVersion)
    ensures var d := Another(Choose(c, clientVersion), clientVersion);
            Queued(d, count, clientVersion) && Left(d, count, clientVersion) < Left(c, count, clientVersion)
  {
  }

  /** All attempts from a queued command on. */
  function Attempts(c: Conn, count: nat, clientVersion: int): seq<Attempt>
    requires Queued(c, count, clientVersion)
    decreases Left(c, count, clientVersion)
  {
    var tried := Choose(c, clientVersion);
    [Attempt(tried.uri, tried.version)] +
    if More(tried, count, clientVersion) then
      AnotherQueued(c, count, clientVersion);
      Attempts(Another(tried, clientVersion), count, clientVersion)
    else []
  }

  lemma AttemptsStep(c: Conn, count: nat, clientVersion: int)
    requires Queued(c, count, clientVersion)
    ensures var tried := Choose(c, clientVersion);
            var next := Another(tried, clientVersion);
            if More(tried, count, clientVersion) then
              && Queued(next, count, clientVersion) && Left(next, count, clientVersion) < Left(c, count, clientVersion)
              && Attempts(c, count, clientVersion) == [Attempt(tried.uri, tried.version)] + Attempts(next, count, clientVersion)
            else Attempts(c, count, clientVersion) == [Attempt(tried.uri, tried.version)]
    ensures Left(c, count, clientVersion) >= 1
  {
    var tried := Choose(c, clientVersion);
    if More(tried, count, clientVersion) { AnotherQueued(c, count, clientVersion); }
    hide Choose, More, Another;
  }

  // ---------------------------------------------------------------- the order

  /** Every server in turn, 3.1.1 before 3.1. */
  function BothVersions(first: nat, servers: nat): (r: seq<Attempt>)
    requires first <= servers
    ensures |r| == 2 * (servers - first)
  {
    seq(2 * (servers - first), i requires 0 <= i => Attempt(first + i / 2, if i % 2 == 0 then V311 else V31))
  }

  function OneVersion(first: nat, servers: nat, version: int): seq<Attempt>
    requires first <= servers
  {
    seq(servers - first, i requires 0 <= i => Attempt(first + i, version))
  }

  lemma {:induction false} DefaultOrder(uri: nat, count: nat)
    requires uri < Servers(count)
    ensures Attempts(Conn(uri, DEFAULT), count, DEFAULT) == BothVersions(uri, Servers(count))
    decreases Servers(count) - uri
  {
    var n := Servers(count);
    var first, second := Attempt(uri, V311), Attempt(uri, V31);
    assert Attempts(Conn(uri, DEFAULT), count, DEFAULT) == [first] + Attempts(Conn(uri, V311), count, DEFAULT);
    if uri + 1 < count {
      DefaultOrder(uri + 1, count);
      assert Attempts(Conn(uri, V311), count, DEFAULT) == [second] + Attempts(Conn(uri + 1, DEFAULT), count, DEFAULT);
      var rest := BothVersions(uri + 1, n);
      hide Attempts;
      forall i | 0 <= i < 2 * (n - uri) ensures ([first] + ([second] + rest))[i] == BothVersions(uri, n)[i] {
        if i >= 2 { assert (i - 2) / 2 == i / 2 - 1 && (i - 2) % 2 == i % 2; }
      }
    } else {
      assert Attempts(Conn(uri, V311), count, DEFAULT) == [second];
      hide Attempts;
      assert BothVersions(uri, n) == [first, second];
    }
  }

  lemma {:induction false} FixedOrder(uri: nat, version: int, count: nat, clientVersion: int)
    requires uri < Servers(count) && clientVersion != DEFAULT
    ensures Attempts(Conn(uri, version), count, clientVersion) == OneVersion(uri, Servers(count), clientVersion)
    decreases Servers(count) - uri
  {
    if uri + 1 < count {
      FixedOrder(uri + 1, clientVersion, count, clientVersion);
    }
  }

  /** From a fresh connect: (0, 4), (0, 3), (1, 4), ... for the default version, else each server once. */
  lemma FreshConnectOrder(count: nat, clientVersion: int)
    ensures Attempts(Conn(0, DEFAULT), count, clientVersion)
         == if clientVersion == DEFAULT then BothVersions(0, Servers(count)) else OneVersion(0, Servers(count), clientVersion)
  {
    if clientVersion == DEFAULT { DefaultOrder(0, count); } else { FixedOrder(0, DEFAULT, count, clientVersion); }
  }

  /** The command of MQTTAsync_reconnect: for the default version the choice starts again, the server stays. */
  function Reconnect(last: Conn, clientVersion: int): Conn {
    if clientVersion == DEFAULT then last.(version := DEFAULT) else last
  }

  ghost predicate Tried(order: seq<Attempt>, uri: nat) {
    exists i :: 0 <= i < |order| && order[i].uri == uri
  }

  /** A reconnect tries the servers from the last one on: all of them exactly when that is the first. */
  lemma ReconnectOrder(last: Conn, count: nat, clientVersion: int)
    requires last.uri < Servers(count)
    ensures var order := Attempts(Reconnect(last, clientVersion), count, clientVersion);
            && order == (if clientVersion == DEFAULT then BothVersions(last.uri, Servers(count))
                         else OneVersion(last.uri, Servers(count), clientVersion))
            && (forall u: nat :: u < Servers(count) ==> (Tried(order, u) <==> last.uri <= u))
            && ((forall u: nat :: u < Servers(count) ==> Tried(order, u)) <==> last.uri == 0)
  {
    var n := Servers(count);
    if clientVersion == DEFAULT {
      DefaultOrder(last.uri, count);
      forall u: nat | u < n ensures Tried(BothVersions(last.uri, n), u) <==> last.uri <= u {
        if last.uri <= u { assert BothVersions(last.uri, n)[2 * (u - last.uri)].uri == u; }
      }
    } else {
      FixedOrder(last.uri, last.version, count, clientVersion);
      forall u: nat | u < n ensures Tried(OneVersion(last.uri, n, clientVersion), u) <==> last.uri <= u {
        if last.uri <= u { assert OneVersion(last.uri, n, clientVersion)[u - last.uri].uri == u; }
      }
    }
    hide Tried, BothVersions, OneVersion;
    assert Tried(Attempts(Reconnect(last, clientVersion), count, clientVersion), 0) <==> last.uri == 0;
  }

  // ---------------------------------------------------------------- the machine

  /** An attempt fails at once, in MQTTAsync_processCommand, or later, in nextOrClose. */
  datatype Failure = AtOnce | Later

  class Connector {
    const count: nat
    const clientVersion: int
    /** The queued command, and the copy that a pending attempt keeps in the client. */
    var currentURI: nat
    var version: int
    var connect: Conn
    var attempts: seq<Attempt>
    var reports: nat

    constructor (serverURIcount: nat, mqttVersion: int)
      ensures count == serverURIcount && clientVersion == mqttVersion
      ensures currentURI == 0 && version == DEFAULT && attempts == [] && reports == 0
    {
      count, clientVersion := serverURIcount, mqttVersion;
      currentURI, version, connect, attempts, reports := 0, DEFAULT, Conn(0, DEFAULT), [], 0;
    }

    ghost function Command(): Conn
      reads this
    {
      Conn(currentURI, version)
    }

    /** The CONNECT branch of MQTTAsync_processCommand. */
    method Try()
      modifies this`version, this`attempts
      ensures Command() == Choose(old(Command()), clientVersion)
      ensures attempts == old(attempts) + [Attempt(currentURI, version)]
    {
      if clientVersion == DEFAULT {
        if version == DEFAULT { version := V311; }
        else if version == V311 { version := V31; }
      } else {
        version := clientVersion;
      }
      attempts := attempts + [Attempt(currentURI, version)];
    }

    /** The attempt could not even start: the command itself goes back to the queue. */
    method FailAtOnce() returns (more: bool)
      modifies this`currentURI, this`version, this`reports, this`connect
      ensures more == More(old(Command()), count, clientVersion)
      ensures more ==> Command() == Another(old(Command()), clientVersion) && reports == old(reports)
      ensures !more ==> reports == old(reports) + 1
    {
      more := currentURI + 1 < count || (version == V311 && clientVersion == DEFAULT);
      if more {
        if clientVersion == DEFAULT {
          if version == V31 {
            currentURI := currentURI + 1;
            version := DEFAULT;
          }
        } else {
          currentURI := currentURI + 1;
        }
      } else {
        reports := reports + 1;
        connect := Conn(currentURI, version);
      }
    }

    /** The attempt was pending: a new command is made from the copy. */
    method FailLater() returns (more: bool)
      modifies this`currentURI, this`version, this`reports, this`connect
      ensures more == More(old(Command()), count, clientVersion)
      ensures more ==> Command() == Another(old(Command()), clientVersion) && reports == old(reports)
      ensures !more ==> reports == old(reports) + 1
    {
      connect := Conn(currentURI, version);
      more := connect.uri + 1 < count || (connect.version == V311 && clientVersion == DEFAULT);
      if more {
        var conn := connect;
        if clientVersion == DEFAULT {
          if conn.version == V31 { conn := Conn(conn.uri + 1, DEFAULT); }
        } else {
          conn := conn.(uri := conn.uri + 1);
        }
        currentURI, version := conn.uri, conn.version;
      } else {
        reports := reports + 1;
      }
    }

    /** Every attempt fails, each in either way: what is tried, and one report at the end. */
    method ConnectFailing(failures: seq<Failure>)
      requires Queued(Command(), count, clientVersion) && Left(Command(), count, clientVersion) <= |failures|
      modifies this
      ensures attempts == old(attempts) + Attempts(old(Command()), count, clientVersion)
      ensures reports == old(reports) + 1
    {
      hide Attempts, Choose, More, Another, Queued, Left;
      ghost var goal := attempts + Attempts(Command(), count, clientVersion);
      var i, more := 0, true;
      while more
        invariant reports == if more then old(reports) else old(reports) + 1
        invariant i <= |failures|
        invariant more ==> Queued(Command(), count, clientVersion) && Left(Command(), count, clientVersion) <= |failures| - i
        invariant goal == if more then attempts + Attempts(Command(), count, clientVersion) else attempts
        decreases if more then 1 + Left(Command(), count, clientVersion) else 0
      {
        ghost var done := attempts;
        AttemptsStep(Command(), count, clientVersion);
        Try();
        if failures[i] == AtOnce {
          more := FailAtOnce();
        } else {
          more := FailLater();
        }
        i := i + 1;
        assert more ==> goal == done + ([attempts[|done|]] + Attempts(Command(), count, clientVersion));
      }
    }
  }
}

/** The queue of asynchronous commands that all clients share. */
module CommandQueue {
  // Where a command is inserted, which one is chosen next, and why the commands of one client stay in order.

  import opened Wrappers
  import Exchange

  datatype Kind = Connect | Disconnect | Publish | Subscribe | Unsubscribe

  /** `internal` matters for a DISCONNECT, `qos` for a PUBLISH; `seqno` tells commands apart. */
  datatype Command = Command(client: nat, kind: Kind, internal: bool, qos: int, seqno: nat)

  /** What the choice looks at in a client. */
  datatype Info = Info(connected: bool, idle: bool, noPendingWrites: bool, inflight: nat, version: int, maxInflight: int)

  predicate IsRequest(c: Command) {
    c.kind == Publish || c.kind == Subscribe || c.kind == Unsubscribe
  }

  predicate AtHead(c: Command) {
    c.kind == Connect || (c.kind == Disconnect && c.internal)
  }

  /** A CONNECT or internal DISCONNECT right behind one of its own kind and client is dropped. */
  predicate Duplicate(q: seq<Command>, c: Command) {
    q != [] && q[0].client == c.client && q[0].kind == c.kind
  }

  function Added(q: seq<Command>, c: Command): seq<Command> {
    if AtHead(c) then if Duplicate(q, c) then q else [c] + q else q + [c]
  }

  /** May this command go out now? */
  predicate Eligible(c: Command, i: Info) {
    && (c.kind == Connect || c.kind == Disconnect || (i.connected && i.idle && i.noPendingWrites))
    && !(IsRequest(c) && i.inflight >= Exchange.MAX_MSG_ID - 1)
    && !(i.version >= 5 && ((c.kind == Publish && c.qos > 0) || c.kind == Subscribe || c.kind == Unsubscribe)
         && i.inflight >= i.maxInflight)
  }

  type Clients = nat -> Info

  /** No earlier command belongs to the same client. */
  ghost predicate FirstOfClient(q: seq<Command>, i: nat)
    requires i < |q|
  {
    forall j :: 0 <= j < i ==> q[j].client != q[i].client
  }

  /** The choice: the earliest command that is first of its client and eligible. */
  ghost predicate Chosen(q: seq<Command>, info: Clients, i: nat) {
    && i < |q| && FirstOfClient(q, i) && Eligible(q[i], info(q[i].client))
    && forall j :: 0 <= j < i && FirstOfClient(q, j) ==> !Eligible(q[j], info(q[j].client))
  }

  ghost predicate NoneEligible(q: seq<Command>, info: Clients) {
    forall j :: 0 <= j < |q| && FirstOfClient(q, j) ==> !Eligible(q[j], info(q[j].client))
  }

  lemma ChosenUnique(q: seq<Command>, info: Clients, i: nat, j: nat)
    requires Chosen(q, info, i) && Chosen(q, info, j)
    ensures i == j
  {
  }

  ghost function Take(q: seq<Command>, info: Clients): Option<nat> {
    if i: nat :| Chosen(q, info, i) then Some(i) else None
  }

  /** The commands of a client, or all but them. */
  function Others(q: seq<Command>, client: nat): seq<Command> {
    if q == [] then [] else if q[0].client == client then Others(q[1..], client) else [q[0]] + Others(q[1..], client)
  }

  /** The requests of a client, in queue order. */
  function Requests(q: seq<Command>, client: nat): seq<Command> {
    if q == [] then []
    else if q[0].client == client && IsRequest(q[0]) then [q[0]] + Requests(q[1..], client)
    else Requests(q[1..], client)
  }

  // ---------------------------------------------------------------- the code

  class Queue {
    var commands: seq<Command>

    constructor ()
      ensures commands == []
    {
      commands := [];
    }

    /** MQTTAsync_addCommand. */
    method AddCommand(c: Command)
      modifies this
      ensures commands == Added(old(commands), c)
    {
      if c.kind == Connect || (c.kind == Disconnect && c.internal) {
        if |commands| > 0 && commands[0].client == c.client && commands[0].kind == c.kind {
        } else {
          commands := [c] + commands;
        }
      } else {
        commands := commands + [c];
      }
    }

    /** The selection in MQTTAsync_processCommand: a client is ignored once a command of it is passed over. */
    method TakeCommand(info: Clients) returns (r: Option<Command>)
      modifies this
      ensures match Take(old(commands), info)
              case None => r.None? && commands == old(commands)
              case Some(i) => r == Some(old(commands)[i]) && commands == Exchange.RemoveAt(old(commands), i)
    {
      var ignored: set<nat> := {};
      var i := 0;
      while i < |commands|
        invariant i <= |commands| && commands == old(commands)
        invariant forall c :: c in ignored <==> exists j :: 0 <= j < i && commands[j].client == c
        invariant forall j :: 0 <= j < i && FirstOfClient(commands, j) ==> !Eligible(commands[j], info(commands[j].client))
      {
        var cmd := commands[i];
        if cmd.client !in ignored {
          assert FirstOfClient(commands, i);
          if Eligible(cmd, info(cmd.client)) {
            assert Chosen(commands, info, i);
            ChosenUnique(commands, info, i, Take(commands, info).value);
            commands := Exchange.RemoveAt(commands, i);
            return Some(cmd);
          }
          ignored := ignored + {cmd.client};
        }
        i := i + 1;
      }
      r := None;
    }

    /** The second loop of MQTTAsync_removeResponsesAndCommands. */
    method RemoveCommands(client: nat)
      modifies this
      ensures commands == Others(old(commands), client)
    {
      var i := 0;
      assert commands[..0] + Others(commands[0..], client) == Others(commands, client) by { assert commands[0..] == commands; }
      while i < |commands|
        invariant i <= |commands| && commands[..i] + Others(commands[i..], client) == Others(old(commands), client)
        decreases |commands| - i
      {
        OthersStep(commands, i, client);
        if commands[i].client == client {
          ghost var head, tail := commands[..i], commands[i + 1..];
          commands := Exchange.RemoveAt(commands, i);
          assert commands[..i] == head && commands[i..] == tail;
        } else {
          assert commands[..i + 1] == commands[..i] + [commands[i]];
          i := i + 1;
        }
      }
      assert commands[i..] == [] && commands[..i] == commands;
    }
  }

  lemma OthersStep(q: seq<Command>, i: nat, client: nat)
    requires i < |q|
    ensures q[i].client == client ==> q[..i] + Others(q[i..], client) == q[..i] + Others(q[i + 1..], client)
    ensures q[i].client != client ==> q[..i] + Others(q[i..], client) == q[..i] + [q[i]] + Others(q[i + 1..], client)
  {
    assert q[i..][1..] == q[i + 1..] && q[i..][0] == q[i];
  }

  // ---------------------------------------------------------------- order

  lemma {:induction false} RequestsConcat(a: seq<Command>, b: seq<Command>, client: nat)
    ensures Requests(a + b, client) == Requests(a, client) + Requests(b, client)
    decreases |a|
  {
    if a == [] {
      assert a + b == b;
    } else {
      assert (a + b)[1..] == a[1..] + b;
      RequestsConcat(a[1..], b, client);
    }
  }

  lemma RequestsOne(c: Command, client: nat)
    ensures Requests([c], client) == if c.client == client && IsRequest(c) then [c] else []
  {
    assert [c][1..] == [];
  }

  /** A request joins its client's requests at the end; nothing else changes their order. */
  lemma AddedRequests(q: seq<Command>, c: Command, client: nat)
    ensures IsRequest(c) && c.client == client ==> Requests(Added(q, c), client) == Requests(q, client) + [c]
    ensures !(IsRequest(c) && c.client == client) ==> Requests(Added(q, c), client) == Requests(q, client)
  {
    RequestsOne(c, client);
    RequestsConcat(q, [c], client);
    RequestsConcat([c], q, client);
  }

  lemma {:induction false} NoneOfClient(q: seq<Command>, client: nat)
    requires forall j :: 0 <= j < |q| ==> q[j].client != client
    ensures Requests(q, client) == []
  {
    if q != [] { NoneOfClient(q[1..], client); }
  }

  /** A command that is first of its client is the first request of the client, if it is one. */
  lemma TakenRequests(q: seq<Command>, i: nat, client: nat)
    requires i < |q| && FirstOfClient(q, i)
    ensures Requests(q, client) == Requests([q[i]], client) + Requests(Exchange.RemoveAt(q, i), client)
  {
    var a, c, b := q[..i], [q[i]], q[i + 1..];
    assert q == a + (c + b);
    RequestsConcat(a, c + b, client);
    RequestsConcat(c, b, client);
    RequestsConcat(a, b, client);
    RequestsOne(q[i], client);
    if q[i].client == client { NoneOfClient(a, client); }
  }

  lemma {:induction false} OthersRequests(q: seq<Command>, client: nat, other: nat)
    ensures Requests(Others(q, client), other) == if other == client then [] else Requests(q, other)
  {
    if q != [] {
      OthersRequests(q[1..], client, other);
      var r := Others(q[1..], client);
      if q[0].client != client { assert ([q[0]] + r)[1..] == r; }
    }
  }

  // ---------------------------------------------------------------- runs

  datatype Event = Add(c: Command) | Process(info: Clients) | RemoveAll(client: nat)

  /** The queue, and for the record what was added and what has left it, in order. */
  datatype State = State(queue: seq<Command>, added: seq<Command>, left: seq<Command>)

  function OfClient(q: seq<Command>, client: nat): seq<Command> {
    if q == [] then [] else (if q[0].client == client then [q[0]] else []) + OfClient(q[1..], client)
  }

  ghost function Next(s: State, e: Event): State {
    match e
    case Add(c) => s.(queue := Added(s.queue, c), added := s.added + [c])
    case Process(info) =>
      var t := Take(s.queue, info);
      if t.None? then s else s.(queue := Exchange.RemoveAt(s.queue, t.value), left := s.left + [s.queue[t.value]])
    case RemoveAll(client) => s.(queue := Others(s.queue, client), left := s.left + OfClient(s.queue, client))
  }

  ghost function Run(s: State, es: seq<Event>): State
    decreases |es|
  {
    if es == [] then s else Run(Next(s, es[0]), es[1..])
  }

  /** What left and what is still queued is, client by client, what was added, in that order. */
  ghost predicate InOrder(s: State) {
    forall client: nat :: InOrderOf(s, client)
  }

  ghost predicate InOrderOf(s: State, client: nat) {
    Requests(s.left, client) + Requests(s.queue, client) == Requests(s.added, client)
  }

  lemma {:induction false} OfClientRequests(q: seq<Command>, client: nat, other: nat)
    ensures Requests(OfClient(q, client), other) == if other == client then Requests(q, other) else []
  {
    if q != [] {
      OfClientRequests(q[1..], client, other);
      var r := OfClient(q[1..], client);
      if q[0].client == client { assert ([q[0]] + r)[1..] == r; } else { assert [] + r == r; }
    }
  }

  lemma AddInOrder(s: State, c: Command, client: nat)
    requires InOrderOf(s, client)
    ensures InOrderOf(Next(s, Add(c)), client)
  {
    AddedRequests(s.queue, c, client);
    RequestsConcat(s.added, [c], client);
    RequestsOne(c, client);
    hide Requests, Added;
  }

  lemma ProcessInOrder(s: State, info: Clients, client: nat)
    requires InOrderOf(s, client)
    ensures InOrderOf(Next(s, Process(info)), client)
  {
    var t := Take(s.queue, info);
    if t.Some? {
      TakenRequests(s.queue, t.value, client);
      RequestsConcat(s.left, [s.queue[t.value]], client);
      hide Requests;
    }
  }

  lemma RemoveInOrder(s: State, gone: nat, client: nat)
    requires InOrderOf(s, client)
    ensures InOrderOf(Next(s, RemoveAll(gone)), client)
  {
    OthersRequests(s.queue, gone, client);
    OfClientRequests(s.queue, gone, client);
    RequestsConcat(s.left, OfClient(s.queue, gone), client);
    hide Requests, Others, OfClient;
  }

  lemma NextInOrder(s: State, e: Event)
    requires InOrder(s)
    ensures InOrder(Next(s, e))
  {
    forall client: nat ensures InOrderOf(Next(s, e), client) {
      hide InOrderOf, Next;
      match e
      case Add(c) => AddInOrder(s, c, client);
      case Process(info) => ProcessInOrder(s, info, client);
      case RemoveAll(gone) => RemoveInOrder(s, gone, client);
    }
  }

  /** The requests of one client leave the queue in the order in which they were added, in every run. */
  lemma {:induction false} RunInOrder(s: State, es: seq<Event>)
    requires InOrder(s)
    ensures InOrder(Run(s, es))
    decreases |es|
  {
    if es != [] {
      NextInOrder(s, es[0]);
      RunInOrder(Next(s, es[0]), es[1..]);
    }
  }

  lemma RequestsFifo(es: seq<Event>, client: nat)
    ensures var s := Run(State([], [], []), es);
            Requests(s.left, client) <= Requests(s.added, client)
  {
    var s := Run(State([], [], []), es);
    RunInOrder(State([], [], []), es);
    assert InOrderOf(s, client);
  }

  // ---------------------------------------------------------------- the choice

  lemma {:induction false} FirstExists(q: seq<Command>, i: nat)
    requires i < |q|
    ensures exists j: nat :: j <= i && q[j].client == q[i].client && FirstOfClient(q, j)
  {
    if !FirstOfClient(q, i) {
      var k: nat :| k < i && q[k].client == q[i].client;
      FirstExists(q, k);
    } else {
      assert i <= i;
    }
  }

  /** Nothing is chosen exactly when no client's first command is eligible. */
  lemma {:induction false} NothingChosen(q: seq<Command>, info: Clients)
    ensures (forall i: nat :: !Chosen(q, info, i)) <==> NoneEligible(q, info)
  {
    if !NoneEligible(q, info) {
      var j: nat :| j < |q| && FirstOfClient(q, j) && Eligible(q[j], info(q[j].client));
      EarliestChosen(q, info, j);
    }
  }

  lemma {:induction false} EarliestChosen(q: seq<Command>, info: Clients, j: nat)
    requires j < |q| && FirstOfClient(q, j) && Eligible(q[j], info(q[j].client))
    ensures exists i: nat :: Chosen(q, info, i)
    decreases j
  {
    if k: nat :| k < j && FirstOfClient(q, k) && Eligible(q[k], info(q[k].client)) {
      EarliestChosen(q, info, k);
    } else {
      assert Chosen(q, info, j);
    }
  }

  /** A command that is first of its client and eligible is chosen, unless an earlier one is. */
  lemma SomethingGoes(q: seq<Command>, info: Clients, i: nat)
    requires i < |q| && FirstOfClient(q, i) && Eligible(q[i], info(q[i].client))
    ensures Take(q, info).Some? && Take(q, info).value <= i
  {
    EarliestChosen(q, info, i);
    var t := Take(q, info).value;
    assert Chosen(q, info, t);
  }
}

/** The asynchronous client's own search for a message id, MQTTAsync_assignMsgId. */
module AsyncIds {
  // It looks at the tokens of queued commands and of commands that wait for a response, not at the in-flight
  // list.

  import opened Exchange

  /** The id the search finds: the first one after `start` that is no token, `start` excluded. */
  ghost predicate FirstUntaken(tokens: set<int>, start: int, id: int)
    requires 0 <= start <= MAX_MSG_ID
  {
    && 1 <= id <= MAX_MSG_ID && id != start && id !in tokens
    && forall m :: 1 <= m < Distance(start, id) ==> Cyclic(start, m) in tokens
  }

  ghost predicate OthersTaken(tokens: set<int>, start: int) {
    forall id :: 1 <= id <= MAX_MSG_ID && id != start ==> id in tokens
  }

  class AsyncClient {
    var msgID: int
    var commandTokens: set<int>
    var responseTokens: set<int>

    constructor ()
      ensures msgID == 0 && commandTokens == {} && responseTokens == {}
    {
      msgID, commandTokens, responseTokens := 0, {}, {};
    }

    method AssignMsgId() returns (id: int)
      requires 0 <= msgID <= MAX_MSG_ID
      requires msgID != 0 || !OthersTaken(commandTokens + responseTokens, 0)
      modifies this`msgID
      ensures id == 0 <==> old(msgID) != 0 && OthersTaken(commandTokens + responseTokens, old(msgID))
      ensures id != 0 ==> FirstUntaken(commandTokens + responseTokens, old(msgID), id)
      ensures msgID == if id != 0 then id else old(msgID)
    {
      var start := msgID;
      id := NextId(start);
      ghost var n, tokens := 1, commandTokens + responseTokens;
      CyclicSteps(start, 1);
      while id in commandTokens || id in responseTokens
        invariant 1 <= n <= MAX_MSG_ID && id == Cyclic(start, n) && id != start
        invariant msgID == start && tokens == commandTokens + responseTokens
        invariant forall m :: 1 <= m < n ==> Cyclic(start, m) in tokens
        decreases MAX_MSG_ID - n
      {
        CyclicSteps(start, n);
        if n == MAX_MSG_ID { AllTaken(tokens, start); }
        id := NextId(id);
        n := n + 1;
        CyclicSteps(start, n);
        if id == start {
          AllTaken(tokens, start);
          id := 0;
          break;
        }
      }
      if id != 0 {
        CyclicDistance(start, n);
        assert id !in tokens && FirstUntaken(tokens, start, id);
        msgID := id;
      }
    }
  }

  lemma AllTaken(tokens: set<int>, start: int)
    requires 0 <= start <= MAX_MSG_ID
    requires forall m :: 1 <= m < MAX_MSG_ID ==> Cyclic(start, m) in tokens
    requires start == 0 ==> Cyclic(start, MAX_MSG_ID) in tokens
    ensures OthersTaken(tokens, start)
  {
    forall id | 1 <= id <= MAX_MSG_ID && id != start ensures id in tokens {
      assert Cyclic(start, Distance(start, id)) == id;
    }
  }

  lemma CyclicDistance(start: int, n: int)
    requires 0 <= start <= MAX_MSG_ID && 1 <= n <= MAX_MSG_ID
    ensures Distance(start, Cyclic(start, n)) == n
  {
  }

  /**
   From whatever id the search starts, it avoids the ids in flight exactly when every one of
   them is the token of a queued or waiting command.
   */
  lemma AvoidsInFlight<B>(outbound: seq<Message<B>>, tokens: set<int>)
    ensures (forall start, id :: 0 <= start <= MAX_MSG_ID && FirstUntaken(tokens, start, id) ==> !InUse(outbound, id))
       <==> (forall id :: 1 <= id <= MAX_MSG_ID && InUse(outbound, id) ==> id in tokens)
  {
    if id :| 1 <= id <= MAX_MSG_ID && InUse(outbound, id) && id !in tokens {
      var start := if id == 1 then MAX_MSG_ID else id - 1;
      assert FirstUntaken(tokens, start, id);
    }
  }

  /** After a restart there are restored messages but no commands: the first id can be one in flight. */
  lemma CollidesAfterRestart(body: int)
    ensures var outbound := [Message(1, 1, false, Unset, 0, body)];
            FirstUntaken({}, 0, 1) && InUse(outbound, 1)
  {
    var outbound := [Message(1, 1, false, Unset, 0, body)];
    assert outbound[0].msgid == 1;
    assert Distance(0, 1) == 1;
  }
}

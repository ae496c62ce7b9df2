/** Exactly once in bytes: every run of the two clients is a run of the two-endpoint system. */
module TwoClientsSafety {
  import opened Sequences
  import opened Exchange
  import opened Mirror
  import opened Refinement
  import opened Qos2Invariant
  import opened Qos2Steps
  import opened Qos2Safety
  import opened TwoClients
  import opened TwoClientsSteps
  import opened TwoClientsCrash
  import C = ClientRun
  import Q = Qos2System

  // ---------------------------------------------------------------- runs

  /** Every step of the two clients is one of the system, or changes nothing. */
  lemma StepSim(w: World, s: Q.System, tags: seq<nat>, step: Step) returns (e: Q.System, more: seq<nat>)
    requires Sim(w, s, tags)
    ensures Sim(Next(w, step), e, more)
  {
    hide Sim, Q.Next, C.Enabled;
    more := tags;
    if !Enabled(w, step) {
      e := s;
    } else {
      match step
      case Publish(id, qos, _, _, _, _, clock, io) =>
        PublishSim(w, s, tags, step);
        e := Q.Next(s, Q.PublishStep(id, qos, io != Failed, clock));
      case Retry(t, tries) =>
        RetrySim(w, s, tags, t, tries);
        e := Q.Next(s, Q.RetryStep(t, tries));
      case AtReceiver(waiting, clock, io) =>
        more := AtReceiverSim(w, s, tags, waiting, clock, io);
        e := Q.Next(s, Q.ReceiverStep(waiting, io != Failed, clock));
      case AtSender(clock, io) =>
        AtSenderSim(w, s, tags, clock, io);
        e := Q.Next(s, Q.SenderStep(io != Failed, clock));
      case Lose(k, l) =>
        LoseSim(w, s, tags, k, l);
        e := Q.Next(s, Q.LoseStep(k, l));
      case SenderCrash(keys, clock) =>
        var q := SenderCrashSim(w, s, tags, keys, clock);
        e := Q.Next(s, q);
      case ReceiverCrash(keys, clock) =>
        var q := ReceiverCrashSim(w, s, tags, keys, clock);
        e := Q.Next(s, q);
    }
  }

  lemma {:induction false} RunSim(w: World, s: Q.System, tags: seq<nat>, steps: seq<Step>) returns (e: Q.System,
                                  more: seq<nat>)
    requires Sim(w, s, tags)
    ensures Sim(Run(w, steps), e, more)
    decreases |steps|
  {
    hide Sim, Next;
    if steps == [] {
      e, more := s, tags;
    } else {
      var e1, tags1 := StepSim(w, s, tags, steps[0]);
      e, more := RunSim(Next(w, steps[0]), e1, tags1, steps[1..]);
    }
  }

  lemma StartSender()
    ensures SenderAgrees(Start().sender, Q.Init(false).outbound, Start().numbers, Start().texts)
  {
    C.FreshSane();
    hide C.Sane;
  }

  lemma StartReceiver()
    ensures ReceiverAgrees(Start().receiver, Q.Init(false), Start().texts)
  {
    C.FreshSane();
    assert LedgerOf(Start().receiver.store).received == map[];
    hide C.Sane, LedgerOf;
  }

  lemma StartRest()
    ensures var w, s := Start(), Q.Init(false);
            && ForwardAgrees(w.forward, s.toReceiver, w.texts) && BackAgrees(w.back, s.toSender) && !s.v5 && Retained(s)
            && From(w.receiver.delivered, [], w.texts) && s.delivered == multiset([])
            && |w.texts| == |s.qosOf| && w.qosOf == s.qosOf && w.completed == s.completed
  {
  }

  lemma StartSim()
    ensures Sim(Start(), Q.Init(false), [])
  {
    hide *;
    InitInv(false);
    StartSender();
    StartReceiver();
    StartRest();
    SimIf(Start(), Q.Init(false), Q.Init(false), []);
  }

  /**
   Exactly once, in bytes: after any run of the two clients, with retries, losses, reconnects, crashes of
   either side and restarts from the stores, every text handed on comes from a publish call, no publish
   call with QoS 2 is handed on twice, one that the sender completed on PUBCOMP was handed on, and one that
   was not handed on is still held by the sender with its text.
   */
  lemma ExactlyOnceInBytes(steps: seq<Step>)
    ensures var w := Run(Start(), steps);
            exists tags: seq<nat> ::
              && From(w.receiver.delivered, tags, w.texts) && |w.texts| == |w.qosOf|
              && (forall i, j :: 0 <= i < j < |tags| && w.qosOf[tags[i]] == 2 ==> tags[i] != tags[j])
              && (forall t :: t in w.completed ==> t in tags)
              && (forall t: nat :: t < |w.texts| && w.qosOf[t] == 2 ==> t in tags || StillHeld(w, t))
  {
    StartSim();
    var s, tags := RunSim(Start(), Q.Init(false), [], steps);
    var w := Run(Start(), steps);
    hide Run, Start;
    OnceEach(w, s, tags);
  }

  lemma OnceEach(w: World, s: Q.System, tags: seq<nat>)
    requires Sim(w, s, tags)
    ensures From(w.receiver.delivered, tags, w.texts) && |w.texts| == |w.qosOf|
    ensures forall i, j :: 0 <= i < j < |tags| && w.qosOf[tags[i]] == 2 ==> tags[i] != tags[j]
    ensures forall t :: t in w.completed ==> t in tags
    ensures forall t: nat :: t < |w.texts| && w.qosOf[t] == 2 ==> t in tags || StillHeld(w, t)
  {
    assert Histories(CoreOf(s));
    forall t: nat | t < |w.texts| && w.qosOf[t] == 2
         && Carries(s.outbound, t) ensures StillHeld(w, t) { CarriedHeld(w, s, tags, t); }
    hide Inv, StillHeld, Carries, SenderAgrees, ReceiverAgrees, ForwardAgrees, BackAgrees;
    forall i, j | 0 <= i < j < |tags| && w.qosOf[tags[i]] == 2 ensures tags[i] != tags[j] {
      if tags[i] == tags[j] { CountedTwice(tags, i, j); }
    }
  }

  lemma CarriedHeld(w: World, s: Q.System, tags: seq<nat>, t: nat)
    requires Sim(w, s, tags) && t < |w.texts| && Carries(s.outbound, t)
    ensures StillHeld(w, t)
  {
    var i :| 0 <= i < |s.outbound| && s.outbound[i].body == t;
    SimFacts(w, s, tags);
    hide Sim, C.Sane;
    TwinIndex(w.sender.outbound, TextsOf(w.sender.publications), s.outbound, Numbered(w.texts), 0);
    SaneEntry(w.sender, i);
    TwinAt(w.sender.outbound, TextsOf(w.sender.publications), s.outbound, Numbered(w.texts), i);
    hide Twin, ReceiverAgrees, ForwardAgrees, BackAgrees, From, Bounded;
    assert HeldAt(w, i, t);
  }
}

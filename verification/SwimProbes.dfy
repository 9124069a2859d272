/** What probing, suspicion and reaping achieve: a probe in progress succeeds exactly when an
    acknowledgement with its number is delivered, a probe that fails ends in suspicion, and the reaper
    declares dead exactly the suspects whose time is up. */
module SwimProbes {
  import opened NodeInfos
  import opened GossipQueue
  import opened SwimNode
  import opened SwimIncarnations
  import opened SwimCluster

  // ---------------------------------------------------------------- acknowledgements

  /** The number a probe in progress waits for. */
  predicate WaitsFor(n: Node, s: nat) { (n.probe.Direct? || n.probe.Indirect?) && n.probe.seqNum == s }

  /** Numbers being waited for are below the counter, are pending, and are waited for by one task only. */
  ghost predicate Waiting(n: Node) {
    && (forall s :: s in n.pending ==> s < n.nextSeq)
    && (forall s :: s in n.relays ==> s in n.pending && !WaitsFor(n, s))
    && (n.probe.Direct? || n.probe.Indirect? ==> n.probe.seqNum in n.pending)
  }

  lemma LocalStepWaiting(n: Node, a: Action, n': Node, out: seq<Packet>, log: seq<Event>)
    requires Waiting(n) && LocalStep(n, a, n', out, log)
    ensures Waiting(n')
  {
    hide Waiting, Receives, Reap;
    match a
    case Receive(msg) => ReceiveWaiting(n, msg, n', out, log);
    case ReapExpired(expired) => ReapWaiting(n, expired);
    case EndRelay(s) => RelayWaiting(n, s, n', out);
    case FinishRelay(s) => FinishWaiting(n, s, n');
    case _ => ProbeWaiting(n, a, n', out, log);
  }

  lemma ReceiveWaiting(n: Node, msg: Message, n': Node, out: seq<Packet>, log: seq<Event>)
    requires Waiting(n) && Receives(n, msg, n', out, log)
    ensures Waiting(n')
  {
    hide Absorb, GetUpdates;
    AbsorbFrame(n, msg);
  }

  lemma ReapWaiting(n: Node, expired: seq<NodeId>)
    requires Waiting(n)
    ensures Waiting(Reap(n, expired))
  {
    hide Reap;
    ReapFrame(n, expired);
  }

  lemma RelayWaiting(n: Node, s: nat, n': Node, out: seq<Packet>)
    requires Waiting(n) && EndsRelay(n, s, n', out)
    ensures Waiting(n')
  {
  }

  lemma FinishWaiting(n: Node, s: nat, n': Node)
    requires Waiting(n) && FinishesRelay(n, s, n')
    ensures Waiting(n')
  {
  }

  lemma ProbeWaiting(n: Node, a: Action, n': Node, out: seq<Packet>, log: seq<Event>)
    requires Waiting(n) && LocalStep(n, a, n', out, log)
    requires !a.Receive? && !a.ReapExpired? && !a.EndRelay? && !a.FinishRelay?
    ensures Waiting(n')
  {
    hide GetUpdates, Receives, Reap, EndsRelay, FinishesRelay;
  }

  lemma {:induction false} RunWaiting(cs: seq<Cluster>, i: nat, id: NodeId)
    requires Run(cs) && i < |cs| && id in cs[i].nodes
    ensures Waiting(cs[i].nodes[id])
  {
    if i == 0 {
    } else {
      assert Next(cs[i - 1], cs[i - 1 + 1]);
      var who, m :| Moves(cs[i - 1], who, m, cs[i]);
      if id in cs[i - 1].nodes { RunWaiting(cs, i - 1, id); }
      if m.Act? && who == id {
        LocalStepWaiting(cs[i - 1].nodes[id], m.action, cs[i].nodes[id], m.out, m.events);
      }
    }
  }

  /** An acknowledgement for the number waited for, and nothing else, turns it acknowledged; once
      acknowledged it stays so until the probe ends. */
  lemma StepAcknowledges(n: Node, a: Action, n': Node, out: seq<Packet>, log: seq<Event>, s: nat)
    requires Waiting(n) && LocalStep(n, a, n', out, log) && WaitsFor(n, s) && WaitsFor(n', s)
    ensures Acked(n', s) <==> Acked(n, s) || (a.Receive? && a.msg.typ.Ack? && a.msg.seqNum == s)
  {
    match a
    case Receive(msg) => AbsorbFrame(n, msg);
    case ReapExpired(expired) => ReapFrame(n, expired);
    case _ =>
  }

  /** The step from `cs[k]` delivers an acknowledgement numbered `s` to `id`. */
  ghost predicate AckDelivered(cs: seq<Cluster>, k: nat, id: NodeId, s: nat)
    requires k + 1 < |cs|
  {
    exists m :: Moves(cs[k], id, m, cs[k + 1]) && IsAck(m, s)
  }

  predicate IsAck(m: Move, s: nat) { m.Act? && m.action.Receive? && m.action.msg.typ.Ack? && m.action.msg.seqNum == s }

  /** From moment i to moment j the node is in a probe numbered `s`. */
  ghost predicate WaitsThroughout(cs: seq<Cluster>, i: nat, j: nat, id: NodeId, s: nat)
    requires j < |cs|
  {
    forall x :: i <= x <= j ==> WaitsAt(cs[x], id, s)
  }

  predicate WaitsAt(c: Cluster, id: NodeId, s: nat) { id in c.nodes && WaitsFor(c.nodes[id], s) }

  /** While a node waits for number `s` from moment i to moment j, the probe comes to be acknowledged if
      an acknowledgement with that number is delivered in between. */
  lemma {:induction false} DeliveredAckCounts(cs: seq<Cluster>, i: nat, k: nat, j: nat, id: NodeId, s: nat)
    requires Run(cs) && i <= k < j < |cs|
    requires WaitsThroughout(cs, i, j, id, s)
    requires AckDelivered(cs, k, id, s)
    ensures id in cs[j].nodes && Acked(cs[j].nodes[id], s)
    decreases j
  {
    hide Run, Acked, AckDelivered;
    assert WaitsAt(cs[j - 1], id, s) && WaitsAt(cs[j], id, s);
    if k == j - 1 {
      DeliveryAcknowledges(cs, k, id, s);
    } else {
      DeliveredAckCounts(cs, i, k, j - 1, id, s);
      AckIsRemembered(cs, j - 1, id, s);
    }
  }

  lemma DeliveryAcknowledges(cs: seq<Cluster>, k: nat, id: NodeId, s: nat)
    requires Run(cs) && k + 1 < |cs| && id in cs[k].nodes && id in cs[k + 1].nodes
    requires WaitsFor(cs[k].nodes[id], s) && WaitsFor(cs[k + 1].nodes[id], s) && AckDelivered(cs, k, id, s)
    ensures Acked(cs[k + 1].nodes[id], s)
  {
    var m :| Moves(cs[k], id, m, cs[k + 1]) && IsAck(m, s);
    RunWaiting(cs, k, id);
    StepAcknowledges(cs[k].nodes[id], m.action, cs[k + 1].nodes[id], m.out, m.events, s);
  }

  lemma AckIsRemembered(cs: seq<Cluster>, k: nat, id: NodeId, s: nat)
    requires Run(cs) && k + 1 < |cs| && id in cs[k].nodes && id in cs[k + 1].nodes
    requires WaitsFor(cs[k].nodes[id], s) && WaitsFor(cs[k + 1].nodes[id], s) && Acked(cs[k].nodes[id], s)
    ensures Acked(cs[k + 1].nodes[id], s)
  {
    assert Next(cs[k], cs[k + 1]);
    var who, m :| Moves(cs[k], who, m, cs[k + 1]);
    RunWaiting(cs, k, id);
    if m.Act? && who == id {
      StepAcknowledges(cs[k].nodes[id], m.action, cs[k + 1].nodes[id], m.out, m.events, s);
    }
  }

  /** Conversely, a number not acknowledged at first is acknowledged later only by a delivered ack. */
  lemma {:induction false} AckedNeedsDelivery(cs: seq<Cluster>, i: nat, j: nat, id: NodeId, s: nat)
    requires Run(cs) && i <= j < |cs|
    requires WaitsThroughout(cs, i, j, id, s)
    requires id in cs[i].nodes && id in cs[j].nodes && !Acked(cs[i].nodes[id], s) && Acked(cs[j].nodes[id], s)
    ensures exists k :: i <= k < j && AckDelivered(cs, k, id, s)
    decreases j
  {
    hide Run, Acked, AckDelivered;
    var k := j - 1;
    assert WaitsAt(cs[k], id, s) && WaitsAt(cs[j], id, s);
    if Acked(cs[k].nodes[id], s) {
      AckedNeedsDelivery(cs, i, k, id, s);
    } else {
      AckComesFromDelivery(cs, k, id, s);
    }
  }

  lemma AckComesFromDelivery(cs: seq<Cluster>, k: nat, id: NodeId, s: nat)
    requires Run(cs) && k + 1 < |cs| && id in cs[k].nodes && id in cs[k + 1].nodes
    requires WaitsFor(cs[k].nodes[id], s) && WaitsFor(cs[k + 1].nodes[id], s)
    requires !Acked(cs[k].nodes[id], s) && Acked(cs[k + 1].nodes[id], s)
    ensures AckDelivered(cs, k, id, s)
  {
    var n, n' := cs[k].nodes[id], cs[k + 1].nodes[id];
    assert Next(cs[k], cs[k + 1]);
    var who, m :| Moves(cs[k], who, m, cs[k + 1]);
    RunWaiting(cs, k, id);
    assert n != n';
    assert who == id && m.Act?;
    StepAcknowledges(n, m.action, n', m.out, m.events, s);
    assert Moves(cs[k], id, m, cs[k + 1]) && IsAck(m, s);
  }

  // ---------------------------------------------------------------- suspicion and death

  /** A probe that failed both ways turns an alive target into a suspect at the incarnation known, and
      leaves every other member, and a target that is not alive any more, as they were. */
  lemma FailedProbeSuspects(n: Node, n': Node)
    requires MarksSuspect(n, n')
    ensures n'.probe.Idle?
    ensures var t := n.probe.target;
            n'.members == if t in n.members && n.members[t].state.Alive?
                          then n.members[t := n.members[t].(state := Suspect)] else n.members
  {
  }

  predicate Reaped(n: Node, expired: seq<NodeId>, id: NodeId) {
    id in expired && id != n.self && id in n.members && n.members[id].state.Suspect?
  }

  lemma SuspectDies(n: Node, id: NodeId)
    requires id in n.members && n.members[id].state.Suspect?
    ensures Declare(n, id, DeadUpdate).members == n.members[id := n.members[id].(state := Dead)]
  {
  }

  /** The reaper declares dead, at the incarnation known, exactly the other members that are suspected and
      whose time is up. */
  lemma {:induction false} ReapIsExact(n: Node, expired: seq<NodeId>)
    ensures Reap(n, expired).members.Keys == n.members.Keys
    ensures forall id :: id in n.members ==>
              Reap(n, expired).members[id] ==
                if Reaped(n, expired, id) then n.members[id].(state := Dead) else n.members[id]
  {
    hide Declare;
    if expired == [] {
    } else {
      var k := |expired| - 1;
      var m, last := Reap(n, expired[..k]), expired[k];
      ReapIsExact(n, expired[..k]);
      ReapFrame(n, expired[..k]);
      if Reaped(m, expired, last) { SuspectDies(m, last); }
      assert expired == expired[..k] + [last];
    }
  }
}

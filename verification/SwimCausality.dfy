/** What a successful probe means. Acknowledgements are matched by sequence number alone, yet in every
    run a probe succeeds only if the probed node answered a ping that this very probe caused. */
module SwimCausality {
  import opened NodeInfos
  import opened SwimNode
  import opened SwimIncarnations
  import opened SwimCluster

  // ---------------------------------------------------------------- evidence in the history

  /** A ping numbered `s` from `sender` to `dest` was sent by a probe or a relay. */
  ghost predicate PingEvidence(log: seq<Event>, sender: NodeId, s: nat, dest: NodeId) {
    exists p: Purpose :: !p.IndirectProbe? && Began(sender, s, p, dest) in log
  }

  /** An ack numbered `s` from `acker` to `dest`: it answered that ping itself, or relayed for `dest`
      and had its own ping answered. */
  ghost predicate AckEvidence(log: seq<Event>, acker: NodeId, dest: NodeId, s: nat) {
    || Answered(acker, dest, s) in log
    || exists l: nat, t: NodeId :: RelayEvidence(log, acker, dest, s, l, t)
  }

  ghost predicate RelayEvidence(log: seq<Event>, relay: NodeId, requester: NodeId, s: nat, l: nat, t: NodeId) {
    Began(relay, l, Relayed(requester, s), t) in log && Answered(t, relay, l) in log
  }

  ghost predicate AckedEvidence(log: seq<Event>, dest: NodeId, s: nat) {
    exists acker: NodeId :: AckEvidence(log, acker, dest, s)
  }

  ghost predicate PacketEvidence(log: seq<Event>, p: Packet) {
    match p.msg.typ
    case Ping => PingEvidence(log, p.msg.sender, p.msg.seqNum, p.dest)
    case Ack => AckEvidence(log, p.msg.sender, p.dest, p.msg.seqNum)
    case PingReq => p.msg.target.Some? && Began(p.msg.sender, p.msg.seqNum, IndirectProbe, p.msg.target.value) in log
  }

  /** Each event is preceded by what caused it. */
  ghost predicate EventCaused(log: seq<Event>, e: Event) {
    match e
    case Answered(t, sender, s) => PingEvidence(log, sender, s, t)
    case Began(_, _, p, t) => p.Relayed? ==> Began(p.requester, p.origSeq, IndirectProbe, t) in log
  }

  ghost predicate Causal(log: seq<Event>) {
    forall j :: 0 <= j < |log| ==> EventCaused(log[..j], log[j])
  }

  /** A sequence number is drawn once. */
  ghost predicate DrawnOnce(log: seq<Event>) {
    forall i, j :: 0 <= i < j < |log| && log[i].Began? && log[j].Began? && log[i].node == log[j].node ==>
      log[i].seqNum != log[j].seqNum
  }

  /** Numbers drawn so far are below the counter of their node. */
  ghost predicate DrawnBelow(log: seq<Event>, nodes: map<NodeId, Node>) {
    forall e :: e in log && e.Began? ==> e.node in nodes && e.seqNum < nodes[e.node].nextSeq
  }

  /** Everything a node is waiting for is accounted for in the history. */
  ghost predicate NodeEvidence(log: seq<Event>, n: Node) {
    && (n.probe.Direct? ==> Began(n.self, n.probe.seqNum, DirectProbe, n.probe.target) in log)
    && (n.probe.Indirect? ==> Began(n.self, n.probe.seqNum, IndirectProbe, n.probe.target) in log)
    && (forall s :: s in n.relays ==>
          Began(n.self, s, Relayed(n.relays[s].requester, n.relays[s].origSeq), n.relays[s].target) in log)
    && (forall s :: s in n.pending && n.pending[s] ==> AckedEvidence(log, n.self, s))
  }

  ghost predicate Accounted(c: Cluster) {
    && (forall id :: id in c.nodes ==> c.nodes[id].self == id)
    && Causal(c.log) && DrawnOnce(c.log) && DrawnBelow(c.log, c.nodes)
    && (forall id :: id in c.nodes ==> NodeEvidence(c.log, c.nodes[id]))
    && (forall p :: p in c.net ==> PacketEvidence(c.log, p))
  }

  // ---------------------------------------------------------------- evidence persists

  lemma AckEvidenceGrows(log: seq<Event>, more: seq<Event>, acker: NodeId, dest: NodeId, s: nat)
    requires AckEvidence(log, acker, dest, s)
    ensures AckEvidence(log + more, acker, dest, s)
  {
    if Answered(acker, dest, s) !in log {
      var l: nat, t: NodeId :| RelayEvidence(log, acker, dest, s, l, t);
      assert RelayEvidence(log + more, acker, dest, s, l, t);
    }
  }

  lemma PingEvidenceGrows(log: seq<Event>, more: seq<Event>, sender: NodeId, s: nat, dest: NodeId)
    requires PingEvidence(log, sender, s, dest)
    ensures PingEvidence(log + more, sender, s, dest)
  {
  }

  lemma PacketEvidenceGrows(log: seq<Event>, more: seq<Event>, p: Packet)
    requires PacketEvidence(log, p)
    ensures PacketEvidence(log + more, p)
  {
    match p.msg.typ
    case Ping => PingEvidenceGrows(log, more, p.msg.sender, p.msg.seqNum, p.dest);
    case Ack => AckEvidenceGrows(log, more, p.msg.sender, p.dest, p.msg.seqNum);
    case PingReq =>
  }

  lemma AckedEvidenceGrows(log: seq<Event>, more: seq<Event>, dest: NodeId, s: nat)
    requires AckedEvidence(log, dest, s)
    ensures AckedEvidence(log + more, dest, s)
  {
    var acker: NodeId :| AckEvidence(log, acker, dest, s);
    AckEvidenceGrows(log, more, acker, dest, s);
  }

  lemma NodeEvidenceGrows(log: seq<Event>, more: seq<Event>, n: Node)
    requires NodeEvidence(log, n)
    ensures NodeEvidence(log + more, n)
  {
    forall s | s in n.pending && n.pending[s] ensures AckedEvidence(log + more, n.self, s) {
      AckedEvidenceGrows(log, more, n.self, s);
    }
  }

  // ---------------------------------------------------------------- one node's step

  /** A node draws at most one number per step, the next one, and logs it. */
  ghost predicate DrawsNext(n: Node, n': Node, events: seq<Event>) {
    || (events == [] && n'.nextSeq == n.nextSeq)
    || (|events| == 1 && events[0].Answered? && n'.nextSeq == n.nextSeq)
    || (|events| == 1 && events[0].Began? && events[0].node == n.self
        && events[0].seqNum == n.nextSeq && n'.nextSeq == n.nextSeq + 1)
  }

  lemma LocalStepDraws(n: Node, a: Action, n': Node, out: seq<Packet>, events: seq<Event>)
    requires LocalStep(n, a, n', out, events)
    ensures n'.self == n.self && DrawsNext(n, n', events)
  {
    match a
    case Receive(msg) => AbsorbFrame(n, msg);
    case ReapExpired(expired) => ReapFrame(n, expired);
    case _ =>
  }

  /** What a step logs is caused by what was logged before. */
  lemma LocalStepCaused(log: seq<Event>, n: Node, a: Action, n': Node, out: seq<Packet>, events: seq<Event>)
    requires LocalStep(n, a, n', out, events)
    requires a.Receive? ==> PacketEvidence(log, Packet(n.self, a.msg))
    ensures forall i :: 0 <= i < |events| ==> EventCaused(log, events[i])
  {
  }

  lemma ReceivePacketEvidence(log: seq<Event>, n: Node, msg: Message, n': Node, out: seq<Packet>, events: seq<Event>)
    requires Receives(n, msg, n', out, events)
    requires PacketEvidence(log, Packet(n.self, msg))
    ensures forall i :: 0 <= i < |out| ==> PacketEvidence(log + events, out[i])
  {
  }

  lemma RelayAckEvidence(log: seq<Event>, n: Node, s: nat)
    requires NodeEvidence(log, n) && Causal(log) && DrawnOnce(log)
    requires s in n.relays && Acked(n, s)
    ensures AckEvidence(log, n.self, n.relays[s].requester, n.relays[s].origSeq)
  {
    var r := n.relays[s];
    var acker: NodeId :| AckEvidence(log, acker, n.self, s);
    AckMeansAnswered(log, n.self, s, Relayed(r.requester, r.origSeq), r.target, acker);
    assert RelayEvidence(log, n.self, r.requester, r.origSeq, s, r.target);
  }

  lemma StepPacketEvidence(log: seq<Event>, n: Node, a: Action, n': Node, out: seq<Packet>, events: seq<Event>)
    requires LocalStep(n, a, n', out, events)
    requires NodeEvidence(log, n) && Causal(log) && DrawnOnce(log)
    requires a.Receive? ==> PacketEvidence(log, Packet(n.self, a.msg))
    ensures forall i :: 0 <= i < |out| ==> PacketEvidence(log + events, out[i])
  {
    match a
    case Receive(msg) => ReceivePacketEvidence(log, n, msg, n', out, events);
    case BeginProbe(target) =>
      assert !DirectProbe.IndirectProbe? && Began(n.self, n.nextSeq, DirectProbe, target) in log + events;
    case EndRelay(s) =>
      assert log + events == log;
      if Acked(n, s) { RelayAckEvidence(log, n, s); }
    case _ =>
  }

  lemma ReceiveNodeEvidence(log: seq<Event>, n: Node, msg: Message, n': Node, out: seq<Packet>, events: seq<Event>)
    requires Receives(n, msg, n', out, events)
    requires NodeEvidence(log, n) && PacketEvidence(log, Packet(n.self, msg))
    ensures NodeEvidence(log + events, n')
  {
    AbsorbFrame(n, msg);
    NodeEvidenceGrows(log, events, n);
    if msg.typ.Ack? {
      assert log + events == log;
      assert AckEvidence(log, msg.sender, n.self, msg.seqNum);
    }
  }

  lemma StepNodeEvidence(log: seq<Event>, n: Node, a: Action, n': Node, out: seq<Packet>, events: seq<Event>)
    requires LocalStep(n, a, n', out, events) && NodeEvidence(log, n)
    requires a.Receive? ==> PacketEvidence(log, Packet(n.self, a.msg))
    ensures NodeEvidence(log + events, n')
  {
    if a.Receive? {
      ReceiveNodeEvidence(log, n, a.msg, n', out, events);
    } else {
      NodeEvidenceGrows(log, events, n);
      if a.ReapExpired? { ReapFrame(n, a.expired); }
    }
  }

  // ---------------------------------------------------------------- what an ack proves

  lemma {:induction false} BeganUnique(log: seq<Event>, node: NodeId, s: nat, p: Purpose, t: NodeId, p': Purpose,
                                       t': NodeId)
    requires DrawnOnce(log)
    requires Began(node, s, p, t) in log && Began(node, s, p', t') in log
    ensures p == p' && t == t'
  {
  }

  /** Any ack for a number drawn to ping `t` proves that `t` answered that ping: a relayed ack cannot
      carry the number, because relays answer only numbers drawn for indirect probes. */
  lemma AckMeansAnswered(log: seq<Event>, node: NodeId, s: nat, p: Purpose, t: NodeId, acker: NodeId)
    requires Causal(log) && DrawnOnce(log)
    requires !p.IndirectProbe? && Began(node, s, p, t) in log
    requires AckEvidence(log, acker, node, s)
    ensures Answered(t, node, s) in log
  {
  }

  /** Any ack for a number drawn to probe `t` indirectly proves that a relay pinged `t` on its behalf
      and that `t` answered the relay. */
  lemma AckMeansRelayed(log: seq<Event>, node: NodeId, s: nat, t: NodeId, acker: NodeId)
    requires Causal(log) && DrawnOnce(log)
    requires Began(node, s, IndirectProbe, t) in log
    requires AckEvidence(log, acker, node, s)
    ensures exists l: nat :: RelayEvidence(log, acker, node, s, l, t)
  {
  }

  // ---------------------------------------------------------------- every run

  lemma LogGrows(c: Cluster, id: NodeId, a: Action, out: seq<Packet>, events: seq<Event>, c': Cluster)
    requires Accounted(c) && Acts(c, id, a, out, events, c')
    ensures Causal(c'.log) && DrawnOnce(c'.log) && DrawnBelow(c'.log, c'.nodes)
  {
    hide LocalStep, NodeEvidence, PacketEvidence;
    var n, n' := c.nodes[id], c'.nodes[id];
    LocalStepDraws(n, a, n', out, events);
    LocalStepCaused(c.log, n, a, n', out, events);
    forall j | 0 <= j < |c'.log| ensures EventCaused(c'.log[..j], c'.log[j]) {
      if j < |c.log| {
        assert c'.log[..j] == c.log[..j];
      } else {
        assert c'.log[..j] == c.log;
      }
    }
    forall i, j | 0 <= i < j < |c'.log| && c'.log[i].Began? && c'.log[j].Began? && c'.log[i].node == c'.log[j].node
      ensures c'.log[i].seqNum != c'.log[j].seqNum
    {
      assert c'.log[i] == c.log[i] && c.log[i] in c.log;
    }
  }

  lemma ActAccounted(c: Cluster, id: NodeId, a: Action, out: seq<Packet>, events: seq<Event>, c': Cluster)
    requires Accounted(c) && Acts(c, id, a, out, events, c')
    ensures Accounted(c')
  {
    var n, n' := c.nodes[id], c'.nodes[id];
    LogGrows(c, id, a, out, events, c');
    LocalStepDraws(n, a, n', out, events);
    StepPacketEvidence(c.log, n, a, n', out, events);
    StepNodeEvidence(c.log, n, a, n', out, events);
    forall x | x in c'.nodes ensures NodeEvidence(c'.log, c'.nodes[x]) {
      if x != id { NodeEvidenceGrows(c.log, events, c.nodes[x]); }
    }
    forall p | p in c'.net ensures PacketEvidence(c'.log, p) {
      if p in c.net { PacketEvidenceGrows(c.log, events, p); }
    }
  }

  lemma {:induction false} RunAccounted(cs: seq<Cluster>, i: nat)
    requires Run(cs) && i < |cs|
    ensures Accounted(cs[i])
  {
    if i == 0 {
    } else {
      RunAccounted(cs, i - 1);
      assert Next(cs[i - 1], cs[i - 1 + 1]);
      var id, m :| Moves(cs[i - 1], id, m, cs[i]);
      if m.Act? {
        ActAccounted(cs[i - 1], id, m.action, m.out, m.events, cs[i]);
      }
    }
  }

  // ---------------------------------------------------------------- the theorems

  ghost predicate HappensAt(log: seq<Event>, e: Event, i: int) { 0 <= i < |log| && log[i] == e }

  /** `direct_ping` would return true now only if the target answered this very ping after it was sent. */
  lemma DirectPingCausality(cs: seq<Cluster>, k: nat, id: NodeId)
    requires Run(cs) && k < |cs| && id in cs[k].nodes
    requires cs[k].nodes[id].probe.Direct? && Acked(cs[k].nodes[id], cs[k].nodes[id].probe.seqNum)
    ensures var Direct(target, s) := cs[k].nodes[id].probe;
            exists i, j :: i < j
              && HappensAt(cs[k].log, Began(id, s, DirectProbe, target), i)
              && HappensAt(cs[k].log, Answered(target, id, s), j)
  {
    RunAccounted(cs, k);
    var log, n := cs[k].log, cs[k].nodes[id];
    var Direct(target, s) := n.probe;
    assert NodeEvidence(log, n);
    var acker: NodeId :| AckEvidence(log, acker, id, s);
    AckMeansAnswered(log, id, s, DirectProbe, target, acker);
    AnsweredAfter(log, id, s, DirectProbe, target);
  }

  lemma AnsweredAfter(log: seq<Event>, node: NodeId, s: nat, p: Purpose, t: NodeId)
    requires Causal(log) && DrawnOnce(log)
    requires Began(node, s, p, t) in log && Answered(t, node, s) in log
    ensures exists i, j :: i < j && HappensAt(log, Began(node, s, p, t), i) && HappensAt(log, Answered(t, node, s), j)
  {
    var j :| 0 <= j < |log| && log[j] == Answered(t, node, s);
    assert EventCaused(log[..j], log[j]);
    var q: Purpose :| !q.IndirectProbe? && Began(node, s, q, t) in log[..j];
    var i :| 0 <= i < j && log[..j][i] == Began(node, s, q, t);
    BeganUnique(log, node, s, p, t, q, t);
    assert HappensAt(log, Began(node, s, p, t), i) && HappensAt(log, Answered(t, node, s), j);
  }

  /** `indirect_ping` would return true now only if, after it began, some relay pinged the target on its
      behalf and the target answered that ping afterwards. */
  lemma IndirectPingCausality(cs: seq<Cluster>, k: nat, id: NodeId)
    requires Run(cs) && k < |cs| && id in cs[k].nodes
    requires cs[k].nodes[id].probe.Indirect? && Acked(cs[k].nodes[id], cs[k].nodes[id].probe.seqNum)
    ensures var Indirect(target, s, _) := cs[k].nodes[id].probe;
            exists relay: NodeId, l: nat, h, i, j :: h < i < j
              && HappensAt(cs[k].log, Began(id, s, IndirectProbe, target), h)
              && HappensAt(cs[k].log, Began(relay, l, Relayed(id, s), target), i)
              && HappensAt(cs[k].log, Answered(target, relay, l), j)
  {
    RunAccounted(cs, k);
    hide AckEvidence, RelayEvidence, Causal, DrawnOnce, HappensAt;
    var log, n := cs[k].log, cs[k].nodes[id];
    var Indirect(target, s, _) := n.probe;
    assert NodeEvidence(log, n);
    var relay: NodeId :| AckEvidence(log, relay, id, s);
    AckMeansRelayed(log, id, s, target, relay);
    var l: nat :| RelayEvidence(log, relay, id, s, l, target);
    RelayedInOrder(log, id, s, target, relay, l);
  }

  lemma RelayedInOrder(log: seq<Event>, id: NodeId, s: nat, target: NodeId, relay: NodeId, l: nat)
    requires Causal(log) && DrawnOnce(log) && RelayEvidence(log, relay, id, s, l, target)
    ensures exists h, i, j :: h < i < j
              && HappensAt(log, Began(id, s, IndirectProbe, target), h)
              && HappensAt(log, Began(relay, l, Relayed(id, s), target), i)
              && HappensAt(log, Answered(target, relay, l), j)
  {
    AnsweredAfter(log, relay, l, Relayed(id, s), target);
    var i, j :| i < j && HappensAt(log, Began(relay, l, Relayed(id, s), target), i)
        && HappensAt(log, Answered(target, relay, l), j);
    assert EventCaused(log[..i], log[i]);
    var h :| 0 <= h < i && log[..i][h] == Began(id, s, IndirectProbe, target);
    assert HappensAt(log, Began(id, s, IndirectProbe, target), h);
  }
}

/** Where suspicion comes from (src/membership/swim_protocol.cpp:34-142): in every run, whatever any node
    believes, queues or sends about a suspect or a dead node goes back to a node whose direct and indirect
    probes of it both failed. */
module SwimSuspicion {
  import opened NodeInfos
  import opened MemberRules
  import opened GossipQueue
  import opened SwimNode
  import opened SwimIncarnations
  import opened SwimCluster
  import opened SwimProbes

  // ---------------------------------------------------------------- stamps one step can produce

  datatype Stamp = Stamp(id: NodeId, incarnation: nat, state: NodeState)

  /** The stamps there are grounds for. Alive needs none. */
  type Grounds = iset<Stamp>

  ghost predicate Backed(g: Grounds, id: NodeId, i: nat, state: NodeState) { state.Alive? || Stamp(id, i, state) in g }

  ghost predicate UpdateBacked(g: Grounds, u: Update) { Backed(g, u.node, u.incarnation, StateOf(u.typ)) }

  ghost predicate UpdatesBacked(g: Grounds, us: seq<Update>) { forall u :: u in us ==> UpdateBacked(g, u) }

  ghost predicate MembersBacked(g: Grounds, m: Members) {
    forall x :: x in m ==> Backed(g, x, m[x].incarnation, m[x].state)
  }

  ghost predicate QueueBacked(g: Grounds, q: seq<Entry>) { forall u :: u in UpdatesIn(q) ==> UpdateBacked(g, u) }

  ghost predicate NodeBacked(g: Grounds, n: Node) { MembersBacked(g, n.members) && QueueBacked(g, n.queue) }

  ghost predicate PacketsBacked(g: Grounds, out: seq<Packet>) {
    forall i :: 0 <= i < |out| ==> UpdatesBacked(g, out[i].msg.updates)
  }

  lemma EnqueueBacked(g: Grounds, q: seq<Entry>, u: Update)
    requires QueueBacked(g, q) && UpdateBacked(g, u)
    ensures QueueBacked(g, Enqueue(q, u))
  {
  }

  lemma ApplyUpdateBacked(g: Grounds, n: Node, u: Update)
    requires NodeBacked(g, n) && UpdateBacked(g, u)
    ensures NodeBacked(g, ApplyUpdate(n, u))
  {
    hide Enqueue, QueueBacked;
    EnqueueBacked(g, n.queue, Update(AliveUpdate, n.self, n.incarnation + 1, n.config.dataPort));
  }

  lemma {:induction false} ApplyUpdatesBacked(g: Grounds, n: Node, us: seq<Update>)
    requires NodeBacked(g, n) && UpdatesBacked(g, us)
    ensures NodeBacked(g, ApplyUpdates(n, us))
  {
    hide ApplyUpdate, NodeBacked, UpdateBacked;
    if us == [] {
    } else {
      var k := |us| - 1;
      assert us[k] in us;
      ApplyUpdatesBacked(g, n, us[..k]);
      ApplyUpdateBacked(g, ApplyUpdates(n, us[..k]), us[k]);
    }
  }

  lemma AbsorbBacked(g: Grounds, n: Node, msg: Message)
    requires NodeBacked(g, n) && UpdatesBacked(g, msg.updates)
    ensures NodeBacked(g, Absorb(n, msg))
  {
    hide Enqueue, QueueBacked, ApplyUpdates;
    EnqueueBacked(g, n.queue, Update(JoinUpdate, msg.sender, 0, AnnouncedPort(msg.updates, msg.sender)));
    ApplyUpdatesBacked(g, LearnSender(n, msg), msg.updates);
  }

  lemma PiggybacksBacked(g: Grounds, n: Node, n': Node, us: seq<Update>)
    requires NodeBacked(g, n) && Piggybacks(n, n', us)
    ensures NodeBacked(g, n') && UpdatesBacked(g, us)
  {
    GetUpdatesSources(n.queue, n.config.maxPiggyback, n.config.maxTransmissions, n'.queue, us);
  }

  lemma DeclareBacked(g: Grounds, n: Node, id: NodeId, typ: UpdateType)
    requires NodeBacked(g, n)
    requires id in n.members && UpdateAccepted(n.members, id, StateOf(typ), n.members[id].incarnation) ==>
               Backed(g, id, n.members[id].incarnation, StateOf(typ))
    ensures NodeBacked(g, Declare(n, id, typ))
  {
    hide Enqueue, QueueBacked;
    if id in n.members && UpdateAccepted(n.members, id, StateOf(typ), n.members[id].incarnation) {
      EnqueueBacked(g, n.queue, Update(typ, id, n.members[id].incarnation, 0));
    }
  }

  /** There are grounds for declaring dead whoever the reaper declares dead. */
  ghost predicate ReapBacked(g: Grounds, n: Node, expired: seq<NodeId>) {
    forall x :: Reaped(n, expired, x) ==> Stamp(x, n.members[x].incarnation, Dead) in g
  }

  lemma {:induction false} ReapKeepsBacked(g: Grounds, n: Node, expired: seq<NodeId>)
    requires NodeBacked(g, n) && ReapBacked(g, n, expired)
    ensures NodeBacked(g, Reap(n, expired))
  {
    hide Declare, NodeBacked;
    if expired == [] {
    } else {
      var k := |expired| - 1;
      var m, last := Reap(n, expired[..k]), expired[k];
      assert expired == expired[..k] + [last];
      forall x | Reaped(n, expired[..k], x) ensures Stamp(x, n.members[x].incarnation, Dead) in g {
        assert Reaped(n, expired, x);
      }
      ReapKeepsBacked(g, n, expired[..k]);
      ReapIsExact(n, expired[..k]);
      ReapFrame(n, expired[..k]);
      if last != m.self && last in m.members && m.members[last].state.Suspect? {
        assert Reaped(n, expired, last);
        DeclareBacked(g, m, last, DeadUpdate);
      }
    }
  }

  lemma ReceivesBacked(g: Grounds, n: Node, msg: Message, n': Node, out: seq<Packet>, log: seq<Event>)
    requires NodeBacked(g, n) && UpdatesBacked(g, msg.updates) && Receives(n, msg, n', out, log)
    ensures NodeBacked(g, n') && PacketsBacked(g, out)
  {
    hide Absorb, GetUpdates;
    AbsorbBacked(g, n, msg);
    AckNeverClearsSuspicion(Absorb(n, msg), msg);
    if msg.typ.Ping? { PiggybacksBacked(g, Absorb(n, msg), n', out[0].msg.updates); }
  }

  /** A node that fails a probe has grounds for suspecting its target. */
  ghost predicate SuspicionBacked(g: Grounds, n: Node) {
    n.probe.IndirectFailed? && n.probe.target in n.members && n.members[n.probe.target].state.Alive? ==>
      Stamp(n.probe.target, n.members[n.probe.target].incarnation, Suspect) in g
  }

  lemma LocalStepBacked(g: Grounds, n: Node, a: Action, n': Node, out: seq<Packet>, log: seq<Event>)
    requires NodeBacked(g, n) && LocalStep(n, a, n', out, log)
    requires a.Receive? ==> UpdatesBacked(g, a.msg.updates)
    requires a.MarkSuspect? ==> SuspicionBacked(g, n)
    requires a.ReapExpired? ==> ReapBacked(g, n, a.expired)
    ensures NodeBacked(g, n') && PacketsBacked(g, out)
  {
    hide Receives, Reap, GetUpdates, Declare, MembersBacked, QueueBacked;
    match a
    case Receive(msg) => ReceivesBacked(g, n, msg, n', out, log);
    case BeginProbe(target) =>
      PiggybacksBacked(g, Expect(n).(probe := Direct(target, n.nextSeq)), n', out[0].msg.updates);
    case AskPeer =>
      PiggybacksBacked(g, n.(probe := n.probe.(toAsk := n.probe.toAsk[1..])), n', out[0].msg.updates);
    case MarkSuspect => DeclareBacked(g, n, n.probe.target, SuspectUpdate);
    case ReapExpired(expired) => ReapKeepsBacked(g, n, expired);
    case _ =>
  }

  // ---------------------------------------------------------------- what happened at a moment of a run

  ghost predicate Takes(cs: seq<Cluster>, k: nat, id: NodeId, a: Action)
    requires k + 1 < |cs|
  {
    Leads(cs[k], id, a, cs[k + 1])
  }

  ghost predicate Leads(c: Cluster, id: NodeId, a: Action, c': Cluster) {
    exists out, log :: Acts(c, id, a, out, log, c')
  }

  /** In step `k` the direct probe of `x` by `id` ends without an acknowledgement. */
  ghost predicate FailsDirect(cs: seq<Cluster>, k: nat, id: NodeId, x: NodeId) {
    && k + 1 < |cs| && id in cs[k].nodes && Takes(cs, k, id, EndDirect)
    && var p := cs[k].nodes[id].probe;
       p.Direct? && p.target == x && !Acked(cs[k].nodes[id], p.seqNum)
  }

  /** In step `k` the indirect probe of `x` by `id` ends without an acknowledgement, or finds nobody to ask. */
  ghost predicate FailsIndirect(cs: seq<Cluster>, k: nat, id: NodeId, x: NodeId) {
    && k + 1 < |cs| && id in cs[k].nodes
    && var p := cs[k].nodes[id].probe;
       || (p.Indirect? && p.target == x && Takes(cs, k, id, EndIndirect) && !Acked(cs[k].nodes[id], p.seqNum))
       || (p.DirectFailed? && p.target == x && Takes(cs, k, id, BeginIndirect([])))
  }

  ghost predicate SeesAt(c: Cluster, id: NodeId, x: NodeId, i: nat, state: NodeState) {
    id in c.nodes && x in c.nodes[id].members && SameStamp(c.nodes[id].members[x], NodeInfo(x, 0, state, i))
  }

  /** In step `k` a node turns `x` from alive to suspected, at incarnation `i`, for failing its probes. */
  ghost predicate Suspects(cs: seq<Cluster>, k: nat, id: NodeId, x: NodeId, i: nat) {
    && k + 1 < |cs| && id in cs[k].nodes && cs[k].nodes[id].probe == IndirectFailed(x) && Takes(cs, k, id, MarkSuspect)
    && SeesAt(cs[k], id, x, i, Alive) && SeesAt(cs[k + 1], id, x, i, Suspect)
  }

  /** In step `k` a node turns `x` from suspected to dead, at incarnation `i`, because its time is up. */
  ghost predicate DeclaresDead(cs: seq<Cluster>, k: nat, id: NodeId, x: NodeId, i: nat) {
    && k + 1 < |cs| && (exists expired :: x in expired && Takes(cs, k, id, ReapExpired(expired)))
    && SeesAt(cs[k], id, x, i, Suspect) && SeesAt(cs[k + 1], id, x, i, Dead)
  }

  /** Before moment `j` somebody suspected `x` at incarnation `i` after failing to reach it both ways. */
  ghost predicate WasSuspected(cs: seq<Cluster>, j: nat, x: NodeId, i: nat) {
    exists id, k :: 0 <= k < j && Suspects(cs, k, id, x, i)
  }

  /** Before moment `j` somebody declared `x` dead, and somebody had suspected it before that. */
  ghost predicate WasDeclaredDead(cs: seq<Cluster>, j: nat, x: NodeId, i: nat) {
    exists id, k :: 0 <= k < j && DeclaresDead(cs, k, id, x, i) && WasSuspected(cs, k, x, i)
  }

  ghost function GroundsAt(cs: seq<Cluster>, j: nat): Grounds {
    iset s: Stamp | (s.state.Suspect? && WasSuspected(cs, j, s.id, s.incarnation))
                    || (s.state.Dead? && WasDeclaredDead(cs, j, s.id, s.incarnation))
  }

  lemma GroundsGrow(cs: seq<Cluster>, j: nat)
    ensures GroundsAt(cs, j) <= GroundsAt(cs, j + 1)
  {
  }

  lemma MoreGrounds(g: Grounds, g': Grounds, n: Node, us: seq<Update>)
    requires g <= g'
    ensures NodeBacked(g, n) ==> NodeBacked(g', n)
    ensures UpdatesBacked(g, us) ==> UpdatesBacked(g', us)
  {
  }

  // ---------------------------------------------------------------- every run

  /** Everything said about anybody is backed by what happened before. */
  ghost predicate AllBacked(g: Grounds, c: Cluster) {
    && (forall id :: id in c.nodes ==> c.nodes[id].self == id && NodeBacked(g, c.nodes[id]))
    && (forall p :: p in c.net ==> UpdatesBacked(g, p.msg.updates))
  }

  lemma SuspicionHasGrounds(cs: seq<Cluster>, j: nat, id: NodeId, out: seq<Packet>, log: seq<Event>)
    requires j + 1 < |cs| && Acts(cs[j], id, MarkSuspect, out, log, cs[j + 1])
    ensures SuspicionBacked(GroundsAt(cs, j + 1), cs[j].nodes[id])
  {
    hide Enqueue;
    var n := cs[j].nodes[id];
    var x := n.probe.target;
    if x in n.members && n.members[x].state.Alive? {
      FailedProbeSuspects(n, cs[j + 1].nodes[id]);
      assert Takes(cs, j, id, MarkSuspect);
      assert Suspects(cs, j, id, x, n.members[x].incarnation);
    }
  }

  lemma DeathHasGrounds(cs: seq<Cluster>, j: nat, id: NodeId, expired: seq<NodeId>, out: seq<Packet>, log: seq<Event>)
    requires j + 1 < |cs| && Acts(cs[j], id, ReapExpired(expired), out, log, cs[j + 1])
    requires NodeBacked(GroundsAt(cs, j), cs[j].nodes[id])
    ensures ReapBacked(GroundsAt(cs, j + 1), cs[j].nodes[id], expired)
  {
    hide Reap, Enqueue, WasSuspected;
    var n := cs[j].nodes[id];
    ReapIsExact(n, expired);
    assert Takes(cs, j, id, ReapExpired(expired));
    forall x | Reaped(n, expired, x) ensures Stamp(x, n.members[x].incarnation, Dead) in GroundsAt(cs, j + 1) {
      var i := n.members[x].incarnation;
      assert Stamp(x, i, Suspect) in GroundsAt(cs, j);
      assert DeclaresDead(cs, j, id, x, i);
    }
  }

  lemma ActBacked(cs: seq<Cluster>, j: nat, id: NodeId, a: Action, out: seq<Packet>, log: seq<Event>)
    requires j + 1 < |cs| && Acts(cs[j], id, a, out, log, cs[j + 1]) && AllBacked(GroundsAt(cs, j), cs[j])
    ensures AllBacked(GroundsAt(cs, j + 1), cs[j + 1])
  {
    hide LocalStep, GroundsAt, NodeBacked, UpdatesBacked;
    var n, n', g, g' := cs[j].nodes[id], cs[j + 1].nodes[id], GroundsAt(cs, j), GroundsAt(cs, j + 1);
    GroundsGrow(cs, j);
    MoreGrounds(g, g', n, if a.Receive? then a.msg.updates else []);
    if a.MarkSuspect? { SuspicionHasGrounds(cs, j, id, out, log); }
    if a.ReapExpired? { DeathHasGrounds(cs, j, id, a.expired, out, log); }
    LocalStepBacked(g', n, a, n', out, log);
    LocalStepKeepsSelf(n, a, n', out, log);
    var c, c' := cs[j], cs[j + 1];
    forall x | x in c'.nodes ensures c'.nodes[x].self == x && NodeBacked(g', c'.nodes[x]) {
      if x != id { MoreGrounds(g, g', c.nodes[x], []); }
    }
    forall p | p in c'.net ensures UpdatesBacked(g', p.msg.updates) {
      if p in cs[j].net { MoreGrounds(g, g', n, p.msg.updates); }
    }
  }

  lemma LocalStepKeepsSelf(n: Node, a: Action, n': Node, out: seq<Packet>, log: seq<Event>)
    requires LocalStep(n, a, n', out, log)
    ensures n'.self == n.self
  {
    hide Absorb, Reap, GetUpdates, Enqueue;
    match a
    case Receive(msg) => AbsorbFrame(n, msg);
    case ReapExpired(expired) => ReapFrame(n, expired);
    case _ =>
  }

  lemma BootBacked(g: Grounds, self: NodeId, config: Config, seed: Option<(NodeId, u16)>)
    ensures NodeBacked(g, Boot(self, config, seed)) && Boot(self, config, seed).self == self
  {
  }

  lemma {:induction false} RunBacked(cs: seq<Cluster>, j: nat)
    requires Run(cs) && j < |cs|
    ensures AllBacked(GroundsAt(cs, j), cs[j])
  {
    hide GroundsAt, NodeBacked, UpdatesBacked, LocalStep, Boot;
    if j == 0 {
    } else {
      RunBacked(cs, j - 1);
      assert Next(cs[j - 1], cs[j - 1 + 1]);
      var id, m :| Moves(cs[j - 1], id, m, cs[j]);
      match m
      case Act(a, out, log) => ActBacked(cs, j - 1, id, a, out, log);
      case Start(config, seed) => StartBacked(cs, j - 1, id, config, seed);
    }
  }

  lemma StartBacked(cs: seq<Cluster>, j: nat, id: NodeId, config: Config, seed: Option<(NodeId, u16)>)
    requires j + 1 < |cs| && Starts(cs[j], id, config, seed, cs[j + 1]) && AllBacked(GroundsAt(cs, j), cs[j])
    ensures AllBacked(GroundsAt(cs, j + 1), cs[j + 1])
  {
    hide GroundsAt, NodeBacked, UpdatesBacked, Boot;
    var g, g' := GroundsAt(cs, j), GroundsAt(cs, j + 1);
    GroundsGrow(cs, j);
    BootBacked(g', id, config, seed);
    forall x | x in cs[j].nodes ensures NodeBacked(g', cs[j].nodes[x]) { MoreGrounds(g, g', cs[j].nodes[x], []); }
    forall p | p in cs[j].net ensures UpdatesBacked(g', p.msg.updates) {
      MoreGrounds(g, g', Boot(id, config, seed), p.msg.updates);
    }
  }

  // ---------------------------------------------------------------- how a probe comes to have failed

  ghost predicate FailedDirect(cs: seq<Cluster>, k: nat, id: NodeId, x: NodeId) {
    exists a :: 0 <= a < k && FailsDirect(cs, a, id, x)
  }

  /** First the direct probe failed, then the indirect one. */
  ghost predicate FailedBothWays(cs: seq<Cluster>, k: nat, id: NodeId, x: NodeId) {
    exists b :: 0 <= b < k && FailsIndirect(cs, b, id, x) && FailedDirect(cs, b, id, x)
  }

  ghost predicate ProbeHistory(cs: seq<Cluster>, k: nat, id: NodeId, p: Probe) {
    && (p.DirectFailed? || p.Indirect? ==> FailedDirect(cs, k, id, p.target))
    && (p.IndirectFailed? ==> FailedBothWays(cs, k, id, p.target))
  }

  lemma StepProbeHistory(cs: seq<Cluster>, k: nat, id: NodeId, a: Action, out: seq<Packet>, log: seq<Event>)
    requires k + 1 < |cs| && Acts(cs[k], id, a, out, log, cs[k + 1])
    requires ProbeHistory(cs, k, id, cs[k].nodes[id].probe)
    ensures ProbeHistory(cs, k + 1, id, cs[k + 1].nodes[id].probe)
  {
    hide Reap, GetUpdates, Absorb, Declare, FailsDirect, FailsIndirect;
    var n, n' := cs[k].nodes[id], cs[k + 1].nodes[id];
    assert Takes(cs, k, id, a);
    match a
    case Receive(msg) => AbsorbFrame(n, msg);
    case ReapExpired(expired) => ReapFrame(n, expired);
    case EndDirect => DirectEnds(cs, k, id);
    case BeginIndirect(peers) => IndirectEnds(cs, k, id, a);
    case EndIndirect => IndirectEnds(cs, k, id, a);
    case _ =>
  }

  lemma DirectEnds(cs: seq<Cluster>, k: nat, id: NodeId)
    requires k + 1 < |cs| && id in cs[k].nodes && Takes(cs, k, id, EndDirect)
    ensures var n := cs[k].nodes[id];
            n.probe.Direct? && (!Acked(n, n.probe.seqNum) ==> FailsDirect(cs, k, id, n.probe.target))
  {
  }

  lemma IndirectEnds(cs: seq<Cluster>, k: nat, id: NodeId, a: Action)
    requires k + 1 < |cs| && id in cs[k].nodes && Takes(cs, k, id, a)
    requires a.EndIndirect? || a.BeginIndirect?
    ensures id in cs[k + 1].nodes
    ensures cs[k + 1].nodes[id].probe.IndirectFailed? ==>
              FailsIndirect(cs, k, id, cs[k + 1].nodes[id].probe.target)
  {
  }

  lemma {:induction false} RunProbeHistory(cs: seq<Cluster>, k: nat, id: NodeId)
    requires Run(cs) && k < |cs| && id in cs[k].nodes
    ensures ProbeHistory(cs, k, id, cs[k].nodes[id].probe)
  {
    hide LocalStep, FailsDirect, FailsIndirect;
    if k == 0 {
    } else {
      assert Next(cs[k - 1], cs[k - 1 + 1]);
      var who, m :| Moves(cs[k - 1], who, m, cs[k]);
      if id in cs[k - 1].nodes {
        RunProbeHistory(cs, k - 1, id);
        if who == id && m.Act? { StepProbeHistory(cs, k - 1, id, m.action, m.out, m.events); }
      }
    }
  }

  // ---------------------------------------------------------------- the theorem

  /** Before moment `j` a node failed to reach `x` directly, then indirectly, and then turned it from alive
      to suspected at incarnation `i`. */
  ghost predicate Condemned(cs: seq<Cluster>, j: nat, x: NodeId, i: nat) {
    exists id, k :: 0 <= k < j && Suspects(cs, k, id, x, i) && FailedBothWays(cs, k, id, x)
  }

  /** What must have happened before moment `j` for anybody to hold this stamp then. */
  ghost predicate Grounded(cs: seq<Cluster>, j: nat, x: NodeId, i: nat, state: NodeState) {
    match state
    case Alive => true
    case Suspect => Condemned(cs, j, x, i)
    case Dead => exists id, k :: 0 <= k < j && DeclaresDead(cs, k, id, x, i) && Condemned(cs, k, x, i)
    case Left => false
  }

  lemma SuspectedIsCondemned(cs: seq<Cluster>, j: nat, x: NodeId, i: nat)
    requires Run(cs) && j <= |cs| && WasSuspected(cs, j, x, i)
    ensures Condemned(cs, j, x, i)
  {
    hide Run, FailedBothWays;
    var id, k :| 0 <= k < j && Suspects(cs, k, id, x, i);
    RunProbeHistory(cs, k, id);
    assert FailedBothWays(cs, k, id, x);
  }

  lemma BackedIsGrounded(cs: seq<Cluster>, j: nat, x: NodeId, i: nat, state: NodeState)
    requires Run(cs) && j < |cs| && Backed(GroundsAt(cs, j), x, i, state)
    ensures Grounded(cs, j, x, i, state)
  {
    hide Run, DeclaresDead, WasSuspected, Condemned;
    if state.Suspect? {
      SuspectedIsCondemned(cs, j, x, i);
    } else if state.Dead? {
      var id, k :| 0 <= k < j && DeclaresDead(cs, k, id, x, i) && WasSuspected(cs, k, x, i);
      SuspectedIsCondemned(cs, k, x, i);
    }
  }

  /** In every run, every stamp in any view, any queue and any packet is grounded: a suspicion goes back to a
      node that failed to reach the suspect both ways, a death to a suspicion at the same incarnation, and
      nobody is ever said to have left. */
  lemma EverythingIsGrounded(cs: seq<Cluster>, j: nat)
    requires Run(cs) && j < |cs|
    ensures forall id, x :: id in cs[j].nodes && x in cs[j].nodes[id].members ==>
              Grounded(cs, j, x, cs[j].nodes[id].members[x].incarnation, cs[j].nodes[id].members[x].state)
    ensures forall id, u :: id in cs[j].nodes && u in UpdatesIn(cs[j].nodes[id].queue) ==>
              Grounded(cs, j, u.node, u.incarnation, StateOf(u.typ))
    ensures forall p, u :: p in cs[j].net && u in p.msg.updates ==>
              Grounded(cs, j, u.node, u.incarnation, StateOf(u.typ))
  {
    hide Run, GroundsAt, Grounded;
    RunBacked(cs, j);
    forall x, i, state | Backed(GroundsAt(cs, j), x, i, state) ensures Grounded(cs, j, x, i, state) {
      BackedIsGrounded(cs, j, x, i, state);
    }
  }
}

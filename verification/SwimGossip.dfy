/** What the gossip queue of a node carries in a run of the cluster (src/membership/swim_protocol.cpp with
    src/membership/disseminator.cpp): whatever a node declares, learns or refutes is queued, and leaves the
    queue only by being sent. */
module SwimGossip {
  import opened NodeInfos
  import opened GossipQueue
  import opened SwimNode
  import opened SwimIncarnations
  import opened SwimCluster

  // ---------------------------------------------------------------- the queue in every run

  /** At most one entry a node, each owed a transmission when any are allowed. */
  ghost predicate QueueOk(n: Node) {
    && OnePerNode(n.queue)
    && (n.config.maxTransmissions >= 1 ==> WithinLimit(n.queue, n.config.maxTransmissions))
  }

  lemma EnqueueOk(n: Node, u: Update)
    requires QueueOk(n)
    ensures QueueOk(n.(queue := Enqueue(n.queue, u)))
  {
    EnqueueKeepsGreatest(n.queue, u);
  }

  lemma PiggybacksOk(n: Node, n': Node, us: seq<Update>)
    requires QueueOk(n) && Piggybacks(n, n', us)
    ensures QueueOk(n')
  {
    GetUpdatesRemainder(n.queue, n.config.maxPiggyback, n.config.maxTransmissions, n'.queue, us);
  }

  lemma {:induction false} ApplyUpdatesOk(n: Node, us: seq<Update>)
    requires QueueOk(n)
    ensures QueueOk(ApplyUpdates(n, us))
  {
    if us == [] {
    } else {
      var m := ApplyUpdates(n, us[..|us| - 1]);
      ApplyUpdatesOk(n, us[..|us| - 1]);
      EnqueueOk(m, Refutation(Refute(m)));
    }
  }

  lemma AbsorbOk(n: Node, msg: Message)
    requires QueueOk(n)
    ensures QueueOk(LearnSender(n, msg)) && QueueOk(Absorb(n, msg))
  {
    EnqueueOk(n, Update(JoinUpdate, msg.sender, 0, AnnouncedPort(msg.updates, msg.sender)));
    ApplyUpdatesOk(LearnSender(n, msg), msg.updates);
  }

  lemma DeclareOk(n: Node, id: NodeId, typ: UpdateType)
    requires QueueOk(n)
    ensures QueueOk(Declare(n, id, typ))
  {
    if id in n.members { EnqueueOk(n, Update(typ, id, n.members[id].incarnation, 0)); }
  }

  lemma {:induction false} ReapOk(n: Node, expired: seq<NodeId>)
    requires QueueOk(n)
    ensures QueueOk(Reap(n, expired))
  {
    if expired == [] {
    } else {
      var k := |expired| - 1;
      ReapOk(n, expired[..k]);
      DeclareOk(Reap(n, expired[..k]), expired[k], DeadUpdate);
    }
  }

  lemma LocalStepOk(n: Node, a: Action, n': Node, out: seq<Packet>, log: seq<Event>)
    requires QueueOk(n) && LocalStep(n, a, n', out, log)
    ensures QueueOk(n')
  {
    hide Absorb, Reap, Declare, GetUpdates, OnePerNode, WithinLimit;
    match a {
      case Receive(msg) =>
        AbsorbOk(n, msg);
        if msg.typ.Ping? { PiggybacksOk(Absorb(n, msg), n', out[0].msg.updates); }
      case BeginProbe(target) => PiggybacksOk(Expect(n).(probe := Direct(target, n.nextSeq)), n', out[0].msg.updates);
      case AskPeer => PiggybacksOk(n.(probe := n.probe.(toAsk := n.probe.toAsk[1..])), n', out[0].msg.updates);
      case MarkSuspect => DeclareOk(n, n.probe.target, SuspectUpdate);
      case ReapExpired(expired) => ReapOk(n, expired);
      case _ =>
    }
  }

  /** In every run, at every node. */
  lemma {:induction false} RunQueuesOk(cs: seq<Cluster>, i: nat, id: NodeId)
    requires Run(cs) && i < |cs| && id in cs[i].nodes
    ensures QueueOk(cs[i].nodes[id])
  {
    hide LocalStep;
    if i == 0 {
    } else {
      assert Next(cs[i - 1], cs[i - 1 + 1]);
      var who, m :| Moves(cs[i - 1], who, m, cs[i]);
      if id in cs[i - 1].nodes { RunQueuesOk(cs, i - 1, id); }
      if who == id {
        match m
        case Start(config, seed) => BootOk(id, config, seed);
        case Act(a, out, log) => LocalStepOk(cs[i - 1].nodes[id], a, cs[i].nodes[id], out, log);
      }
    }
  }

  lemma BootOk(self: NodeId, config: Config, seed: Option<(NodeId, u16)>)
    ensures QueueOk(Boot(self, config, seed))
  {
  }

  // ---------------------------------------------------------------- what is queued is sent

  /** The queue holds this update or one that is not outranked by it. */
  ghost predicate Carries(q: seq<Entry>, u: Update) {
    exists e :: e in q && e.update.node == u.node && !Outranks(u, e.update)
  }

  ghost predicate Sent(out: seq<Packet>, u: Update) {
    exists p, v :: p in out && v in p.msg.updates && v.node == u.node && !Outranks(u, v)
  }

  lemma EnqueueCarries(q: seq<Entry>, u: Update, v: Update)
    requires OnePerNode(q)
    ensures Carries(Enqueue(q, u), u)
    ensures Carries(q, v) ==> Carries(Enqueue(q, u), v)
  {
    EnqueueKeepsGreatest(q, u);
    if Queued(q, u.node) {
      var j :| 0 <= j < |q| && q[j].update.node == u.node;
      assert q[j] in q;
    }
    if e :| e in q && e.update.node == v.node && !Outranks(v, e.update) {
      assert (if v.node == u.node && Outranks(u, e.update) then Entry(u, 0) else e) in Enqueue(q, u);
    }
  }

  /** A queued update is still queued after a packet took updates off the queue, or is in the packet. */
  lemma PiggybacksSend(n: Node, n': Node, us: seq<Update>, e: Entry)
    requires QueueOk(n) && Piggybacks(n, n', us) && n.config.maxTransmissions >= 1 && e in n.queue
    ensures e in n'.queue || e.update in us
  {
    GetUpdatesRemainder(n.queue, n.config.maxPiggyback, n.config.maxTransmissions, n'.queue, us);
  }

  /** What a node queued while absorbing a message is in its reply or still queued, for a node that may
      transmit an update at all. */
  lemma AbsorbedIsGossiped(n: Node, msg: Message, n': Node, out: seq<Packet>, log: seq<Event>, e: Entry)
    requires QueueOk(n) && Receives(n, msg, n', out, log) && e in Absorb(n, msg).queue
    requires n.config.maxTransmissions >= 1 || !msg.typ.Ping?
    ensures e in n'.queue || exists p :: p in out && e.update in p.msg.updates
  {
    hide Absorb, GetUpdates, OnePerNode, WithinLimit;
    AbsorbFrame(n, msg);
    AbsorbOk(n, msg);
    if msg.typ.Ping? {
      PiggybacksSend(Absorb(n, msg), n', out[0].msg.updates, e);
      assert out[0] in out;
    }
  }

  // ---------------------------------------------------------------- declarations

  lemma DeclareCarries(n: Node, id: NodeId, typ: UpdateType, v: Update)
    requires OnePerNode(n.queue) && id in n.members
    ensures Declare(n, id, typ) != n ==>
              Carries(Declare(n, id, typ).queue, Update(typ, id, n.members[id].incarnation, 0))
    ensures Carries(n.queue, v) ==> Carries(Declare(n, id, typ).queue, v)
  {
    EnqueueCarries(n.queue, Update(typ, id, n.members[id].incarnation, 0), v);
  }

  lemma {:induction false} ReapCarries(n: Node, expired: seq<NodeId>, x: NodeId)
    requires QueueOk(n) && x in n.members
    ensures x in Reap(n, expired).members
    ensures var m := Reap(n, expired);
            m.members[x] != n.members[x] ==> Carries(m.queue, Update(DeadUpdate, x, n.members[x].incarnation, 0))
  {
    if expired == [] {
    } else {
      hide Carries, OnePerNode, WithinLimit, Enqueue;
      var k := |expired| - 1;
      var m, last := Reap(n, expired[..k]), expired[k];
      ReapCarries(n, expired[..k], x);
      ReapOk(n, expired[..k]);
      if last in m.members { DeclareCarries(m, last, DeadUpdate, Update(DeadUpdate, x, n.members[x].incarnation, 0)); }
    }
  }

  /** In every run: when a node turns a member into a suspect or declares it dead, its queue then holds that
      update or a stronger one about the member. */
  lemma DeclarationIsGossiped(cs: seq<Cluster>, i: nat, id: NodeId, m: Move, x: NodeId)
    requires Run(cs) && i + 1 < |cs| && Moves(cs[i], id, m, cs[i + 1])
    requires m.Act? && (m.action.MarkSuspect? || m.action.ReapExpired?)
    requires x in cs[i].nodes[id].members && x in cs[i + 1].nodes[id].members
    requires cs[i + 1].nodes[id].members[x] != cs[i].nodes[id].members[x]
    ensures var typ := if m.action.MarkSuspect? then SuspectUpdate else DeadUpdate;
            Carries(cs[i + 1].nodes[id].queue, Update(typ, x, cs[i].nodes[id].members[x].incarnation, 0))
  {
    hide Run, Carries, Reap, Enqueue;
    var n := cs[i].nodes[id];
    RunQueuesOk(cs, i, id);
    if m.action.MarkSuspect? {
      DeclareCarries(n, x, SuspectUpdate, Update(SuspectUpdate, x, 0, 0));
    } else {
      ReapCarries(n, m.action.expired, x);
    }
  }

  // ---------------------------------------------------------------- senders

  lemma {:induction false} ApplyUpdatesCarries(n: Node, us: seq<Update>, v: Update)
    requires QueueOk(n) && Carries(n.queue, v)
    ensures Carries(ApplyUpdates(n, us).queue, v)
  {
    if us == [] {
    } else {
      hide Carries, OnePerNode, WithinLimit, Enqueue;
      var m := ApplyUpdates(n, us[..|us| - 1]);
      ApplyUpdatesCarries(n, us[..|us| - 1], v);
      ApplyUpdatesOk(n, us[..|us| - 1]);
      EnqueueCarries(m.queue, Refutation(Refute(m)), v);
    }
  }

  /** In every run: whoever sends a message is known afterwards, and if it was not known before, news of it
      is queued, or already in the reply. */
  lemma SenderBecomesKnown(cs: seq<Cluster>, i: nat, id: NodeId, m: Move)
    requires Run(cs) && i + 1 < |cs| && Moves(cs[i], id, m, cs[i + 1])
    requires m.Act? && m.action.Receive? && m.action.msg.sender != id
    ensures var n, n', msg := cs[i].nodes[id], cs[i + 1].nodes[id], m.action.msg;
            && msg.sender in n'.members
            && (msg.sender !in n.members && (n.config.maxTransmissions >= 1 || !msg.typ.Ping?) ==>
                  Carries(n'.queue, Update(JoinUpdate, msg.sender, 0, 0))
                      || Sent(m.out, Update(JoinUpdate, msg.sender, 0, 0)))
  {
    hide Run, GetUpdates, Enqueue, ApplyUpdates;
    var n, n', msg := cs[i].nodes[id], cs[i + 1].nodes[id], m.action.msg;
    RunBounded(cs, i);
    RunQueuesOk(cs, i, id);
    SenderKnown(n, msg, n', m.out, m.events);
    if msg.sender !in n.members && (n.config.maxTransmissions >= 1 || !msg.typ.Ping?) {
      SenderCarried(n, msg);
      var e :| e in Absorb(n, msg).queue && e.update.node == msg.sender
               && !Outranks(Update(JoinUpdate, msg.sender, 0, 0), e.update);
      AbsorbedIsGossiped(n, msg, n', m.out, m.events, e);
    }
  }

  lemma SenderKnown(n: Node, msg: Message, n': Node, out: seq<Packet>, log: seq<Event>)
    requires Receives(n, msg, n', out, log) && msg.sender != n.self
    ensures msg.sender in n'.members
  {
    hide GetUpdates, Enqueue, ApplyUpdates;
    ApplyUpdatesGrow(LearnSender(n, msg), msg.updates);
  }

  lemma SenderCarried(n: Node, msg: Message)
    requires QueueOk(n) && msg.sender != n.self && msg.sender !in n.members
    ensures Carries(Absorb(n, msg).queue, Update(JoinUpdate, msg.sender, 0, 0))
  {
    hide OnePerNode, WithinLimit, Enqueue;
    var u, v := Update(JoinUpdate, msg.sender, 0, AnnouncedPort(msg.updates, msg.sender)),
        Update(JoinUpdate, msg.sender, 0, 0);
    EnqueueCarries(n.queue, u, v);
    AbsorbOk(n, msg);
    assert Carries(LearnSender(n, msg).queue, v);
    ApplyUpdatesCarries(LearnSender(n, msg), msg.updates, v);
  }

  // ---------------------------------------------------------------- refutations

  ghost function Refutation(n: Node): Update { Update(AliveUpdate, n.self, n.incarnation, n.config.dataPort) }

  /** The node's own queue entry, if any, is not above its counter. */
  ghost predicate QueueInOrder(n: Node) {
    && OnePerNode(n.queue)
    && (forall e :: e in n.queue && e.update.node == n.self ==> e.update.incarnation <= n.incarnation)
  }

  lemma RefuteQueues(n: Node)
    requires QueueInOrder(n)
    ensures QueueInOrder(Refute(n))
    ensures Entry(Refutation(Refute(n)), 0) in Refute(n).queue
  {
    var r := Refutation(Refute(n));
    EnqueueKeepsGreatest(n.queue, r);
    if Queued(n.queue, n.self) {
      var j :| 0 <= j < |n.queue| && n.queue[j].update.node == n.self;
      assert n.queue[j] in n.queue && Outranks(r, n.queue[j].update);
    }
  }

  /** A node that raises its counter while applying updates queues that refutation, never sent yet. */
  lemma {:induction false} ApplyUpdatesQueues(n: Node, us: seq<Update>)
    requires QueueInOrder(n)
    ensures QueueInOrder(ApplyUpdates(n, us))
    ensures n.incarnation <= ApplyUpdates(n, us).incarnation
    ensures n.incarnation < ApplyUpdates(n, us).incarnation ==>
              Entry(Refutation(ApplyUpdates(n, us)), 0) in ApplyUpdates(n, us).queue
  {
    if us == [] {
    } else {
      var k := |us| - 1;
      var m := ApplyUpdates(n, us[..k]);
      ApplyUpdatesQueues(n, us[..k]);
      if us[k].node == m.self && (us[k].typ.SuspectUpdate? || us[k].typ.DeadUpdate?) {
        RefuteQueues(m);
      }
    }
  }

  lemma LearnSenderInOrder(n: Node, msg: Message)
    requires QueueInOrder(n)
    ensures QueueInOrder(LearnSender(n, msg)) && LearnSender(n, msg).incarnation == n.incarnation
  {
    EnqueueKeepsGreatest(n.queue, Update(JoinUpdate, msg.sender, 0, AnnouncedPort(msg.updates, msg.sender)));
  }

  /** Only a message can raise the counter. */
  lemma RaisedByMessage(n: Node, a: Action, n': Node, out: seq<Packet>, log: seq<Event>)
    requires LocalStep(n, a, n', out, log) && n'.incarnation > n.incarnation
    ensures a.Receive?
    ensures n'.incarnation == Absorb(n, a.msg).incarnation && n'.self == n.self && n'.config == n.config
  {
    hide Absorb, Reap, GetUpdates, Enqueue;
    match a
    case Receive(msg) => AbsorbFrame(n, msg);
    case ReapExpired(expired) => ReapFrame(n, expired);
    case _ =>
  }

  /** In every run: a node that raises its counter queues the refutation, not sent yet, unless it is
      already in the reply. */
  lemma RefutationIsQueued(cs: seq<Cluster>, i: nat, id: NodeId, m: Move)
    requires Run(cs) && i + 1 < |cs| && Moves(cs[i], id, m, cs[i + 1]) && m.Act?
    requires cs[i].nodes[id].incarnation < cs[i + 1].nodes[id].incarnation
    ensures m.action.Receive?
    ensures var n, n' := cs[i].nodes[id], cs[i + 1].nodes[id];
            n.config.maxTransmissions >= 1 || !m.action.msg.typ.Ping? ==>
              Entry(Refutation(n'), 0) in n'.queue || exists p :: p in m.out && Refutation(n') in p.msg.updates
  {
    hide Run, Enqueue, ApplyUpdates, LearnSender;
    var n, n' := cs[i].nodes[id], cs[i + 1].nodes[id];
    RaisedByMessage(n, m.action, n', m.out, m.events);
    var msg := m.action.msg;
    RunBounded(cs, i);
    RunQueuesOk(cs, i, id);
    CappedIsInOrder(n, CountersOf(cs[i]));
    LearnSenderInOrder(n, msg);
    ApplyUpdatesQueues(LearnSender(n, msg), msg.updates);
    AbsorbFrame(n, msg);
    if n.config.maxTransmissions >= 1 || !msg.typ.Ping? {
      AbsorbedIsGossiped(n, msg, n', m.out, m.events, Entry(Refutation(n'), 0));
    }
  }

  lemma CappedIsInOrder(n: Node, c: Counters)
    requires Tame(n, c) && QueueOk(n)
    ensures QueueInOrder(n)
  {
    forall e | e in n.queue && e.update.node == n.self ensures e.update.incarnation <= n.incarnation {
      assert e.update in UpdatesIn(n.queue);
    }
  }
}

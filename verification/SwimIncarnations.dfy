/** What one step of a node does to incarnation numbers: nothing it holds or sends is above the
    counter of the node it is about, and its view of its peers only grows. */
module SwimIncarnations {
  import opened NodeInfos
  import opened MemberRules
  import opened GossipQueue
  import opened SwimNode

  /** The incarnation counters of the nodes started so far. */
  type Counters = map<NodeId, nat>

  function Cap(c: Counters, id: NodeId): nat { if id in c then c[id] else 0 }

  predicate Capped(u: Update, c: Counters) { u.incarnation <= Cap(c, u.node) }

  ghost predicate MembersCapped(m: Members, c: Counters) {
    forall id :: id in m ==> m[id].incarnation <= Cap(c, id)
  }

  ghost predicate QueueCapped(q: seq<Entry>, c: Counters) {
    forall u :: u in UpdatesIn(q) ==> Capped(u, c)
  }

  ghost predicate UpdatesCapped(us: seq<Update>, c: Counters) {
    forall u :: u in us ==> Capped(u, c)
  }

  /** The node sees itself alive at its own counter. */
  ghost predicate SeesItself(n: Node) {
    n.self in n.members && n.members[n.self].state.Alive? && n.members[n.self].incarnation == n.incarnation
  }

  ghost predicate Tame(n: Node, c: Counters) {
    && SeesItself(n)
    && n.self in c && c[n.self] == n.incarnation
    && MembersCapped(n.members, c)
    && QueueCapped(n.queue, c)
  }

  /** `c'` is `c` after `n` moved its own counter. */
  ghost predicate Raised(c: Counters, n: Node, n': Node, c': Counters) {
    n'.self == n.self && n.incarnation <= n'.incarnation && c' == c[n.self := n'.incarnation]
  }

  lemma EnqueueCapped(q: seq<Entry>, u: Update, c: Counters)
    requires QueueCapped(q, c) && Capped(u, c)
    ensures QueueCapped(Enqueue(q, u), c)
  {
  }

  lemma RefuteTame(n: Node, c: Counters)
    requires Tame(n, c)
    ensures Tame(Refute(n), c[n.self := n.incarnation + 1])
  {
    EnqueueCapped(n.queue, Update(AliveUpdate, n.self, n.incarnation + 1, n.config.dataPort),
                  c[n.self := n.incarnation + 1]);
  }

  lemma MergeCapped(m: Members, u: Update, c: Counters)
    requires MembersCapped(m, c) && Capped(u, c)
    ensures MembersCapped(Merge(m, u), c)
  {
  }

  lemma ApplyUpdateTame(n: Node, u: Update, c: Counters)
    requires Tame(n, c) && Capped(u, c)
    ensures Raised(c, n, ApplyUpdate(n, u), c[n.self := ApplyUpdate(n, u).incarnation])
    ensures Tame(ApplyUpdate(n, u), c[n.self := ApplyUpdate(n, u).incarnation])
  {
    if u.node == n.self && (u.typ.SuspectUpdate? || u.typ.DeadUpdate?) {
      RefuteTame(n, c);
    } else {
      assert c[n.self := n.incarnation] == c;
      if u.node != n.self { MergeCapped(n.members, u, c); }
    }
  }

  lemma {:induction false} ApplyUpdatesTame(n: Node, us: seq<Update>, c: Counters)
    requires Tame(n, c) && UpdatesCapped(us, c)
    ensures Raised(c, n, ApplyUpdates(n, us), c[n.self := ApplyUpdates(n, us).incarnation])
    ensures Tame(ApplyUpdates(n, us), c[n.self := ApplyUpdates(n, us).incarnation])
  {
    if us == [] {
      assert c[n.self := n.incarnation] == c;
    } else {
      var k := |us| - 1;
      var m := ApplyUpdates(n, us[..k]);
      ApplyUpdatesTame(n, us[..k], c);
      var d := c[n.self := m.incarnation];
      assert us[k] in us && Capped(us[k], d);
      ApplyUpdateTame(m, us[k], d);
      assert d[m.self := ApplyUpdates(n, us).incarnation] == c[n.self := ApplyUpdates(n, us).incarnation];
    }
  }

  lemma LearnSenderTame(n: Node, msg: Message, c: Counters)
    requires Tame(n, c)
    ensures Tame(LearnSender(n, msg), c) && LearnSender(n, msg).self == n.self
    ensures LearnSender(n, msg).incarnation == n.incarnation
  {
    if msg.sender != n.self && msg.sender !in n.members {
      EnqueueCapped(n.queue, Update(JoinUpdate, msg.sender, 0, AnnouncedPort(msg.updates, msg.sender)), c);
    }
  }

  lemma AbsorbTame(n: Node, msg: Message, c: Counters)
    requires Tame(n, c) && UpdatesCapped(msg.updates, c)
    ensures Raised(c, n, Absorb(n, msg), c[n.self := Absorb(n, msg).incarnation])
    ensures Tame(Absorb(n, msg), c[n.self := Absorb(n, msg).incarnation])
  {
    LearnSenderTame(n, msg, c);
    ApplyUpdatesTame(LearnSender(n, msg), msg.updates, c);
  }

  lemma DeclareTame(n: Node, id: NodeId, typ: UpdateType, c: Counters)
    requires Tame(n, c) && id != n.self
    ensures Tame(Declare(n, id, typ), c)
    ensures Declare(n, id, typ).self == n.self && Declare(n, id, typ).incarnation == n.incarnation
  {
    if id in n.members && UpdateAccepted(n.members, id, StateOf(typ), n.members[id].incarnation) {
      EnqueueCapped(n.queue, Update(typ, id, n.members[id].incarnation, 0), c);
    }
  }

  lemma {:induction false} ReapTame(n: Node, expired: seq<NodeId>, c: Counters)
    requires Tame(n, c)
    ensures Tame(Reap(n, expired), c)
    ensures Reap(n, expired).self == n.self && Reap(n, expired).incarnation == n.incarnation
  {
    if expired == [] {
    } else {
      var k := |expired| - 1;
      ReapTame(n, expired[..k], c);
      var m := Reap(n, expired[..k]);
      if expired[k] != m.self { DeclareTame(m, expired[k], DeadUpdate, c); }
    }
  }

  lemma PiggybacksTame(n: Node, n': Node, us: seq<Update>, c: Counters)
    requires Tame(n, c) && Piggybacks(n, n', us)
    ensures Tame(n', c) && UpdatesCapped(us, c)
  {
    GetUpdatesSources(n.queue, n.config.maxPiggyback, n.config.maxTransmissions, n'.queue, us);
  }

  /** A probe never targets the node itself; needed because a failed probe marks its target. */
  ghost predicate ProbesOthers(n: Node) {
    n.probe.Idle? || n.probe.target != n.self
  }

  ghost predicate PacketsCapped(out: seq<Packet>, c: Counters) {
    forall i :: 0 <= i < |out| ==> UpdatesCapped(out[i].msg.updates, c)
  }

  lemma ReceivesTame(n: Node, msg: Message, n': Node, out: seq<Packet>, log: seq<Event>, c: Counters)
    requires Tame(n, c) && UpdatesCapped(msg.updates, c) && Receives(n, msg, n', out, log)
    ensures Raised(c, n, n', c[n.self := n'.incarnation])
    ensures Tame(n', c[n.self := n'.incarnation])
    ensures PacketsCapped(out, c[n.self := n'.incarnation])
  {
    AbsorbTame(n, msg, c);
    if msg.typ.Ping? {
      PiggybacksTame(Absorb(n, msg), n', out[0].msg.updates, c[n.self := n'.incarnation]);
    }
  }

  /** The step lemma: incarnations stay below the counters, whatever the node does. */
  lemma LocalStepTame(n: Node, a: Action, n': Node, out: seq<Packet>, log: seq<Event>, c: Counters)
    requires Tame(n, c) && ProbesOthers(n) && LocalStep(n, a, n', out, log)
    requires a.Receive? ==> UpdatesCapped(a.msg.updates, c)
    ensures Raised(c, n, n', c[n.self := n'.incarnation])
    ensures Tame(n', c[n.self := n'.incarnation])
    ensures PacketsCapped(out, c[n.self := n'.incarnation])
  {
    if a.Receive? {
      ReceivesTame(n, a.msg, n', out, log, c);
    } else {
      assert c[n.self := n.incarnation] == c;
      match a
      case BeginProbe(target) =>
        PiggybacksTame(Expect(n).(probe := Direct(target, n.nextSeq)), n', out[0].msg.updates, c);
      case AskPeer =>
        PiggybacksTame(n.(probe := n.probe.(toAsk := n.probe.toAsk[1..])), n', out[0].msg.updates, c);
      case MarkSuspect =>
        DeclareTame(n, n.probe.target, SuspectUpdate, c);
      case ReapExpired(expired) =>
        ReapTame(n, expired, c);
      case _ =>
    }
  }

  // ---------------------------------------------------------------- what a step leaves alone

  lemma {:induction false} ApplyUpdatesFrame(n: Node, us: seq<Update>)
    ensures var m := ApplyUpdates(n, us);
            m == n.(incarnation := m.incarnation, members := m.members, queue := m.queue)
  {
    if us == [] {
    } else {
      ApplyUpdatesFrame(n, us[..|us| - 1]);
    }
  }

  lemma {:induction false} ReapFrame(n: Node, expired: seq<NodeId>)
    ensures var m := Reap(n, expired);
            m == n.(members := m.members, queue := m.queue)
  {
    if expired == [] {
    } else {
      ReapFrame(n, expired[..|expired| - 1]);
    }
  }

  lemma AbsorbFrame(n: Node, msg: Message)
    ensures var m := Absorb(n, msg);
            m == n.(incarnation := m.incarnation, members := m.members, queue := m.queue)
  {
    ApplyUpdatesFrame(LearnSender(n, msg), msg.updates);
  }

  lemma LocalStepProbesOthers(n: Node, a: Action, n': Node, out: seq<Packet>, log: seq<Event>)
    requires ProbesOthers(n) && LocalStep(n, a, n', out, log)
    ensures ProbesOthers(n')
  {
    match a
    case Receive(msg) => AbsorbFrame(n, msg);
    case ReapExpired(expired) => ReapFrame(n, expired);
    case _ =>
  }

  // ---------------------------------------------------------------- views only grow

  lemma {:induction false} ApplyUpdatesGrow(n: Node, us: seq<Update>)
    ensures Grows(n.members, ApplyUpdates(n, us).members)
  {
    if us == [] {
    } else {
      var m := ApplyUpdates(n, us[..|us| - 1]);
      ApplyUpdatesGrow(n, us[..|us| - 1]);
      var u := us[|us| - 1];
      if u.node != m.self {
        MergeGrows(m.members, u);
      } else {
        UpdateGrows(m.members, m.self, Alive, m.incarnation + 1);
      }
      GrowsTransitive(n.members, m.members, ApplyUpdates(n, us).members);
    }
  }

  lemma DeclareGrows(n: Node, id: NodeId, typ: UpdateType)
    ensures Grows(n.members, Declare(n, id, typ).members)
  {
  }

  lemma {:induction false} ReapGrows(n: Node, expired: seq<NodeId>)
    ensures Grows(n.members, Reap(n, expired).members)
  {
    if expired == [] {
    } else {
      var m := Reap(n, expired[..|expired| - 1]);
      ReapGrows(n, expired[..|expired| - 1]);
      DeclareGrows(m, expired[|expired| - 1], DeadUpdate);
      GrowsTransitive(n.members, m.members, Reap(n, expired).members);
    }
  }

  lemma AbsorbGrows(n: Node, msg: Message)
    ensures Grows(n.members, Absorb(n, msg).members)
  {
    var m := LearnSender(n, msg);
    AddGrows(n.members, NodeInfo(msg.sender, AnnouncedPort(msg.updates, msg.sender), Alive, 0));
    ApplyUpdatesGrow(m, msg.updates);
    GrowsTransitive(n.members, m.members, Absorb(n, msg).members);
  }

  /** An Ack proposes Alive at the incarnation already recorded, which is never accepted: it marks the
      pending probe and leaves the view of every member, suspected or not, as it was. */
  lemma AckNeverClearsSuspicion(n: Node, msg: Message)
    ensures OnAck(n, msg).members == n.members
  {
  }

  lemma LocalStepGrows(n: Node, a: Action, n': Node, out: seq<Packet>, log: seq<Event>)
    requires LocalStep(n, a, n', out, log)
    ensures Grows(n.members, n'.members)
  {
    match a
    case Receive(msg) => AbsorbGrows(n, msg);
    case MarkSuspect => DeclareGrows(n, n.probe.target, SuspectUpdate);
    case ReapExpired(expired) => ReapGrows(n, expired);
    case _ =>
  }

  // ---------------------------------------------------------------- merging many updates

  /** Applying a message's updates changes the view of every other node exactly as the join of the
      updates about it; refutations only touch the node's own record. */
  lemma {:induction false} ApplyUpdatesIsMerge(n: Node, us: seq<Update>, id: NodeId)
    requires id in n.members && id != n.self
    ensures id in ApplyUpdates(n, us).members && id in MergeAll(n.members, us)
    ensures ApplyUpdates(n, us).members[id] == MergeAll(n.members, us)[id]
  {
    if us == [] {
    } else {
      var k := |us| - 1;
      ApplyUpdatesIsMerge(n, us[..k], id);
      ApplyUpdatesFrame(n, us[..k]);
      ApplyUpdateIsMerge(ApplyUpdates(n, us[..k]), us[k], MergeAll(n.members, us[..k]), id);
    }
  }

  lemma ApplyUpdateIsMerge(n: Node, u: Update, m: Members, id: NodeId)
    requires id != n.self && id in n.members && id in m && n.members[id] == m[id]
    ensures id in ApplyUpdate(n, u).members && id in Merge(m, u)
    ensures ApplyUpdate(n, u).members[id] == Merge(m, u)[id]
  {
  }

  /** Two messages carrying the same updates in any order, any number of times each, leave a node with
      the same (incarnation, state) for every peer it already knew. */
  lemma ApplyUpdatesOrderIrrelevant(n: Node, us: seq<Update>, vs: seq<Update>, id: NodeId)
    requires id in n.members && id != n.self
    requires forall u :: u in us <==> u in vs
    ensures id in ApplyUpdates(n, us).members && id in ApplyUpdates(n, vs).members
    ensures SameStamp(ApplyUpdates(n, us).members[id], ApplyUpdates(n, vs).members[id])
  {
    ApplyUpdatesIsMerge(n, us, id);
    ApplyUpdatesIsMerge(n, vs, id);
    MergeOrderIrrelevant(n.members, us, vs, id);
  }
}

/** Any number of SWIM nodes over a network that loses, duplicates and reorders packets but forges
    none, and what holds in every run of them. Nodes may start at any time and never restart. */
module SwimCluster {
  import opened NodeInfos
  import opened MemberRules
  import opened GossipQueue
  import opened SwimNode
  import opened SwimIncarnations

  /** `net` holds every packet ever sent: a packet in it may be delivered never, once or often. */
  datatype Cluster = Cluster(nodes: map<NodeId, Node>, net: set<Packet>, log: seq<Event>)

  ghost predicate Init(c: Cluster) { c == Cluster(map[], {}, []) }

  ghost predicate Starts(c: Cluster, id: NodeId, config: Config, seed: Option<(NodeId, u16)>, c': Cluster) {
    id !in c.nodes && c' == c.(nodes := c.nodes[id := Boot(id, config, seed)])
  }

  ghost predicate Acts(c: Cluster, id: NodeId, a: Action, out: seq<Packet>, log: seq<Event>, c': Cluster) {
    && id in c.nodes && id in c'.nodes
    && (a.Receive? ==> Packet(id, a.msg) in c.net)
    && LocalStep(c.nodes[id], a, c'.nodes[id], out, log)
    && c' == Cluster(c.nodes[id := c'.nodes[id]], c.net + (set p | p in out), c.log + log)
  }

  datatype Move =
    | Start(config: Config, seed: Option<(NodeId, u16)>)
    | Act(action: Action, out: seq<Packet>, events: seq<Event>)

  ghost predicate Moves(c: Cluster, id: NodeId, m: Move, c': Cluster) {
    match m
    case Start(config, seed) => Starts(c, id, config, seed, c')
    case Act(a, out, log) => Acts(c, id, a, out, log, c')
  }

  ghost predicate Next(c: Cluster, c': Cluster) { exists id, m :: Moves(c, id, m, c') }

  ghost predicate Run(cs: seq<Cluster>) {
    && |cs| > 0 && Init(cs[0])
    && (forall i :: 0 <= i < |cs| - 1 ==> Next(cs[i], cs[i + 1]))
  }

  // ---------------------------------------------------------------- incarnations

  ghost function CountersOf(c: Cluster): Counters { map id | id in c.nodes :: c.nodes[id].incarnation }

  /** No view, queue or packet is above the counter of the node it is about, and every node sees
      itself alive at its own counter. */
  ghost predicate Bounded(c: Cluster) {
    && (forall id :: id in c.nodes ==> c.nodes[id].self == id && ProbesOthers(c.nodes[id]))
    && (forall id :: id in c.nodes ==> Tame(c.nodes[id], CountersOf(c)))
    && (forall p :: p in c.net ==> UpdatesCapped(p.msg.updates, CountersOf(c)))
  }

  /** Raising one counter keeps everything that was below the counters. */
  lemma RaiseKeepsCapped(n: Node, us: seq<Update>, c: Counters, id: NodeId, i: nat)
    requires Cap(c, id) <= i
    ensures Tame(n, c) && n.self != id ==> Tame(n, c[id := i])
    ensures UpdatesCapped(us, c) ==> UpdatesCapped(us, c[id := i])
  {
  }

  lemma BootTame(id: NodeId, config: Config, seed: Option<(NodeId, u16)>, d: Counters)
    ensures var n := Boot(id, config, seed);
            n.self == id && n.incarnation == 0 && ProbesOthers(n) && Tame(n, d[id := 0])
  {
  }

  lemma StartBounded(c: Cluster, id: NodeId, config: Config, seed: Option<(NodeId, u16)>, c': Cluster)
    requires Bounded(c) && Starts(c, id, config, seed, c')
    ensures Bounded(c')
  {
    hide Boot, Tame, ProbesOthers, UpdatesCapped;
    var d := CountersOf(c);
    BootTame(id, config, seed, d);
    assert CountersOf(c') == d[id := 0];
    forall x | x in c'.nodes && x != id ensures Tame(c'.nodes[x], CountersOf(c')) {
      RaiseKeepsCapped(c.nodes[x], [], d, id, 0);
    }
    forall p | p in c'.net ensures UpdatesCapped(p.msg.updates, CountersOf(c')) {
      RaiseKeepsCapped(Boot(id, config, seed), p.msg.updates, d, id, 0);
    }
  }

  lemma TameCounts(n: Node, c: Counters)
    requires Tame(n, c)
    ensures n.self in c && c[n.self] == n.incarnation
  {
  }

  lemma ActBounded(c: Cluster, id: NodeId, a: Action, out: seq<Packet>, log: seq<Event>, c': Cluster)
    requires Bounded(c) && Acts(c, id, a, out, log, c')
    ensures Bounded(c')
    ensures CountersOf(c') == CountersOf(c)[id := c'.nodes[id].incarnation]
    ensures c.nodes[id].incarnation <= c'.nodes[id].incarnation
  {
    hide LocalStep, Tame, ProbesOthers, UpdatesCapped;
    var n, n', d := c.nodes[id], c'.nodes[id], CountersOf(c);
    var i := n'.incarnation;
    TameCounts(n, d);
    LocalStepTame(n, a, n', out, log, d);
    LocalStepProbesOthers(n, a, n', out, log);
    assert CountersOf(c') == d[id := i];
    forall x | x in c'.nodes && x != id ensures Tame(c'.nodes[x], CountersOf(c')) {
      RaiseKeepsCapped(c.nodes[x], [], d, id, i);
    }
    forall p | p in c'.net ensures UpdatesCapped(p.msg.updates, CountersOf(c')) {
      if p in c.net {
        RaiseKeepsCapped(n, p.msg.updates, d, id, i);
      }
    }
  }

  lemma NextBounded(c: Cluster, c': Cluster)
    requires Bounded(c) && Next(c, c')
    ensures Bounded(c')
  {
    var id, m :| Moves(c, id, m, c');
    match m
    case Start(config, seed) => StartBounded(c, id, config, seed, c');
    case Act(a, out, log) => ActBounded(c, id, a, out, log, c');
  }

  /** In every run, at every moment. */
  lemma {:induction false} RunBounded(cs: seq<Cluster>, i: nat)
    requires Run(cs) && i < |cs|
    ensures Bounded(cs[i])
  {
    if i == 0 {
    } else {
      RunBounded(cs, i - 1);
      assert Next(cs[i - 1], cs[i - 1 + 1]);
      NextBounded(cs[i - 1], cs[i]);
    }
  }

  // ---------------------------------------------------------------- refutation

  /** Everything `n` believes or is about to gossip about `id` is from before incarnation `top`. */
  ghost predicate Outdated(n: Node, id: NodeId, top: nat) {
    && (id in n.members ==> n.members[id].incarnation < top)
    && (forall u :: u in UpdatesIn(n.queue) && u.node == id ==> u.incarnation < top)
  }

  ghost predicate PacketOutdated(p: Packet, id: NodeId, top: nat) {
    forall u :: u in p.msg.updates && u.node == id ==> u.incarnation < top
  }

  /** When a node raises its counter, the new value is above every view of it and every update about
      it that any other node holds or that is in the network at that moment. */
  lemma RefutationBeatsEveryView(cs: seq<Cluster>, i: nat, id: NodeId, c: Cluster, c': Cluster)
    requires Run(cs) && i + 1 < |cs| && c == cs[i] && c' == cs[i + 1]
    requires id in c.nodes && id in c'.nodes
    requires c.nodes[id].incarnation < c'.nodes[id].incarnation
    ensures forall x :: x in c'.nodes && x != id ==> Outdated(c'.nodes[x], id, c'.nodes[id].incarnation)
    ensures forall p :: p in c.net ==> PacketOutdated(p, id, c'.nodes[id].incarnation)
  {
    RunBounded(cs, i);
    assert Next(c, c');
    var who, m :| Moves(c, who, m, c');
    assert who == id && m.Act?;
    var top := c'.nodes[id].incarnation;
    assert Cap(CountersOf(c), id) < top;
    forall x | x in c'.nodes && x != id ensures Outdated(c'.nodes[x], id, top) {
      assert Tame(c.nodes[x], CountersOf(c));
    }
    forall p | p in c.net ensures PacketOutdated(p, id, top) {
      assert UpdatesCapped(p.msg.updates, CountersOf(c));
    }
  }

  /** A node whose view is outdated and hears the refutation takes the refuting node for alive. */
  lemma RefutationIsAdopted(n: Node, u: Update)
    requires u.typ.AliveUpdate? && u.node != n.self && Outdated(n, u.node, u.incarnation)
    ensures var m := ApplyUpdate(n, u).members;
            u.node in m && m[u.node] == NodeInfo(u.node, u.dataPort, Alive, u.incarnation)
  {
  }

  // ---------------------------------------------------------------- views over whole runs

  lemma NextGrows(c: Cluster, c': Cluster, id: NodeId)
    requires Next(c, c') && id in c.nodes
    ensures id in c'.nodes && Grows(c.nodes[id].members, c'.nodes[id].members)
  {
    var who, m :| Moves(c, who, m, c');
    if m.Act? && who == id {
      LocalStepGrows(c.nodes[id], m.action, c'.nodes[id], m.out, m.events);
    }
  }

  /** In every run a node never forgets a member, and each member's (incarnation, state) only grows. */
  lemma {:induction false} RunViewsGrow(cs: seq<Cluster>, i: nat, j: nat, id: NodeId)
    requires Run(cs) && i <= j < |cs| && id in cs[i].nodes
    ensures id in cs[j].nodes && Grows(cs[i].nodes[id].members, cs[j].nodes[id].members)
    decreases j - i
  {
    if i == j {
    } else {
      RunViewsGrow(cs, i, j - 1, id);
      assert Next(cs[j - 1], cs[j - 1 + 1]);
      NextGrows(cs[j - 1], cs[j], id);
      GrowsTransitive(cs[i].nodes[id].members, cs[j - 1].nodes[id].members, cs[j].nodes[id].members);
    }
  }

  /** Hence a peer once suspected or declared dead is taken for alive again only at a strictly higher
      incarnation, that is, after the peer itself raised its counter. */
  lemma RevivalNeedsRefutation(cs: seq<Cluster>, i: nat, j: nat, id: NodeId, peer: NodeId)
    requires Run(cs) && i <= j < |cs|
    requires id in cs[i].nodes && peer in cs[i].nodes[id].members
    requires !cs[i].nodes[id].members[peer].state.Alive?
    requires id in cs[j].nodes && peer in cs[j].nodes[id].members
    requires cs[j].nodes[id].members[peer].state.Alive?
    ensures cs[i].nodes[id].members[peer].incarnation < cs[j].nodes[id].members[peer].incarnation
    ensures peer in cs[j].nodes
    ensures cs[i].nodes[id].members[peer].incarnation < cs[j].nodes[peer].incarnation
  {
    RunViewsGrow(cs, i, j, id);
    RunBounded(cs, j);
    assert Tame(cs[j].nodes[id], CountersOf(cs[j]));
  }
}

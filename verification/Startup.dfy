/** How `main` (src/main.cpp:78-130) puts a node together: the ring follows the member list from the
    first member on, and the protocol starts in the state the cluster model calls `Boot`. */
module Startup {
  import opened NodeInfos
  import opened RingStores
  import opened MemberLists
  import opened Dissemination
  import opened SwimNode
  import opened SwimProtocols
  import RingSync

  ghost function StartOps(self: NodeId, config: Config, seed: Option<(NodeId, u16)>): seq<RingSync.MemberOp> {
    [RingSync.AddOp(NodeInfo(self, config.dataPort, Alive, 0))]
    + (if seed.Some? then [RingSync.AddOp(NodeInfo(seed.value.0, seed.value.1, Alive, 0))] else [])
  }

  method StartNode(self: NodeId, config: Config, seed: Option<(NodeId, u16)>, hash: TokenHash)
    returns (swim: SwimProtocol)
    ensures fresh(swim) && swim.Valid()
    ensures swim.State() == Boot(self, config, seed)
    ensures fresh(swim.members) && fresh(swim.disseminator)
    ensures swim.members.ring != null && fresh(swim.members.ring) && swim.members.ring.hash == hash
    ensures swim.members.history == StartOps(self, config, seed)
  {
    var ring := new RingStore(hash);
    var members := new MemberList(ring);
    var disseminator := new Disseminator(config.maxTransmissions);
    var _ := members.AddNode(NodeInfo(self, config.dataPort, Alive, 0));
    if seed.Some? {
      var _ := members.AddNode(NodeInfo(seed.value.0, seed.value.1, Alive, 0));
    }
    disseminator.Enqueue(Update(JoinUpdate, self, 0, config.dataPort));
    swim := new SwimProtocol(members, disseminator, self, config);
  }

  /** `states` and `outs` are what a node does when `choose` picks its actions, each a step of the model. */
  ghost predicate Follows(states: seq<Node>, choose: (nat, Node) -> Action, outs: seq<seq<Packet>>) {
    && |states| == |outs| + 1
    && forall i :: 0 <= i < |outs| ==> Acted(states[i], choose(i, states[i]), states[i + 1], outs[i])
  }

  ghost predicate Acted(n: Node, a: Action, n': Node, out: seq<Packet>) { exists log :: LocalStep(n, a, n', out, log) }

  /** A node from its start on, through any actions it can take, chosen in whatever way: it moves as the model
      says, and its ring routes to listed members that are neither dead nor left. */
  method RunNode(self: NodeId, config: Config, seed: Option<(NodeId, u16)>, hash: TokenHash,
                 choose: (nat, Node) -> Action, steps: nat)
    returns (swim: SwimProtocol, outs: seq<seq<Packet>>, ghost states: seq<Node>)
    requires forall i, n :: CanTake(n, choose(i, n))
    ensures fresh(swim) && swim.Valid() && |outs| == steps
    ensures Follows(states, choose, outs) && states[0] == Boot(self, config, seed) && states[steps] == swim.State()
    ensures swim.members.ring != null && RingSync.RoutesToMembers(swim.members.View())
  {
    hide CanTake, LocalStep, Boot;
    swim := StartNode(self, config, seed, hash);
    outs, states := [], [swim.State()];
    for i := 0 to steps
      invariant swim.Valid() && |outs| == i && Follows(states, choose, outs)
      invariant states[i] == swim.State() && states[0] == Boot(self, config, seed)
    {
      var a := choose(i, swim.State());
      var out;
      ghost var log;
      out, log := Step(swim, a);
      OneMoreAction(states, choose, outs, swim.State(), out, log);
      outs, states := outs + [out], states + [swim.State()];
    }
    RingSync.ReplayRoutes(swim.members.ring.hash, swim.members.history);
  }

  lemma OneMoreAction(states: seq<Node>, choose: (nat, Node) -> Action, outs: seq<seq<Packet>>, n': Node,
                      out: seq<Packet>, log: seq<Event>)
    requires Follows(states, choose, outs)
    requires LocalStep(states[|outs|], choose(|outs|, states[|outs|]), n', out, log)
    ensures Follows(states + [n'], choose, outs + [out])
  {
    hide LocalStep;
    assert Acted(states[|outs|], choose(|outs|, states[|outs|]), n', out);
    forall k | 0 <= k < |outs| ensures Acted(states[k], choose(k, states[k]), states[k + 1], outs[k]) {
    }
  }
}

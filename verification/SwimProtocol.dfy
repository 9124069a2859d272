/** The protocol object (src/membership/swim_protocol.cpp). Each method is the code between two
    suspension points of a coroutine; what the coroutine keeps on its frame is kept in `probe` and
    `relays`. Every method is proved to take the step of the same name in SwimNode. */
module SwimProtocols {
  import opened NodeInfos
  import opened SwimNode
  import opened MemberLists
  import opened Dissemination
  import GossipQueue

  class SwimProtocol {
    const self: NodeId
    const config: Config
    const members: MemberList
    const disseminator: Disseminator
    var incarnation: nat
    var seqCounter: nat
    var pendingAcks: map<nat, bool>
    var probe: Probe
    var relays: map<nat, Relay>

    ghost predicate Valid()
      reads members, members.ring
    {
      config.maxTransmissions == disseminator.maxTransmissions && members.Valid()
    }

    function State(): Node
      reads this, members, disseminator
    {
      Node(self, config, incarnation, seqCounter, members.nodes, disseminator.queue, pendingAcks, probe, relays)
    }

    constructor (members: MemberList, disseminator: Disseminator, self: NodeId, config: Config)
      requires config.maxTransmissions == disseminator.maxTransmissions && members.Valid()
      ensures Valid() && this.members == members && this.disseminator == disseminator
      ensures State() == Node(self, config, 0, 0, members.nodes, disseminator.queue, map[], Idle, map[])
    {
      this.members, this.disseminator, this.self, this.config := members, disseminator, self, config;
      incarnation, seqCounter, pendingAcks := 0, 0, map[];
      probe, relays := Idle, map[];
    }

    // -------------------------------------------------------------- receiving

    method ApplyUpdates(updates: seq<Update>)
      requires Valid()
      modifies this, members, members.ring, disseminator
      ensures Valid() && State() == SwimNode.ApplyUpdates(old(State()), updates)
    {
      for i := 0 to |updates|
        invariant Valid() && State() == SwimNode.ApplyUpdates(old(State()), updates[..i])
      {
        assert updates[..i + 1][..i] == updates[..i];
        ApplyUpdate(updates[i]);
      }
      assert updates[..|updates|] == updates;
    }

    method ApplyUpdate(u: Update)
      requires Valid()
      modifies this, members, members.ring, disseminator
      ensures Valid() && State() == SwimNode.ApplyUpdate(old(State()), u)
    {
      if u.node == self {
        if u.typ.SuspectUpdate? || u.typ.DeadUpdate? {
          incarnation := incarnation + 1;
          disseminator.Enqueue(Update(AliveUpdate, self, incarnation, config.dataPort));
          var _ := members.UpdateState(self, Alive, incarnation);
        }
        return;
      }
      if u.typ.JoinUpdate? || u.typ.AliveUpdate? {
        var _ := members.AddNode(NodeInfo(u.node, u.dataPort, Alive, u.incarnation));
      } else {
        var state := match u.typ case SuspectUpdate => Suspect case DeadUpdate => Dead case _ => Left;
        var _ := members.UpdateState(u.node, state, u.incarnation);
      }
    }

    method LearnSender(msg: Message)
      requires Valid()
      modifies this, members, members.ring, disseminator
      ensures Valid() && State() == SwimNode.LearnSender(old(State()), msg)
    {
      if msg.sender != self && msg.sender !in members.nodes {
        var port: u16 := 0;
        var i := 0;
        while i < |msg.updates|
          invariant 0 <= i <= |msg.updates| && port == 0
          invariant AnnouncedPort(msg.updates, msg.sender) == AnnouncedPort(msg.updates[i..], msg.sender)
        {
          if msg.updates[i].node == msg.sender && msg.updates[i].dataPort != 0 {
            port := msg.updates[i].dataPort;
            break;
          }
          i := i + 1;
        }
        var _ := members.AddNode(NodeInfo(msg.sender, port, Alive, 0));
        disseminator.Enqueue(Update(JoinUpdate, msg.sender, 0, port));
      }
    }

    method HandleMessage(msg: Message) returns (out: seq<Packet>, ghost log: seq<Event>)
      requires Valid()
      modifies this, members, members.ring, disseminator
      ensures Valid() && Receives(old(State()), msg, State(), out, log)
    {
      hide GossipQueue.GetUpdates;
      LearnSender(msg);
      ApplyUpdates(msg.updates);
      ghost var absorbed := State();
      assert absorbed == Absorb(old(State()), msg);
      match msg.typ {
        case Ping =>
          var us := disseminator.GetUpdates(config.maxPiggyback);
          assert Piggybacks(absorbed, State(), us);
          out := [Packet(msg.sender, Message(Ack, msg.seqNum, self, None, us))];
          log := [Answered(self, msg.sender, msg.seqNum)];
        case Ack =>
          OnAck(msg);
          out, log := [], [];
        case PingReq =>
          if msg.target.None? {
            out, log := [], [];
          } else {
            out, log := BeginRelay(msg.target.value, msg.sender, msg.seqNum);
          }
      }
    }

    method OnAck(msg: Message)
      requires Valid()
      modifies this, members, members.ring
      ensures Valid() && State() == SwimNode.OnAck(old(State()), msg)
    {
      if msg.seqNum in pendingAcks {
        pendingAcks := pendingAcks[msg.seqNum := true];
      }
      if msg.sender in members.nodes {
        var node := members.nodes[msg.sender];
        if node.state.Suspect? || node.state.Dead? {
          var _ := members.UpdateState(msg.sender, Alive, node.incarnation);
        }
      }
    }

    method BeginRelay(target: NodeId, requester: NodeId, origSeq: nat) returns (out: seq<Packet>, ghost log: seq<Event>)
      modifies this
      ensures State() == Expect(old(State())).(
                relays := old(relays)[old(seqCounter) := Relay(target, requester, origSeq, false)])
      ensures out == [Packet(target, Message(Ping, old(seqCounter), self, None, []))]
      ensures log == [Began(self, old(seqCounter), Relayed(requester, origSeq), target)]
    {
      var s := seqCounter;
      seqCounter := seqCounter + 1;
      pendingAcks := pendingAcks[s := false];
      relays := relays[s := Relay(target, requester, origSeq, false)];
      out := [Packet(target, Message(Ping, s, self, None, []))];
      log := [Began(self, s, Relayed(requester, origSeq), target)];
    }

    method EndRelay(s: nat) returns (out: seq<Packet>)
      requires s in relays && !relays[s].replied
      modifies this
      ensures EndsRelay(old(State()), s, State(), out)
    {
      if s in pendingAcks && pendingAcks[s] {
        out := [Packet(relays[s].requester, Message(Ack, relays[s].origSeq, self, None, []))];
        relays := relays[s := relays[s].(replied := true)];
      } else {
        out := [];
        pendingAcks := pendingAcks - {s};
        relays := relays - {s};
      }
    }

    method FinishRelay(s: nat)
      requires s in relays && relays[s].replied
      modifies this
      ensures FinishesRelay(old(State()), s, State())
    {
      pendingAcks := pendingAcks - {s};
      relays := relays - {s};
    }

    // -------------------------------------------------------------- probing

    method BeginDirectPing(target: NodeId) returns (out: seq<Packet>, ghost log: seq<Event>)
      requires Valid() && probe.Idle? && target in AlivePeers(State())
      modifies this, disseminator
      ensures BeginsProbe(old(State()), target, State(), out, log)
    {
      hide GossipQueue.GetUpdates;
      var s := seqCounter;
      seqCounter := seqCounter + 1;
      pendingAcks := pendingAcks[s := false];
      probe := Direct(target, s);
      var us := disseminator.GetUpdates(config.maxPiggyback);
      assert Piggybacks(Expect(old(State())).(probe := Direct(target, s)), State(), us);
      out := [Packet(target, Message(Ping, s, self, None, us))];
      log := [Began(self, s, DirectProbe, target)];
    }

    method EndDirectPing() returns (acked: bool)
      requires probe.Direct?
      modifies this
      ensures EndsDirect(old(State()), State()) && acked == Acked(old(State()), old(probe).seqNum)
    {
      acked := probe.seqNum in pendingAcks && pendingAcks[probe.seqNum];
      pendingAcks := pendingAcks - {probe.seqNum};
      probe := if acked then Idle else DirectFailed(probe.target);
    }

    method BeginIndirectPing(peers: seq<NodeId>) returns (ghost log: seq<Event>)
      requires probe.DirectFailed? && RandomPeers(State(), peers)
      modifies this
      ensures BeginsIndirect(old(State()), peers, State(), log)
    {
      if peers == [] {
        probe := IndirectFailed(probe.target);
        log := [];
        return;
      }
      var s := seqCounter;
      seqCounter := seqCounter + 1;
      pendingAcks := pendingAcks[s := false];
      log := [Began(self, s, IndirectProbe, probe.target)];
      probe := Indirect(probe.target, s, peers);
    }

    method AskPeer() returns (out: seq<Packet>)
      requires Valid() && probe.Indirect? && probe.toAsk != []
      modifies this, disseminator
      ensures AsksPeer(old(State()), State(), out)
    {
      hide GossipQueue.GetUpdates;
      var relay, target, s := probe.toAsk[0], probe.target, probe.seqNum;
      probe := probe.(toAsk := probe.toAsk[1..]);
      var us := disseminator.GetUpdates(config.maxPiggyback);
      assert Piggybacks(old(State()).(probe := probe), State(), us);
      out := [Packet(relay, Message(PingReq, s, self, Some(target), us))];
    }

    method EndIndirectPing() returns (acked: bool)
      requires probe.Indirect? && probe.toAsk == []
      modifies this
      ensures EndsIndirect(old(State()), State()) && acked == Acked(old(State()), old(probe).seqNum)
    {
      acked := probe.seqNum in pendingAcks && pendingAcks[probe.seqNum];
      pendingAcks := pendingAcks - {probe.seqNum};
      probe := if acked then Idle else IndirectFailed(probe.target);
    }

    method MarkSuspect()
      requires Valid() && probe.IndirectFailed?
      modifies this, members, members.ring, disseminator
      ensures Valid() && MarksSuspect(old(State()), State())
    {
      var target := probe.target;
      if target in members.nodes {
        var i := members.nodes[target].incarnation;
        var changed := members.UpdateState(target, Suspect, i);
        if changed {
          disseminator.Enqueue(Update(SuspectUpdate, target, i, 0));
        }
      }
      probe := Idle;
    }

    // -------------------------------------------------------------- the suspicion reaper

    /** `order` is the map's iteration order, `isExpired` what the clock says. */
    method ReapSuspects(order: seq<NodeId>, isExpired: NodeId -> bool)
      requires Valid()
      modifies members, members.ring, disseminator
      ensures Valid() && State() == Reap(old(State()), Expired(order, isExpired))
    {
      for k := 0 to |order|
        invariant Valid() && State() == Reap(old(State()), Expired(order[..k], isExpired))
      {
        var id := order[k];
        ExpiredStep(order, isExpired, k);
        if id != self && id in members.nodes && members.nodes[id].state.Suspect? && isExpired(id) {
          var i := members.nodes[id].incarnation;
          var changed := members.UpdateState(id, Dead, i);
          if changed {
            disseminator.Enqueue(Update(DeadUpdate, id, i, 0));
          }
        }
        ReapStep(old(State()), Expired(order[..k], isExpired), id);
      }
      assert order[..|order|] == order;
    }
  }

  /** Where the coroutines of a node must be for an action to be next. */
  ghost predicate CanTake(n: Node, a: Action) {
    match a
    case Receive(_) => true
    case BeginProbe(target) => n.probe.Idle? && target in AlivePeers(n)
    case EndDirect => n.probe.Direct?
    case BeginIndirect(peers) => n.probe.DirectFailed? && RandomPeers(n, peers)
    case AskPeer => n.probe.Indirect? && n.probe.toAsk != []
    case EndIndirect => n.probe.Indirect? && n.probe.toAsk == []
    case MarkSuspect => n.probe.IndirectFailed?
    case EndRelay(s) => s in n.relays && !n.relays[s].replied
    case FinishRelay(s) => s in n.relays && n.relays[s].replied
    case ReapExpired(_) => true
  }

  /** The object can take every action the model allows in its state, and takes the model's step. */
  method Step(swim: SwimProtocol, a: Action) returns (out: seq<Packet>, ghost log: seq<Event>)
    requires swim.Valid() && CanTake(swim.State(), a)
    modifies swim, swim.members, swim.members.ring, swim.disseminator
    ensures swim.Valid() && LocalStep(old(swim.State()), a, swim.State(), out, log)
  {
    out, log := [], [];
    match a {
      case Receive(msg) => out, log := swim.HandleMessage(msg);
      case BeginProbe(target) => out, log := swim.BeginDirectPing(target);
      case EndDirect => var _ := swim.EndDirectPing();
      case BeginIndirect(peers) => log := swim.BeginIndirectPing(peers);
      case AskPeer => out := swim.AskPeer();
      case EndIndirect => var _ := swim.EndIndirectPing();
      case MarkSuspect => swim.MarkSuspect();
      case EndRelay(s) => out := swim.EndRelay(s);
      case FinishRelay(s) => swim.FinishRelay(s);
      case ReapExpired(expired) =>
        AllExpired(expired);
        swim.ReapSuspects(expired, _ => true);
    }
  }

  lemma LocalStepCanBeTaken(n: Node, a: Action, n': Node, out: seq<Packet>, log: seq<Event>)
    requires LocalStep(n, a, n', out, log)
    ensures CanTake(n, a)
  {
  }

  lemma {:induction false} AllExpired(ids: seq<NodeId>)
    ensures Expired(ids, _ => true) == ids
  {
    if ids == [] {
    } else {
      AllExpired(ids[..|ids| - 1]);
    }
  }

  function Expired(order: seq<NodeId>, isExpired: NodeId -> bool): seq<NodeId> {
    if order == [] then []
    else
      var last := order[|order| - 1];
      Expired(order[..|order| - 1], isExpired) + (if isExpired(last) then [last] else [])
  }

  lemma ExpiredStep(order: seq<NodeId>, isExpired: NodeId -> bool, k: nat)
    requires k < |order|
    ensures Expired(order[..k + 1], isExpired) ==
            Expired(order[..k], isExpired) + (if isExpired(order[k]) then [order[k]] else [])
  {
    assert order[..k + 1][..k] == order[..k];
  }

  lemma ReapStep(n: Node, ids: seq<NodeId>, id: NodeId)
    ensures Reap(n, ids + [id]) ==
            var m := Reap(n, ids);
            if id != m.self && id in m.members && m.members[id].state.Suspect? then Declare(m, id, DeadUpdate) else m
    ensures Reap(n, ids + []) == Reap(n, ids)
  {
    assert (ids + [id])[..|ids|] == ids;
    assert ids + [] == ids;
  }
}

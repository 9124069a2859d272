/** One node of the SWIM protocol (src/membership/swim_protocol.cpp) as values: its state, the
    messages it exchanges, and every step it can take between two suspension points. */
module SwimNode {
  import opened NodeInfos
  import opened Sequences
  import opened MemberRules
  import opened GossipQueue

  /** Timeouts are not part of the model: a timer may fire at any time. */
  datatype Config = Config(indirectPeers: nat, maxPiggyback: nat, maxTransmissions: nat, dataPort: u16)

  /** Where the probe loop is suspended. */
  datatype Probe =
    | Idle
    | Direct(target: NodeId, seqNum: nat)
    | DirectFailed(target: NodeId)
    | Indirect(target: NodeId, seqNum: nat, toAsk: seq<NodeId>)
    | IndirectFailed(target: NodeId)

  /** A suspended `relay_ping`: waiting for its timeout or, once it has `replied`, for its reply to be
      sent. */
  datatype Relay = Relay(target: NodeId, requester: NodeId, origSeq: nat, replied: bool)

  datatype Node = Node(
    self: NodeId,
    config: Config,
    incarnation: nat,
    nextSeq: nat,
    members: Members,
    queue: seq<Entry>,
    pending: map<nat, bool>,
    probe: Probe,
    relays: map<nat, Relay>)

  datatype Packet = Packet(dest: NodeId, msg: Message)

  /** Why a sequence number was drawn. */
  datatype Purpose = DirectProbe | IndirectProbe | Relayed(requester: NodeId, origSeq: nat)

  /** History, recorded only to state what probes mean. */
  datatype Event =
    | Began(node: NodeId, seqNum: nat, purpose: Purpose, target: NodeId)
    | Answered(node: NodeId, sender: NodeId, seqNum: nat)

  /** A node as `main` starts it: it knows itself and perhaps one seed, and announces itself. */
  function Boot(self: NodeId, config: Config, seed: Option<(NodeId, u16)>): Node {
    var own := AddNode(map[], NodeInfo(self, config.dataPort, Alive, 0));
    Node(self, config, 0, 0,
         if seed.Some? then AddNode(own, NodeInfo(seed.value.0, seed.value.1, Alive, 0)) else own,
         Enqueue([], Update(JoinUpdate, self, 0, config.dataPort)),
         map[], Idle, map[])
  }

  // ---------------------------------------------------------------- receiving

  function Refute(n: Node): Node {
    var i := n.incarnation + 1;
    n.(incarnation := i,
       queue := Enqueue(n.queue, Update(AliveUpdate, n.self, i, n.config.dataPort)),
       members := UpdateState(n.members, n.self, Alive, i))
  }

  function ApplyUpdate(n: Node, u: Update): Node {
    if u.node == n.self then
      if u.typ.SuspectUpdate? || u.typ.DeadUpdate? then Refute(n) else n
    else n.(members := Merge(n.members, u))
  }

  function ApplyUpdates(n: Node, us: seq<Update>): Node {
    if us == [] then n else ApplyUpdate(ApplyUpdates(n, us[..|us| - 1]), us[|us| - 1])
  }

  /** The data port announced for `id` by the first update that gives one. */
  function AnnouncedPort(us: seq<Update>, id: NodeId): u16 {
    if us == [] then 0
    else if us[0].node == id && us[0].dataPort != 0 then us[0].dataPort
    else AnnouncedPort(us[1..], id)
  }

  function LearnSender(n: Node, msg: Message): Node {
    if msg.sender != n.self && msg.sender !in n.members then
      var port := AnnouncedPort(msg.updates, msg.sender);
      n.(members := AddNode(n.members, NodeInfo(msg.sender, port, Alive, 0)),
         queue := Enqueue(n.queue, Update(JoinUpdate, msg.sender, 0, port)))
    else n
  }

  function Absorb(n: Node, msg: Message): Node {
    ApplyUpdates(LearnSender(n, msg), msg.updates)
  }

  function OnAck(n: Node, msg: Message): Node {
    n.(pending := if msg.seqNum in n.pending then n.pending[msg.seqNum := true] else n.pending,
       members :=
         if msg.sender in n.members
            && (n.members[msg.sender].state.Suspect? || n.members[msg.sender].state.Dead?)
         then UpdateState(n.members, msg.sender, Alive, n.members[msg.sender].incarnation)
         else n.members)
  }

  /** Draws a fresh sequence number and waits for its acknowledgement. */
  function Expect(n: Node): Node {
    n.(nextSeq := n.nextSeq + 1, pending := n.pending[n.nextSeq := false])
  }

  /** `m` follows from `n` by taking piggyback updates `us` off the queue. */
  ghost predicate Piggybacks(n: Node, n': Node, us: seq<Update>) {
    && GetUpdates(n.queue, n.config.maxPiggyback, n.config.maxTransmissions, n'.queue, us)
    && n' == n.(queue := n'.queue)
  }

  ghost predicate Receives(n: Node, msg: Message, n': Node, out: seq<Packet>, log: seq<Event>) {
    var a := Absorb(n, msg);
    match msg.typ
    case Ping =>
      && |out| == 1
      && Piggybacks(a, n', out[0].msg.updates)
      && out[0] == Packet(msg.sender, Message(Ack, msg.seqNum, n.self, None, out[0].msg.updates))
      && log == [Answered(n.self, msg.sender, msg.seqNum)]
    case Ack =>
      n' == OnAck(a, msg) && out == [] && log == []
    case PingReq =>
      match msg.target
      case None => n' == a && out == [] && log == []
      case Some(target) =>
        && n' == Expect(a).(relays := a.relays[a.nextSeq := Relay(target, msg.sender, msg.seqNum, false)])
        && out == [Packet(target, Message(Ping, a.nextSeq, n.self, None, []))]
        && log == [Began(n.self, a.nextSeq, Relayed(msg.sender, msg.seqNum), target)]
  }

  // ---------------------------------------------------------------- probing

  function AlivePeers(n: Node): set<NodeId> {
    set id | id in n.members && id != n.self && n.members[id].state.Alive?
  }

  ghost predicate BeginsProbe(n: Node, target: NodeId, n': Node, out: seq<Packet>, log: seq<Event>) {
    && n.probe.Idle?
    && target in AlivePeers(n)
    && |out| == 1
    && Piggybacks(Expect(n).(probe := Direct(target, n.nextSeq)), n', out[0].msg.updates)
    && out[0] == Packet(target, Message(Ping, n.nextSeq, n.self, None, out[0].msg.updates))
    && log == [Began(n.self, n.nextSeq, DirectProbe, target)]
  }

  predicate Acked(n: Node, s: nat) { s in n.pending && n.pending[s] }

  function Forget(n: Node, s: nat): Node { n.(pending := n.pending - {s}) }

  ghost predicate EndsDirect(n: Node, n': Node) {
    && n.probe.Direct?
    && n' == Forget(n, n.probe.seqNum).(
               probe := if Acked(n, n.probe.seqNum) then Idle else DirectFailed(n.probe.target))
  }

  /** `random_peers`: all alive peers if there are at most k, otherwise k of them. */
  ghost predicate RandomPeers(n: Node, peers: seq<NodeId>) {
    && Distinct(peers)
    && (forall i :: 0 <= i < |peers| ==> peers[i] in AlivePeers(n))
    && |peers| == Min(n.config.indirectPeers, |AlivePeers(n)|)
  }

  ghost predicate BeginsIndirect(n: Node, peers: seq<NodeId>, n': Node, log: seq<Event>) {
    && n.probe.DirectFailed?
    && RandomPeers(n, peers)
    && var target := n.probe.target;
       if peers == [] then
         n' == n.(probe := IndirectFailed(target)) && log == []
       else
         && n' == Expect(n).(probe := Indirect(target, n.nextSeq, peers))
         && log == [Began(n.self, n.nextSeq, IndirectProbe, target)]
  }

  ghost predicate AsksPeer(n: Node, n': Node, out: seq<Packet>) {
    && n.probe.Indirect? && n.probe.toAsk != []
    && |out| == 1
    && Piggybacks(n.(probe := n.probe.(toAsk := n.probe.toAsk[1..])), n', out[0].msg.updates)
    && out[0] == Packet(n.probe.toAsk[0],
                        Message(PingReq, n.probe.seqNum, n.self, Some(n.probe.target), out[0].msg.updates))
  }

  ghost predicate EndsIndirect(n: Node, n': Node) {
    && n.probe.Indirect? && n.probe.toAsk == []
    && n' == Forget(n, n.probe.seqNum).(
               probe := if Acked(n, n.probe.seqNum) then Idle else IndirectFailed(n.probe.target))
  }

  /** Records a stronger state at the incarnation already known, and gossips it if it was accepted. */
  function Declare(n: Node, id: NodeId, typ: UpdateType): Node {
    if id in n.members && UpdateAccepted(n.members, id, StateOf(typ), n.members[id].incarnation) then
      var i := n.members[id].incarnation;
      n.(members := UpdateState(n.members, id, StateOf(typ), i),
         queue := Enqueue(n.queue, Update(typ, id, i, 0)))
    else n
  }

  ghost predicate MarksSuspect(n: Node, n': Node) {
    && n.probe.IndirectFailed?
    && n' == Declare(n, n.probe.target, SuspectUpdate).(probe := Idle)
  }

  function DropRelay(n: Node, s: nat): Node { Forget(n, s).(relays := n.relays - {s}) }

  /** The relay's timeout: an acknowledged relay replies and is suspended in that send, its number still
      pending; any other ends. */
  ghost predicate EndsRelay(n: Node, s: nat, n': Node, out: seq<Packet>) {
    && s in n.relays && !n.relays[s].replied
    && var r := n.relays[s];
       if Acked(n, s) then
         && n' == n.(relays := n.relays[s := r.(replied := true)])
         && out == [Packet(r.requester, Message(Ack, r.origSeq, n.self, None, []))]
       else
         n' == DropRelay(n, s) && out == []
  }

  ghost predicate FinishesRelay(n: Node, s: nat, n': Node) {
    s in n.relays && n.relays[s].replied && n' == DropRelay(n, s)
  }

  /** One turn of the reaper over the suspects whose time is up, in iteration order. */
  function Reap(n: Node, expired: seq<NodeId>): Node {
    if expired == [] then n
    else
      var m := Reap(n, expired[..|expired| - 1]);
      var id := expired[|expired| - 1];
      if id != m.self && id in m.members && m.members[id].state.Suspect? then Declare(m, id, DeadUpdate) else m
  }

  // ---------------------------------------------------------------- all steps

  datatype Action =
    | Receive(msg: Message)
    | BeginProbe(probed: NodeId)
    | EndDirect
    | BeginIndirect(peers: seq<NodeId>)
    | AskPeer
    | EndIndirect
    | MarkSuspect
    | EndRelay(localSeq: nat)
    | FinishRelay(localSeq: nat)
    | ReapExpired(expired: seq<NodeId>)

  ghost predicate LocalStep(n: Node, a: Action, n': Node, out: seq<Packet>, log: seq<Event>) {
    match a
    case Receive(msg) => Receives(n, msg, n', out, log)
    case BeginProbe(target) => BeginsProbe(n, target, n', out, log)
    case EndDirect => EndsDirect(n, n') && out == [] && log == []
    case BeginIndirect(peers) => BeginsIndirect(n, peers, n', log) && out == []
    case AskPeer => AsksPeer(n, n', out) && log == []
    case EndIndirect => EndsIndirect(n, n') && out == [] && log == []
    case MarkSuspect => MarksSuspect(n, n') && out == [] && log == []
    case EndRelay(s) => EndsRelay(n, s, n', out) && log == []
    case FinishRelay(s) => FinishesRelay(n, s, n') && out == [] && log == []
    case ReapExpired(expired) => n' == Reap(n, expired) && out == [] && log == []
  }
}

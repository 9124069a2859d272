/** Identifiers and membership records shared by the whole model
    (src/membership/node_info.h, src/membership/swim_message.h). */
module NodeInfos {

  datatype Option<+T> = None | Some(value: T)

  newtype byte = x: int | 0 <= x < 0x100
  type u16 = x: nat | x < 0x1_0000
  type u32 = x: nat | x < 0x1_0000_0000

  /** Cache keys and values are byte strings. */
  type Key = seq<byte>
  type Value = seq<byte>

  /** A node is named by its host string (as bytes) and its gossip port. */
  datatype NodeId = NodeId(host: seq<byte>, gossipPort: u16)

  datatype NodeState = Alive | Suspect | Dead | Left

  /** The numeric value of the C++ enumerators. */
  function Rank(s: NodeState): nat {
    match s
    case Alive => 0
    case Suspect => 1
    case Dead => 2
    case Left => 3
  }

  predicate StateSupersedes(proposed: NodeState, current: NodeState) {
    Rank(proposed) > Rank(current)
  }

  /** `last_state_change` is a clock value and is not part of the model. */
  datatype NodeInfo = NodeInfo(id: NodeId, dataPort: u16, state: NodeState, incarnation: nat)

  /** What one node knows about its peers. */
  type Members = map<NodeId, NodeInfo>

  datatype UpdateType = JoinUpdate | AliveUpdate | SuspectUpdate | DeadUpdate | LeaveUpdate

  function UpdateCode(t: UpdateType): (code: nat)
    ensures code < 5
  {
    match t
    case JoinUpdate => 0
    case AliveUpdate => 1
    case SuspectUpdate => 2
    case DeadUpdate => 3
    case LeaveUpdate => 4
  }

  datatype Update = Update(typ: UpdateType, node: NodeId, incarnation: nat, dataPort: u16)

  datatype MessageType = Ping | Ack | PingReq

  datatype Message = Message(
    typ: MessageType,
    seqNum: nat,
    sender: NodeId,
    target: Option<NodeId>,
    updates: seq<Update>)
}

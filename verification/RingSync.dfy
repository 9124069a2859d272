/** The ring driven from membership: the callback `main` installs (src/main.cpp:84-91) and what it
    keeps true over every sequence of member-list operations. */
module RingSync {
  import opened NodeInfos
  import opened MemberRules
  import opened RingRules
  import opened RingStores

  datatype View = View(members: Members, ring: Ring<NodeId>)

  datatype MemberOp =
    | AddOp(info: NodeInfo)
    | UpdateOp(id: NodeId, state: NodeState, incarnation: nat)
    | RemoveOp(id: NodeId)

  /** What the callback does to the ring when a member changes. */
  function OnChange(hash: TokenHash, ring: Ring<NodeId>, id: NodeId, state: NodeState): Ring<NodeId> {
    match state
    case Alive => AddTokens(ring, id, TokensOf(hash, id, DEFAULT_VNODES))
    case Suspect => ring
    case Dead => RemoveOwner(ring, id)
    case Left => RemoveOwner(ring, id)
  }

  function Apply(hash: TokenHash, v: View, op: MemberOp): View {
    match op
    case AddOp(info) =>
      if AddAccepted(v.members, info)
      then View(AddNode(v.members, info), OnChange(hash, v.ring, info.id, info.state))
      else v
    case UpdateOp(id, state, incarnation) =>
      if UpdateAccepted(v.members, id, state, incarnation)
      then View(UpdateState(v.members, id, state, incarnation), OnChange(hash, v.ring, id, state))
      else v
    case RemoveOp(id) =>
      if id in v.members
      then View(RemoveNode(v.members, id), OnChange(hash, v.ring, id, Dead))
      else v
  }

  /** The view after a sequence of operations on an empty list. */
  function Replay(hash: TokenHash, ops: seq<MemberOp>): View {
    if ops == [] then View(map[], map[]) else Apply(hash, Replay(hash, ops[..|ops| - 1]), ops[|ops| - 1])
  }

  // ---------------------------------------------------------------- keys never route to the dead

  /** Every token belongs to a listed member that is alive or merely suspected. */
  ghost predicate RoutesToMembers(v: View) {
    forall t :: t in v.ring ==>
      v.ring[t] in v.members && (v.members[v.ring[t]].state.Alive? || v.members[v.ring[t]].state.Suspect?)
  }

  lemma ApplyKeepsRoutes(hash: TokenHash, v: View, op: MemberOp)
    requires RoutesToMembers(v)
    ensures RoutesToMembers(Apply(hash, v, op))
  {
  }

  /** After any operations at all, whatever the hash function. */
  lemma {:induction false} ReplayRoutes(hash: TokenHash, ops: seq<MemberOp>)
    ensures RoutesToMembers(Replay(hash, ops))
  {
    if ops == [] {
    } else {
      ReplayRoutes(hash, ops[..|ops| - 1]);
      ApplyKeepsRoutes(hash, Replay(hash, ops[..|ops| - 1]), ops[|ops| - 1]);
    }
  }

  /** So the owner of any key is a member the coordinator can look up, and it is not dead. */
  lemma OwnerIsLiveMember(hash: TokenHash, ops: seq<MemberOp>, h: u32)
    requires Replay(hash, ops).ring != map[]
    ensures var v := Replay(hash, ops);
            && OwnerAt(v.ring, h) in v.members
            && !v.members[OwnerAt(v.ring, h)].state.Dead? && !v.members[OwnerAt(v.ring, h)].state.Left?
  {
    ReplayRoutes(hash, ops);
  }

  // ---------------------------------------------------------------- alive members own their tokens

  ghost predicate OwnsAllTokens(hash: TokenHash, ring: Ring<NodeId>, id: NodeId) {
    forall i :: 0 <= i < DEFAULT_VNODES ==> hash(id, i) in ring && ring[hash(id, i)] == id
  }

  ghost predicate AliveOwnTokens(hash: TokenHash, v: View) {
    forall id :: id in v.members && v.members[id].state.Alive? ==> OwnsAllTokens(hash, v.ring, id)
  }

  ghost predicate Collide(hash: TokenHash, a: NodeId, b: NodeId) {
    exists i, j :: 0 <= i < DEFAULT_VNODES && 0 <= j < DEFAULT_VNODES && hash(a, i) == hash(b, j)
  }

  ghost predicate NoCollisions(hash: TokenHash, ids: iset<NodeId>) {
    forall a, b :: a in ids && b in ids && a != b ==> !Collide(hash, a, b)
  }

  function OpNode(op: MemberOp): NodeId {
    match op
    case AddOp(info) => info.id
    case UpdateOp(id, _, _) => id
    case RemoveOp(id) => id
  }

  ghost predicate OpsAbout(ops: seq<MemberOp>, ids: iset<NodeId>) {
    forall i :: 0 <= i < |ops| ==> OpNode(ops[i]) in ids
  }

  lemma OnChangeKeepsTokens(hash: TokenHash, ring: Ring<NodeId>, id: NodeId, state: NodeState, other: NodeId)
    requires other != id && OwnsAllTokens(hash, ring, other) && !Collide(hash, other, id)
    ensures OwnsAllTokens(hash, OnChange(hash, ring, id, state), other)
  {
  }

  lemma OnChangeGivesTokens(hash: TokenHash, ring: Ring<NodeId>, id: NodeId)
    ensures OwnsAllTokens(hash, OnChange(hash, ring, id, Alive), id)
  {
  }

  lemma ApplyKeepsTokens(hash: TokenHash, v: View, op: MemberOp, ids: iset<NodeId>)
    requires NoCollisions(hash, ids) && OpNode(op) in ids && (forall id :: id in v.members ==> id in ids)
    requires AliveOwnTokens(hash, v)
    ensures AliveOwnTokens(hash, Apply(hash, v, op))
    ensures forall id :: id in Apply(hash, v, op).members ==> id in ids
  {
    var v', x := Apply(hash, v, op), OpNode(op);
    if v' != v {
      forall id | id in v'.members && v'.members[id].state.Alive? ensures OwnsAllTokens(hash, v'.ring, id) {
        if id == x {
          OnChangeGivesTokens(hash, v.ring, id);
        } else {
          var state := match op case AddOp(info) => info.state case UpdateOp(_, s, _) => s case RemoveOp(_) => Dead;
          OnChangeKeepsTokens(hash, v.ring, x, state, id);
        }
      }
    }
  }

  lemma {:induction false} ReplayTokens(hash: TokenHash, ops: seq<MemberOp>, ids: iset<NodeId>)
    requires NoCollisions(hash, ids) && OpsAbout(ops, ids)
    ensures AliveOwnTokens(hash, Replay(hash, ops))
    ensures forall id :: id in Replay(hash, ops).members ==> id in ids
  {
    if ops == [] {
    } else {
      var n := |ops| - 1;
      ReplayTokens(hash, ops[..n], ids);
      ApplyKeepsTokens(hash, Replay(hash, ops[..n]), ops[n], ids);
    }
  }

  /** Two nodes with a token in common: adding both leaves the first without it. */
  lemma CollisionLosesToken(hash: TokenHash, a: NodeId, b: NodeId)
    requires a != b && Collide(hash, a, b)
    ensures !AliveOwnTokens(hash, Replay(hash, [AddOp(NodeInfo(a, 0, Alive, 0)), AddOp(NodeInfo(b, 0, Alive, 0))]))
  {
    var i, j :| 0 <= i < DEFAULT_VNODES && 0 <= j < DEFAULT_VNODES && hash(a, i) == hash(b, j);
    var x, y := AddOp(NodeInfo(a, 0, Alive, 0)), AddOp(NodeInfo(b, 0, Alive, 0));
    var one, two := [x], [x, y];
    assert one[..0] == [] && two[..1] == one;
    var v, w := Replay(hash, one), Replay(hash, two);
    assert v == Apply(hash, Replay(hash, one[..0]), x);
    assert w == Apply(hash, Replay(hash, two[..1]), y);
    assert v.members == map[a := NodeInfo(a, 0, Alive, 0)];
    assert a in w.members && w.members[a].state.Alive?;
    OnChangeGivesTokens(hash, v.ring, b);
    assert w.ring == OnChange(hash, v.ring, b, Alive);
    assert w.ring[hash(b, j)] == b;
    assert !OwnsAllTokens(hash, w.ring, a);
  }

  /** Alive members own all their tokens in every history about the given nodes exactly when no two of
      these nodes have a token in common. */
  lemma TokensOwnedIffNoCollisions(hash: TokenHash, ids: iset<NodeId>)
    ensures NoCollisions(hash, ids) <==>
            forall ops: seq<MemberOp> :: OpsAbout(ops, ids) ==> AliveOwnTokens(hash, Replay(hash, ops))
  {
    if NoCollisions(hash, ids) {
      forall ops: seq<MemberOp> | OpsAbout(ops, ids) ensures AliveOwnTokens(hash, Replay(hash, ops)) {
        ReplayTokens(hash, ops, ids);
      }
    } else {
      var a, b :| a in ids && b in ids && a != b && Collide(hash, a, b);
      CollisionLosesToken(hash, a, b);
      assert OpsAbout([AddOp(NodeInfo(a, 0, Alive, 0)), AddOp(NodeInfo(b, 0, Alive, 0))], ids);
    }
  }

  // ---------------------------------------------------------------- suspected members

  /** None of the node's tokens is on the ring as its own. */
  ghost predicate OffRing(ring: Ring<NodeId>, id: NodeId) { forall t :: t in ring ==> ring[t] != id }

  /** A suspected member need not be on the ring: one that was dead before stays off it. */
  lemma SuspectAfterDeathStaysOff(hash: TokenHash, id: NodeId)
    ensures var ops := [AddOp(NodeInfo(id, 0, Alive, 0)), UpdateOp(id, Dead, 0), UpdateOp(id, Suspect, 1)];
            var v := Replay(hash, ops);
            id in v.members && v.members[id].state.Suspect? && OffRing(v.ring, id)
  {
    var ops := [AddOp(NodeInfo(id, 0, Alive, 0)), UpdateOp(id, Dead, 0), UpdateOp(id, Suspect, 1)];
    assert ops[..1][..0] == [] && ops[..2][..1] == ops[..1] && ops[..3] == ops && ops[..3][..2] == ops[..2];
    var one, two := Replay(hash, ops[..1]), Replay(hash, ops[..2]);
    assert one == Apply(hash, Replay(hash, []), ops[0]) && two == Apply(hash, one, ops[1]);
    assert two.members[id] == NodeInfo(id, 0, Dead, 0);
  }

  /** The last state other than Suspect that the member had since it was listed, if any. */
  ghost function Settled(hash: TokenHash, ops: seq<MemberOp>, id: NodeId): Option<NodeState> {
    if ops == [] then None
    else
      var members := Replay(hash, ops).members;
      if id !in members then None
      else if !members[id].state.Suspect? then Some(members[id].state)
      else Settled(hash, ops[..|ops| - 1], id)
  }

  lemma SettledOfUnlisted(hash: TokenHash, ops: seq<MemberOp>, id: NodeId)
    requires id !in Replay(hash, ops).members
    ensures Settled(hash, ops, id) == None
  {
  }

  /** In every history without collisions a listed member, suspected or not, owns its tokens exactly when
      it was alive last, suspicion aside, and otherwise owns none. */
  lemma {:induction false} OnRingIffSettledAlive(hash: TokenHash, ops: seq<MemberOp>, ids: iset<NodeId>, id: NodeId)
    requires NoCollisions(hash, ids) && OpsAbout(ops, ids) && id in ids
    ensures var v := Replay(hash, ops);
            if Settled(hash, ops, id) == Some(Alive) then OwnsAllTokens(hash, v.ring, id) else OffRing(v.ring, id)
  {
    if ops == [] {
    } else {
      var n := |ops| - 1;
      OnRingIffSettledAlive(hash, ops[..n], ids, id);
      ReplayRoutes(hash, ops[..n]);
      if id !in Replay(hash, ops[..n]).members { SettledOfUnlisted(hash, ops[..n], id); }
      OnRingStep(hash, Replay(hash, ops[..n]), ops[n], ids, id);
    }
  }

  /** What one operation does to a member's place on the ring. */
  lemma OnRingStep(hash: TokenHash, v: View, op: MemberOp, ids: iset<NodeId>, id: NodeId)
    requires NoCollisions(hash, ids) && OpNode(op) in ids && id in ids && RoutesToMembers(v)
    ensures var v' := Apply(hash, v, op);
            && (OpNode(op) != id || v' == v ==>
                  (id in v.members <==> id in v'.members) && (id in v.members ==> v'.members[id] == v.members[id])
                  && (OwnsAllTokens(hash, v.ring, id) ==> OwnsAllTokens(hash, v'.ring, id))
                  && (OffRing(v.ring, id) ==> OffRing(v'.ring, id)))
            && (OpNode(op) == id && v' != v ==>
                  && (id !in v'.members ==> OffRing(v'.ring, id))
                  && (id in v'.members ==>
                        match v'.members[id].state
                        case Alive => OwnsAllTokens(hash, v'.ring, id)
                        case Suspect => v'.ring == v.ring
                        case _ => OffRing(v'.ring, id)))
  {
    if OpNode(op) == id {
      OnChangeGivesTokens(hash, v.ring, id);
    } else if OwnsAllTokens(hash, v.ring, id) {
      var state := match op case AddOp(info) => info.state case UpdateOp(_, s, _) => s case RemoveOp(_) => Dead;
      OnChangeKeepsTokens(hash, v.ring, OpNode(op), state, id);
    }
  }

  /** So for a member that becomes suspected the state before the call decides. */
  lemma SuspectOnRingIffWasAlive(hash: TokenHash, ops: seq<MemberOp>, ids: iset<NodeId>, id: NodeId, i: nat)
    requires NoCollisions(hash, ids) && OpsAbout(ops, ids)
    requires var m := Replay(hash, ops).members; UpdateAccepted(m, id, Suspect, i) && !m[id].state.Suspect?
    ensures var v := Replay(hash, ops); var v' := Apply(hash, v, UpdateOp(id, Suspect, i));
            && v'.members[id].state.Suspect?
            && (OwnsAllTokens(hash, v'.ring, id) <==> v.members[id].state.Alive?)
            && (OffRing(v'.ring, id) <==> !v.members[id].state.Alive?)
  {
    ReplayTokens(hash, ops, ids);
    OnRingIffSettledAlive(hash, ops, ids, id);
    OwnedIsOnRing(hash, Replay(hash, ops).ring, id);
  }

  lemma OwnedIsOnRing(hash: TokenHash, ring: Ring<NodeId>, id: NodeId)
    ensures !(OwnsAllTokens(hash, ring, id) && OffRing(ring, id))
  {
    if OwnsAllTokens(hash, ring, id) {
      assert hash(id, 0) in ring && ring[hash(id, 0)] == id;
    }
  }
}

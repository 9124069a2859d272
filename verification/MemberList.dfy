/** The member list as an object (src/membership/member_list.cpp), with the callback of
    src/main.cpp:84-91 when a ring is attached. */
module MemberLists {
  import opened NodeInfos
  import opened RingStores
  import MemberRules
  import RingSync

  class MemberList {
    var nodes: Members
    const ring: RingStore?
    ghost var history: seq<RingSync.MemberOp>

    constructor (ring: RingStore?)
      requires ring != null ==> ring.ring == map[]
      ensures Valid() && nodes == map[] && this.ring == ring && history == []
    {
      nodes := map[];
      this.ring := ring;
      history := [];
    }

    /** The attached ring is what the operations so far have made of it. */
    ghost predicate Valid()
      reads this, ring
    {
      ring != null ==> View() == RingSync.Replay(ring.hash, history)
    }

    /** Members and ring together, when a ring is attached. */
    ghost function View(): RingSync.View
      requires ring != null
      reads this, ring
    {
      RingSync.View(nodes, ring.ring)
    }

    method OnChange(id: NodeId, state: NodeState)
      modifies ring
      ensures ring != null ==> ring.ring == RingSync.OnChange(ring.hash, old(ring.ring), id, state)
    {
      if ring != null {
        if state.Alive? {
          ring.AddNode(id);
        } else if state.Dead? || state.Left? {
          ring.RemoveNode(id);
        }
      }
    }

    method AddNode(info: NodeInfo) returns (changed: bool)
      requires Valid()
      modifies this, ring
      ensures Valid() && history == old(history) + [RingSync.AddOp(info)]
      ensures changed == MemberRules.AddAccepted(old(nodes), info)
      ensures nodes == MemberRules.AddNode(old(nodes), info)
      ensures ring != null ==> View() == RingSync.Apply(ring.hash, old(View()), RingSync.AddOp(info))
    {
      history := history + [RingSync.AddOp(info)];
      assert history[..|history| - 1] == old(history);
      if info.id in nodes {
        var it := nodes[info.id];
        if info.incarnation > it.incarnation
           || (info.incarnation == it.incarnation && StateSupersedes(info.state, it.state))
        {
          nodes := nodes[info.id := info];
          OnChange(info.id, info.state);
          return true;
        }
        return false;
      }
      nodes := nodes[info.id := info];
      OnChange(info.id, info.state);
      return true;
    }

    method RemoveNode(id: NodeId) returns (removed: bool)
      requires Valid()
      modifies this, ring
      ensures Valid() && history == old(history) + [RingSync.RemoveOp(id)]
      ensures removed == (id in old(nodes))
      ensures nodes == MemberRules.RemoveNode(old(nodes), id)
      ensures ring != null ==> View() == RingSync.Apply(ring.hash, old(View()), RingSync.RemoveOp(id))
    {
      history := history + [RingSync.RemoveOp(id)];
      assert history[..|history| - 1] == old(history);
      removed := id in nodes;
      if removed {
        nodes := nodes - {id};
        OnChange(id, Dead);
      }
    }

    method UpdateState(id: NodeId, state: NodeState, incarnation: nat) returns (changed: bool)
      requires Valid()
      modifies this, ring
      ensures Valid() && history == old(history) + [RingSync.UpdateOp(id, state, incarnation)]
      ensures changed == MemberRules.UpdateAccepted(old(nodes), id, state, incarnation)
      ensures nodes == MemberRules.UpdateState(old(nodes), id, state, incarnation)
      ensures ring != null ==>
                View() == RingSync.Apply(ring.hash, old(View()), RingSync.UpdateOp(id, state, incarnation))
    {
      history := history + [RingSync.UpdateOp(id, state, incarnation)];
      assert history[..|history| - 1] == old(history);
      if id !in nodes { return false; }
      var n := nodes[id];
      if incarnation > n.incarnation {
        nodes := nodes[id := n.(state := state, incarnation := incarnation)];
        OnChange(id, state);
        return true;
      }
      if incarnation == n.incarnation && StateSupersedes(state, n.state) {
        nodes := nodes[id := n.(state := state)];
        OnChange(id, state);
        return true;
      }
      return false;
    }
  }
}

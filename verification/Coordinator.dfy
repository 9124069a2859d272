/** The collapsed GET of the coordinator (src/coordinator/coordinator.cpp:58-76): what a request that
    joined somebody else's fetch answers, compared with what the fetching request answers. */
module CoordinatorRules {
  import opened NodeInfos
  import opened WaitGroupRules
  import opened WaitGroupRuns

  /** What a joiner answers from the result it was served. */
  function JoinerResponse(result: Option<Value>): Response {
    if result.Some? then Response(OkStatus, result.value) else Response(NotFoundStatus, [])
  }

  /** In every run: a joiner gives the very response the initiator of its generation got exactly when that
      is a success or a plain "not found"; anything else, an error above all, reaches the joiners as "not
      found". */
  lemma JoinerAnswersLikeInitiator(ss: seq<System>, i: nat, t: Task)
    requires Run(ss) && i < |ss| && t in ss[i].requests && ss[i].requests[t].at.Served?
    ensures var s := ss[i]; var Served(f, result) := s.requests[t].at;
            && f < |s.starter| && s.starter[f].task in s.requests
            && (StarterAt(s, f).Resuming? || StarterAt(s, f).Completed?)
            && var resp := StarterAt(s, f).resp;
               && (JoinerResponse(result) == resp <==>
                     resp.status.OkStatus? || resp == Response(NotFoundStatus, []))
               && (!resp.status.OkStatus? ==> JoinerResponse(result) == Response(NotFoundStatus, []))
  {
    ServedWithGenerationResult(ss, i, t);
  }
}

/** Where the coordinator sends a request (src/coordinator/coordinator.cpp:51-57 and 141-149). */
module Coordinators {
  import opened NodeInfos
  import opened RingStores
  import opened MemberLists
  import RingRules
  import RingSync

  /** `Unknown` is the error answer of `proxy_to_peer` for an owner that is not a member. */
  datatype Route = Local | Peer(id: NodeId, dataPort: u16) | Unknown

  method RouteKey(ring: RingStore, members: MemberList, self: NodeId, h: u32) returns (r: Route)
    ensures r.Local? <==> ring.ring == map[] || RingRules.OwnerAt(ring.ring, h) == self
    ensures r.Peer? ==> ring.ring != map[] && r.id == RingRules.OwnerAt(ring.ring, h)
    ensures r.Peer? ==> r.id in members.nodes && members.nodes[r.id].dataPort == r.dataPort
    // once the ring follows the member list
    ensures members.Valid() && members.ring == ring ==> !r.Unknown?
    ensures members.Valid() && members.ring == ring && r.Peer? ==>
              members.nodes[r.id].state.Alive? || members.nodes[r.id].state.Suspect?
  {
    if ring.ring != map[] && members.Valid() && members.ring == ring {
      RingSync.OwnerIsLiveMember(ring.hash, members.history, h);
    }
    var owner := ring.GetNodeForKey(h);
    if owner.None? || owner.value == self { return Local; }
    if owner.value !in members.nodes { return Unknown; }
    return Peer(owner.value, members.nodes[owner.value].dataPort);
  }
}

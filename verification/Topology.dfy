/** The ring a client builds for itself from the listing (src/sdk/topology_manager.cpp), and why it
    routes every key as the server does. */
module TopologyRules {
  import opened NodeInfos
  import opened Sequences
  import opened RingRules
  import opened RingStores
  import opened RingSync
  import opened ClusterListing

  function IdOf(e: Endpoint): NodeId { NodeId(e.host, e.gossipPort) }

  function Ids(nodes: seq<Endpoint>): (r: seq<NodeId>)
    ensures |r| == |nodes| && forall i :: 0 <= i < |nodes| ==> r[i] == IdOf(nodes[i])
  {
    seq(|nodes|, i requires 0 <= i < |nodes| => IdOf(nodes[i]))
  }

  /** `rebuild_ring`: tokens mapped to positions in the list of nodes. */
  function ClientRing(hash: TokenHash, ids: seq<NodeId>): Ring<nat> {
    if ids == [] then map[]
    else
      var n := |ids| - 1;
      AddTokens<nat>(ClientRing(hash, ids[..n]), n, TokensOf(hash, ids[n], DEFAULT_VNODES))
  }

  ghost predicate IsTokenOf(hash: TokenHash, id: NodeId, t: u32) {
    exists v :: 0 <= v < DEFAULT_VNODES && hash(id, v) == t
  }

  /** The ring holds all tokens of the given nodes, and no others. */
  ghost predicate ServesExactly(hash: TokenHash, ring: Ring<NodeId>, ids: seq<NodeId>) {
    && (forall id :: id in ids ==> OwnsAllTokens(hash, ring, id))
    && (forall t :: t in ring ==> ring[t] in ids && IsTokenOf(hash, ring[t], t))
  }

  ghost predicate NoneCollide(hash: TokenHash, ids: seq<NodeId>) {
    forall a, b :: a in ids && b in ids && a != b ==> !Collide(hash, a, b)
  }

  /** The two rings have the same tokens, with the same owners. */
  ghost predicate Mirrors(client: Ring<nat>, server: Ring<NodeId>, ids: seq<NodeId>) {
    client.Keys == server.Keys && forall t :: t in client ==> client[t] < |ids| && ids[client[t]] == server[t]
  }

  // ---------------------------------------------------------------- what the client builds

  ghost predicate IndexesTokens(hash: TokenHash, ring: Ring<nat>, ids: seq<NodeId>) {
    && (forall i, v :: 0 <= i < |ids| && 0 <= v < DEFAULT_VNODES ==>
        hash(ids[i], v) in ring && ring[hash(ids[i], v)] == i)
    && (forall t :: t in ring ==> ring[t] < |ids| && IsTokenOf(hash, ids[ring[t]], t))
  }

  lemma {:induction false} ClientRingIndexes(hash: TokenHash, ids: seq<NodeId>)
    requires Distinct(ids) && NoneCollide(hash, ids)
    ensures IndexesTokens(hash, ClientRing(hash, ids), ids)
  {
    if ids == [] {
    } else {
      var n := |ids| - 1;
      var front := ids[..n];
      assert forall a :: a in front ==> a in ids;
      ClientRingIndexes(hash, front);
      IndexOneMore(hash, ClientRing(hash, front), ids);
    }
  }

  lemma IndexOneMore(hash: TokenHash, ring: Ring<nat>, ids: seq<NodeId>)
    requires ids != [] && Distinct(ids) && NoneCollide(hash, ids) && IndexesTokens(hash, ring, ids[..|ids| - 1])
    ensures IndexesTokens(hash, AddTokens<nat>(ring, |ids| - 1, TokensOf(hash, ids[|ids| - 1], DEFAULT_VNODES)), ids)
  {
    var n := |ids| - 1;
    var tokens := TokensOf(hash, ids[n], DEFAULT_VNODES);
    var more := AddTokens<nat>(ring, n, tokens);
    forall i, v | 0 <= i < |ids| && 0 <= v < DEFAULT_VNODES
      ensures hash(ids[i], v) in more && more[hash(ids[i], v)] == i
    {
      if i == n {
        assert tokens[v] == hash(ids[n], v);
      } else {
        assert ids[i] in ids && ids[n] in ids && !Collide(hash, ids[i], ids[n]);
        assert hash(ids[..n][i], v) in ring && ring[hash(ids[..n][i], v)] == i;
        TokenApart(hash, ids[i], ids[n], v);
      }
    }
    forall t | t in more ensures more[t] < |ids| && IsTokenOf(hash, ids[more[t]], t) {
      if t in tokens {
        var v :| 0 <= v < |tokens| && tokens[v] == t;
        assert hash(ids[n], v) == t;
      } else {
        assert ids[..n][ring[t]] == ids[ring[t]];
      }
    }
  }

  lemma TokenApart(hash: TokenHash, a: NodeId, b: NodeId, v: nat)
    requires !Collide(hash, a, b) && v < DEFAULT_VNODES
    ensures hash(a, v) !in TokensOf(hash, b, DEFAULT_VNODES)
  {
  }

  /** Built from nodes without token collisions, in whatever order they are listed, the client's ring
      mirrors any ring that holds exactly the tokens of these nodes. */
  lemma ClientMirrorsServer(hash: TokenHash, ids: seq<NodeId>, server: Ring<NodeId>)
    requires Distinct(ids) && NoneCollide(hash, ids) && ServesExactly(hash, server, ids)
    ensures Mirrors(ClientRing(hash, ids), server, ids)
  {
    var client := ClientRing(hash, ids);
    ClientRingIndexes(hash, ids);
    forall t ensures t in client <==> t in server {
      if t in client { ClientTokenAtServer(hash, ids, client, server, t); }
      if t in server { ServerTokenAtClient(hash, ids, client, server, t); }
    }
    forall t | t in client ensures client[t] < |ids| && ids[client[t]] == server[t] {
      ClientTokenAtServer(hash, ids, client, server, t);
    }
  }

  lemma ClientTokenAtServer(hash: TokenHash, ids: seq<NodeId>, client: Ring<nat>, server: Ring<NodeId>, t: u32)
    requires IndexesTokens(hash, client, ids) && ServesExactly(hash, server, ids) && t in client
    ensures t in server && client[t] < |ids| && ids[client[t]] == server[t]
  {
    var id := ids[client[t]];
    assert id in ids && OwnsAllTokens(hash, server, id);
    var v :| 0 <= v < DEFAULT_VNODES && hash(id, v) == t;
  }

  lemma ServerTokenAtClient(hash: TokenHash, ids: seq<NodeId>, client: Ring<nat>, server: Ring<NodeId>, t: u32)
    requires IndexesTokens(hash, client, ids) && ServesExactly(hash, server, ids) && t in server
    ensures t in client
  {
  }

  // ---------------------------------------------------------------- same answers

  function Named(ids: seq<NodeId>, xs: seq<nat>): (r: seq<NodeId>)
    requires forall i :: 0 <= i < |xs| ==> xs[i] < |ids|
    ensures |r| == |xs| && forall i :: 0 <= i < |xs| ==> r[i] == ids[xs[i]]
  {
    seq(|xs|, i requires 0 <= i < |xs| => ids[xs[i]])
  }

  /** Dropping repetitions commutes with a renaming that keeps nodes apart. */
  lemma {:induction false} DedupNamed(ids: seq<NodeId>, xs: seq<nat>)
    requires Distinct(ids) && forall i :: 0 <= i < |xs| ==> xs[i] < |ids|
    ensures forall i :: 0 <= i < |Dedup<nat>(xs)| ==> Dedup<nat>(xs)[i] < |ids|
    ensures Dedup(Named(ids, xs)) == Named(ids, Dedup<nat>(xs))
  {
    if xs == [] {
    } else {
      var n := |xs| - 1;
      DedupNamed(ids, xs[..n]);
      var d := Dedup<nat>(xs[..n]);
      assert Named(ids, xs)[..n] == Named(ids, xs[..n]);
      NamedMember(ids, d, xs[n]);
      if xs[n] !in d {
        assert Named(ids, d + [xs[n]]) == Named(ids, d) + [ids[xs[n]]];
      }
    }
  }

  lemma NamedMember(ids: seq<NodeId>, xs: seq<nat>, x: nat)
    requires Distinct(ids) && x < |ids| && forall i :: 0 <= i < |xs| ==> xs[i] < |ids|
    ensures x in xs <==> ids[x] in Named(ids, xs)
  {
  }

  lemma MirrorOwner(client: Ring<nat>, server: Ring<NodeId>, ids: seq<NodeId>, h: u32)
    requires Mirrors(client, server, ids) && server != map[]
    ensures client != map[] && OwnerAt<nat>(client, h) < |ids| && ids[OwnerAt<nat>(client, h)] == OwnerAt(server, h)
  {
  }

  lemma MirrorSuccessors(client: Ring<nat>, server: Ring<NodeId>, ids: seq<NodeId>, h: u32, n: nat)
    requires Mirrors(client, server, ids) && Distinct(ids)
    ensures forall i :: 0 <= i < |FirstNodes<nat>(client, h, n)| ==> FirstNodes<nat>(client, h, n)[i] < |ids|
    ensures Named(ids, FirstNodes<nat>(client, h, n)) == FirstNodes(server, h, n)
  {
    hide Clockwise, Dedup;
    var ts := Clockwise(client.Keys, h);
    ClockwiseInRing<nat>(client, h);
    ClockwiseInRing(server, h);
    var xs := Owners<nat>(client, ts);
    assert Owners(server, ts) == Named(ids, xs);
    DedupNamed(ids, xs);
    var all := Dedup<nat>(xs);
    assert Successors<nat>(client, h) == all && Successors(server, h) == Named(ids, all);
    if 0 < n < |all| {
      assert Named(ids, all[..n]) == Named(ids, all)[..n];
    }
  }

  // ---------------------------------------------------------------- from membership to client

  ghost predicate ListsMembers(infos: seq<NodeInfo>, members: Members) {
    && (forall i, j :: 0 <= i < j < |infos| ==> infos[i].id != infos[j].id)
    && (forall info :: info in infos <==> info.id in members && members[info.id] == info)
  }

  /** The listing names exactly the alive members, once each, with their data port. */
  lemma {:induction false} AliveEndpointsExact(infos: seq<NodeInfo>)
    requires forall i, j :: 0 <= i < j < |infos| ==> infos[i].id != infos[j].id
    ensures Distinct(Ids(AliveEndpoints(infos)))
    ensures forall e :: e in AliveEndpoints(infos) ==>
              exists info :: info in infos && info.state.Alive? && EndpointOf(info) == e
    ensures forall info :: info in infos && info.state.Alive? ==> EndpointOf(info) in AliveEndpoints(infos)
  {
    if infos == [] {
    } else {
      var n := |infos| - 1;
      var front, last := infos[..n], infos[n];
      assert infos == front + [last];
      AliveEndpointsExact(front);
      var es := AliveEndpoints(front);
      forall i | 0 <= i < |es| ensures IdOf(es[i]) != last.id {
        assert es[i] in es;
        var info :| info in front && info.state.Alive? && EndpointOf(info) == es[i];
        assert IdOf(EndpointOf(info)) == info.id;
      }
      forall e | e in AliveEndpoints(infos)
        ensures exists info :: info in infos && info.state.Alive? && EndpointOf(info) == e
      {
        if e in es {
          var info :| info in front && info.state.Alive? && EndpointOf(info) == e;
          assert info in infos;
        } else {
          assert last in infos;
        }
      }
    }
  }

  /** The whole path: a client that decodes a server's listing and rebuilds the ring sends every key to
      the server's owner of it and falls back to the server's successors, in the same order. */
  lemma ClientAgreesWithServer(hash: TokenHash, infos: seq<NodeInfo>, members: Members, server: Ring<NodeId>,
                               rest: seq<byte>, h: u32, n: nat)
    requires ListsMembers(infos, members)
    requires |AliveEndpoints(infos)| < 0x1_0000 && HostsFit(AliveEndpoints(infos))
    requires var ids := Ids(AliveEndpoints(infos)); NoneCollide(hash, ids) && ServesExactly(hash, server, ids)
    ensures DecodeListing(EncodeListing(AliveEndpoints(infos)) + rest) == Some(AliveEndpoints(infos))
    ensures var ids := Ids(AliveEndpoints(infos)); var client := ClientRing(hash, ids);
            && (server != map[] ==>
                  && client != map[] && OwnerAt<nat>(client, h) < |ids|
                  && ids[OwnerAt<nat>(client, h)] == OwnerAt(server, h))
            && (forall i :: 0 <= i < |FirstNodes<nat>(client, h, n)| ==> FirstNodes<nat>(client, h, n)[i] < |ids|)
            && Named(ids, FirstNodes<nat>(client, h, n)) == FirstNodes(server, h, n)
  {
    var ids := Ids(AliveEndpoints(infos));
    ListingRoundTrip(AliveEndpoints(infos), rest);
    AliveEndpointsExact(infos);
    ClientMirrorsServer(hash, ids, server);
    if server != map[] { MirrorOwner(ClientRing(hash, ids), server, ids, h); }
    MirrorSuccessors(ClientRing(hash, ids), server, ids, h, n);
  }

  // ---------------------------------------------------------------- when the server's ring is exact

  /** Every token on the ring is one of its owner's. */
  ghost predicate GenuineTokens(hash: TokenHash, ring: Ring<NodeId>) {
    forall t :: t in ring ==> IsTokenOf(hash, ring[t], t)
  }

  lemma ApplyKeepsGenuine(hash: TokenHash, v: View, op: MemberOp)
    requires GenuineTokens(hash, v.ring)
    ensures GenuineTokens(hash, Apply(hash, v, op).ring)
  {
  }

  lemma {:induction false} ReplayGenuine(hash: TokenHash, ops: seq<MemberOp>)
    ensures GenuineTokens(hash, Replay(hash, ops).ring)
  {
    if ops == [] {
    } else {
      ReplayGenuine(hash, ops[..|ops| - 1]);
      ApplyKeepsGenuine(hash, Replay(hash, ops[..|ops| - 1]), ops[|ops| - 1]);
    }
  }

  /** `alive` names exactly the members listed as alive. */
  ghost predicate NamesAlive(m: Members, alive: seq<NodeId>) {
    forall id :: id in alive <==> id in m && m[id].state.Alive?
  }

  /** No suspected member is still on the ring: each was dead, left or unknown before it was suspected. */
  ghost predicate SuspectsOffRing(hash: TokenHash, ops: seq<MemberOp>) {
    forall id :: id in Replay(hash, ops).members && Replay(hash, ops).members[id].state.Suspect? ==>
      Settled(hash, ops, id) != Some(Alive)
  }

  /** Whatever happened before: as long as no two nodes collide, the server's ring holds exactly the tokens
      of the members it lists as alive if and only if no suspected member is still on it. */
  lemma RingServesAliveIff(hash: TokenHash, ops: seq<MemberOp>, ids: iset<NodeId>, alive: seq<NodeId>)
    requires NoCollisions(hash, ids) && OpsAbout(ops, ids) && NamesAlive(Replay(hash, ops).members, alive)
    ensures ServesExactly(hash, Replay(hash, ops).ring, alive) <==> SuspectsOffRing(hash, ops)
    ensures NoneCollide(hash, alive)
  {
    hide Replay, OwnsAllTokens, IsTokenOf, Collide;
    var v := Replay(hash, ops);
    ReplayRoutes(hash, ops);
    ReplayTokens(hash, ops, ids);
    ReplayGenuine(hash, ops);
    forall id | id in v.members ensures Settled(hash, ops, id) == Some(Alive) <==> !OffRing(v.ring, id) {
      OnRingIffSettledAlive(hash, ops, ids, id);
      OwnedIsOnRing(hash, v.ring, id);
    }
    SettledIsState(hash, ops);
  }

  lemma SettledIsState(hash: TokenHash, ops: seq<MemberOp>)
    ensures forall id :: id in Replay(hash, ops).members && !Replay(hash, ops).members[id].state.Suspect? ==>
              Settled(hash, ops, id) == Some(Replay(hash, ops).members[id].state)
  {
  }

  /** A suspected member that is still on the ring owns its tokens at the server and is not in the listing,
      so no client can name it. */
  lemma SuspectServesUnlisted(hash: TokenHash, ops: seq<MemberOp>, ids: iset<NodeId>, alive: seq<NodeId>, s: NodeId)
    requires NoCollisions(hash, ids) && OpsAbout(ops, ids) && NamesAlive(Replay(hash, ops).members, alive)
    requires s in Replay(hash, ops).members && Replay(hash, ops).members[s].state.Suspect?
    requires Settled(hash, ops, s) == Some(Alive)
    ensures s !in alive && Replay(hash, ops).ring != map[]
    ensures OwnerAt(Replay(hash, ops).ring, hash(s, 0)) == s
  {
    ReplayTokens(hash, ops, ids);
    OnRingIffSettledAlive(hash, ops, ids, s);
    var ring := Replay(hash, ops).ring;
    assert hash(s, 0) in ring && ring[hash(s, 0)] == s;
    NearestUnique(ring.Keys, hash(s, 0), hash(s, 0));
  }

  /** Client and server name the same owner for a hash, or neither names one. */
  ghost predicate AgreesAt(client: Ring<nat>, server: Ring<NodeId>, ids: seq<NodeId>, h: u32) {
    && (client == map[] <==> server == map[])
    && (client != map[] && server != map[] ==>
          OwnerAt<nat>(client, h) < |ids| && ids[OwnerAt<nat>(client, h)] == OwnerAt(server, h))
  }

  ghost predicate Agrees(client: Ring<nat>, server: Ring<NodeId>, ids: seq<NodeId>) {
    forall h: u32 :: AgreesAt(client, server, ids, h)
  }

  lemma DisagreeAt(client: Ring<nat>, server: Ring<NodeId>, ids: seq<NodeId>, h: u32)
    requires !AgreesAt(client, server, ids, h)
    ensures !Agrees(client, server, ids)
  {
  }

  /** So a client that built its ring from the listing of the alive members agrees with the server on the
      owner of every key if and only if no suspected member is still on the server's ring. */
  lemma ClientAgreesIff(hash: TokenHash, ops: seq<MemberOp>, ids: iset<NodeId>, alive: seq<NodeId>)
    requires NoCollisions(hash, ids) && OpsAbout(ops, ids)
    requires Distinct(alive) && NamesAlive(Replay(hash, ops).members, alive)
    ensures Agrees(ClientRing(hash, alive), Replay(hash, ops).ring, alive) <==> SuspectsOffRing(hash, ops)
  {
    hide Settled, NoCollisions, NoneCollide, ServesExactly, Mirrors, OwnerAt;
    var client, server := ClientRing(hash, alive), Replay(hash, ops).ring;
    RingServesAliveIff(hash, ops, ids, alive);
    if SuspectsOffRing(hash, ops) {
      ClientMirrorsServer(hash, alive, server);
      forall h: u32 ensures AgreesAt(client, server, alive, h) { MirrorAgrees(client, server, alive, h); }
    } else {
      var s :| s in Replay(hash, ops).members && Replay(hash, ops).members[s].state.Suspect?
               && Settled(hash, ops, s) == Some(Alive);
      SuspectServesUnlisted(hash, ops, ids, alive, s);
      DisagreeAt(client, server, alive, hash(s, 0));
    }
  }

  lemma MirrorAgrees(client: Ring<nat>, server: Ring<NodeId>, ids: seq<NodeId>, h: u32)
    requires Mirrors(client, server, ids)
    ensures AgreesAt(client, server, ids, h)
  {
    assert client == map[] <==> client.Keys == {};
    assert server == map[] <==> server.Keys == {};
  }
}

/** The client object. Fetching the payload over the network is not part of the model. */
module Topology {
  import opened NodeInfos
  import opened Sequences
  import opened RingRules
  import opened RingStores
  import opened ClusterListing
  import opened TopologyRules

  class TopologyManager {
    const hash: TokenHash
    var nodes: seq<Endpoint>
    var ring: Ring<nat>

    ghost predicate Valid()
      reads this
    {
      ring == ClientRing(hash, Ids(nodes))
    }

    constructor (hash: TokenHash)
      ensures Valid() && this.hash == hash && nodes == []
    {
      this.hash, nodes, ring := hash, [], map[];
    }

    /** `bootstrap` and `refresh`, given the payload; an unreadable or empty listing changes nothing. */
    method Load(payload: seq<byte>) returns (ok: bool)
      requires Valid()
      modifies this
      ensures Valid()
      ensures ok <==> DecodeListing(payload).Some? && DecodeListing(payload).value != []
      ensures nodes == if ok then DecodeListing(payload).value else old(nodes)
    {
      var fetched := ReadListing(payload);
      if fetched.None? || fetched.value == [] { return false; }
      nodes := fetched.value;
      RebuildRing();
      return true;
    }

    method RebuildRing()
      modifies this`ring
      ensures Valid()
    {
      ring := map[];
      ghost var ids := Ids(nodes);
      for i := 0 to |nodes|
        invariant ring == ClientRing(hash, ids[..i])
      {
        assert ids[..i + 1][..i] == ids[..i];
        PlaceTokens(IdOf(nodes[i]), i);
      }
      assert ids[..|nodes|] == ids;
    }

    method PlaceTokens(nid: NodeId, i: nat)
      modifies this`ring
      ensures ring == AddTokens<nat>(old(ring), i, TokensOf(hash, nid, DEFAULT_VNODES))
    {
      hide AddTokens;
      assert AddTokens<nat>(ring, i, []) == ring by { NoTokens(ring, i); }
      for v := 0 to DEFAULT_VNODES
        invariant ring == AddTokens<nat>(old(ring), i, TokensOf(hash, nid, v))
      {
        assert TokensOf(hash, nid, v + 1) == TokensOf(hash, nid, v) + [hash(nid, v)];
        AddOneToken<nat>(old(ring), i, TokensOf(hash, nid, v), hash(nid, v));
        ring := ring[hash(nid, v) := i];
      }
    }

    method FindOwner(h: u32) returns (r: Option<Endpoint>)
      requires Valid()
      ensures ring == map[] ==> r == None
      ensures ring != map[] ==> OwnerAt<nat>(ring, h) < |nodes| && r == Some(nodes[OwnerAt<nat>(ring, h)])
    {
      if ring == map[] { return None; }
      var keys := Clockwise(ring.Keys, 0);
      ClockwiseOrder(ring.Keys, 0);
      ClockwiseInRing<nat>(ring, 0);
      var it := LowerBound(keys, h);
      WalkOrder(ring.Keys, h, keys, it);
      if it == |keys| { it := 0; }
      assert Clockwise(ring.Keys, h)[0] == Nearest(ring.Keys, h);
      ClientRingInRange(hash, Ids(nodes), keys[it]);
      return Some(nodes[ring[keys[it]]]);
    }

    method FindSuccessors(h: u32, n: nat) returns (result: seq<Endpoint>)
      requires Valid()
      ensures forall i :: 0 <= i < |FirstNodes<nat>(ring, h, n)| ==> FirstNodes<nat>(ring, h, n)[i] < |nodes|
      ensures |result| == |FirstNodes<nat>(ring, h, n)|
      ensures forall i :: 0 <= i < |result| ==> result[i] == nodes[FirstNodes<nat>(ring, h, n)[i]]
    {
      hide Clockwise, Dedup, ClientRing, InOrder;
      FirstNodesInRange(hash, Ids(nodes), ring, h, n);
      if ring == map[] {
        EmptyRing(h, n);
        return [];
      }
      var keys := Clockwise(ring.Keys, 0);
      ClockwiseOrder(ring.Keys, 0);
      ClockwiseInRing<nat>(ring, 0);
      ClockwiseInRing<nat>(ring, h);
      var it := LowerBound(keys, h);
      WalkOrder(ring.Keys, h, keys, it);
      if it == |keys| { it := 0; }
      var indices := Walk<nat>(ring, keys, it, n, Owners<nat>(ring, Clockwise(ring.Keys, h)));
      assert indices == FirstNodes<nat>(ring, h, n);
      result := Pick(indices);
    }

    method Pick(indices: seq<nat>) returns (result: seq<Endpoint>)
      requires forall i :: 0 <= i < |indices| ==> indices[i] < |nodes|
      ensures |result| == |indices|
      ensures forall i :: 0 <= i < |result| ==> result[i] == nodes[indices[i]]
    {
      result := [];
      for i := 0 to |indices|
        invariant |result| == i
        invariant forall j :: 0 <= j < i ==> result[j] == nodes[indices[j]]
      {
        result := result + [nodes[indices[i]]];
      }
    }
  }

  lemma {:induction false} ClientRingInRange(hash: TokenHash, ids: seq<NodeId>, t: u32)
    requires t in ClientRing(hash, ids)
    ensures ClientRing(hash, ids)[t] < |ids|
  {
    if ids == [] {
    } else {
      var n := |ids| - 1;
      if t !in TokensOf(hash, ids[n], DEFAULT_VNODES) { ClientRingInRange(hash, ids[..n], t); }
    }
  }

  lemma NoTokens(ring: Ring<nat>, i: nat)
    ensures AddTokens<nat>(ring, i, []) == ring
  {
  }

  lemma EmptyRing(h: u32, n: nat)
    ensures FirstNodes<nat>(map[], h, n) == []
  {
  }

  lemma FirstNodesInRange(hash: TokenHash, ids: seq<NodeId>, ring: Ring<nat>, h: u32, n: nat)
    requires ring == ClientRing(hash, ids)
    ensures forall i :: 0 <= i < |FirstNodes<nat>(ring, h, n)| ==> FirstNodes<nat>(ring, h, n)[i] < |ids|
  {
    hide Clockwise, Dedup, ClientRing, Owners, OwnerAt, Distinct;
    SuccessorsElements<nat>(ring, h);
    forall x | x in Successors<nat>(ring, h) ensures x < |ids| {
      assert x in Elements(Successors<nat>(ring, h)) && x in ring.Values;
      var t :| t in ring && ring[t] == x;
      ClientRingInRange(hash, ids, t);
    }
    var xs := FirstNodes<nat>(ring, h, n);
    forall i | 0 <= i < |xs| ensures xs[i] < |ids| {
      assert xs[i] == Successors<nat>(ring, h)[i] && xs[i] in Successors<nat>(ring, h);
    }
  }
}

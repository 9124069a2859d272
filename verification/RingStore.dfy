/** The server's ring (src/membership/ring_store.cpp): an ordered map that is cloned, changed and
    swapped in. An iterator of the ordered map is a position in its ascending list of keys. */
module RingStores {
  import opened NodeInfos
  import opened RingRules
  import opened Circular

  const DEFAULT_VNODES: nat := 128

  /** `hash_node_token`, an arbitrary function of the node and the virtual node's index. */
  type TokenHash = (NodeId, nat) -> u32

  function TokensOf(hash: TokenHash, node: NodeId, vnodes: nat): (r: seq<u32>)
    ensures |r| == vnodes
    ensures forall i :: 0 <= i < vnodes ==> r[i] == hash(node, i)
  {
    seq(vnodes, i requires 0 <= i < vnodes => hash(node, i))
  }

  /** `std::map::lower_bound`: the position of the first key not below `h`. */
  method LowerBound(keys: seq<u32>, h: u32) returns (p: nat)
    requires InOrder(keys, 0)
    ensures p <= |keys|
    ensures forall i :: 0 <= i < p ==> keys[i] < h
    ensures forall i :: p <= i < |keys| ==> keys[i] >= h
  {
    p := 0;
    while p < |keys| && keys[p] < h
      invariant p <= |keys|
      invariant forall i :: 0 <= i < p ==> keys[i] < h
    {
      p := p + 1;
    }
    if p < |keys| {
      assert forall i :: p < i < |keys| ==> Dist(0, keys[p]) < Dist(0, keys[i]);
    }
  }

  lemma {:induction false} DedupPrefix<T(!new)>(xs: seq<T>, k: nat)
    requires k <= |xs|
    ensures |Dedup(xs[..k])| <= |Dedup(xs)| && Dedup(xs)[..|Dedup(xs[..k])|] == Dedup(xs[..k])
  {
    if k < |xs| {
      var n := |xs| - 1;
      DedupPrefix(xs[..n], k);
      assert xs[..n][..k] == xs[..k];
      var d, e := Dedup(xs[..n]), Dedup(xs);
      assert e == d || e == d + [xs[n]];
      assert e[..|d|] == d;
      assert e[..|Dedup(xs[..k])|] == d[..|Dedup(xs[..k])|];
    } else {
      assert xs[..k] == xs;
    }
  }

  class RingStore {
    const hash: TokenHash
    var ring: Ring<NodeId>

    constructor (hash: TokenHash)
      ensures this.hash == hash && ring == map[]
    {
      this.hash := hash;
      ring := map[];
    }

    method AddNodeTokens(node: NodeId, tokens: seq<u32>)
      modifies this
      ensures ring == AddTokens(old(ring), node, tokens)
    {
      var newRing := ring;
      for i := 0 to |tokens|
        invariant newRing == AddTokens(ring, node, tokens[..i])
        invariant ring == old(ring)
      {
        assert tokens[..i + 1] == tokens[..i] + [tokens[i]];
        AddOneToken(ring, node, tokens[..i], tokens[i]);
        newRing := newRing[tokens[i] := node];
      }
      assert tokens[..|tokens|] == tokens;
      ring := newRing;
    }

    method AddNode(node: NodeId, vnodes: nat := DEFAULT_VNODES)
      modifies this
      ensures ring == AddTokens(old(ring), node, TokensOf(hash, node, vnodes))
    {
      var tokens: seq<u32> := [];
      for i := 0 to vnodes
        invariant tokens == TokensOf(hash, node, i)
      {
        tokens := tokens + [hash(node, i)];
      }
      AddNodeTokens(node, tokens);
    }

    method RemoveNode(node: NodeId)
      modifies this
      ensures ring == RemoveOwner(old(ring), node)
    {
      ring := map t | t in ring && ring[t] != node :: ring[t];
    }

    method GetNodeForKey(h: u32) returns (r: Option<NodeId>)
      ensures r == if ring == map[] then None else Some(OwnerAt(ring, h))
    {
      if ring == map[] { return None; }
      var keys := Clockwise(ring.Keys, 0);
      ClockwiseOrder(ring.Keys, 0);
      ClockwiseInRing(ring, 0);
      var it := LowerBound(keys, h);
      RotationIsClockwise(ring.Keys, h, keys, it);
      assert Clockwise(ring.Keys, h)[0] == Nearest(ring.Keys, h);
      if it == |keys| { it := 0; }
      r := Some(ring[keys[it]]);
    }

    method GetNNodesForKey(h: u32, n: nat) returns (result: seq<NodeId>)
      ensures result == FirstNodes(ring, h, n)
    {
      if ring == map[] { return []; }
      var keys := Clockwise(ring.Keys, 0);
      ClockwiseOrder(ring.Keys, 0);
      ClockwiseInRing(ring, 0);
      ClockwiseInRing(ring, h);
      var it := LowerBound(keys, h);
      WalkOrder(ring.Keys, h, keys, it);
      if it == |keys| { it := 0; }
      result := Walk(ring, keys, it, n, Owners(ring, Clockwise(ring.Keys, h)));
    }
  }

  lemma WalkOrder(s: set<u32>, h: u32, keys: seq<u32>, p: nat)
    requires s != {} && Lists(keys, s, 0) && p <= |keys|
    requires forall i :: 0 <= i < p ==> keys[i] < h
    requires forall i :: p <= i < |keys| ==> keys[i] >= h
    ensures |keys| > 0 && |Clockwise(s, h)| == |keys|
    ensures forall i :: 0 <= i < |keys| ==>
              Clockwise(s, h)[i] == keys[Wrap(if p == |keys| then 0 else p, i, |keys|)]
  {
    RotationIsClockwise(s, h, keys, p);
    var ts, start := keys[p..] + keys[..p], if p == |keys| then 0 else p;
    forall i | 0 <= i < |keys| ensures ts[i] == keys[Wrap(start, i, |keys|)] {}
  }

  lemma DedupNext<T(!new)>(xs: seq<T>, i: nat)
    requires i < |xs|
    ensures var d := Dedup(xs[..i]); Dedup(xs[..i + 1]) == if xs[i] in d then d else d + [xs[i]]
  {
    assert xs[..i + 1][..i] == xs[..i];
  }

  /** The circular walk of `get_n_nodes_for_key`: from `start` once round, stopping early when the list
      is long enough. `os` are the owners in the order of the walk. */
  method Walk<T(==, !new)>(ring: Ring<T>, keys: seq<u32>, start: nat, n: nat, ghost os: seq<T>) returns (result: seq<T>)
    requires start < |keys| == |os|
    requires forall i :: 0 <= i < |keys| ==> keys[i] in ring
    requires forall i :: 0 <= i < |keys| ==> os[i] == ring[keys[Wrap(start, i, |keys|)]]
    ensures result == if n == 0 then Dedup(os) else Take(Dedup(os), n)
  {
    result := [];
    assert Dedup(os[..0]) == [];
    hide Dedup;
    var seen: set<T> := {};
    var it := start;
    ghost var i := 0;
    var walking := true;
    while walking
      invariant 0 <= i <= |keys| && it < |keys| && it == Wrap(start, i, |keys|)
      invariant walking <==> i < |keys|
      invariant result == Dedup(os[..i])
      invariant forall x :: x in seen <==> x in result
      invariant n == 0 || |result| < n
      decreases |keys| - i
    {
      var owner := ring[keys[it]];
      DedupNext(os, i);
      if owner !in seen {
        seen := seen + {owner};
        result := result + [owner];
        if |result| == n {
          DedupPrefix(os, i + 1);
          return;
        }
      }
      it := it + 1;
      if it == |keys| { it := 0; }
      i := i + 1;
      walking := it != start;
    }
    assert os[..i] == os;
  }
}

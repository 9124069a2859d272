/** Which hash ranges change owner between two rings (src/membership/ring_migration.cpp). */
module RingMigrations {
  import opened NodeInfos
  import opened RingRules

  /** Hashes after `start` up to and including `end`, going round past zero when `end <= start`. */
  datatype RangeMigration = RangeMigration(start: u32, end: u32, from: NodeId, to: NodeId)

  predicate InRange(m: RangeMigration, h: u32) {
    if m.start < m.end then m.start < h <= m.end else h > m.start || h <= m.end
  }

  /** The boundary before position `i` of the ascending list, circularly. */
  function Previous(sorted: seq<u32>, i: nat): u32
    requires i < |sorted|
  {
    if i == 0 then sorted[|sorted| - 1] else sorted[i - 1]
  }

  /** `ms` lists, in ascending order of their end, exactly the boundaries below `k` at which the owner
      differs. */
  ghost predicate ListsChanges(before: Ring<NodeId>, after: Ring<NodeId>, sorted: seq<u32>, k: nat,
                               ms: seq<RangeMigration>)
    requires before != map[] && after != map[] && k <= |sorted|
  {
    && (forall i, j :: 0 <= i < j < |ms| ==> ms[i].end < ms[j].end)
    && (forall m :: m in ms ==> DescribedBelow(before, after, sorted, k, m))
    && (forall i :: 0 <= i < k && OwnerAt(before, sorted[i]) != OwnerAt(after, sorted[i]) ==> HasEnd(ms, sorted[i]))
  }

  /** The tokens of both rings in ascending order. */
  function Boundaries(before: Ring<NodeId>, after: Ring<NodeId>): seq<u32> { Clockwise(before.Keys + after.Keys, 0) }

  /** `ms` has one range for every boundary at which the owner differs: the range ending there. */
  ghost predicate ListsAllChanges(before: Ring<NodeId>, after: Ring<NodeId>, ms: seq<RangeMigration>)
    requires before != map[] && after != map[]
  {
    ListsChanges(before, after, Boundaries(before, after), |Boundaries(before, after)|, ms)
  }

  ghost predicate DescribedBelow(before: Ring<NodeId>, after: Ring<NodeId>, sorted: seq<u32>, k: nat, m: RangeMigration)
    requires before != map[] && after != map[]
  {
    exists i :: 0 <= i < k && DescribesChange(before, after, sorted, i, m)
  }

  ghost predicate HasEnd(ms: seq<RangeMigration>, end: u32) { exists m :: m in ms && m.end == end }

  ghost predicate DescribesChange(before: Ring<NodeId>, after: Ring<NodeId>, sorted: seq<u32>, i: int,
                                  m: RangeMigration)
    requires before != map[] && after != map[]
  {
    && 0 <= i < |sorted|
    && m == RangeMigration(Previous(sorted, i), sorted[i], OwnerAt(before, sorted[i]), OwnerAt(after, sorted[i]))
    && m.from != m.to
  }

  method ComputeMigrations(oldRing: Ring<NodeId>, newRing: Ring<NodeId>) returns (result: seq<RangeMigration>)
    ensures oldRing == map[] || newRing == map[] ==> result == []
    ensures oldRing != map[] && newRing != map[] ==> Exact(oldRing, newRing, result)
    ensures oldRing != map[] && newRing != map[] ==> ListsAllChanges(oldRing, newRing, result)
  {
    result := [];
    if oldRing == map[] || newRing == map[] { return; }
    var boundaries := oldRing.Keys + newRing.Keys;
    var sorted := Clockwise(boundaries, 0);
    ClockwiseInOrder(boundaries, 0);
    for i := 0 to |sorted|
      invariant ListsChanges(oldRing, newRing, sorted, i, result)
    {
      var curr := sorted[i];
      var prev := if i == 0 then sorted[|sorted| - 1] else sorted[i - 1];
      var oldOwner := OwnerAt(oldRing, curr);
      var newOwner := OwnerAt(newRing, curr);
      var before := result;
      if oldOwner != newOwner {
        result := result + [RangeMigration(prev, curr, oldOwner, newOwner)];
      }
      ListsNextChange(oldRing, newRing, sorted, i, before, result);
    }
    ClockwiseOrder(boundaries, 0);
    ListIsExact(oldRing, newRing, sorted, result);
  }

  lemma ListsNextChange(before: Ring<NodeId>, after: Ring<NodeId>, sorted: seq<u32>, i: nat, ms: seq<RangeMigration>,
                        ms': seq<RangeMigration>)
    requires before != map[] && after != map[] && i < |sorted| && InOrder(sorted, 0)
    requires ListsChanges(before, after, sorted, i, ms)
    requires var m := RangeMigration(Previous(sorted, i), sorted[i], OwnerAt(before, sorted[i]),
                                     OwnerAt(after, sorted[i]));
             ms' == if m.from != m.to then ms + [m] else ms
    ensures ListsChanges(before, after, sorted, i + 1, ms')
  {
    hide OwnerAt, Previous;
    forall m | m in ms' ensures DescribedBelow(before, after, sorted, i + 1, m) {
      if m in ms {
        assert DescribedBelow(before, after, sorted, i, m);
      } else {
        assert DescribesChange(before, after, sorted, i, m);
      }
    }
    forall j | 0 <= j < |ms| ensures ms[j].end < sorted[i] {
      assert ms[j] in ms && DescribedBelow(before, after, sorted, i, ms[j]);
      var k :| 0 <= k < i && DescribesChange(before, after, sorted, k, ms[j]);
      assert Dist(0, sorted[k]) < Dist(0, sorted[i]);
    }
    forall j | 0 <= j < i + 1 && OwnerAt(before, sorted[j]) != OwnerAt(after, sorted[j])
      ensures HasEnd(ms', sorted[j])
    {
      if j < i {
        assert HasEnd(ms, sorted[j]);
        var m :| m in ms && m.end == sorted[j];
        assert m in ms';
      } else {
        assert ms'[|ms|] in ms';
      }
    }
  }

  // ---------------------------------------------------------------- exactness

  /** Every hash is in a listed range exactly when its owner changed, and then in just one, which names
      its old and its new owner. */
  ghost predicate Exact(before: Ring<NodeId>, after: Ring<NodeId>, ms: seq<RangeMigration>)
    requires before != map[] && after != map[]
  {
    && (forall h: u32, i, j :: 0 <= i < j < |ms| ==> !(InRange(ms[i], h) && InRange(ms[j], h)))
    && (forall h: u32, m :: m in ms && InRange(m, h) ==>
          m.from == OwnerAt(before, h) && m.to == OwnerAt(after, h) && m.from != m.to)
    && (forall h: u32 :: OwnerAt(before, h) != OwnerAt(after, h) ==> Listed(ms, h))
  }

  ghost predicate Listed(ms: seq<RangeMigration>, h: u32) { exists m :: m in ms && InRange(m, h) }

  /** A hash lies between two neighbouring boundaries exactly when the second is the first met from it. */
  lemma RangeEndsAtNearest(b: set<u32>, sorted: seq<u32>, i: nat, m: RangeMigration, h: u32)
    requires Lists(sorted, b, 0) && i < |sorted|
    requires m.start == Previous(sorted, i) && m.end == sorted[i]
    ensures InRange(m, h) <==> IsNearest(b, h, sorted[i])
  {
    forall j | 0 <= j < |sorted| ensures j < i ==> sorted[j] <= Previous(sorted, i) < sorted[i] {
      assert j < i ==> Dist(0, sorted[j]) < Dist(0, sorted[i]);
      assert j < i - 1 ==> Dist(0, sorted[j]) < Dist(0, sorted[i - 1]);
    }
    forall j | 0 <= j < |sorted| ensures j > i ==> sorted[j] > sorted[i] {
      assert j > i ==> Dist(0, sorted[i]) < Dist(0, sorted[j]);
    }
    forall j | 0 <= j < |sorted| ensures sorted[j] <= sorted[|sorted| - 1] && sorted[0] <= sorted[j] {
      assert j < |sorted| - 1 ==> Dist(0, sorted[j]) < Dist(0, sorted[|sorted| - 1]);
      assert 0 < j ==> Dist(0, sorted[0]) < Dist(0, sorted[j]);
    }
    if InRange(m, h) {
      forall u | u in b ensures Dist(h, sorted[i]) <= Dist(h, u) {
        var j :| 0 <= j < |sorted| && sorted[j] == u;
      }
    } else {
      assert Previous(sorted, i) in b;
      assert Dist(h, Previous(sorted, i)) < Dist(h, sorted[i]);
    }
  }

  /** Between boundaries nothing changes: the owner of a hash is the owner of the boundary after it. */
  lemma OwnerAtBoundary(ring: Ring<NodeId>, boundaries: set<u32>, h: u32, b: u32)
    requires ring != map[] && ring.Keys <= boundaries && IsNearest(boundaries, h, b)
    ensures OwnerAt(ring, h) == OwnerAt(ring, b)
  {
  }

  lemma ListIsExact(before: Ring<NodeId>, after: Ring<NodeId>, sorted: seq<u32>, ms: seq<RangeMigration>)
    requires before != map[] && after != map[]
    requires Lists(sorted, before.Keys + after.Keys, 0)
    requires ListsChanges(before, after, sorted, |sorted|, ms)
    ensures Exact(before, after, ms)
  {
    forall h: u32, m | m in ms && InRange(m, h)
      ensures m.from == OwnerAt(before, h) && m.to == OwnerAt(after, h) && m.from != m.to
    {
      ListedIsChange(before, after, sorted, m, h);
    }
    forall h: u32, i, j | 0 <= i < j < |ms| ensures !(InRange(ms[i], h) && InRange(ms[j], h)) {
      if InRange(ms[i], h) && InRange(ms[j], h) {
        ListedIsChange(before, after, sorted, ms[i], h);
        ListedIsChange(before, after, sorted, ms[j], h);
      }
    }
    forall h: u32 | OwnerAt(before, h) != OwnerAt(after, h) ensures Listed(ms, h) {
      ChangeIsListed(before, after, sorted, ms, h);
    }
  }

  lemma ListedIsChange(before: Ring<NodeId>, after: Ring<NodeId>, sorted: seq<u32>, m: RangeMigration, h: u32)
    requires before != map[] && after != map[]
    requires Lists(sorted, before.Keys + after.Keys, 0)
    requires DescribedBelow(before, after, sorted, |sorted|, m) && InRange(m, h)
    ensures m.from == OwnerAt(before, h) && m.to == OwnerAt(after, h) && m.from != m.to
    ensures m.end == Nearest(before.Keys + after.Keys, h)
  {
    var b := before.Keys + after.Keys;
    var i :| 0 <= i < |sorted| && DescribesChange(before, after, sorted, i, m);
    RangeEndsAtNearest(b, sorted, i, m, h);
    NearestUnique(b, h, m.end);
    OwnerAtBoundary(before, b, h, m.end);
    OwnerAtBoundary(after, b, h, m.end);
  }

  lemma ChangeIsListed(before: Ring<NodeId>, after: Ring<NodeId>, sorted: seq<u32>, ms: seq<RangeMigration>, h: u32)
    requires before != map[] && after != map[]
    requires Lists(sorted, before.Keys + after.Keys, 0)
    requires ListsChanges(before, after, sorted, |sorted|, ms)
    requires OwnerAt(before, h) != OwnerAt(after, h)
    ensures Listed(ms, h)
  {
    var b := before.Keys + after.Keys;
    var t := Nearest(b, h);
    OwnerAtBoundary(before, b, h, t);
    OwnerAtBoundary(after, b, h, t);
    assert t in sorted;
    var i :| 0 <= i < |sorted| && sorted[i] == t;
    BoundaryIsListed(before, after, b, sorted, ms, h, i);
  }

  lemma BoundaryIsListed(before: Ring<NodeId>, after: Ring<NodeId>, b: set<u32>, sorted: seq<u32>,
                         ms: seq<RangeMigration>, h: u32, i: nat)
    requires before != map[] && after != map[]
    requires Lists(sorted, b, 0) && ListsChanges(before, after, sorted, |sorted|, ms)
    requires i < |sorted| && IsNearest(b, h, sorted[i])
    requires OwnerAt(before, sorted[i]) != OwnerAt(after, sorted[i])
    ensures Listed(ms, h)
  {
    assert HasEnd(ms, sorted[i]);
    var m :| m in ms && m.end == sorted[i];
    assert DescribedBelow(before, after, sorted, |sorted|, m);
    var j :| 0 <= j < |sorted| && DescribesChange(before, after, sorted, j, m);
    RangeEndsAtNearest(b, sorted, j, m, h);
  }

  // ---------------------------------------------------------------- ranges that could be one

  /** Two listed ranges that follow each other and move between the same nodes. */
  predicate Joinable(m: RangeMigration, m': RangeMigration) {
    m != m' && m.end == m'.start && m.from == m'.from && m.to == m'.to
  }

  ghost predicate HasJoinable(ms: seq<RangeMigration>) { exists m, m' :: m in ms && m' in ms && Joinable(m, m') }

  /** A boundary and the one before it, with the same old owner and the same other new owner. */
  ghost predicate SameChange(before: Ring<NodeId>, after: Ring<NodeId>, sorted: seq<u32>, i: int)
    requires before != map[] && after != map[]
  {
    && 0 <= i < |sorted| && |sorted| > 1
    && OwnerAt(before, sorted[i]) == OwnerAt(before, Previous(sorted, i))
    && OwnerAt(after, sorted[i]) == OwnerAt(after, Previous(sorted, i))
    && OwnerAt(before, sorted[i]) != OwnerAt(after, sorted[i])
  }

  /** Such ranges are listed exactly when two neighbouring boundaries change owners alike. */
  lemma JoinableIffSameChange(before: Ring<NodeId>, after: Ring<NodeId>, ms: seq<RangeMigration>)
    requires before != map[] && after != map[] && ListsAllChanges(before, after, ms)
    ensures HasJoinable(ms) <==> exists i :: SameChange(before, after, Boundaries(before, after), i)
  {
    hide OwnerAt, Dist;
    var sorted := Boundaries(before, after);
    if m, m' :| m in ms && m' in ms && Joinable(m, m') {
      assert DescribedBelow(before, after, sorted, |sorted|, m) && DescribedBelow(before, after, sorted, |sorted|, m');
      var i :| 0 <= i < |sorted| && DescribesChange(before, after, sorted, i, m);
      var j :| 0 <= j < |sorted| && DescribesChange(before, after, sorted, j, m');
      assert SameChange(before, after, sorted, j);
    }
    if i :| SameChange(before, after, sorted, i) {
      var j := if i == 0 then |sorted| - 1 else i - 1;
      var m := ListedAt(before, after, ms, j);
      var m' := ListedAt(before, after, ms, i);
      assert Joinable(m, m');
    }
  }

  /** The range listed for a boundary at which the owner differs. */
  lemma ListedAt(before: Ring<NodeId>, after: Ring<NodeId>, ms: seq<RangeMigration>, i: nat) returns (m: RangeMigration)
    requires before != map[] && after != map[] && ListsAllChanges(before, after, ms)
    requires var sorted := Boundaries(before, after);
             i < |sorted| && OwnerAt(before, sorted[i]) != OwnerAt(after, sorted[i])
    ensures m in ms && DescribesChange(before, after, Boundaries(before, after), i, m)
    ensures forall j :: 0 <= j < |Boundaries(before, after)| && j != i ==> Boundaries(before, after)[j] != m.end
  {
    var sorted := Boundaries(before, after);
    assert HasEnd(ms, sorted[i]);
    m :| m in ms && m.end == sorted[i];
    assert DescribedBelow(before, after, sorted, |sorted|, m);
    ClockwiseInOrder(before.Keys + after.Keys, 0);
    forall j | 0 <= j < |sorted| && j != i ensures sorted[j] != sorted[i] {
      assert Dist(0, sorted[j]) != Dist(0, sorted[i]);
    }
  }

  function TwoTokens(a: NodeId): (r: Ring<NodeId>)
    ensures r.Keys == {10, 20} && r != map[]
    ensures forall h: u32 :: OwnerAt(r, h) == a
  {
    var r: Ring<NodeId> := map[10 := a, 20 := a];
    assert 10 in r.Keys;
    r
  }

  /** For example when one node with two tokens is replaced by another with the same tokens. */
  lemma TakeoverIsSplit(a: NodeId, b: NodeId, ms: seq<RangeMigration>)
    requires a != b && ListsAllChanges(TwoTokens(a), TwoTokens(b), ms)
    ensures HasJoinable(ms)
  {
    var before, after := TwoTokens(a), TwoTokens(b);
    var s: set<u32> := {10, 20};
    hide TwoTokens, ListsChanges;
    assert before.Keys + after.Keys == s;
    OrderUnique(s, 0, [10, 20]);
    assert SameChange(before, after, Boundaries(before, after), 1);
    JoinableIffSameChange(before, after, ms);
  }

  // ---------------------------------------------------------------- joining and leaving

  /** When tokens of `node` are placed, a hash either keeps its owner or moves to `node`. */
  lemma AddingMovesOnlyToNode(ring: Ring<NodeId>, node: NodeId, tokens: seq<u32>, h: u32)
    requires ring != map[]
    ensures AddTokens(ring, node, tokens) != map[]
    ensures OwnerAt(AddTokens(ring, node, tokens), h) in {OwnerAt(ring, h), node}
  {
  }

  /** When `node` is removed, only hashes it owned move. */
  lemma RemovingMovesOnlyFromNode(ring: Ring<NodeId>, node: NodeId, h: u32)
    requires ring != map[] && RemoveOwner(ring, node) != map[]
    ensures OwnerAt(ring, h) == node || OwnerAt(RemoveOwner(ring, node), h) == OwnerAt(ring, h)
  {
  }

  /** Every range has a hash in it: its end. */
  lemma EndInRange(m: RangeMigration)
    ensures InRange(m, m.end)
  {
  }

  /** All transfers of a join go to the joining node. */
  lemma JoinTransfersGoToNode(ring: Ring<NodeId>, node: NodeId, tokens: seq<u32>, ms: seq<RangeMigration>)
    requires ring != map[] && AddTokens(ring, node, tokens) != map[]
    requires Exact(ring, AddTokens(ring, node, tokens), ms)
    ensures forall m :: m in ms ==> m.to == node
  {
    forall m | m in ms ensures m.to == node {
      EndInRange(m);
      AddingMovesOnlyToNode(ring, node, tokens, m.end);
    }
  }

  /** All transfers of a departure come from the departing node. */
  lemma LeaveTransfersComeFromNode(ring: Ring<NodeId>, node: NodeId, ms: seq<RangeMigration>)
    requires ring != map[] && RemoveOwner(ring, node) != map[]
    requires Exact(ring, RemoveOwner(ring, node), ms)
    ensures forall m :: m in ms ==> m.from == node
  {
    forall m | m in ms ensures m.from == node {
      EndInRange(m);
      RemovingMovesOnlyFromNode(ring, node, m.end);
    }
  }
}

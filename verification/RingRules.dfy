/** Consistent hashing as values: which token owns a hash position, and in which order the nodes are
    met walking clockwise from it. A ring maps tokens to owners, of whatever type. */
module RingRules {
  import opened NodeInfos
  import opened Sequences

  const SPACE: nat := 0x1_0000_0000

  type Ring<T> = map<u32, T>

  /** Steps clockwise from position `h` to token `t`. */
  function Dist(h: u32, t: u32): nat { if t >= h then t - h else SPACE - h + t }

  /** The first token met clockwise from `h`, the position `h` itself included. */
  ghost predicate IsNearest(s: set<u32>, h: u32, t: u32) {
    t in s && forall u :: u in s ==> Dist(h, t) <= Dist(h, u)
  }

  lemma {:induction false} NearestExists(s: set<u32>, h: u32)
    requires s != {}
    ensures exists t :: IsNearest(s, h, t)
    decreases |s|
  {
    var x :| x in s;
    if s == {x} {
      assert IsNearest(s, h, x);
    } else {
      var rest := s - {x};
      NearestExists(rest, h);
      var t :| IsNearest(rest, h, t);
      assert IsNearest(s, h, if Dist(h, x) < Dist(h, t) then x else t);
    }
  }

  function Nearest(s: set<u32>, h: u32): (t: u32)
    requires s != {}
    ensures IsNearest(s, h, t)
  {
    NearestExists(s, h);
    var t :| t in s && forall u :: u in s ==> Dist(h, t) <= Dist(h, u);
    t
  }

  lemma NearestUnique(s: set<u32>, h: u32, t: u32)
    requires IsNearest(s, h, t)
    ensures Nearest(s, h) == t
  {
  }

  /** The owner of a hash position. */
  function OwnerAt<T>(ring: Ring<T>, h: u32): T
    requires ring != map[]
  {
    ring[Nearest(ring.Keys, h)]
  }

  /** All tokens in the order they are met clockwise from `h`. */
  function Clockwise(s: set<u32>, h: u32): seq<u32> {
    if s == {} then [] else [Nearest(s, h)] + Clockwise(s - {Nearest(s, h)}, h)
  }

  ghost predicate InOrder(ts: seq<u32>, h: u32) {
    forall i, j :: 0 <= i < j < |ts| ==> Dist(h, ts[i]) < Dist(h, ts[j])
  }

  ghost function Elements<T>(xs: seq<T>): set<T> { set x | x in xs }

  lemma {:induction false} ClockwiseElements(s: set<u32>, h: u32)
    ensures forall t :: t in Clockwise(s, h) <==> t in s
    ensures |Clockwise(s, h)| == |s|
    decreases |s|
  {
    if s == {} {
    } else {
      ClockwiseElements(s - {Nearest(s, h)}, h);
    }
  }

  lemma {:induction false} ClockwiseInOrder(s: set<u32>, h: u32)
    ensures InOrder(Clockwise(s, h), h)
    decreases |s|
  {
    if s == {} {
    } else {
      var t := Nearest(s, h);
      var rest := Clockwise(s - {t}, h);
      ClockwiseInOrder(s - {t}, h);
      ClockwiseElements(s - {t}, h);
      forall j | 0 <= j < |rest| ensures Dist(h, t) < Dist(h, rest[j]) {
        assert rest[j] in rest;
      }
      InOrderPlus([t], rest, h);
    }
  }

  lemma InOrderPlus(xs: seq<u32>, ys: seq<u32>, h: u32)
    requires InOrder(xs, h) && InOrder(ys, h)
    requires forall i, j :: 0 <= i < |xs| && 0 <= j < |ys| ==> Dist(h, xs[i]) < Dist(h, ys[j])
    ensures InOrder(xs + ys, h)
  {
  }

  /** `ts` lists the tokens of `s` in clockwise order from `h`. */
  ghost predicate Lists(ts: seq<u32>, s: set<u32>, h: u32) {
    InOrder(ts, h) && |ts| == |s| && forall t :: t in ts <==> t in s
  }

  lemma ClockwiseOrder(s: set<u32>, h: u32)
    ensures Lists(Clockwise(s, h), s, h)
  {
    ClockwiseElements(s, h);
    ClockwiseInOrder(s, h);
  }

  /** There is only one clockwise order. */
  lemma {:induction false} OrderUnique(s: set<u32>, h: u32, ts: seq<u32>)
    requires InOrder(ts, h) && forall t :: t in ts <==> t in s
    ensures ts == Clockwise(s, h)
    decreases |ts|
  {
    if ts == [] {
      assert s == {};
    } else {
      assert ts[0] in s;
      forall u | u in s ensures Dist(h, ts[0]) <= Dist(h, u) {
        var i :| 0 <= i < |ts| && ts[i] == u;
      }
      NearestUnique(s, h, ts[0]);
      assert ts == [ts[0]] + ts[1..];
      OrderUnique(s - {ts[0]}, h, ts[1..]);
    }
  }

  /** Iterating the ordered map from its lower bound, and on from its first key at the end, is the
      clockwise order. */
  lemma RotationIsClockwise(s: set<u32>, h: u32, keys: seq<u32>, p: nat)
    requires Lists(keys, s, 0) && p <= |keys|
    requires forall i :: 0 <= i < p ==> keys[i] < h
    requires forall i :: p <= i < |keys| ==> keys[i] >= h
    ensures keys[p..] + keys[..p] == Clockwise(s, h)
  {
    RotationInOrder(keys, p, h);
    var ts := keys[p..] + keys[..p];
    assert keys == keys[..p] + keys[p..];
    OrderUnique(s, h, ts);
  }

  lemma RotationInOrder(keys: seq<u32>, p: nat, h: u32)
    requires InOrder(keys, 0) && p <= |keys|
    requires forall i :: 0 <= i < p ==> keys[i] < h
    requires forall i :: p <= i < |keys| ==> keys[i] >= h
    ensures InOrder(keys[p..] + keys[..p], h)
  {
  }

  // ---------------------------------------------------------------- successor lists

  /** First occurrences, in order. */
  function Dedup<T(==)>(xs: seq<T>): seq<T> {
    if xs == [] then []
    else
      var d := Dedup(xs[..|xs| - 1]);
      if xs[|xs| - 1] in d then d else d + [xs[|xs| - 1]]
  }

  lemma {:induction false} DedupDistinct<T(!new)>(xs: seq<T>)
    ensures Distinct(Dedup(xs)) && Elements(Dedup(xs)) == Elements(xs)
    ensures |Dedup(xs)| <= |xs|
    ensures xs != [] ==> Dedup(xs) != [] && Dedup(xs)[0] == xs[0]
  {
    if xs == [] {
    } else {
      var n := |xs| - 1;
      DedupDistinct(xs[..n]);
      assert xs == xs[..n] + [xs[n]];
      assert Elements(xs) == Elements(xs[..n]) + {xs[n]};
      var d := Dedup(xs[..n]);
      assert xs[n] in d <==> xs[n] in Elements(d);
      assert Elements(d + [xs[n]]) == Elements(d) + {xs[n]};
      if n == 0 { assert xs[..n] == []; }
    }
  }

  /** Owners of a list of tokens. */
  function Owners<T>(ring: Ring<T>, ts: seq<u32>): (r: seq<T>)
    requires forall i :: 0 <= i < |ts| ==> ts[i] in ring
    ensures |r| == |ts|
    ensures forall i :: 0 <= i < |ts| ==> r[i] == ring[ts[i]]
  {
    seq(|ts|, i requires 0 <= i < |ts| => ring[ts[i]])
  }

  lemma ClockwiseInRing<T>(ring: Ring<T>, h: u32)
    ensures forall i :: 0 <= i < |Clockwise(ring.Keys, h)| ==> Clockwise(ring.Keys, h)[i] in ring
  {
    ClockwiseElements(ring.Keys, h);
  }

  /** Every node of the ring, in the order it is first met clockwise from `h`. */
  function Successors<T(==)>(ring: Ring<T>, h: u32): seq<T> {
    ClockwiseInRing(ring, h);
    Dedup(Owners(ring, Clockwise(ring.Keys, h)))
  }

  function Take<T>(xs: seq<T>, n: nat): seq<T> { if n < |xs| then xs[..n] else xs }

  /** What `get_n_nodes_for_key` returns; asking for none returns all of them. */
  function FirstNodes<T(==)>(ring: Ring<T>, h: u32, n: nat): seq<T> {
    if n == 0 then Successors(ring, h) else Take(Successors(ring, h), n)
  }

  lemma SuccessorsElements<T(!new)>(ring: Ring<T>, h: u32)
    ensures Distinct(Successors(ring, h)) && Elements(Successors(ring, h)) == ring.Values
    ensures ring != map[] ==> Successors(ring, h) != [] && Successors(ring, h)[0] == OwnerAt(ring, h)
  {
    ClockwiseInRing(ring, h);
    OwnersElements(ring, h);
    DedupDistinct(Owners(ring, Clockwise(ring.Keys, h)));
  }

  lemma OwnersElements<T(!new)>(ring: Ring<T>, h: u32)
    requires forall i :: 0 <= i < |Clockwise(ring.Keys, h)| ==> Clockwise(ring.Keys, h)[i] in ring
    ensures Elements(Owners(ring, Clockwise(ring.Keys, h))) == ring.Values
  {
    var ts := Clockwise(ring.Keys, h);
    ClockwiseElements(ring.Keys, h);
    var os := Owners(ring, ts);
    forall v | v in ring.Values ensures v in os {
      var t :| t in ring.Keys && ring[t] == v;
      var i :| 0 <= i < |ts| && ts[i] == t;
      assert os[i] == v;
    }
    forall v | v in os ensures v in ring.Values {
      var i :| 0 <= i < |os| && os[i] == v;
      assert ts[i] in ring.Keys;
    }
  }

  lemma {:induction false} DistinctCount<T(!new)>(xs: seq<T>)
    requires Distinct(xs)
    ensures |Elements(xs)| == |xs|
  {
    if xs == [] {
    } else {
      var n := |xs| - 1;
      DistinctCount(xs[..n]);
      assert xs == xs[..n] + [xs[n]];
      assert Elements(xs) == Elements(xs[..n]) + {xs[n]};
    }
  }

  /** The list for n >= 1: no duplicates, the owner first, and min(n, number of nodes) of them. */
  lemma FirstNodesShape<T(!new)>(ring: Ring<T>, h: u32, n: nat)
    requires n >= 1
    ensures Distinct(FirstNodes(ring, h, n))
    ensures |FirstNodes(ring, h, n)| == if n < |ring.Values| then n else |ring.Values|
    ensures Elements(FirstNodes(ring, h, n)) <= ring.Values
    ensures ring != map[] ==> FirstNodes(ring, h, n) != [] && FirstNodes(ring, h, n)[0] == OwnerAt(ring, h)
  {
    SuccessorsElements(ring, h);
    DistinctCount(Successors(ring, h));
  }

  // ---------------------------------------------------------------- removing a node

  function AddTokens<T>(ring: Ring<T>, node: T, tokens: seq<u32>): Ring<T> {
    ring + map t | t in tokens :: node
  }

  lemma AddOneToken<T>(ring: Ring<T>, node: T, tokens: seq<u32>, t: u32)
    ensures AddTokens(ring, node, tokens + [t]) == AddTokens(ring, node, tokens)[t := node]
  {
  }

  function RemoveOwner<T(==)>(ring: Ring<T>, node: T): Ring<T> {
    map t | t in ring && ring[t] != node :: ring[t]
  }

  function Without<T(==)>(xs: seq<T>, x: T): seq<T> {
    if xs == [] then []
    else Without(xs[..|xs| - 1], x) + (if xs[|xs| - 1] == x then [] else [xs[|xs| - 1]])
  }

  lemma {:induction false} WithoutMember<T(!new)>(xs: seq<T>, x: T, y: T)
    ensures y in Without(xs, x) <==> y in xs && y != x
  {
    if xs == [] {
    } else {
      var n := |xs| - 1;
      assert xs == xs[..n] + [xs[n]];
      WithoutMember(xs[..n], x, y);
    }
  }

  lemma {:induction false} DedupWithout<T(!new)>(xs: seq<T>, x: T)
    ensures Dedup(Without(xs, x)) == Without(Dedup(xs), x)
  {
    if xs == [] {
    } else {
      var n := |xs| - 1;
      var last, ys := xs[n], xs[..n];
      DedupWithout(ys, x);
      var w, d := Without(ys, x), Dedup(ys);
      WithoutMember(d, x, last);
      assert (w + [last])[..|w|] == w && w + [] == w;
      if last !in d {
        assert (d + [last])[..|d|] == d;
      }
      assert Without(d, x) + [] == Without(d, x);
    }
  }

  lemma {:induction false} WithoutHead<T(!new)>(xs: seq<T>)
    requires xs != [] && Distinct(xs)
    ensures Without(xs, xs[0]) == xs[1..]
  {
    var n := |xs| - 1;
    if n > 0 {
      assert xs[..n][0] == xs[0];
      WithoutHead(xs[..n]);
      assert xs[..n][1..] + [xs[n]] == xs[1..];
    } else {
      assert xs[..n] == [];
    }
  }

  /** The tokens of `ts` that are not owned by `x`. */
  function Kept<T(==)>(ring: Ring<T>, ts: seq<u32>, x: T): seq<u32>
    requires forall i :: 0 <= i < |ts| ==> ts[i] in ring
  {
    if ts == [] then []
    else
      var front, last := Kept(ring, ts[..|ts| - 1], x), ts[|ts| - 1];
      if ring[last] == x then front else front + [last]
  }

  lemma {:induction false} KeptElements<T(!new)>(ring: Ring<T>, ts: seq<u32>, x: T)
    requires forall i :: 0 <= i < |ts| ==> ts[i] in ring
    ensures forall t :: t in Kept(ring, ts, x) <==> t in ts && t in RemoveOwner(ring, x)
  {
    if ts == [] {
    } else {
      assert ts == ts[..|ts| - 1] + [ts[|ts| - 1]];
      KeptElements(ring, ts[..|ts| - 1], x);
    }
  }

  lemma {:induction false} KeptInOrder<T(!new)>(ring: Ring<T>, ts: seq<u32>, x: T, h: u32)
    requires (forall i :: 0 <= i < |ts| ==> ts[i] in ring) && InOrder(ts, h)
    ensures InOrder(Kept(ring, ts, x), h)
  {
    hide Dist;
    if ts == [] {
    } else {
      var n := |ts| - 1;
      var front := Kept(ring, ts[..n], x);
      KeptInOrder(ring, ts[..n], x, h);
      KeptElements(ring, ts[..n], x);
      forall i | 0 <= i < |front| ensures Dist(h, front[i]) < Dist(h, ts[n]) {
        assert front[i] in front;
        var j :| 0 <= j < n && ts[j] == front[i];
      }
      InOrderPlus(front, [ts[n]], h);
    }
  }

  lemma {:induction false} KeptOwners<T(!new)>(ring: Ring<T>, ts: seq<u32>, x: T)
    requires forall i :: 0 <= i < |ts| ==> ts[i] in ring
    ensures var kept, less := Kept(ring, ts, x), RemoveOwner(ring, x);
            && (forall i :: 0 <= i < |kept| ==> kept[i] in less)
            && Owners(less, kept) == Without(Owners(ring, ts), x)
  {
    if ts == [] {
    } else {
      var n := |ts| - 1;
      KeptOwners(ring, ts[..n], x);
      assert Owners(ring, ts)[..n] == Owners(ring, ts[..n]);
    }
  }

  /** Removing any node removes it from the list and changes nothing else in it. */
  lemma SuccessorsAfterRemoval<T(!new)>(ring: Ring<T>, h: u32, x: T)
    ensures Successors(RemoveOwner(ring, x), h) == Without(Successors(ring, h), x)
  {
    var ts, less := Clockwise(ring.Keys, h), RemoveOwner(ring, x);
    ClockwiseOrder(ring.Keys, h);
    ClockwiseInRing(ring, h);
    KeptElements(ring, ts, x);
    KeptInOrder(ring, ts, x, h);
    KeptOwners(ring, ts, x);
    OrderUnique(less.Keys, h, Kept(ring, ts, x));
    DedupWithout(Owners(ring, ts), x);
  }

  /** The tail of a successor list is the shorter successor list once its head has left the ring. */
  lemma FallbackAfterHeadLeaves<T(!new)>(ring: Ring<T>, h: u32, n: nat)
    requires ring != map[] && n >= 2
    ensures FirstNodes(ring, h, n) != []
    ensures FirstNodes(RemoveOwner(ring, OwnerAt(ring, h)), h, n - 1) == FirstNodes(ring, h, n)[1..]
  {
    SuccessorsElements(ring, h);
    SuccessorsAfterRemoval(ring, h, OwnerAt(ring, h));
    WithoutHead(Successors(ring, h));
  }

  function RemoveOwners<T(==)>(ring: Ring<T>, xs: seq<T>): Ring<T> {
    if xs == [] then ring else RemoveOwners(RemoveOwner(ring, xs[0]), xs[1..])
  }

  /** The k-th fallback of a key is its owner as soon as the k nodes before it are gone. */
  lemma {:induction false} FallbackBecomesOwner<T(!new)>(ring: Ring<T>, h: u32, k: nat)
    requires k < |Successors(ring, h)|
    ensures RemoveOwners(ring, Successors(ring, h)[..k]) != map[]
    ensures OwnerAt(RemoveOwners(ring, Successors(ring, h)[..k]), h) == Successors(ring, h)[k]
    decreases k
  {
    SuccessorsElements(ring, h);
    var all := Successors(ring, h);
    assert all[0] in Elements(all);
    if k == 0 {
    } else {
      var less := RemoveOwner(ring, all[0]);
      SuccessorsAfterRemoval(ring, h, all[0]);
      WithoutHead(all);
      FallbackBecomesOwner(less, h, k - 1);
      assert all[1..][..k - 1] == all[..k][1..];
    }
  }
}

/** Second-chance eviction (src/storage/clock_evictor.cpp): the ring of tracked entries as a value, and
    which entry a sweep of the hand picks. */
module ClockRules {
  import opened Circular
  import opened SlabEntries

  /** The tracked entries whose access bit is set. */
  ghost function Marked(ring: seq<nat>, m: Memory): set<nat> {
    set p | p in ring && p + ACCESS_BIT < |m| && m[p + ACCESS_BIT] != 0
  }

  /** How many entries the hand passes over, having passed `k` already. */
  ghost function Sweep(ring: seq<nat>, marked: set<nat>, hand: nat, k: nat := 0): (r: nat)
    requires hand < |ring| && k <= |ring|
    ensures k <= r <= |ring|
    decreases |ring| - k
  {
    if k < |ring| && ring[Wrap(hand, k, |ring|)] in marked then Sweep(ring, marked, hand, k + 1) else k
  }

  /** The sweep stops at the first unmarked entry clockwise from the hand, and goes once round to the
      hand itself when there is none: at most one inspection more than there are entries. */
  lemma {:induction false} SweepStopsAtFirstUnmarked(ring: seq<nat>, marked: set<nat>, hand: nat, k: nat)
    requires hand < |ring| && k <= |ring|
    requires forall j :: 0 <= j < k ==> ring[Wrap(hand, j, |ring|)] in marked
    ensures k <= Sweep(ring, marked, hand, k) <= |ring|
    ensures forall j :: 0 <= j < Sweep(ring, marked, hand, k) ==> ring[Wrap(hand, j, |ring|)] in marked
    ensures Sweep(ring, marked, hand, k) < |ring| ==> ring[Wrap(hand, Sweep(ring, marked, hand, k), |ring|)] !in marked
    ensures Sweep(ring, marked, hand, k) == |ring| ==> forall p :: p in ring ==> p in marked
    decreases |ring| - k
  {
    if k < |ring| && ring[Wrap(hand, k, |ring|)] in marked {
      SweepStopsAtFirstUnmarked(ring, marked, hand, k + 1);
    } else if k == |ring| {
      forall p | p in ring ensures p in marked {
        var i :| 0 <= i < |ring| && ring[i] == p;
        var j := if i >= hand then i - hand else i + |ring| - hand;
        assert ring[Wrap(hand, j, |ring|)] == p;
      }
    }
  }

  /** Second chance: as long as some entry has not been accessed since the hand last passed it, no entry
      that has been is evicted. */
  lemma AccessedSurvives(ring: seq<nat>, marked: set<nat>, hand: nat, q: nat)
    requires hand < |ring| && q in ring && q !in marked
    ensures Sweep(ring, marked, hand) < |ring|
    ensures ring[Wrap(hand, Sweep(ring, marked, hand), |ring|)] !in marked
  {
    SweepStopsAtFirstUnmarked(ring, marked, hand, 0);
  }

  /** The entries passed over lose their access bit. */
  ghost function PassedBits(ring: seq<nat>, hand: nat, k: nat): set<nat>
    requires hand < |ring| && k <= |ring|
  {
    set j | 0 <= j < k :: ring[Wrap(hand, j, |ring|)] + ACCESS_BIT
  }

  /** `m'` is `m` with the given bytes set to zero. */
  ghost predicate Cleared(m: Memory, m': Memory, bits: set<nat>) {
    |m'| == |m| && forall a :: 0 <= a < |m| ==> m'[a] == if a in bits then 0 else m[a]
  }

  /** The hand moved from `hand` to `at`, where the sweep stops, and cleared the bits it passed. */
  ghost predicate Swept(ring: seq<nat>, hand: nat, m: Memory, m': Memory, at: nat) {
    && hand < |ring|
    && (forall p :: p in ring ==> p + ACCESS_BIT < |m|)
    && var k := Sweep(ring, Marked(ring, m), hand);
       k <= |ring| && at == Wrap(hand, k, |ring|) && Cleared(m, m', PassedBits(ring, hand, k))
  }

  /** The last entry takes the place of the removed one. */
  function SwapRemove(ring: seq<nat>, i: nat): (r: seq<nat>)
    requires i < |ring|
    ensures |r| == |ring| - 1
  {
    var n := |ring| - 1;
    if i == n then ring[..n] else ring[i := ring[n]][..n]
  }

  /** Ring and reverse index describe each other; so no entry is tracked twice. */
  ghost predicate Indexed(ring: seq<nat>, index: map<nat, nat>) {
    && (forall i :: 0 <= i < |ring| ==> ring[i] in index && index[ring[i]] == i)
    && (forall p :: p in index ==> index[p] < |ring| && ring[index[p]] == p)
  }

  lemma IndexedMembers(ring: seq<nat>, index: map<nat, nat>)
    requires Indexed(ring, index)
    ensures forall p :: p in ring <==> p in index
  {
  }

  ghost predicate HandOk(ring: seq<nat>, hand: nat) { hand == 0 || hand < |ring| }

  // ---------------------------------------------------------------- which entries go next

  /** All that decides which entries are evicted. */
  datatype Clock = Clock(ring: seq<nat>, marked: set<nat>, hand: nat)

  /** Where the hand stops. */
  ghost function StopsAt(c: Clock): (at: nat)
    requires c.hand < |c.ring|
    ensures at < |c.ring|
  {
    Wrap(c.hand, Sweep(c.ring, c.marked, c.hand), |c.ring|)
  }

  ghost function Victim(c: Clock): nat
    requires c.hand < |c.ring|
  {
    c.ring[StopsAt(c)]
  }

  ghost function PassedEntries(c: Clock): set<nat>
    requires c.hand < |c.ring|
  {
    set j | 0 <= j < Sweep(c.ring, c.marked, c.hand) :: c.ring[Wrap(c.hand, j, |c.ring|)]
  }

  /** The clock after one eviction. */
  ghost function Tick(c: Clock): (c': Clock)
    requires c.hand < |c.ring|
    ensures HandOk(c'.ring, c'.hand)
  {
    var at := StopsAt(c);
    Clock(SwapRemove(c.ring, at), c.marked - PassedEntries(c) - {c.ring[at]}, if at == |c.ring| - 1 then 0 else at)
  }

  /** The clock after the entry at `i` was untracked. */
  ghost function Drop(c: Clock, i: nat): (c': Clock)
    requires i < |c.ring| && HandOk(c.ring, c.hand)
    ensures HandOk(c'.ring, c'.hand)
  {
    Clock(SwapRemove(c.ring, i), c.marked - {c.ring[i]}, if c.hand >= |c.ring| - 1 then 0 else c.hand)
  }

  /** The next `n` entries to be evicted, fewer if there are not so many. */
  ghost function Victims(c: Clock, n: nat): (vs: seq<nat>)
    requires HandOk(c.ring, c.hand)
    ensures |vs| == if n < |c.ring| then n else |c.ring|
    decreases n
  {
    if n == 0 || c.ring == [] then [] else [Victim(c)] + Victims(Tick(c), n - 1)
  }

  /** What a sweep and the removal of its victim do to the marks. */
  lemma MarksAfterEviction(ring: seq<nat>, index: map<nat, nat>, hand: nat, m: Memory, m': Memory, at: nat)
    requires Indexed(ring, index) && at < |ring| && Swept(ring, hand, m, m', at)
    ensures var c := Clock(ring, Marked(ring, m), hand);
            at == StopsAt(c) && Marked(SwapRemove(ring, at), m') == Tick(c).marked
  {
    hide SwapRemove, Sweep;
    SwapRemoveElements(ring, index, at);
    var c := Clock(ring, Marked(ring, m), hand);
    var k := Sweep(ring, c.marked, hand);
    assert forall p :: p in ring ==> (p + ACCESS_BIT in PassedBits(ring, hand, k) <==> p in PassedEntries(c));
  }

  lemma MarksAfterDrop(ring: seq<nat>, index: map<nat, nat>, m: Memory, i: nat)
    requires Indexed(ring, index) && i < |ring|
    ensures Marked(SwapRemove(ring, i), m) == Marked(ring, m) - {ring[i]}
  {
    hide SwapRemove;
    SwapRemoveElements(ring, index, i);
  }

  /** Removing position `i` removes that entry and no other. */
  lemma SwapRemoveElements(ring: seq<nat>, index: map<nat, nat>, i: nat)
    requires Indexed(ring, index) && i < |ring|
    ensures forall p :: p in SwapRemove(ring, i) <==> p in ring && p != ring[i]
  {
  }
}

/** The evictor object. The access bits it reads and clears live in the arena. */
module ClockEvictors {
  import opened NodeInfos
  import opened Circular
  import opened SlabEntries
  import opened ClockRules

  class ClockEvictor {
    var ring: seq<nat>
    var index: map<nat, nat>
    var hand: nat

    ghost predicate Valid()
      reads this
    {
      Indexed(ring, index) && HandOk(ring, hand)
    }

    constructor ()
      ensures Valid() && ring == [] && hand == 0
    {
      ring, index, hand := [], map[], 0;
    }

    method SwapRemoveAt(i: nat)
      requires Indexed(ring, index) && i < |ring|
      modifies this`ring, this`index
      ensures Indexed(ring, index)
      ensures ring == SwapRemove(old(ring), i)
    {
      var removed, back := ring[i], ring[|ring| - 1];
      index := index - {removed};
      if i != |ring| - 1 {
        ring := ring[i := back];
        index := index[back := i];
      }
      ring := ring[..|ring| - 1];
    }

    /** An entry tracked twice is in the ring twice, and then the index knows its last place only. */
    method Track(entry: nat)
      requires Valid()
      modifies this
      ensures ring == old(ring) + [entry] && index == old(index)[entry := |old(ring)|] && hand == old(hand)
      ensures Valid() <==> entry !in old(ring)
    {
      index := index[entry := |ring|];
      ring := ring + [entry];
      if j :| 0 <= j < |old(ring)| && old(ring)[j] == entry {
        assert ring[j] == entry;
      }
    }

    method Untrack(entry: nat)
      requires Valid()
      modifies this
      ensures Valid()
      ensures entry !in old(ring) ==> ring == old(ring) && hand == old(hand)
      ensures entry in old(ring) ==>
                && entry in old(index) && ring == SwapRemove(old(ring), old(index)[entry])
                && hand == if old(hand) >= |ring| then 0 else old(hand)
    {
      IndexedMembers(ring, index);
      if entry !in index { return; }
      SwapRemoveAt(index[entry]);
      if ring == [] {
        hand := 0;
      } else if hand >= |ring| {
        hand := 0;
      }
    }

    /** Moves the hand to the entry to evict, clearing the bits it passes. The source's limit of two
        rounds is never reached. */
    method SweepHand(arena: array<byte>)
      requires Indexed(ring, index) && ring != [] && forall p :: p in ring ==> p + ACCESS_BIT < arena.Length
      modifies this`hand, arena
      ensures hand < |ring|
      ensures Swept(ring, if old(hand) < |ring| then old(hand) else 0, old(arena[..]), arena[..], hand)
    {
      hide After, Sweep, Cleared, PassedBits, Marked;
      var limit := |ring| * 2;
      ghost var h, n, m := if hand < |ring| then hand else 0, |ring|, arena[..];
      ghost var marked := Marked(ring, m);
      ghost var k := Sweep(ring, marked, h);
      assert k <= n by { SweepStopsAtFirstUnmarked(ring, marked, h, 0); }
      NothingCleared(ring, h, m);
      var i, found := 0, false;
      while i < limit && !found
        invariant 0 <= i <= k
        invariant hand == Wrap(h, i, n) || (hand >= n && h == i == 0 && !found)
        invariant Cleared(m, arena[..], PassedBits(ring, h, i))
        invariant found ==> i == k
        decreases limit - i, !found
      {
        if hand >= |ring| { hand := 0; }
        var bit := ring[hand] + ACCESS_BIT;
        BitDuringSweep(ring, index, h, i, m, arena[..]);
        if arena[bit] == 0 {
          found := true;
        } else {
          ghost var m' := arena[..];
          arena[bit] := 0;
          ClearOneMore(ring, h, i, m, m', arena[..]);
          NextPlace(h, i, n);
          hand := After(hand, |ring|);
          i := i + 1;
        }
      }
    }

    /** The clock as the bits in memory have it. */
    ghost function State(m: Memory): (c: Clock)
      reads this
      ensures c.ring == ring && c.hand == hand
    {
      Clock(ring, Marked(ring, m), hand)
    }

    /** On a non-empty ring: evicts the entry at which the sweep stops, clears exactly the bits of the
        entries before it, and leaves the hand at its place. */
    method EvictOne(arena: array<byte>) returns (victim: Option<nat>)
      requires Valid() && forall p :: p in ring ==> p + ACCESS_BIT < arena.Length
      modifies this, arena
      ensures Valid()
      ensures old(ring) == [] ==> victim == None && ring == [] && hand == old(hand) && arena[..] == old(arena[..])
      ensures old(ring) != [] ==>
                var c := old(State(arena[..]));
                && victim == Some(Victim(c)) && State(arena[..]) == Tick(c)
                && Swept(c.ring, c.hand, old(arena[..]), arena[..], StopsAt(c))
    {
      if ring == [] { return None; }
      SweepHand(arena);
      victim := Some(ring[hand]);
      ghost var at := hand;
      SwapRemoveAt(hand);
      if hand >= |ring| && ring != [] { hand := 0; }
      MarksAfterEviction(old(ring), old(index), old(hand), old(arena[..]), arena[..], at);
    }
  }

  lemma NothingCleared(r: seq<nat>, h: nat, m: Memory)
    requires h < |r|
    ensures Cleared(m, m, PassedBits(r, h, 0))
  {
  }

  lemma ClearOneMore(r: seq<nat>, h: nat, i: nat, m: Memory, m': Memory, m'': Memory)
    requires h < |r| && i < |r| && Cleared(m, m', PassedBits(r, h, i))
    requires r[Wrap(h, i, |r|)] + ACCESS_BIT < |m'| && m'' == m'[r[Wrap(h, i, |r|)] + ACCESS_BIT := 0]
    ensures Cleared(m, m'', PassedBits(r, h, i + 1))
  {
  }

  /** What the hand reads after passing `i` entries: set as long as the sweep has further to go. */
  lemma BitDuringSweep(r: seq<nat>, index: map<nat, nat>, h: nat, i: nat, m: Memory, m': Memory)
    requires Indexed(r, index) && h < |r| && i <= |r|
    requires forall p :: p in r ==> p + ACCESS_BIT < |m|
    requires i <= Sweep(r, Marked(r, m), h)
    requires Cleared(m, m', PassedBits(r, h, i))
    ensures r[Wrap(h, i, |r|)] + ACCESS_BIT < |m|
    ensures m'[r[Wrap(h, i, |r|)] + ACCESS_BIT] == 0 <==> i == Sweep(r, Marked(r, m), h)
  {
    var n := |r|;
    var p := r[Wrap(h, i, n)];
    SweepStopsAtFirstUnmarked(r, Marked(r, m), h, 0);
    assert p in r;
    if i < n {
      forall j | 0 <= j < i ensures r[Wrap(h, j, n)] != p {
        assert index[r[Wrap(h, j, n)]] == Wrap(h, j, n) != Wrap(h, i, n);
      }
      assert p + ACCESS_BIT !in PassedBits(r, h, i);
    } else {
      assert r[Wrap(h, 0, n)] == p;
      assert p + ACCESS_BIT in PassedBits(r, h, i);
    }
  }
}

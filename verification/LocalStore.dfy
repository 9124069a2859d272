/** The store seen from outside: a map that may lose entries, and what reads of it can return. */
module CacheRuns {
  import opened NodeInfos
  import opened Sequences
  import opened StoreRules

  /** The keys in `gone` left the contents, each once, and nothing else changed. */
  ghost predicate Dropped(before: map<Key, Value>, after: map<Key, Value>, gone: seq<Key>) {
    && after == before - (set k | k in gone)
    && (forall k :: k in gone ==> k in before)
    && Distinct(gone)
  }

  /** What `put` does to the contents: a success replaces the value, a failure loses the old one too; the
      evicted keys are gone in either case. */
  ghost predicate Stored(before: map<Key, Value>, after: map<Key, Value>, key: Key, value: Value, ok: bool,
                         evicted: seq<Key>) {
    && key !in evicted
    && exists kept :: Dropped(before - {key}, kept, evicted) && after == if ok then kept[key := value] else kept
  }

  /** One call and what it returned. */
  datatype StoreOp =
    | PutOp(key: Key, value: Value, ok: bool)
    | GetOp(key: Key, result: Option<Value>)
    | DelOp(key: Key, found: bool)

  /** A call before it is made. */
  datatype Call = PutCall(key: Key, value: Value) | GetCall(key: Key) | DelCall(key: Key)

  function CallOf(op: StoreOp): Call {
    match op
    case PutOp(key, value, _) => PutCall(key, value)
    case GetOp(key, _) => GetCall(key)
    case DelOp(key, _) => DelCall(key)
  }

  ghost predicate CacheStep(before: map<Key, Value>, op: StoreOp, after: map<Key, Value>) {
    match op
    case PutOp(key, value, ok) => exists evicted :: Stored(before, after, key, value, ok, evicted)
    case GetOp(key, result) => after == before && result == if key in before then Some(before[key]) else None
    case DelOp(key, found) => after == before - {key} && found == (key in before)
  }

  ghost predicate CacheRun(cs: seq<map<Key, Value>>, ops: seq<StoreOp>) {
    && |cs| == |ops| + 1 && cs[0] == map[]
    && (forall i :: 0 <= i < |ops| ==> CacheStep(cs[i], ops[i], cs[i + 1]))
  }

  /** The value of the last successful put of `key`, unless it was deleted or unsuccessfully put since. */
  ghost function LastWrite(ops: seq<StoreOp>, key: Key): Option<Value> {
    if ops == [] then None
    else
      match ops[|ops| - 1]
      case PutOp(k, v, ok) => if k != key then LastWrite(ops[..|ops| - 1], key) else if ok then Some(v) else None
      case DelOp(k, _) => if k != key then LastWrite(ops[..|ops| - 1], key) else None
      case GetOp(_, _) => LastWrite(ops[..|ops| - 1], key)
  }

  /** At every moment of every run, what is cached for a key is its last write. */
  lemma {:induction false} CachedIsLastWrite(cs: seq<map<Key, Value>>, ops: seq<StoreOp>, j: nat, key: Key)
    requires CacheRun(cs, ops) && j <= |ops| && key in cs[j]
    ensures LastWrite(ops[..j], key) == Some(cs[j][key])
  {
    if j == 0 {
    } else {
      var op := ops[j - 1];
      assert ops[..j][..j - 1] == ops[..j - 1];
      assert CacheStep(cs[j - 1], op, cs[j - 1 + 1]);
      if key in cs[j - 1] { CachedIsLastWrite(cs, ops, j - 1, key); }
      match op {
        case PutOp(k, v, ok) =>
          var evicted :| Stored(cs[j - 1], cs[j], k, v, ok, evicted);
          StoredLookup(cs[j - 1], cs[j], k, v, ok, evicted, key);
        case GetOp(_, _) =>
        case DelOp(_, _) =>
      }
    }
  }

  lemma StoredLookup(before: map<Key, Value>, after: map<Key, Value>, key: Key, value: Value, ok: bool,
                     evicted: seq<Key>, k: Key)
    requires Stored(before, after, key, value, ok, evicted)
    ensures k == key ==> (k in after <==> ok) && (ok ==> after[k] == value)
    ensures k != key && k in after ==> k in before && after[k] == before[k]
    ensures k != key && k in before && k !in evicted ==> k in after
  {
  }

  /** A read returns nothing, or exactly the bytes last successfully written under that key. */
  lemma ReadIsLastWrite(cs: seq<map<Key, Value>>, ops: seq<StoreOp>, j: nat)
    requires CacheRun(cs, ops) && j < |ops| && ops[j].GetOp? && ops[j].result.Some?
    ensures LastWrite(ops[..j], ops[j].key) == ops[j].result
  {
    assert CacheStep(cs[j], ops[j], cs[j + 1]);
    CachedIsLastWrite(cs, ops, j, ops[j].key);
  }

  /** Reading one's own write at once: the value just put is there, and after a failed put or a delete
      nothing is. */
  lemma ReadAfterWrite(cs: seq<map<Key, Value>>, ops: seq<StoreOp>, j: nat)
    requires CacheRun(cs, ops) && j + 1 < |ops| && ops[j + 1].GetOp? && ops[j].key == ops[j + 1].key
    ensures ops[j].PutOp? ==> ops[j + 1].result == if ops[j].ok then Some(ops[j].value) else None
    ensures ops[j].DelOp? ==> ops[j + 1].result == None
  {
    assert CacheStep(cs[j], ops[j], cs[j + 1]) && CacheStep(cs[j + 1], ops[j + 1], cs[j + 1 + 1]);
    if ops[j].PutOp? {
      var evicted :| Stored(cs[j], cs[j + 1], ops[j].key, ops[j].value, ops[j].ok, evicted);
      StoredLookup(cs[j], cs[j + 1], ops[j].key, ops[j].value, ops[j].ok, evicted, ops[j].key);
    }
  }
}

/** The local store as an object (src/storage/local_store.cpp): shards, evictors and allocator over one
    arena, operated on one call at a time. Shard i of the source is `maps[i]` with `evictors[i]`. */
module LocalStores {
  import opened NodeInfos
  import opened Sequences
  import opened SlabRules
  import opened SlabEntries
  import opened SlabAllocators
  import opened SlabTables
  import opened ClockRules
  import opened ClockEvictors
  import opened StoreRules
  import opened CacheRuns

  const MAX_EVICT_ATTEMPTS: nat := 8

  ghost function RingsOf(evictors: seq<ClockEvictor>): (r: seq<seq<nat>>)
    reads evictors
    ensures |r| == |evictors| && forall i :: 0 <= i < |evictors| ==> r[i] == evictors[i].ring
  {
    seq(|evictors|, i requires 0 <= i < |evictors| reads evictors => evictors[i].ring)
  }

  method MakeEvictors(n: nat) returns (evictors: seq<ClockEvictor>)
    ensures |evictors| == n && Distinct(evictors)
    ensures forall i :: 0 <= i < n ==> fresh(evictors[i]) && evictors[i].Valid() && evictors[i].ring == []
  {
    evictors := [];
    for k := 0 to n
      invariant |evictors| == k && Distinct(evictors)
      invariant forall i :: 0 <= i < k ==> fresh(evictors[i]) && evictors[i].Valid() && evictors[i].ring == []
    {
      var e := new ClockEvictor();
      evictors := evictors + [e];
    }
  }

  class LocalStore {
    const allocator: SlabAllocator
    const evictors: seq<ClockEvictor>
    const hash: KeyHash
    var maps: seq<ShardMap>

    /** All views agree, except that the slots in `reserved` are allocated and not yet filled. */
    ghost predicate ValidBut(reserved: set<nat>)
      reads this, allocator, allocator.arena, evictors
    {
      && |maps| == |evictors| > 0 && Distinct(evictors)
      && allocator.Valid()
      && reserved <= allocator.live
      && (forall i :: 0 <= i < |evictors| ==> evictors[i].Valid())
      && Sound(allocator.arena[..], allocator.pages, allocator.live - reserved, maps, RingsOf(evictors), hash)
    }

    ghost predicate Valid()
      reads this, allocator, allocator.arena, evictors
    {
      ValidBut({})
    }

    constructor (totalMemory: nat, numShards: nat, hash: KeyHash)
      requires totalMemory > 0 && numShards > 0
      ensures Valid() && Contents() == map[] && |maps| == numShards && this.hash == hash
      ensures fresh(allocator) && fresh(allocator.arena) && forall i :: 0 <= i < |evictors| ==> fresh(evictors[i])
    {
      allocator := new SlabAllocator(totalMemory);
      var es := MakeEvictors(numShards);
      evictors := es;
      maps := seq(numShards, _ => map[]);
      this.hash := hash;
      new;
      assert AllKeys(maps) == {};
    }

    /** What clients can read. */
    ghost function Contents(): map<Key, Value>
      requires |maps| > 0
      reads this, allocator.arena
    {
      StoreRules.Contents(allocator.arena[..], maps, hash)
    }

    /** All that decides which entries of shard `i` are evicted. */
    ghost function ShardClock(i: nat): Clock
      requires i < |evictors|
      reads evictors, allocator.arena
    {
      evictors[i].State(allocator.arena[..])
    }

    function ShardFor(key: Key): nat
      requires |maps| > 0
      reads this
    {
      ShardOf(hash, |maps|, key)
    }

    method Get(key: Key) returns (r: Option<Value>)
      requires Valid()
      modifies allocator.arena
      ensures Valid()
      ensures CacheStep(old(Contents()), GetOp(key, r), Contents())
      ensures r.None? ==> allocator.arena[..] == old(allocator.arena[..])
      ensures r.Some? ==> Accessed(old(allocator.arena[..]), allocator.arena[..], maps[ShardFor(key)], key)
    {
      hide StoreRules.Sound, StoreRules.Contents, SlabTables.Tiled, ClockRules.Indexed;
      ghost var m, pages, live, rings := allocator.arena[..], allocator.pages, allocator.live, RingsOf(evictors);
      assert live - {} == live;
      Located(m, pages, live, maps, rings, hash, key);
      var entries := maps[ShardFor(key)];
      if key !in entries { return None; }
      var p := entries[key];
      allocator.arena[p + ACCESS_BIT] := 1;
      assert allocator.arena[..] == m[p + ACCESS_BIT := 1];
      BitsKeepSound(m, allocator.arena[..], pages, live, maps, rings, hash);
      Located(allocator.arena[..], pages, live, maps, rings, hash, key);
      return Some(EntryValue(allocator.arena[..], p));
    }

    /** The clock of the key's shard once the entry of the key itself, if any, is untracked. */
    ghost function ClockWithout(key: Key): (c: Clock)
      requires Valid()
      reads this, allocator, allocator.arena, evictors
      ensures HandOk(c.ring, c.hand)
    {
      var i := ShardFor(key);
      var clock := ShardClock(i);
      if key in maps[i] && maps[i][key] in evictors[i].index
      then Drop(clock, evictors[i].index[maps[i][key]])
      else clock
    }

    /** Untracks and frees the entry at `p`. */
    method Release(i: nat, p: nat, size: nat)
      requires allocator.Valid() && i < |evictors| && evictors[i].Valid()
      requires p in evictors[i].ring
      requires size <= MAX_SLOT && Returnable(allocator.pages, allocator.live, p, ClassForSize(size))
      modifies allocator, evictors[i]
      ensures allocator.Valid() && allocator.pages == old(allocator.pages)
              && allocator.nextPage == old(allocator.nextPage)
      ensures allocator.live == old(allocator.live) - {p}
      ensures allocator.freeSlots == Pushed(old(allocator.freeSlots), ClassForSize(size), p)
      ensures evictors[i].Valid() && p in old(evictors[i].index) && old(evictors[i].index)[p] < |old(evictors[i].ring)|
      ensures ShardClock(i) == Drop(old(ShardClock(i)), old(evictors[i].index)[p])
      ensures forall q :: q in evictors[i].ring <==> q in old(evictors[i].ring) && q != p
    {
      hide SlabTables.Tiled, ClockRules.Indexed, ClockRules.SwapRemove, SlabRules.ClassForSize, ClockRules.Marked;
      SwapRemoveElementsOf(evictors[i].ring, evictors[i].index, p);
      MarksAfterDrop(evictors[i].ring, evictors[i].index, allocator.arena[..], evictors[i].index[p]);
      evictors[i].Untrack(p);
      allocator.Deallocate(Some(p), size);
    }

    /** The views agree again once the entry of a key has left all three. */
    lemma ValidWithout(m: Memory, pages: seq<nat>, live: set<nat>, before: seq<ShardMap>, rings: seq<seq<nat>>,
                       key: Key)
      requires |before| == |evictors| == |rings| > 0 && Distinct(evictors)
      requires Sound(m, pages, live, before, rings, hash) && key in before[ShardOf(hash, |before|, key)]
      requires allocator.Valid() && allocator.arena[..] == m && allocator.pages == pages
      requires forall j :: 0 <= j < |evictors| ==> evictors[j].Valid()
      requires var i := ShardOf(hash, |before|, key); var p := before[i][key];
               && maps == before[i := Unbind(before[i], key)] && allocator.live == live - {p}
               && (forall j :: 0 <= j < |evictors| && j != i ==> evictors[j].ring == rings[j])
               && (forall q :: q in evictors[i].ring <==> q in rings[i] && q != p)
      ensures Valid() && Contents() == StoreRules.Contents(m, before, hash) - {key}
    {
      hide StoreRules.Sound, StoreRules.Contents, SlabTables.Tiled, ClockRules.Indexed, StoreRules.Unbind;
      var i := ShardOf(hash, |before|, key);
      RemoveKeepsSound(m, pages, live, before, rings, hash, key, evictors[i].ring);
      assert RingsOf(evictors) == rings[i := evictors[i].ring];
      assert allocator.live - {} == allocator.live;
    }

    /** Untracks, frees and forgets the entry of a key; afterwards its class has a free slot. */
    method Remove(key: Key)
      requires Valid() && key in maps[ShardFor(key)]
      modifies this`maps, allocator, evictors[ShardFor(key)]
      ensures Valid() && |maps| == old(|maps|) && allocator.pages == old(allocator.pages)
      ensures key in old(Contents()) && Contents() == old(Contents()) - {key}
      ensures allocator.nextPage == old(allocator.nextPage)
      ensures allocator.freeSlots ==
              Pushed(old(allocator.freeSlots), ClassOf(key, old(Contents())[key]), old(maps)[ShardFor(key)][key])
      ensures maps == old(maps)[ShardFor(key) := Unbind(old(maps)[ShardFor(key)], key)]
      ensures ShardClock(ShardFor(key)) == old(ClockWithout(key))
    {
      hide StoreRules.Sound, StoreRules.Contents, SlabTables.Tiled, ClockRules.Indexed, ClockRules.SwapRemove;
      hide ClockRules.Drop, ClockEvictors.ClockEvictor.State, StoreRules.Unbind, Pushed;
      hide SlabRules.ClassForSize, SlabEntries.EntryKey, SlabEntries.EntryValue, SlabEntries.WordAt;
      ghost var m, pages, live, rings := allocator.arena[..], allocator.pages, allocator.live, RingsOf(evictors);
      assert live - {} == live;
      Located(m, pages, live, maps, rings, hash, key);
      var i := ShardFor(key);
      var p := maps[i][key];
      var size := RequiredSize(WordAt(allocator.arena[..], p), WordAt(allocator.arena[..], p + 4));
      assert size == EntrySize(m, p) <= MAX_SLOT;
      Release(i, p, size);
      maps := maps[i := Unbind(maps[i], key)];
      ValidWithout(m, pages, live, old(maps), rings, key);
    }

    /** Evicts the entry the shard's clock picks; afterwards its class has a free slot. */
    method EvictEntry(i: nat) returns (victim: Option<Key>)
      requires Valid() && i < |maps|
      modifies this`maps, allocator.arena, allocator, evictors[i]
      ensures Valid() && |maps| == old(|maps|) && allocator.pages == old(allocator.pages)
      ensures old(evictors[i].ring) == [] ==>
                victim == None && Contents() == old(Contents()) && maps == old(maps)
                && allocator.freeSlots == old(allocator.freeSlots)
      ensures old(evictors[i].ring) != [] ==>
                && victim.Some? && ShardFor(victim.value) == i
                && victim.value in old(Contents()) && Contents() == old(Contents()) - {victim.value}
      ensures allocator.nextPage == old(allocator.nextPage)
      ensures old(evictors[i].ring) != [] ==>
                var p := Victim(old(ShardClock(i)));
                && victim.Some? && victim.value in old(maps)[i] && old(maps)[i][victim.value] == p
                && maps == old(maps)[i := Unbind(old(maps)[i], victim.value)]
                && p / PAGE < |allocator.pages|
                && allocator.freeSlots == Pushed(old(allocator.freeSlots), ClassAt(allocator.pages, p), p)
                && ShardClock(i) == Tick(old(ShardClock(i)))
    {
      hide StoreRules.Sound, StoreRules.Contents, SlabTables.Tiled, ClockRules.Indexed, ClockRules.SwapRemove;
      hide ClockRules.Swept, ClockRules.Tick, ClockRules.StopsAt, ClockRules.Marked, StoreRules.Unbind;
      hide SlabRules.ClassForSize, SlabEntries.EntryKey, SlabEntries.EntryValue, SlabEntries.WordAt;
      ghost var m, pages, live, rings := allocator.arena[..], allocator.pages, allocator.live, RingsOf(evictors);
      assert live - {} == live;
      TrackedInside(m, pages, live, maps, rings, hash, i);
      ghost var index := evictors[i].index;
      var v := evictors[i].EvictOne(allocator.arena);
      ghost var m' := allocator.arena[..];
      if v.None? {
        assert RingsOf(evictors) == rings;
        return None;
      }
      EvictionIsSound(m, m', pages, live, maps, rings, hash, i, old(evictors[i].hand), index, evictors[i].ring);
      var p := v.value;
      var size := RequiredSize(WordAt(allocator.arena[..], p), WordAt(allocator.arena[..], p + 4));
      var key := EntryKey(allocator.arena[..], p);
      assert size == EntrySize(m', p) <= MAX_SLOT;
      if key in maps[i] {
        maps := maps[i := Unbind(maps[i], key)];
      }
      allocator.Deallocate(Some(p), size);
      assert RingsOf(evictors) == rings[i := evictors[i].ring];
      assert allocator.live - {} == live - {p};
      victim := Some(key);
    }

    /** Class `c` has a free slot, or a page is left to cut into slots of it. */
    ghost predicate SlotAtHand(c: nat)
      reads allocator
    {
      c < CLASSES && c < |allocator.freeSlots|
      && (allocator.freeSlots[c] != [] || allocator.nextPage < allocator.PagesTotal())
    }

    /** A slot of class `c` is at hand once the old entry of the key, if any, has been freed. */
    ghost predicate Replaceable(key: Key, c: nat)
      requires |maps| > 0
      reads this, allocator, allocator.arena
    {
      SlotAtHand(c) || (key in Contents() && ClassOf(key, Contents()[key]) == c)
    }

    lemma ShardInOrder(i: nat)
      requires Valid() && i < |maps|
      ensures i < |evictors| && HandOk(evictors[i].ring, evictors[i].hand)
      ensures |allocator.freeSlots| == CLASSES && PagesOk(allocator.pages)
      ensures evictors[i].ring == [] <==> forall k :: k in Contents() ==> ShardFor(k) != i
    {
      hide StoreRules.Sound, StoreRules.Contents, SlabTables.Tiled, ClockRules.Indexed;
      TiledPages(allocator.freeSlots, allocator.pages, allocator.live);
      EmptyShard(allocator.arena[..], allocator.pages, allocator.live - {}, maps, RingsOf(evictors), hash, i);
      assert forall k :: k in Contents() ==> ShardFor(k) == ShardOf(hash, |maps|, k);
    }

    lemma KeyInOrder(key: Key)
      requires Valid()
      ensures |maps| > 0
      ensures var i := ShardFor(key);
              && i < |evictors| && HandOk(evictors[i].ring, evictors[i].hand) && |allocator.freeSlots| == CLASSES
              && (key in maps[i] <==> key in Contents())
              && (key in Contents() ==> ClassOf(key, Contents()[key]) < CLASSES)
    {
      hide StoreRules.Sound, StoreRules.Contents, SlabTables.Tiled, ClockRules.Indexed, SlabRules.ClassForSize;
      Located(allocator.arena[..], allocator.pages, allocator.live - {}, maps, RingsOf(evictors), hash, key);
    }

    /** Evicts once more on behalf of an allocation that has just failed. */
    method EvictFor(i: nat, ghost chase: Chase, ghost evicted: seq<Key>) returns (victim: Option<Key>)
      requires Valid() && i < |maps| && allocator.pages == chase.pages && PagesOk(chase.pages)
      requires Progress(chase, Contents(), maps[i], evicted, false) && !SlotAtHand(chase.slotClass)
      requires |evicted| <= MAX_EVICT_ATTEMPTS && Ahead(ShardClock(i), chase.victims, |evicted|)
      modifies this`maps, allocator.arena, allocator, evictors[i]
      ensures Valid() && |maps| == old(|maps|) && allocator.pages == chase.pages
      ensures victim.None? ==> |evicted| == |chase.victims| && Progress(chase, Contents(), maps[i], evicted, false)
      ensures victim.None? ==> !SlotAtHand(chase.slotClass) && forall k :: k in Contents() ==> ShardFor(k) != i
      ensures victim.Some? ==>
                && |evicted| < |chase.victims|
                && Progress(chase, Contents(), maps[i], evicted + [victim.value], SlotAtHand(chase.slotClass))
                && Ahead(ShardClock(i), chase.victims, |evicted| + 1)
    {
      hide StoreRules.Sound, StoreRules.Contents, SlabTables.Tiled, ClockRules.Indexed, StoreRules.Unbind;
      hide ClockRules.Tick, ClockRules.Victim, ClockRules.Victims, ClockEvictors.ClockEvictor.State;
      hide Progress, OfClass, Ahead, Pushed, LocalStore.ValidBut;
      ShardInOrder(i);
      ghost var now, clock, free, rest := Contents(), ShardClock(i), allocator.freeSlots, maps[i];
      victim := EvictEntry(i);
      NextVictim(clock, chase.victims, |evicted|);
      if victim.Some? {
        ProgressOn(chase, now, rest, evicted, victim.value, free, allocator.freeSlots);
      }
    }

    /** Allocates, evicting from shard `i` between attempts. */
    method Reserve(i: nat, size: nat) returns (ptr: Option<nat>, ghost evicted: seq<Key>)
      requires Valid() && i < |maps|
      modifies this`maps, allocator.arena, allocator, evictors[i]
      ensures |maps| == old(|maps|) && ValidBut(if ptr.Some? then {ptr.value} else {})
      ensures Dropped(old(Contents()), Contents(), evicted)
      ensures ptr.Some? ==> size <= MAX_SLOT && IsSlot(allocator.pages, ptr.value)
      ensures ptr.Some? ==> ClassAt(allocator.pages, ptr.value) == ClassForSize(size)
      // when it succeeds, and what it evicts
      ensures ptr.Some? <==>
              old(SlotAtHand(ClassForSize(size)))
              || EvictionHelps(old(allocator.pages), Candidates(old(ShardClock(i))), ClassForSize(size))
      ensures if old(SlotAtHand(ClassForSize(size))) then evicted == []
              else EvictsUntil(old(allocator.pages), Candidates(old(ShardClock(i))), ClassForSize(size), |evicted|)
      ensures KeysOf(old(maps)[i], Candidates(old(ShardClock(i))), evicted)
      ensures ptr.None? ==> |evicted| == MAX_EVICT_ATTEMPTS + 1 || forall k :: k in Contents() ==> ShardFor(k) != i
    {
      hide StoreRules.Sound, StoreRules.Contents, SlabTables.Tiled, ClockRules.Indexed, SlabRules.ClassForSize;
      hide ClockRules.Victims, ClockEvictors.ClockEvictor.State;
      hide KeysOf, Chasing, Dropped, EvictsUntil, EvictionHelps, SubMap, Progress, Ahead, LocalStore.ValidBut;
      ShardInOrder(i);
      ptr, evicted := None, [];
      var attempt, stuck := 0, false;
      ghost var c := ClassForSize(size);
      ghost var chase := Chase(Contents(), maps[i], allocator.pages, Candidates(ShardClock(i)), c, SlotAtHand(c));
      ChaseBegins(chase, ShardClock(i));
      while attempt <= MAX_EVICT_ATTEMPTS && ptr.None? && !stuck
        invariant |maps| == old(|maps|) && ValidBut(if ptr.Some? then {ptr.value} else {})
        invariant |evicted| == attempt <= |chase.victims|
        invariant Progress(chase, Contents(), maps[i], evicted, ptr.Some? || SlotAtHand(c))
        invariant ptr.Some? ==> size <= MAX_SLOT && IsSlot(allocator.pages, ptr.value) && attempt <= MAX_EVICT_ATTEMPTS
        invariant ptr.Some? ==> ClassAt(allocator.pages, ptr.value) == c
        invariant ptr.None? ==> allocator.pages == chase.pages
        invariant ptr.None? && !stuck ==> Ahead(ShardClock(i), chase.victims, attempt)
        invariant stuck ==> ptr.None? && !SlotAtHand(c) && attempt == |chase.victims|
        invariant stuck ==> forall k :: k in Contents() ==> ShardFor(k) != i
        decreases MAX_EVICT_ATTEMPTS + 1 - attempt, ptr.None?, !stuck
      {
        ptr := AllocateSlot(size);
        if ptr.None? {
          var victim := EvictFor(i, chase, evicted);
          if victim.None? {
            stuck := true;
          } else {
            evicted := evicted + [victim.value];
            attempt := attempt + 1;
          }
        }
      }
      ChaseEnds(chase, Contents(), maps[i], evicted, ptr.Some? || SlotAtHand(c), ptr.Some?);
    }

    /** `allocate`, in terms of the store: new pages disturb nothing. */
    method AllocateSlot(size: nat) returns (ptr: Option<nat>)
      requires Valid()
      modifies allocator
      ensures ValidBut(if ptr.Some? then {ptr.value} else {}) && Contents() == old(Contents())
      ensures ptr.Some? ==> size <= MAX_SLOT && IsSlot(allocator.pages, ptr.value)
      ensures ptr.Some? ==> ClassAt(allocator.pages, ptr.value) == ClassForSize(size)
      ensures ptr.Some? <==> old(SlotAtHand(ClassForSize(size)))
      ensures ptr.None? ==> allocator.freeSlots == old(allocator.freeSlots)
      ensures ptr.None? ==> allocator.nextPage == old(allocator.nextPage)
      ensures ptr.None? ==> allocator.pages == old(allocator.pages)
    {
      hide StoreRules.Sound, StoreRules.Contents, SlabTables.Tiled, ClockRules.Indexed, SlabRules.ClassForSize;
      hide SlabRules.IsSlot;
      ghost var m, pages, live, rings := allocator.arena[..], allocator.pages, allocator.live, RingsOf(evictors);
      assert live - {} == live;
      ptr := allocator.Allocate(size);
      TiledPages(allocator.freeSlots, allocator.pages, allocator.live);
      MorePagesKeepSound(m, pages, allocator.pages, live, maps, rings, hash);
      assert ptr.Some? ==> allocator.live - {ptr.value} == live;
      assert ptr.None? ==> allocator.live - {} == live;
    }

    /** Writes the entry into the reserved slot; no other entry is disturbed. */
    method WriteEntry(p: nat, key: Key, value: Value)
      requires ValidBut({p}) && RequiredSize(|key|, |value|) <= MAX_SLOT
      requires IsSlot(allocator.pages, p) && ClassAt(allocator.pages, p) == ClassOf(key, value)
      modifies allocator.arena
      ensures ValidBut({p}) && Contents() == old(Contents())
      ensures Holds(allocator.arena[..], allocator.pages, p, key) && EntryValue(allocator.arena[..], p) == value
      ensures p + ACCESS_BIT < allocator.arena.Length && allocator.arena[p + ACCESS_BIT] == 0
    {
      hide StoreRules.Sound, StoreRules.Contents, SlabTables.Tiled, ClockRules.Indexed, SlabRules.ClassForSize;
      hide SlabRules.IsSlot;
      hide SlabRules.ClassAt, SlabRules.SlotEnd, SlabEntries.Image, StoreRules.ClassOf, StoreRules.Holds;
      hide SlabEntries.EntryValue;
      ghost var m, pages, live, rings := allocator.arena[..], allocator.pages, allocator.live - {p}, RingsOf(evictors);
      SlotInsideArena(allocator.freeSlots, pages, allocator.live, p, key, value, allocator.arena.Length);
      InitAt(allocator.arena, p, key, value);
      WriteKeepsSound(m, allocator.arena[..], pages, live, maps, rings, hash, p, RequiredSize(|key|, |value|));
      FilledSlotHolds(allocator.arena[..], pages, p, key, value);
    }

    /** Enters a filled slot into map and evictor. */
    method Enter(p: nat, key: Key)
      requires ValidBut({p}) && key !in maps[ShardFor(key)] && Holds(allocator.arena[..], allocator.pages, p, key)
      modifies this`maps, evictors[ShardFor(key)]
      ensures Valid() && |maps| == old(|maps|)
      ensures Contents() == old(Contents())[key := EntryValue(allocator.arena[..], p)]
    {
      hide StoreRules.Sound, StoreRules.Contents, SlabTables.Tiled, ClockRules.Indexed, StoreRules.Bind;
      hide SlabEntries.EntryValue;
      ghost var m, pages, live, rings := allocator.arena[..], allocator.pages, allocator.live - {p}, RingsOf(evictors);
      var i := ShardFor(key);
      NotTracked(m, pages, live, maps, rings, hash, i, p);
      InsertKeepsSound(m, pages, live, maps, rings, hash, p, key);
      maps := maps[i := Bind(maps[i], key, p)];
      evictors[i].Track(p);
      assert RingsOf(evictors) == rings[i := rings[i] + [p]];
      assert allocator.live - {} == live + {p};
    }

    /** First part of `put`: frees the old entry of the key, if any, and reserves a slot for the new one. */
    method MakeRoom(key: Key, size: nat) returns (ptr: Option<nat>, ghost evicted: seq<Key>)
      requires Valid()
      modifies this`maps, allocator.arena, allocator, evictors[ShardFor(key)]
      ensures |maps| == old(|maps|) && ValidBut(if ptr.Some? then {ptr.value} else {})
      ensures Dropped(old(Contents()) - {key}, Contents(), evicted)
      ensures ptr.Some? ==> size <= MAX_SLOT && IsSlot(allocator.pages, ptr.value)
      ensures ptr.Some? ==> ClassAt(allocator.pages, ptr.value) == ClassForSize(size)
      ensures ptr.Some? <==>
              old(Replaceable(key, ClassForSize(size)))
              || EvictionHelps(old(allocator.pages), Candidates(old(ClockWithout(key))), ClassForSize(size))
      ensures if old(Replaceable(key, ClassForSize(size))) then evicted == []
              else EvictsUntil(old(allocator.pages), Candidates(old(ClockWithout(key))), ClassForSize(size), |evicted|)
      ensures KeysOf(old(maps)[ShardFor(key)], Candidates(old(ClockWithout(key))), evicted)
      ensures ptr.None? ==>
                |evicted| == MAX_EVICT_ATTEMPTS + 1 || forall k :: k in Contents() ==> ShardFor(k) != ShardFor(key)
    {
      hide StoreRules.Sound, StoreRules.Contents, SlabTables.Tiled, ClockRules.Indexed, SlabRules.ClassForSize;
      hide ClockRules.Drop, ClockEvictors.ClockEvictor.State, ClockRules.Victims, EvictsUntil, EvictionHelps, Dropped;
      hide LocalStore.ValidBut;
      KeyInOrder(key);
      var i := ShardFor(key);
      if key in maps[i] {
        Remove(key);
      }
      assert Contents() == old(Contents()) - {key};
      ptr, evicted := Reserve(i, size);
    }

    method Put(key: Key, value: Value) returns (ok: bool, ghost evicted: seq<Key>)
      requires Valid()
      modifies this`maps, allocator.arena, allocator, evictors[ShardFor(key)]
      ensures Valid() && |maps| == old(|maps|)
      ensures Stored(old(Contents()), Contents(), key, value, ok, evicted)
      ensures CacheStep(old(Contents()), PutOp(key, value, ok), Contents())
      // when it succeeds, from the state before the call
      ensures ok <==>
              old(Replaceable(key, ClassOf(key, value)))
              || EvictionHelps(old(allocator.pages), Candidates(old(ClockWithout(key))), ClassOf(key, value))
      ensures RequiredSize(|key|, |value|) > MAX_SLOT ==> !ok
      ensures !ok ==> |evicted| == MAX_EVICT_ATTEMPTS + 1 || forall k :: k in Contents() ==>
                ShardFor(k) != ShardFor(key)
      // which keys it evicts
      ensures old(Replaceable(key, ClassOf(key, value))) ==> evicted == []
      ensures KeysOf(old(maps)[ShardFor(key)], Candidates(old(ClockWithout(key))), evicted)
      ensures RightVictims(old(Contents()), evicted, ClassOf(key, value), ok)
      ensures forall k :: k in evicted ==> ShardFor(k) == ShardFor(key)
      // a shard that holds entries, all of the class of the new one
      ensures RequiredSize(|key|, |value|) <= MAX_SLOT
              && Uniform(old(Contents()), hash, |maps|, ShardFor(key), ClassOf(key, value)) ==>
                ok && |evicted| <= 1
    {
      hide StoreRules.Sound, StoreRules.Contents, SlabTables.Tiled, ClockRules.Indexed, SlabRules.ClassForSize;
      hide ClockRules.Victims, ClockEvictors.ClockEvictor.State, EvictsUntil, EvictionHelps, RightVictims, Uniform;
      hide KeysOf;
      ghost var m, pages, live, rings := allocator.arena[..], allocator.pages, allocator.live - {}, RingsOf(evictors);
      ghost var c, clock, fits := ClassOf(key, value), ClockWithout(key), Replaceable(key, ClassOf(key, value));
      var ptr;
      ptr, evicted := MakeRoom(key, RequiredSize(|key|, |value|));
      VictimsAreRight(m, pages, live, old(maps), rings, hash, ShardFor(key), clock, c, fits, ptr.Some?, evicted);
      UniformNeedsOne(m, pages, live, old(maps), rings, hash, key, clock, c, fits, ptr.Some?, evicted);
      if ptr.None? { return false, evicted; }
      Located(allocator.arena[..], allocator.pages, allocator.live - {ptr.value}, maps, RingsOf(evictors), hash, key);
      WriteEntry(ptr.value, key, value);
      Enter(ptr.value, key);
      ok := true;
    }

    method Del(key: Key) returns (found: bool)
      requires Valid()
      modifies this`maps, allocator, evictors[ShardFor(key)]
      ensures Valid() && |maps| == old(|maps|)
      ensures CacheStep(old(Contents()), DelOp(key, found), Contents())
    {
      hide StoreRules.Sound, StoreRules.Contents, SlabTables.Tiled, ClockRules.Indexed;
      Located(allocator.arena[..], allocator.pages, allocator.live - {}, maps, RingsOf(evictors), hash, key);
      found := key in maps[ShardFor(key)];
      if found { Remove(key); }
    }
  }

  // ---------------------------------------------------------------- runs of the object

  method Perform(store: LocalStore, call: Call) returns (op: StoreOp)
    requires store.Valid()
    modifies store, store.allocator, store.allocator.arena, store.evictors
    ensures store.Valid() && CallOf(op) == call
    ensures CacheStep(old(store.Contents()), op, store.Contents())
  {
    hide LocalStore.ValidBut, CacheStep;
    store.KeyInOrder(call.key);
    match call {
      case PutCall(key, value) =>
        var ok, _ := store.Put(key, value);
        op := PutOp(key, value, ok);
      case GetCall(key) =>
        var r := store.Get(key);
        op := GetOp(key, r);
      case DelCall(key) =>
        var found := store.Del(key);
        op := DelOp(key, found);
    }
  }

  /** A store from its construction on, through any calls: its contents form a run of the cache, and every
      read that finds something returns the last write. */
  method Serve(totalMemory: nat, numShards: nat, hash: KeyHash, calls: seq<Call>)
    returns (ops: seq<StoreOp>, ghost cs: seq<map<Key, Value>>)
    requires totalMemory > 0 && numShards > 0
    ensures |ops| == |calls| && forall i :: 0 <= i < |calls| ==> CallOf(ops[i]) == calls[i]
    ensures CacheRun(cs, ops)
    ensures forall j :: 0 <= j < |ops| && ops[j].GetOp? && ops[j].result.Some? ==>
              LastWrite(ops[..j], ops[j].key) == ops[j].result
  {
    hide LocalStore.ValidBut, CacheStep;
    var store := new LocalStore(totalMemory, numShards, hash);
    store.KeyInOrder([]);
    ops, cs := [], [store.Contents()];
    for i := 0 to |calls|
      invariant store.Valid() && |store.maps| > 0
      invariant |ops| == i && forall j :: 0 <= j < i ==> CallOf(ops[j]) == calls[j]
      invariant CacheRun(cs, ops) && cs[i] == store.Contents()
    {
      var op := Perform(store, calls[i]);
      store.KeyInOrder([]);
      ops, cs := ops + [op], cs + [store.Contents()];
    }
    forall j | 0 <= j < |ops| && ops[j].GetOp? && ops[j].result.Some?
      ensures LastWrite(ops[..j], ops[j].key) == ops[j].result
    {
      ReadIsLastWrite(cs, ops, j);
    }
  }

  /** The slots a put may evict: what follows the ninth is never reached. */
  ghost function Candidates(clock: Clock): seq<nat>
    requires HandOk(clock.ring, clock.hand)
  {
    Victims(clock, MAX_EVICT_ATTEMPTS + 1)
  }

  predicate OfClass(pages: seq<nat>, p: nat, c: nat) { p / PAGE < |pages| && ClassAt(pages, p) == c }

  /** One of the first eight victims leaves a slot of class `c`. After the ninth nothing is tried again. */
  ghost predicate EvictionHelps(pages: seq<nat>, vs: seq<nat>, c: nat) {
    exists j :: 0 <= j < |vs| && j < MAX_EVICT_ATTEMPTS && OfClass(pages, vs[j], c)
  }

  /** Of the victims `vs` the first `n` are evicted: all up to the first of class `c`, or all. */
  ghost predicate EvictsUntil(pages: seq<nat>, vs: seq<nat>, c: nat, n: nat) {
    && n <= |vs|
    && (forall j :: 0 <= j < n - 1 ==> !OfClass(pages, vs[j], c))
    && (n < |vs| ==> n > 0 && OfClass(pages, vs[n - 1], c))
  }

  /** After `n` evictions, all in vain but perhaps the last: is a slot of class `c` at hand? `ready` says
      whether one was at first. */
  ghost predicate Chasing(pages: seq<nat>, vs: seq<nat>, c: nat, n: nat, ready: bool, atHand: bool) {
    && n <= |vs|
    && (n > 0 ==> !ready)
    && (forall j :: 0 <= j < n - 1 ==> !OfClass(pages, vs[j], c))
    && (atHand <==> if n == 0 then ready else OfClass(pages, vs[n - 1], c))
  }

  /** What an allocation that keeps failing started from: contents, shard map, page classes, the entries
      that will be evicted in turn, the class asked for, and whether a slot of it was at hand. */
  datatype Chase = Chase(before: map<Key, Value>, entries: ShardMap, pages: seq<nat>, victims: seq<nat>,
                         slotClass: nat, ready: bool)

  /** How far it is after evicting `evicted`. */
  ghost predicate Progress(t: Chase, now: map<Key, Value>, rest: ShardMap, evicted: seq<Key>, atHand: bool) {
    && Dropped(t.before, now, evicted)
    && KeysOf(t.entries, t.victims, evicted) && SubMap(rest, t.entries)
    && Chasing(t.pages, t.victims, t.slotClass, |evicted|, t.ready, atHand)
  }

  lemma ChaseBegins(t: Chase, clock: Clock)
    requires HandOk(clock.ring, clock.hand) && t.victims == Candidates(clock)
    ensures Progress(t, t.before, t.entries, [], t.ready) && Ahead(clock, t.victims, 0)
  {
    assert t.before - {} == t.before;
  }

  /** One more victim, from a class other than `c` or from `c`. */
  lemma ChaseOn(pages: seq<nat>, vs: seq<nat>, c: nat, n: nat, ready: bool, free: seq<seq<nat>>, free': seq<seq<nat>>)
    requires Chasing(pages, vs, c, n, ready, false) && n < |vs|
    requires |free| == CLASSES && PagesOk(pages) && vs[n] / PAGE < |pages|
    requires free' == Pushed(free, ClassAt(pages, vs[n]), vs[n])
    requires c < CLASSES ==> free[c] == []
    ensures Chasing(pages, vs, c, n + 1, ready, c < CLASSES && free'[c] != [])
  {
  }

  lemma ProgressOn(t: Chase, now: map<Key, Value>, rest: ShardMap, evicted: seq<Key>, key: Key,
                   free: seq<seq<nat>>, free': seq<seq<nat>>)
    requires Progress(t, now, rest, evicted, false) && |evicted| < |t.victims| && key in now
    requires key in rest && rest[key] == t.victims[|evicted|]
    requires |free| == CLASSES && PagesOk(t.pages) && rest[key] / PAGE < |t.pages|
    requires free' == Pushed(free, ClassAt(t.pages, rest[key]), rest[key])
    requires t.slotClass < CLASSES ==> free[t.slotClass] == []
    ensures |free'| == CLASSES
    ensures Progress(t, now - {key}, Unbind(rest, key), evicted + [key],
                     t.slotClass < CLASSES && free'[t.slotClass] != [])
  {
    hide KeysOf, Chasing, Dropped, SubMap, Unbind;
    DropOneMore(t.before, now, now - {key}, evicted, key);
    ChaseOn(t.pages, t.victims, t.slotClass, |evicted|, t.ready, free, free');
    KeysOneMore(t.entries, rest, t.victims, evicted, key);
  }

  lemma ChaseEnds(t: Chase, now: map<Key, Value>, rest: ShardMap, evicted: seq<Key>, atHand: bool, found: bool)
    requires Progress(t, now, rest, evicted, atHand) && |t.victims| <= MAX_EVICT_ATTEMPTS + 1
    requires found ==> atHand && |evicted| <= MAX_EVICT_ATTEMPTS
    requires !found ==> |evicted| == |t.victims| && (atHand ==> |evicted| == MAX_EVICT_ATTEMPTS + 1)
    ensures Dropped(t.before, now, evicted) && KeysOf(t.entries, t.victims, evicted)
    ensures found <==> t.ready || EvictionHelps(t.pages, t.victims, t.slotClass)
    ensures if t.ready then evicted == [] else EvictsUntil(t.pages, t.victims, t.slotClass, |evicted|)
  {
    hide Dropped, KeysOf;
    var n := |evicted|;
    if found && n > 0 { assert OfClass(t.pages, t.victims[n - 1], t.slotClass); }
  }

  /** From `k` on, `vs` are the entries the clock will evict. */
  ghost predicate Ahead(clock: Clock, vs: seq<nat>, k: nat) {
    && HandOk(clock.ring, clock.hand) && k <= |vs| && k <= MAX_EVICT_ATTEMPTS + 1
    && Victims(clock, MAX_EVICT_ATTEMPTS + 1 - k) == vs[k..]
  }

  lemma NextVictim(clock: Clock, vs: seq<nat>, k: nat)
    requires k <= MAX_EVICT_ATTEMPTS && Ahead(clock, vs, k)
    ensures clock.ring == [] ==> k == |vs|
    ensures clock.ring != [] ==>
              clock.hand < |clock.ring| && k < |vs| && vs[k] == Victim(clock) && Ahead(Tick(clock), vs, k + 1)
  {
    if clock.ring != [] {
      assert vs[k..][0] == vs[k] && vs[k..][1..] == vs[k + 1..];
    }
  }

  ghost predicate SubMap(entries: ShardMap, all: ShardMap) {
    forall k :: k in entries ==> k in all && entries[k] == all[k]
  }

  lemma KeysOneMore(entries: ShardMap, rest: ShardMap, vs: seq<nat>, evicted: seq<Key>, key: Key)
    requires KeysOf(entries, vs, evicted) && SubMap(rest, entries) && |evicted| < |vs|
    requires key in rest && rest[key] == vs[|evicted|]
    ensures KeysOf(entries, vs, evicted + [key]) && SubMap(Unbind(rest, key), entries)
  {
  }

  /** The keys evicted are those of the slots in `vs`, in order. */
  ghost predicate KeysOf(entries: ShardMap, vs: seq<nat>, evicted: seq<Key>) {
    |evicted| <= |vs| && forall j :: 0 <= j < |evicted| ==> evicted[j] in entries && entries[evicted[j]] == vs[j]
  }

  function Pushed(free: seq<seq<nat>>, c: nat, p: nat): seq<seq<nat>> {
    if c < |free| then free[c := free[c] + [p]] else free
  }

  lemma DropOneMore(before: map<Key, Value>, now: map<Key, Value>, after: map<Key, Value>, gone: seq<Key>, key: Key)
    requires Dropped(before, now, gone) && key in now && after == now - {key}
    ensures Dropped(before, after, gone + [key])
  {
  }

  /** Shard `i` holds something, and everything in it is of size class `c`. */
  ghost predicate Uniform(contents: map<Key, Value>, hash: KeyHash, n: nat, i: nat, c: nat)
    requires n > 0
  {
    && (exists k :: k in contents && ShardOf(hash, n, k) == i)
    && (forall k :: k in contents && ShardOf(hash, n, k) == i ==> ClassOf(k, contents[k]) == c)
  }

  /** Which keys a put of class `c` evicts, in terms a client can see: at most eight if it succeeds and nine
      if it fails, the last of a success of class `c`, and before that, or among the first eight of a failure,
      none of class `c`. */
  ghost predicate RightVictims(before: map<Key, Value>, evicted: seq<Key>, c: nat, ok: bool) {
    && |evicted| <= MAX_EVICT_ATTEMPTS + (if ok then 0 else 1)
    && (forall k :: k in evicted ==> k in before)
    && (forall j :: 0 <= j < |evicted| && j < MAX_EVICT_ATTEMPTS ==>
          (ClassOf(evicted[j], before[evicted[j]]) == c <==> ok && j == |evicted| - 1))
  }

  lemma VictimsAreRight(m: Memory, pages: seq<nat>, live: set<nat>, maps: seq<ShardMap>, rings: seq<seq<nat>>,
                        hash: KeyHash,
                        i: nat, clock: Clock, c: nat, fits: bool, ok: bool, evicted: seq<Key>)
    requires Sound(m, pages, live, maps, rings, hash) && i < |maps|
    requires HandOk(clock.ring, clock.hand) && KeysOf(maps[i], Candidates(clock), evicted)
    requires ok <==> fits || EvictionHelps(pages, Candidates(clock), c)
    requires if fits then evicted == [] else EvictsUntil(pages, Candidates(clock), c, |evicted|)
    ensures RightVictims(StoreRules.Contents(m, maps, hash), evicted, c, ok)
    ensures forall k :: k in evicted ==> ShardOf(hash, |maps|, k) == i
  {
    hide Sound, StoreRules.Contents, ClassOf;
    var vs, contents := Candidates(clock), StoreRules.Contents(m, maps, hash);
    KeysInShard(m, pages, live, maps, rings, hash, i);
    forall j | 0 <= j < |evicted|
      ensures evicted[j] in contents && (ClassOf(evicted[j], contents[evicted[j]]) == c <==> OfClass(pages, vs[j], c))
    {
      Located(m, pages, live, maps, rings, hash, evicted[j]);
    }
    CandidatesBound(clock);
  }

  lemma CandidatesBound(clock: Clock)
    requires HandOk(clock.ring, clock.hand)
    ensures |Candidates(clock)| <= MAX_EVICT_ATTEMPTS + 1
    ensures clock.ring != [] ==> Candidates(clock) != [] && Candidates(clock)[0] in clock.ring
  {
  }

  lemma UniformNeedsOne(m: Memory, pages: seq<nat>, live: set<nat>, maps: seq<ShardMap>, rings: seq<seq<nat>>,
                        hash: KeyHash,
                        key: Key, clock: Clock, c: nat, fits: bool, ok: bool, evicted: seq<Key>)
    requires Sound(m, pages, live, maps, rings, hash) && |maps| > 0
    requires var i := ShardOf(hash, |maps|, key); i < |rings| && (key !in maps[i] ==> clock.ring == rings[i])
    requires HandOk(clock.ring, clock.hand)
    requires var contents := StoreRules.Contents(m, maps, hash);
             key in contents && ClassOf(key, contents[key]) == c ==> fits
    requires ok <==> fits || EvictionHelps(pages, Candidates(clock), c)
    requires if fits then evicted == [] else EvictsUntil(pages, Candidates(clock), c, |evicted|)
    ensures Uniform(StoreRules.Contents(m, maps, hash), hash, |maps|, ShardOf(hash, |maps|, key), c) ==>
              ok && |evicted| <= 1
  {
    hide Sound, StoreRules.Contents, ClassOf, ShardOf;
    var i, contents := ShardOf(hash, |maps|, key), StoreRules.Contents(m, maps, hash);
    Located(m, pages, live, maps, rings, hash, key);
    if Uniform(contents, hash, |maps|, i, c) && !fits {
      EmptyShard(m, pages, live, maps, rings, hash, i);
      CandidatesBound(clock);
      var p := Candidates(clock)[0];
      TrackedHasKey(m, pages, live, maps, rings, hash, i, p);
      Located(m, pages, live, maps, rings, hash, EntryKey(m, p));
      assert OfClass(pages, p, c);
    }
  }

  /** The only byte that changed is the access bit of the entry of `key`, which is now set. */
  ghost predicate Accessed(m: Memory, m': Memory, entries: ShardMap, key: Key) {
    && key in entries && entries[key] + ACCESS_BIT < |m|
    && m' == m[entries[key] + ACCESS_BIT := 1]
  }

  lemma TrackedInside(m: Memory, pages: seq<nat>, live: set<nat>, maps: seq<ShardMap>, rings: seq<seq<nat>>,
                      hash: KeyHash, i: nat)
    requires Sound(m, pages, live, maps, rings, hash) && i < |rings|
    ensures forall p :: p in rings[i] ==> p + ACCESS_BIT < |m|
  {
  }

  lemma SweptBitsDiffer(ring: seq<nat>, hand: nat, m: Memory, m': Memory, at: nat, live: set<nat>)
    requires Swept(ring, hand, m, m', at) && forall p :: p in ring ==> p in live
    ensures BitsDiffer(m, m', live)
  {
  }

  /** After the clock has cleared bits and dropped its victim from the ring, dropping the victim from map
      and allocator makes the store sound again. */
  lemma EvictionIsSound(m: Memory, m': Memory, pages: seq<nat>, live: set<nat>, maps: seq<ShardMap>,
                        rings: seq<seq<nat>>,
                        hash: KeyHash, i: nat, hand: nat, index: map<nat, nat>, ring': seq<nat>)
    requires Sound(m, pages, live, maps, rings, hash) && i < |rings| && Indexed(rings[i], index) && hand < |rings[i]|
    requires var c := Clock(rings[i], Marked(rings[i], m), hand);
             Swept(c.ring, c.hand, m, m', StopsAt(c)) && ring' == Tick(c).ring
    ensures var p := Victim(Clock(rings[i], Marked(rings[i], m), hand));
            && |maps| == |rings| && p in live && Readable(m', p)
            && var key := EntryKey(m', p);
               && key in maps[i] && maps[i][key] == p && ShardOf(hash, |maps|, key) == i
               && key in StoreRules.Contents(m, maps, hash)
               && EntryLocated(m', pages, live, rings[i], key, p, StoreRules.Contents(m, maps, hash)[key])
               && Sound(m', pages, live - {p}, maps[i := Unbind(maps[i], key)], rings[i := ring'], hash)
               && StoreRules.Contents(m', maps[i := Unbind(maps[i], key)], hash) ==
                  StoreRules.Contents(m, maps, hash) - {key}
  {
    var at := StopsAt(Clock(rings[i], Marked(rings[i], m), hand));
    var p := rings[i][at];
    hide StopsAt, Swept;
    forall q | q in rings[i] ensures q in live { TrackedHasKey(m, pages, live, maps, rings, hash, i, q); }
    SweptBitsDiffer(rings[i], hand, m, m', at, live);
    BitsKeepSound(m, m', pages, live, maps, rings, hash);
    TrackedHasKey(m', pages, live, maps, rings, hash, i, p);
    Located(m', pages, live, maps, rings, hash, EntryKey(m', p));
    SwapRemoveElements(rings[i], index, at);
    RemoveKeepsSound(m', pages, live, maps, rings, hash, EntryKey(m', p), ring');
    AccessBitsAreSeparate(m, m', pages, live, maps, hash, p);
  }

  lemma KeysInShard(m: Memory, pages: seq<nat>, live: set<nat>, maps: seq<ShardMap>, rings: seq<seq<nat>>,
                    hash: KeyHash, i: nat)
    requires Sound(m, pages, live, maps, rings, hash) && i < |maps|
    ensures forall k :: k in maps[i] ==> ShardOf(hash, |maps|, k) == i
  {
  }

  lemma TiledPages(free: seq<seq<nat>>, pages: seq<nat>, live: set<nat>)
    requires Tiled(free, pages, live)
    ensures PagesOk(pages)
  {
  }

  /** A slot of the right class has room for the entry, inside the arena. */
  lemma SlotInsideArena(free: seq<seq<nat>>, pages: seq<nat>, live: set<nat>, p: nat, key: Key, value: Value,
                        length: nat)
    requires Tiled(free, pages, live) && IsSlot(pages, p) && |pages| <= length / PAGE
    requires RequiredSize(|key|, |value|) <= MAX_SLOT && ClassAt(pages, p) == ClassOf(key, value)
    ensures p + RequiredSize(|key|, |value|) <= SlotEnd(pages, p) <= length
  {
    ClassIsSmallestFit(RequiredSize(|key|, |value|));
    SlotInsidePage(pages, p);
  }

  lemma NotTracked(m: Memory, pages: seq<nat>, live: set<nat>, maps: seq<ShardMap>, rings: seq<seq<nat>>,
                   hash: KeyHash, i: nat, p: nat)
    requires Sound(m, pages, live, maps, rings, hash) && i < |rings| && p !in live
    ensures p !in rings[i]
  {
  }

  lemma FilledSlotHolds(m: Memory, pages: seq<nat>, p: nat, key: Key, value: Value)
    requires RequiredSize(|key|, |value|) <= MAX_SLOT && p + RequiredSize(|key|, |value|) <= |m|
    requires m[p..p + RequiredSize(|key|, |value|)] == Image(key, value)
    requires IsSlot(pages, p) && ClassAt(pages, p) == ClassOf(key, value)
    ensures Holds(m, pages, p, key) && EntryValue(m, p) == value && m[p + ACCESS_BIT] == 0
  {
    ImageRoundTrip(m, p, key, value);
  }

  lemma SwapRemoveElementsOf(ring: seq<nat>, index: map<nat, nat>, p: nat)
    requires Indexed(ring, index) && p in ring
    ensures p in index && index[p] < |ring| && ring[index[p]] == p
    ensures forall q :: q in SwapRemove(ring, index[p]) <==> q in ring && q != p
  {
  }
}

/** The three views of the cached data as values (src/storage/local_store.cpp): the shard maps, the
    evictor rings and the allocator's live slots, over one byte memory. When they agree, every change
    the store makes keeps them in agreement and touches the contents only where intended. */
module StoreRules {
  import opened NodeInfos
  import opened SlabRules
  import opened SlabEntries

  type KeyHash = Key -> u32
  type ShardMap = map<Key, nat>

  function Bind(entries: ShardMap, key: Key, p: nat): ShardMap { entries[key := p] }

  function Unbind(entries: ShardMap, key: Key): ShardMap { entries - {key} }

  function ShardOf(hash: KeyHash, shards: nat, key: Key): nat
    requires shards > 0
  {
    hash(key) % shards
  }

  /** Slot `p` holds an entry for `key`, in a slot of the class its size calls for. */
  ghost predicate Holds(m: Memory, pages: seq<nat>, p: nat, key: Key) {
    && IsSlot(pages, p) && Readable(m, p)
    && EntryKey(m, p) == key
    && EntrySize(m, p) <= MAX_SLOT && ClassForSize(EntrySize(m, p)) == ClassAt(pages, p)
  }

  /** Maps point at live slots that hold their key, in the right shard. */
  ghost predicate MapOk(m: Memory, pages: seq<nat>, live: set<nat>, entries: ShardMap, i: nat, n: nat, hash: KeyHash)
    requires n > 0
  {
    forall k :: k in entries ==> entries[k] in live && Holds(m, pages, entries[k], k) && ShardOf(hash, n, k) == i
  }

  /** The map finds the entry stored in slot `p`. */
  ghost predicate Reached(m: Memory, p: nat, maps: seq<ShardMap>, hash: KeyHash)
    requires |maps| > 0
  {
    && Readable(m, p)
    && var k := EntryKey(m, p);
       var i := ShardOf(hash, |maps|, k);
       k in maps[i] && maps[i][k] == p
  }

  /** Maps and live slots describe each other. */
  ghost predicate Coherent(m: Memory, pages: seq<nat>, live: set<nat>, maps: seq<ShardMap>, hash: KeyHash) {
    && |maps| > 0 && PagesOk(pages)
    && (forall i :: 0 <= i < |maps| ==> MapOk(m, pages, live, maps[i], i, |maps|, hash))
    && (forall p :: p in live ==> Reached(m, p, maps, hash))
  }

  /** An evictor tracks exactly the live slots of its shard. */
  ghost predicate RingOk(m: Memory, live: set<nat>, ring: seq<nat>, i: nat, n: nat, hash: KeyHash)
    requires n > 0 && forall p :: p in live ==> Readable(m, p)
  {
    forall p :: p in ring <==> p in live && ShardOf(hash, n, EntryKey(m, p)) == i
  }

  /** All three views agree. */
  ghost predicate Sound(m: Memory, pages: seq<nat>, live: set<nat>, maps: seq<ShardMap>, rings: seq<seq<nat>>,
                        hash: KeyHash) {
    && Coherent(m, pages, live, maps, hash)
    && |rings| == |maps|
    && (forall p :: p in live ==> Readable(m, p))
    && (forall i :: 0 <= i < |rings| ==> RingOk(m, live, rings[i], i, |maps|, hash))
  }

  /** In a sound store a shard's map values are exactly its evictor's entries. */
  lemma MapValuesAreRing(m: Memory, pages: seq<nat>, live: set<nat>, maps: seq<ShardMap>, rings: seq<seq<nat>>,
                         hash: KeyHash, i: nat)
    requires Sound(m, pages, live, maps, rings, hash) && i < |maps|
    ensures forall p :: p in maps[i].Values <==> p in rings[i]
  {
  }

  // ---------------------------------------------------------------- entries do not overlap

  lemma EntryInsideSlot(m: Memory, pages: seq<nat>, p: nat, key: Key)
    requires Holds(m, pages, p, key)
    ensures p + EntrySize(m, p) <= SlotEnd(pages, p)
  {
    ClassIsSmallestFit(EntrySize(m, p));
  }

  lemma LiveHolds(m: Memory, pages: seq<nat>, live: set<nat>, maps: seq<ShardMap>, hash: KeyHash, p: nat)
    requires Coherent(m, pages, live, maps, hash) && p in live
    ensures Readable(m, p) && Holds(m, pages, p, EntryKey(m, p))
  {
    assert Reached(m, p, maps, hash);
    var i := ShardOf(hash, |maps|, EntryKey(m, p));
    assert MapOk(m, pages, live, maps[i], i, |maps|, hash);
  }

  lemma EntriesDisjoint(m: Memory, pages: seq<nat>, p: nat, kp: Key, q: nat, kq: Key)
    requires PagesOk(pages) && Holds(m, pages, p, kp) && Holds(m, pages, q, kq) && p != q
    ensures p + EntrySize(m, p) <= q || q + EntrySize(m, q) <= p
  {
    EntryInsideSlot(m, pages, p, kp);
    EntryInsideSlot(m, pages, q, kq);
    if p < q { SlotsDisjoint(pages, p, q); } else { SlotsDisjoint(pages, q, p); }
  }

  /** `m'` agrees with `m` on the entry at `p`, access bit aside. */
  ghost predicate SameEntry(m: Memory, m': Memory, p: nat)
    requires Readable(m, p)
  {
    && |m'| == |m| && Readable(m', p) && EntrySize(m', p) == EntrySize(m, p)
    && EntryKey(m', p) == EntryKey(m, p) && EntryValue(m', p) == EntryValue(m, p)
  }

  // ---------------------------------------------------------------- contents

  ghost function AllKeys(maps: seq<ShardMap>): set<Key> { set i, k | 0 <= i < |maps| && k in maps[i] :: k }

  /** What a client can read, whatever is in the bits. */
  ghost function Contents(m: Memory, maps: seq<ShardMap>, hash: KeyHash): map<Key, Value>
    requires |maps| > 0
  {
    map k | k in AllKeys(maps)
            && k in maps[ShardOf(hash, |maps|, k)] && Readable(m, maps[ShardOf(hash, |maps|, k)][k])
          :: EntryValue(m, maps[ShardOf(hash, |maps|, k)][k])
  }

  /** Looking a key up in its own shard is looking it up in the contents. */
  lemma ContentsLookup(m: Memory, pages: seq<nat>, live: set<nat>, maps: seq<ShardMap>, hash: KeyHash, k: Key)
    requires Coherent(m, pages, live, maps, hash)
    ensures var i := ShardOf(hash, |maps|, k);
            && (k in Contents(m, maps, hash) <==> k in maps[i])
            && (k in maps[i] ==> Readable(m, maps[i][k]) && Contents(m, maps, hash)[k] == EntryValue(m, maps[i][k]))
  {
  }

  // ---------------------------------------------------------------- changes that keep the store sound

  lemma TouchKeepsSound(m: Memory, m': Memory, pages: seq<nat>, live: set<nat>, maps: seq<ShardMap>,
                        rings: seq<seq<nat>>, hash: KeyHash)
    requires Sound(m, pages, live, maps, rings, hash) && |m'| == |m|
    requires forall p :: p in live ==> Readable(m, p) && SameEntry(m, m', p)
    ensures Sound(m', pages, live, maps, rings, hash)
    ensures Contents(m', maps, hash) == Contents(m, maps, hash)
  {
  }

  /** The two memories differ in access bits of the given entries only. */
  ghost predicate BitsDiffer(m: Memory, m': Memory, live: set<nat>) {
    |m'| == |m| && forall a :: 0 <= a < |m| && m'[a] != m[a] ==> a - ACCESS_BIT in live
  }

  /** Setting or clearing the access bits of live entries changes no entry. */
  lemma AccessBitsAreSeparate(m: Memory, m': Memory, pages: seq<nat>, live: set<nat>, maps: seq<ShardMap>,
                              hash: KeyHash, p: nat)
    requires Coherent(m, pages, live, maps, hash) && BitsDiffer(m, m', live) && p in live
    ensures Readable(m, p) && SameEntry(m, m', p)
  {
    LiveHolds(m, pages, live, maps, hash, p);
    forall a | p <= a < p + EntrySize(m, p) && a != p + ACCESS_BIT ensures m'[a] == m[a] {
      EntryByteKept(m, m', pages, live, maps, hash, p, a);
    }
    EntryDependsOnItsBytes(m, m', p);
  }

  lemma EntryByteKept(m: Memory, m': Memory, pages: seq<nat>, live: set<nat>, maps: seq<ShardMap>, hash: KeyHash,
                      p: nat, a: nat)
    requires Coherent(m, pages, live, maps, hash) && BitsDiffer(m, m', live) && p in live && Readable(m, p)
    requires p <= a < p + EntrySize(m, p) && a != p + ACCESS_BIT
    ensures m'[a] == m[a]
  {
    hide Coherent;
    if a - ACCESS_BIT in live {
      var q := a - ACCESS_BIT;
      assert q != p;
      BitOutsideEntry(m, pages, live, maps, hash, p, q);
    }
  }

  lemma BitOutsideEntry(m: Memory, pages: seq<nat>, live: set<nat>, maps: seq<ShardMap>, hash: KeyHash, p: nat, q: nat)
    requires Coherent(m, pages, live, maps, hash) && p in live && q in live && p != q
    ensures Readable(m, p) && !(p <= q + ACCESS_BIT < p + EntrySize(m, p))
  {
    LiveHolds(m, pages, live, maps, hash, p);
    LiveHolds(m, pages, live, maps, hash, q);
    EntriesDisjoint(m, pages, p, EntryKey(m, p), q, EntryKey(m, q));
  }

  /** New pages do not disturb old slots. */
  lemma MorePagesKeepSound(m: Memory, pages: seq<nat>, pages': seq<nat>, live: set<nat>, maps: seq<ShardMap>,
                           rings: seq<seq<nat>>, hash: KeyHash)
    requires Sound(m, pages, live, maps, rings, hash) && pages <= pages' && PagesOk(pages')
    ensures Sound(m, pages', live, maps, rings, hash)
  {
  }

  lemma RemoveKeepsCoherent(m: Memory, pages: seq<nat>, live: set<nat>, maps: seq<ShardMap>, hash: KeyHash, key: Key)
    requires Coherent(m, pages, live, maps, hash)
    requires key in maps[ShardOf(hash, |maps|, key)]
    ensures var i := ShardOf(hash, |maps|, key);
            Coherent(m, pages, live - {maps[i][key]}, maps[i := Unbind(maps[i], key)], hash)
  {
    var i := ShardOf(hash, |maps|, key);
    var p := maps[i][key];
    var live', maps' := live - {p}, maps[i := Unbind(maps[i], key)];
    assert MapOk(m, pages, live, maps[i], i, |maps|, hash);
    forall j | 0 <= j < |maps'| ensures MapOk(m, pages, live', maps'[j], j, |maps'|, hash) {
      assert MapOk(m, pages, live, maps[j], j, |maps|, hash);
    }
    forall q | q in live' ensures Reached(m, q, maps', hash) { assert Reached(m, q, maps, hash); }
  }

  lemma RemoveFromContents(m: Memory, pages: seq<nat>, live: set<nat>, maps: seq<ShardMap>, hash: KeyHash, key: Key)
    requires Coherent(m, pages, live, maps, hash)
    requires key in maps[ShardOf(hash, |maps|, key)]
    ensures var i := ShardOf(hash, |maps|, key);
            Contents(m, maps[i := Unbind(maps[i], key)], hash) == Contents(m, maps, hash) - {key}
  {
    hide Contents, Coherent;
    NonEmptyShards(m, pages, live, maps, hash);
    var i := ShardOf(hash, |maps|, key);
    var c, c' := Contents(m, maps, hash), Contents(m, maps[i := Unbind(maps[i], key)], hash);
    forall k ensures (k in c' <==> k in c && k != key) && (k in c' ==> c'[k] == c[k]) {
      RemoveFromContentsAt(m, pages, live, maps, hash, key, k);
    }
  }

  lemma NonEmptyShards(m: Memory, pages: seq<nat>, live: set<nat>, maps: seq<ShardMap>, hash: KeyHash)
    requires Coherent(m, pages, live, maps, hash)
    ensures |maps| > 0
  {
  }

  lemma RemoveFromContentsAt(m: Memory, pages: seq<nat>, live: set<nat>, maps: seq<ShardMap>, hash: KeyHash, key: Key,
                             k: Key)
    requires Coherent(m, pages, live, maps, hash)
    requires key in maps[ShardOf(hash, |maps|, key)]
    ensures var i := ShardOf(hash, |maps|, key);
            var c, c' := Contents(m, maps, hash), Contents(m, maps[i := Unbind(maps[i], key)], hash);
            (k in c' <==> k in c && k != key) && (k in c' ==> c'[k] == c[k])
  {
    hide Contents, Coherent;
    NonEmptyShards(m, pages, live, maps, hash);
    var i := ShardOf(hash, |maps|, key);
    RemoveKeepsCoherent(m, pages, live, maps, hash, key);
    ContentsLookup(m, pages, live, maps, hash, k);
    ContentsLookup(m, pages, live - {maps[i][key]}, maps[i := Unbind(maps[i], key)], hash, k);
  }

  /** Taking the entry of one key out of all three views. */
  lemma RemoveKeepsSound(m: Memory, pages: seq<nat>, live: set<nat>, maps: seq<ShardMap>, rings: seq<seq<nat>>,
                         hash: KeyHash, key: Key, ring': seq<nat>)
    requires Sound(m, pages, live, maps, rings, hash)
    requires var i := ShardOf(hash, |maps|, key);
             key in maps[i] && forall q :: q in ring' <==> q in rings[i] && q != maps[i][key]
    ensures var i := ShardOf(hash, |maps|, key);
            && Sound(m, pages, live - {maps[i][key]}, maps[i := Unbind(maps[i], key)], rings[i := ring'], hash)
            && Contents(m, maps[i := Unbind(maps[i], key)], hash) == Contents(m, maps, hash) - {key}
  {
    hide Contents, Reached, ClassForSize;
    var i := ShardOf(hash, |maps|, key);
    var p := maps[i][key];
    var rings' := rings[i := ring'];
    RemoveKeepsCoherent(m, pages, live, maps, hash, key);
    RemoveFromContents(m, pages, live, maps, hash, key);
    assert MapOk(m, pages, live, maps[i], i, |maps|, hash);
    forall j | 0 <= j < |rings'| ensures RingOk(m, live - {p}, rings'[j], j, |maps|, hash) {
      assert RingOk(m, live, rings[j], j, |maps|, hash);
    }
  }

  /** Writing a new entry into a free slot disturbs no other entry: the slots are disjoint. */
  lemma WriteKeepsOthers(m: Memory, m': Memory, pages: seq<nat>, live: set<nat>, maps: seq<ShardMap>, hash: KeyHash,
                         p: nat, size: nat, q: nat)
    requires Coherent(m, pages, live, maps, hash) && |m'| == |m| && q in live && Readable(m, q)
    requires IsSlot(pages, p) && p !in live && p + size <= SlotEnd(pages, p)
    requires forall a :: 0 <= a < |m| && !(p <= a < p + size) ==> m'[a] == m[a]
    ensures SameEntry(m, m', q)
  {
    LiveHolds(m, pages, live, maps, hash, q);
    EntryInsideSlot(m, pages, q, EntryKey(m, q));
    if p < q { SlotsDisjoint(pages, p, q); } else { SlotsDisjoint(pages, q, p); }
    EntryDependsOnItsBytes(m, m', q);
  }

  lemma InsertKeepsCoherent(m: Memory, pages: seq<nat>, live: set<nat>, maps: seq<ShardMap>, hash: KeyHash, p: nat,
                            key: Key)
    requires Coherent(m, pages, live, maps, hash)
    requires p !in live && Holds(m, pages, p, key) && key !in maps[ShardOf(hash, |maps|, key)]
    ensures var i := ShardOf(hash, |maps|, key);
            Coherent(m, pages, live + {p}, maps[i := Bind(maps[i], key, p)], hash)
  {
    var i := ShardOf(hash, |maps|, key);
    var live', maps' := live + {p}, maps[i := Bind(maps[i], key, p)];
    forall j | 0 <= j < |maps'| ensures MapOk(m, pages, live', maps'[j], j, |maps'|, hash) {
      assert MapOk(m, pages, live, maps[j], j, |maps|, hash);
    }
    forall q | q in live' ensures Reached(m, q, maps', hash) {
      if q != p { assert Reached(m, q, maps, hash); }
    }
  }

  lemma InsertIntoContents(m: Memory, pages: seq<nat>, live: set<nat>, maps: seq<ShardMap>, hash: KeyHash, p: nat,
                           key: Key)
    requires Coherent(m, pages, live, maps, hash)
    requires p !in live && Holds(m, pages, p, key) && key !in maps[ShardOf(hash, |maps|, key)]
    ensures var i := ShardOf(hash, |maps|, key);
            Contents(m, maps[i := Bind(maps[i], key, p)], hash) == Contents(m, maps, hash)[key := EntryValue(m, p)]
  {
    hide Contents, Coherent;
    NonEmptyShards(m, pages, live, maps, hash);
    var i := ShardOf(hash, |maps|, key);
    var c, c' := Contents(m, maps, hash), Contents(m, maps[i := Bind(maps[i], key, p)], hash);
    forall k
      ensures k in c' <==> k in c || k == key
      ensures k in c' ==> c'[k] == if k == key then EntryValue(m, p) else c[k]
    {
      InsertIntoContentsAt(m, pages, live, maps, hash, p, key, k);
    }
  }

  lemma InsertIntoContentsAt(m: Memory, pages: seq<nat>, live: set<nat>, maps: seq<ShardMap>, hash: KeyHash, p: nat,
                             key: Key, k: Key)
    requires Coherent(m, pages, live, maps, hash)
    requires p !in live && Holds(m, pages, p, key) && key !in maps[ShardOf(hash, |maps|, key)]
    ensures var i := ShardOf(hash, |maps|, key);
            var c, c' := Contents(m, maps, hash), Contents(m, maps[i := Bind(maps[i], key, p)], hash);
            && (k in c' <==> k in c || k == key)
            && (k in c' ==> c'[k] == if k == key then EntryValue(m, p) else c[k])
  {
    var i := ShardOf(hash, |maps|, key);
    InsertKeepsCoherent(m, pages, live, maps, hash, p, key);
    ContentsLookup(m, pages, live, maps, hash, k);
    ContentsLookup(m, pages, live + {p}, maps[i := Bind(maps[i], key, p)], hash, k);
  }

  /** Putting a new entry into all three views. */
  lemma InsertKeepsSound(m: Memory, pages: seq<nat>, live: set<nat>, maps: seq<ShardMap>, rings: seq<seq<nat>>,
                         hash: KeyHash, p: nat, key: Key)
    requires Sound(m, pages, live, maps, rings, hash)
    requires p !in live && Holds(m, pages, p, key) && key !in maps[ShardOf(hash, |maps|, key)]
    ensures var i := ShardOf(hash, |maps|, key);
            && Sound(m, pages, live + {p}, maps[i := Bind(maps[i], key, p)], rings[i := rings[i] + [p]], hash)
            && Contents(m, maps[i := Bind(maps[i], key, p)], hash) == Contents(m, maps, hash)[key := EntryValue(m, p)]
  {
    var i := ShardOf(hash, |maps|, key);
    var rings' := rings[i := rings[i] + [p]];
    InsertKeepsCoherent(m, pages, live, maps, hash, p, key);
    InsertIntoContents(m, pages, live, maps, hash, p, key);
    forall j | 0 <= j < |rings'| ensures RingOk(m, live + {p}, rings'[j], j, |maps|, hash) {
      assert RingOk(m, live, rings[j], j, |maps|, hash);
    }
  }

  lemma BitsKeepSound(m: Memory, m': Memory, pages: seq<nat>, live: set<nat>, maps: seq<ShardMap>,
                      rings: seq<seq<nat>>, hash: KeyHash)
    requires Sound(m, pages, live, maps, rings, hash) && BitsDiffer(m, m', live)
    ensures Sound(m', pages, live, maps, rings, hash)
    ensures Contents(m', maps, hash) == Contents(m, maps, hash)
  {
    forall p | p in live ensures Readable(m, p) && SameEntry(m, m', p) {
      AccessBitsAreSeparate(m, m', pages, live, maps, hash, p);
    }
    TouchKeepsSound(m, m', pages, live, maps, rings, hash);
  }

  lemma WriteKeepsSound(m: Memory, m': Memory, pages: seq<nat>, live: set<nat>, maps: seq<ShardMap>,
                        rings: seq<seq<nat>>, hash: KeyHash, p: nat, size: nat)
    requires Sound(m, pages, live, maps, rings, hash) && |m'| == |m|
    requires IsSlot(pages, p) && p !in live && p + size <= SlotEnd(pages, p)
    requires forall a :: 0 <= a < |m| && !(p <= a < p + size) ==> m'[a] == m[a]
    ensures Sound(m', pages, live, maps, rings, hash)
    ensures Contents(m', maps, hash) == Contents(m, maps, hash)
  {
    forall q | q in live ensures Readable(m, q) && SameEntry(m, m', q) {
      WriteKeepsOthers(m, m', pages, live, maps, hash, p, size, q);
    }
    TouchKeepsSound(m, m', pages, live, maps, rings, hash);
  }

  /** The class of a stored entry, in terms a client can see. */
  function ClassOf(key: Key, value: Value): nat { ClassForSize(RequiredSize(|key|, |value|)) }

  lemma StoredClass(m: Memory, pages: seq<nat>, live: set<nat>, maps: seq<ShardMap>, hash: KeyHash, key: Key)
    requires Coherent(m, pages, live, maps, hash) && key in maps[ShardOf(hash, |maps|, key)]
    ensures var p := maps[ShardOf(hash, |maps|, key)][key];
            p in live && Holds(m, pages, p, key)
            && key in Contents(m, maps, hash) && Contents(m, maps, hash)[key] == EntryValue(m, p)
  {
    var i := ShardOf(hash, |maps|, key);
    assert MapOk(m, pages, live, maps[i], i, |maps|, hash);
    ContentsLookup(m, pages, live, maps, hash, key);
  }

  /** Where a sound store keeps a key: absent from the contents exactly when absent from its shard, and
      otherwise in a live slot whose bytes, size class and tracking all fit. */
  lemma Located(m: Memory, pages: seq<nat>, live: set<nat>, maps: seq<ShardMap>, rings: seq<seq<nat>>, hash: KeyHash,
                key: Key)
    requires Sound(m, pages, live, maps, rings, hash)
    ensures |rings| == |maps| > 0
    ensures var i := ShardOf(hash, |maps|, key);
            && (key in maps[i] <==> key in Contents(m, maps, hash))
            && (key in maps[i] ==> EntryLocated(m, pages, live, rings[i], key, maps[i][key],
                                                Contents(m, maps, hash)[key]))
  {
    hide Contents, ClassForSize, MapOk, Reached;
    var i := ShardOf(hash, |maps|, key);
    ContentsLookup(m, pages, live, maps, hash, key);
    if key in maps[i] {
      StoredClass(m, pages, live, maps, hash, key);
      assert RingOk(m, live, rings[i], i, |maps|, hash);
    }
  }

  ghost predicate EntryLocated(m: Memory, pages: seq<nat>, live: set<nat>, ring: seq<nat>, key: Key, p: nat,
                               value: Value) {
    && p in live && p in ring && Readable(m, p)
    && EntryKey(m, p) == key && EntryValue(m, p) == value && EntrySize(m, p) == RequiredSize(|key|, |value|) <= MAX_SLOT
    && p / PAGE < |pages| && ClassAt(pages, p) == ClassOf(key, value)
  }

  /** A tracked slot belongs to the key stored in it. */
  lemma TrackedHasKey(m: Memory, pages: seq<nat>, live: set<nat>, maps: seq<ShardMap>, rings: seq<seq<nat>>,
                      hash: KeyHash, i: nat, p: nat)
    requires Sound(m, pages, live, maps, rings, hash) && i < |rings| && p in rings[i]
    ensures |maps| == |rings| && p in live && Readable(m, p)
    ensures ShardOf(hash, |maps|, EntryKey(m, p)) == i && EntryKey(m, p) in maps[i] && maps[i][EntryKey(m, p)] == p
  {
    assert RingOk(m, live, rings[i], i, |maps|, hash);
    assert Reached(m, p, maps, hash);
  }

  /** Nothing is tracked in a shard exactly when no key of the contents belongs to it. */
  lemma EmptyShard(m: Memory, pages: seq<nat>, live: set<nat>, maps: seq<ShardMap>, rings: seq<seq<nat>>,
                   hash: KeyHash, i: nat)
    requires Sound(m, pages, live, maps, rings, hash) && i < |rings|
    ensures |maps| == |rings|
    ensures rings[i] == [] <==> forall k :: k in Contents(m, maps, hash) ==> ShardOf(hash, |maps|, k) != i
  {
    forall k | k in Contents(m, maps, hash) && ShardOf(hash, |maps|, k) == i ensures rings[i] != [] {
      Located(m, pages, live, maps, rings, hash, k);
    }
    if rings[i] != [] {
      var p := rings[i][0];
      TrackedHasKey(m, pages, live, maps, rings, hash, i, p);
      Located(m, pages, live, maps, rings, hash, EntryKey(m, p));
    }
  }
}

/** The byte layout of a cached entry in its slot (src/storage/slab_entry.h): two 32-bit sizes in the
    machine's little-endian order, the access bit, seven reserved bytes, the key and the value. */
module SlabEntries {
  import opened NodeInfos

  const HEADER: nat := 16
  const ACCESS_BIT: nat := 8

  type Memory = seq<byte>

  function RequiredSize(keyLen: nat, valueLen: nat): nat { HEADER + keyLen + valueLen }

  /** The four bytes of `static_cast<uint32_t>(v)`. */
  function Word(v: nat): (r: seq<byte>)
    ensures |r| == 4
  {
    var w := v % 0x1_0000_0000;
    [(w % 0x100) as byte, (w / 0x100 % 0x100) as byte, (w / 0x1_0000 % 0x100) as byte, (w / 0x100_0000) as byte]
  }

  function WordAt(m: Memory, p: nat): nat
    requires p + 4 <= |m|
  {
    m[p] as nat + 0x100 * m[p + 1] as nat + 0x1_0000 * m[p + 2] as nat + 0x100_0000 * m[p + 3] as nat
  }

  lemma WordDigits(w: nat)
    ensures w == w % 0x100 + 0x100 * (w / 0x100 % 0x100)
                 + 0x1_0000 * (w / 0x1_0000 % 0x100) + 0x100_0000 * (w / 0x100_0000)
  {
    var a, b := w / 0x100, w / 0x1_0000;
    assert w == 0x100 * a + w % 0x100;
    assert a == 0x100 * b + a % 0x100;
    assert b == 0x100 * (w / 0x100_0000) + b % 0x100;
  }

  lemma WordRoundTrip(m: Memory, p: nat, v: nat)
    requires p + 4 <= |m| && m[p..p + 4] == Word(v)
    ensures WordAt(m, p) == v % 0x1_0000_0000
  {
    WordDigits(v % 0x1_0000_0000);
    var b := m[p..p + 4];
    assert m[p] == b[0] && m[p + 1] == b[1] && m[p + 2] == b[2] && m[p + 3] == b[3];
  }

  /** A whole entry lies in memory at `p`. */
  predicate Readable(m: Memory, p: nat) {
    p + HEADER <= |m| && p + RequiredSize(WordAt(m, p), WordAt(m, p + 4)) <= |m|
  }

  function EntrySize(m: Memory, p: nat): nat
    requires p + HEADER <= |m|
  {
    RequiredSize(WordAt(m, p), WordAt(m, p + 4))
  }

  function EntryKey(m: Memory, p: nat): seq<byte>
    requires Readable(m, p)
  {
    m[p + HEADER..p + HEADER + WordAt(m, p)]
  }

  function EntryValue(m: Memory, p: nat): seq<byte>
    requires Readable(m, p)
  {
    m[p + HEADER + WordAt(m, p)..p + HEADER + WordAt(m, p) + WordAt(m, p + 4)]
  }

  /** Everything `init_at` puts into the slot. */
  function Image(key: seq<byte>, value: seq<byte>): seq<byte> {
    Word(|key|) + Word(|value|) + [0, 0, 0, 0, 0, 0, 0, 0] + key + value
  }

  /** Reading back what was written, for sizes that fit 32 bits. */
  lemma ImageRoundTrip(m: Memory, p: nat, key: seq<byte>, value: seq<byte>)
    requires |key| < 0x1_0000_0000 && |value| < 0x1_0000_0000
    requires p + RequiredSize(|key|, |value|) <= |m|
    requires m[p..p + RequiredSize(|key|, |value|)] == Image(key, value)
    ensures Readable(m, p) && EntryKey(m, p) == key && EntryValue(m, p) == value
    ensures EntrySize(m, p) == RequiredSize(|key|, |value|) && m[p + ACCESS_BIT] == 0
  {
    hide WordAt, Image;
    ImageWords(m, p, key, value);
    ImageParts(key, value);
    var size := RequiredSize(|key|, |value|);
    assert m[p + ACCESS_BIT] == m[p..p + size][ACCESS_BIT];
    SubSlice(m, p, size, HEADER, HEADER + |key|);
    SubSlice(m, p, size, HEADER + |key|, size);
  }

  lemma SubSlice(m: Memory, p: nat, n: nat, i: nat, j: nat)
    requires i <= j <= n && p + n <= |m|
    ensures m[p..p + n][i..j] == m[p + i..p + j]
  {
    var a, b := m[p..p + n][i..j], m[p + i..p + j];
    assert |a| == |b|;
    forall k | 0 <= k < |a| ensures a[k] == b[k] {
      assert a[k] == m[p..p + n][i + k] == m[p + i + k];
    }
  }

  lemma ImageParts(key: seq<byte>, value: seq<byte>)
    ensures var im := Image(key, value);
            && |im| == RequiredSize(|key|, |value|) && im[ACCESS_BIT] == 0
            && im[0..4] == Word(|key|) && im[4..8] == Word(|value|)
            && im[HEADER..HEADER + |key|] == key && im[HEADER + |key|..] == value
  {
  }

  lemma ImageWords(m: Memory, p: nat, key: seq<byte>, value: seq<byte>)
    requires |key| < 0x1_0000_0000 && |value| < 0x1_0000_0000
    requires p + RequiredSize(|key|, |value|) <= |m|
    requires m[p..p + RequiredSize(|key|, |value|)] == Image(key, value)
    ensures WordAt(m, p) == |key| && WordAt(m, p + 4) == |value|
  {
    hide Image, Word, WordAt;
    SubSlice(m, p, RequiredSize(|key|, |value|), 0, 4);
    SubSlice(m, p, RequiredSize(|key|, |value|), 4, 8);
    ImageParts(key, value);
    WordRoundTrip(m, p, |key|);
    WordRoundTrip(m, p + 4, |value|);
  }

  /** Key, value and sizes of the entry at `p` depend on its own bytes only, and not on the access bit. */
  lemma EntryDependsOnItsBytes(m: Memory, m': Memory, p: nat)
    requires Readable(m, p) && |m'| == |m|
    requires forall a :: p <= a < p + EntrySize(m, p) && a != p + ACCESS_BIT ==> m'[a] == m[a]
    ensures Readable(m', p) && EntrySize(m', p) == EntrySize(m, p)
    ensures EntryKey(m', p) == EntryKey(m, p) && EntryValue(m', p) == EntryValue(m, p)
  {
  }

  /** `std::memcpy` into the arena. */
  method CopyBytes(arena: array<byte>, at: nat, bytes: seq<byte>)
    requires at + |bytes| <= arena.Length
    modifies arena
    ensures arena[at..at + |bytes|] == bytes
    ensures forall a :: 0 <= a < arena.Length && !(at <= a < at + |bytes|) ==> arena[a] == old(arena[a])
  {
    for i := 0 to |bytes|
      invariant forall j :: 0 <= j < i ==> arena[at + j] == bytes[j]
      invariant forall a :: 0 <= a < arena.Length && !(at <= a < at + i) ==> arena[a] == old(arena[a])
    {
      arena[at + i] := bytes[i];
    }
  }

  method InitAt(arena: array<byte>, p: nat, key: seq<byte>, value: seq<byte>)
    requires p + RequiredSize(|key|, |value|) <= arena.Length
    modifies arena
    ensures arena[p..p + RequiredSize(|key|, |value|)] == Image(key, value)
    ensures forall a :: 0 <= a < arena.Length && !(p <= a < p + RequiredSize(|key|, |value|)) ==>
              arena[a] == old(arena[a])
  {
    InitHeader(arena, p, |key|, |value|);
    ghost var head := arena[p..p + HEADER];
    CopyBytes(arena, p + HEADER, key);
    assert arena[p..p + HEADER] == head;
    ghost var front := arena[p..p + HEADER + |key|];
    assert front == head + key;
    CopyBytes(arena, p + HEADER + |key|, value);
    assert arena[p..p + HEADER + |key|] == front;
    assert arena[p..p + RequiredSize(|key|, |value|)] == front + value;
  }

  method InitHeader(arena: array<byte>, p: nat, keyLen: nat, valueLen: nat)
    requires p + HEADER <= arena.Length
    modifies arena
    ensures arena[p..p + HEADER] == Word(keyLen) + Word(valueLen) + [0, 0, 0, 0, 0, 0, 0, 0]
    ensures forall a :: 0 <= a < arena.Length && !(p <= a < p + HEADER) ==> arena[a] == old(arena[a])
  {
    CopyBytes(arena, p, Word(keyLen));
    ghost var k := arena[p..p + 4];
    CopyBytes(arena, p + 4, Word(valueLen));
    assert arena[p..p + 4] == k;
    ghost var kv := arena[p..p + 8];
    assert kv == k + Word(valueLen);
    CopyBytes(arena, p + ACCESS_BIT, [0]);
    assert arena[p..p + 8] == kv;
    ghost var kva := arena[p..p + 9];
    assert kva == kv + [0];
    CopyBytes(arena, p + ACCESS_BIT + 1, [0, 0, 0, 0, 0, 0, 0]);
    assert arena[p..p + 9] == kva;
    assert arena[p..p + HEADER] == kva + [0, 0, 0, 0, 0, 0, 0];
  }
}

/** The 32-bit hash behind key placement (src/hash/murmurhash3.cpp), on words modulo 2^32. Every mixing
    step can be undone, so keys that differ in one place never collide. */
module MurmurRules {

  type Octets = seq<bv8>

  // The single word operations of the source, by name: c1, c2 and 5 multiply blocks and state, m1 and
  // m2 are the multipliers of the finalizer.
  function TimesC1(k: bv32): bv32 { k * 0xcc9e2d51 }
  function TimesC2(k: bv32): bv32 { k * 0x1b873593 }
  function TimesM1(k: bv32): bv32 { k * 0x85ebca6b }
  function TimesM2(k: bv32): bv32 { k * 0xc2b2ae35 }
  function Times5Plus(k: bv32): bv32 { k * 5 + 0xe6546b64 }
  function Rotl15(x: bv32): bv32 { (x << 15) | (x >> 17) }
  function Rotl13(x: bv32): bv32 { (x << 13) | (x >> 19) }
  function ShiftXor16(h: bv32): bv32 { h ^ (h >> 16) }
  function ShiftXor13(h: bv32): bv32 { h ^ (h >> 13) }
  function Xor(a: bv32, b: bv32): bv32 { a ^ b }

  /** `fmix32` */
  function Finish(h: bv32): bv32 { ShiftXor16(TimesM2(ShiftXor13(TimesM1(ShiftXor16(h))))) }

  /** What is done to a block before it meets the state. */
  function Scramble(k: bv32): bv32 { TimesC2(Rotl15(TimesC1(k))) }

  /** One turn of the block loop. */
  function Round(h: bv32, k: bv32): bv32 { Times5Plus(Rotl13(Xor(h, Scramble(k)))) }

  function Word(a: bv8, b: bv8, c: bv8, d: bv8): bv32 {
    (a as bv32) | ((b as bv32) << 8) | ((c as bv32) << 16) | ((d as bv32) << 24)
  }

  /** `getblock32` on a little-endian machine. */
  function Block(data: Octets, i: nat): bv32
    requires 4 * i + 4 <= |data|
  {
    Word(data[4 * i], data[4 * i + 1], data[4 * i + 2], data[4 * i + 3])
  }

  /** The state after the first `n` blocks. */
  function Blocks(data: Octets, seed: bv32, n: nat): bv32
    requires 4 * n <= |data|
  {
    if n == 0 then seed else Round(Blocks(data, seed, n - 1), Block(data, n - 1))
  }

  /** The last one to three bytes as a word. */
  function TailWord(data: Octets): bv32 {
    var t, r := 4 * (|data| / 4), |data| % 4;
    if r == 0 then 0
    else if r == 1 then Word(data[t], 0, 0, 0)
    else if r == 2 then Word(data[t], data[t + 1], 0, 0)
    else Word(data[t], data[t + 1], data[t + 2], 0)
  }

  function WithTail(h: bv32, data: Octets): bv32 {
    if |data| % 4 == 0 then h else Xor(h, Scramble(TailWord(data)))
  }

  function Length32(data: Octets): bv32 { (|data| % 0x1_0000_0000) as bv32 }

  /** `murmurhash3_x86_32` */
  function Hash(data: Octets, seed: bv32): bv32 {
    Finish(Xor(WithTail(Blocks(data, seed, |data| / 4), data), Length32(data)))
  }

  // ---------------------------------------------------------------- every step can be undone

  // Their inverses modulo 2^32.
  function OverC1(k: bv32): bv32 { k * 0xdee13bb1 }
  function OverC2(k: bv32): bv32 { k * 0x56ed309b }
  function OverM1(k: bv32): bv32 { k * 0xa5cb9243 }
  function OverM2(k: bv32): bv32 { k * 0x7ed1b41d }
  function MinusOver5(k: bv32): bv32 { (k - 0xe6546b64) * 0xcccccccd }
  function Rotr15(x: bv32): bv32 { (x << 17) | (x >> 15) }
  function Rotr13(x: bv32): bv32 { (x << 19) | (x >> 13) }
  function UnshiftXor13(x: bv32): bv32 { x ^ (x >> 13) ^ (x >> 26) }

  lemma Cancel(k: bv32)
    ensures OverC1(k * 0xcc9e2d51) == k && OverC2(k * 0x1b873593) == k
    ensures OverM1(k * 0x85ebca6b) == k && OverM2(k * 0xc2b2ae35) == k
    ensures MinusOver5(k * 5 + 0xe6546b64) == k
    ensures ShiftXor16(k ^ (k >> 16)) == k && UnshiftXor13(k ^ (k >> 13)) == k
  {
  }

  lemma C1Undone(k: bv32)
    ensures OverC1(TimesC1(k)) == k
  {
    hide OverC1;
    Cancel(k);
  }

  lemma C2Undone(k: bv32)
    ensures OverC2(TimesC2(k)) == k
  {
    hide OverC2;
    Cancel(k);
  }

  lemma M1Undone(k: bv32)
    ensures OverM1(TimesM1(k)) == k
  {
    hide OverM1;
    Cancel(k);
  }

  lemma M2Undone(k: bv32)
    ensures OverM2(TimesM2(k)) == k
  {
    hide OverM2;
    Cancel(k);
  }

  lemma Times5Undone(k: bv32)
    ensures MinusOver5(Times5Plus(k)) == k
  {
    hide MinusOver5;
    Cancel(k);
  }

  lemma Rotl15Undone(x: bv32)
    ensures Rotr15(Rotl15(x)) == x
  {
  }

  lemma Rotl13Undone(x: bv32)
    ensures Rotr13(Rotl13(x)) == x
  {
  }

  lemma ShiftXor16Undone(h: bv32)
    ensures ShiftXor16(ShiftXor16(h)) == h
  {
    Cancel(h);
  }

  lemma ShiftXor13Undone(h: bv32)
    ensures UnshiftXor13(ShiftXor13(h)) == h
  {
    hide UnshiftXor13;
    Cancel(h);
  }

  lemma XorUndone(a: bv32, b: bv32)
    ensures Xor(Xor(a, b), b) == a && Xor(a, Xor(a, b)) == b
  {
  }

  function Unfinish(x: bv32): bv32 { ShiftXor16(OverM1(UnshiftXor13(OverM2(ShiftXor16(x))))) }

  function Unscramble(x: bv32): bv32 { OverC1(Rotr15(OverC2(x))) }

  /** The finalizer and the block scrambler have explicit inverses, on all words. */
  lemma FinishUndone(h: bv32)
    ensures Unfinish(Finish(h)) == h
  {
    hide ShiftXor16, TimesM1, TimesM2, ShiftXor13, UnshiftXor13, OverM1, OverM2;
    var a := ShiftXor16(h);
    var b := TimesM1(a);
    var c := ShiftXor13(b);
    ShiftXor16Undone(TimesM2(c));
    M2Undone(c);
    ShiftXor13Undone(b);
    M1Undone(a);
    ShiftXor16Undone(h);
  }

  lemma ScrambleUndone(k: bv32)
    ensures Unscramble(Scramble(k)) == k
  {
    hide TimesC1, TimesC2, Rotl15, Rotr15, OverC1, OverC2;
    C2Undone(Rotl15(TimesC1(k)));
    Rotl15Undone(TimesC1(k));
    C1Undone(k);
  }

  /** A round can be undone knowing its block, and its block found knowing the state before. */
  lemma RoundUndone(h: bv32, k: bv32)
    ensures Xor(Rotr13(MinusOver5(Round(h, k))), Scramble(k)) == h
    ensures Unscramble(Xor(h, Rotr13(MinusOver5(Round(h, k))))) == k
  {
    hide Times5Plus, MinusOver5, Rotl13, Rotr13, Xor, Scramble, Unscramble;
    var x := Xor(h, Scramble(k));
    Times5Undone(Rotl13(x));
    Rotl13Undone(x);
    XorUndone(h, Scramble(k));
    ScrambleUndone(k);
  }

  /** So a round is injective in the state, and in the block. */
  lemma RoundInjective(h: bv32, k: bv32, h': bv32, k': bv32)
    requires h == h' || k == k'
    requires Round(h, k) == Round(h', k')
    ensures h == h' && k == k'
  {
    hide Round, Xor, Rotr13, MinusOver5, Scramble, Unscramble;
    RoundUndone(h, k);
    RoundUndone(h', k');
  }

  lemma WordInjective(a: bv8, b: bv8, c: bv8, d: bv8, a': bv8, b': bv8, c': bv8, d': bv8)
    requires Word(a, b, c, d) == Word(a', b', c', d')
    ensures a == a' && b == b' && c == c' && d == d'
  {
  }

  // ---------------------------------------------------------------- near keys are told apart

  /** The two keys differ in block `i` and nowhere else. */
  ghost predicate DifferInBlock(x: Octets, y: Octets, i: nat) {
    && |x| == |y| && 4 * i + 4 <= |x|
    && x[4 * i..4 * i + 4] != y[4 * i..4 * i + 4]
    && x[..4 * i] == y[..4 * i] && x[4 * i + 4..] == y[4 * i + 4..]
  }

  /** The two keys differ in the last one to three bytes and nowhere else. */
  ghost predicate DifferInTail(x: Octets, y: Octets) {
    && |x| == |y| && x != y
    && x[..4 * (|x| / 4)] == y[..4 * (|x| / 4)]
  }

  lemma BlockInjective(x: Octets, y: Octets, i: nat)
    requires |x| == |y| && 4 * i + 4 <= |x|
    ensures Block(x, i) == Block(y, i) <==> x[4 * i..4 * i + 4] == y[4 * i..4 * i + 4]
  {
  }

  /** Equal prefixes give equal states. */
  lemma {:induction false} BlocksOfPrefix(x: Octets, y: Octets, seed: bv32, n: nat)
    requires 4 * n <= |x| && 4 * n <= |y| && |x| == |y| && x[..4 * n] == y[..4 * n]
    ensures Blocks(x, seed, n) == Blocks(y, seed, n)
  {
    hide Round, Block;
    if n == 0 {
    } else {
      var m := 4 * (n - 1);
      assert x[..m] == x[..4 * n][..m] && y[..m] == y[..4 * n][..m];
      BlocksOfPrefix(x, y, seed, n - 1);
      assert x[m..m + 4] == x[..4 * n][m..] && y[m..m + 4] == y[..4 * n][m..];
      BlockInjective(x, y, n - 1);
    }
  }

  /** A difference in one block survives all later rounds. */
  lemma {:induction false} BlocksTellApart(x: Octets, y: Octets, seed: bv32, i: nat, n: nat)
    requires DifferInBlock(x, y, i) && i < n && 4 * n <= |x|
    ensures Blocks(x, seed, n) != Blocks(y, seed, n)
    decreases n
  {
    hide Round, Block;
    var h, h' := Blocks(x, seed, n - 1), Blocks(y, seed, n - 1);
    var k, k' := Block(x, n - 1), Block(y, n - 1);
    BlockInjective(x, y, n - 1);
    if n - 1 == i {
      BlocksOfPrefix(x, y, seed, i);
    } else {
      BlocksTellApart(x, y, seed, i, n - 1);
      LaterBlockSame(x, y, i, n - 1);
    }
    if Round(h, k) == Round(h', k') { RoundInjective(h, k, h', k'); }
  }

  lemma LaterBlockSame(x: Octets, y: Octets, i: nat, j: nat)
    requires DifferInBlock(x, y, i) && i < j && 4 * j + 4 <= |x|
    ensures x[4 * j..4 * j + 4] == y[4 * j..4 * j + 4]
  {
  }

  lemma TailSame(x: Octets, y: Octets, i: nat)
    requires DifferInBlock(x, y, i)
    ensures TailWord(x) == TailWord(y)
  {
  }

  lemma TailDiffers(x: Octets, y: Octets)
    requires DifferInTail(x, y)
    ensures |x| % 4 != 0 && TailWord(x) != TailWord(y)
  {
    hide Word;
    var t := 4 * (|x| / 4);
    assert x == x[..t] + x[t..] && y == y[..t] + y[t..];
    assert x[t..] != y[t..];
    if TailWord(x) == TailWord(y) && |x| % 4 == 3 {
      WordInjective(x[t], x[t + 1], x[t + 2], 0, y[t], y[t + 1], y[t + 2], 0);
    } else if TailWord(x) == TailWord(y) && |x| % 4 == 2 {
      WordInjective(x[t], x[t + 1], 0, 0, y[t], y[t + 1], 0, 0);
    } else if TailWord(x) == TailWord(y) && |x| % 4 == 1 {
      WordInjective(x[t], 0, 0, 0, y[t], 0, 0, 0);
    }
  }

  /** For every seed: two keys of equal length that differ in exactly one aligned four-byte block, or only
      in their last one to three bytes, never have the same hash. */
  lemma NearKeysNeverCollide(x: Octets, y: Octets, seed: bv32, i: nat)
    requires DifferInBlock(x, y, i) || DifferInTail(x, y)
    ensures Hash(x, seed) != Hash(y, seed)
  {
    hide Finish, Scramble, Blocks, TailWord, Length32, WithTail, Xor;
    var n := |x| / 4;
    var h, h' := Blocks(x, seed, n), Blocks(y, seed, n);
    var len := Length32(x);
    SameLength(x, y);
    if DifferInBlock(x, y, i) {
      BlocksTellApart(x, y, seed, i, n);
      TailSame(x, y, i);
    } else {
      BlocksOfPrefix(x, y, seed, n);
      TailDiffers(x, y);
    }
    TailTellsApart(h, x, h', y);
    XorUndone(WithTail(h, x), len);
    XorUndone(WithTail(h', y), len);
    FinishUndone(Xor(WithTail(h, x), len));
    FinishUndone(Xor(WithTail(h', y), len));
  }

  lemma SameLength(x: Octets, y: Octets)
    requires |x| == |y|
    ensures Length32(x) == Length32(y)
  {
  }

  lemma TailTellsApart(h: bv32, x: Octets, h': bv32, y: Octets)
    requires |x| == |y|
    requires (h != h' && TailWord(x) == TailWord(y)) || (h == h' && |x| % 4 != 0 && TailWord(x) != TailWord(y))
    ensures WithTail(h, x) != WithTail(h', y)
  {
    hide Scramble, Unscramble, TailWord, Xor;
    XorUndone(h, Scramble(TailWord(x)));
    XorUndone(h', Scramble(TailWord(y)));
    ScrambleUndone(TailWord(x));
    ScrambleUndone(TailWord(y));
  }
}

/** The hash as the source computes it. */
module Murmur {
  import opened MurmurRules

  method Murmurhash3X86(key: Octets, seed: bv32) returns (out: bv32)
    ensures out == Hash(key, seed)
  {
    hide Rotl13, Rotl15, Word, TimesC1, TimesC2, Times5Plus, Xor, Finish, Length32, TailWord;
    var nblocks := |key| / 4;
    var h1 := seed;
    for i := 0 to nblocks
      invariant h1 == Blocks(key, seed, i)
    {
      var k1 := Block(key, i);
      k1 := TimesC1(k1);
      k1 := Rotl15(k1);
      k1 := TimesC2(k1);
      h1 := Xor(h1, k1);
      h1 := Rotl13(h1);
      h1 := Times5Plus(h1);
    }
    var k1 := ReadTail(key);
    if |key| % 4 != 0 {
      k1 := TimesC1(k1);
      k1 := Rotl15(k1);
      k1 := TimesC2(k1);
      h1 := Xor(h1, k1);
    }
    h1 := Xor(h1, Length32(key));
    out := Finish(h1);
  }

  /** The switch that falls through from the third tail byte to the first. */
  method ReadTail(key: Octets) returns (k1: bv32)
    ensures k1 == TailWord(key)
  {
    hide Word, XorByte;
    var tail, rest := 4 * (|key| / 4), |key| % 4;
    k1 := 0;
    if rest >= 3 { k1 := XorByte(k1, key[tail + 2], 16); }
    if rest >= 2 { k1 := XorByte(k1, key[tail + 1], 8); }
    if rest >= 1 {
      k1 := XorByte(k1, key[tail], 0);
      WordByXor(key[tail], if rest >= 2 then key[tail + 1] else 0, if rest >= 3 then key[tail + 2] else 0);
    }
  }

  function XorByte(k: bv32, b: bv8, shift: nat): bv32
    requires shift < 32
  {
    k ^ ((b as bv32) << shift)
  }

  lemma WordByXor(a: bv8, b: bv8, c: bv8)
    ensures Word(a, b, c, 0) == XorByte(XorByte(XorByte(0, c, 16), b, 8), a, 0)
    ensures XorByte(0, 0, 16) == 0 && XorByte(0, 0, 8) == 0
  {
  }
}

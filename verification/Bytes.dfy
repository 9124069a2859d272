/** Byte strings inside byte strings. */
module Bytes {
  import opened NodeInfos

  /** What a decoder makes of its input: a value and where it stopped reading. */
  datatype Parsed<+T> = Rejected | Accepted(value: T, next: nat)

  /** `b` stands in `d` at `off`. */
  ghost predicate At(d: seq<byte>, off: nat, b: seq<byte>) { off + |b| <= |d| && d[off..off + |b|] == b }

  lemma AtSplit(d: seq<byte>, off: nat, a: seq<byte>, b: seq<byte>)
    ensures At(d, off, a + b) <==> At(d, off, a) && At(d, off + |a|, b)
  {
    if At(d, off, a + b) {
      var s := d[off..off + |a + b|];
      assert d[off..off + |a|] == s[..|a|];
      assert d[off + |a|..off + |a| + |b|] == s[|a|..];
    }
    if At(d, off, a) && At(d, off + |a|, b) {
      assert d[off..off + |a + b|] == d[off..off + |a|] + d[off + |a|..off + |a| + |b|];
    }
  }

  lemma AtShort(d: seq<byte>, off: nat)
    ensures off <= |d| ==> At(d, off, [])
    ensures off < |d| ==> At(d, off, [d[off]])
  {
  }
}

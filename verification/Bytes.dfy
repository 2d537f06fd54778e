/** Bytes, little-endian half words, and memory as the driver reads it. */
module Bytes {
  type byte = b: int | 0 <= b < 256

  function Half(lo: byte, hi: byte): (v: nat)
    ensures v < 0x1_0000
  {
    lo as int + 256 * hi as int
  }

  function U16(mem: seq<byte>, at: nat): nat
    requires at + 2 <= |mem|
  {
    Half(mem[at], mem[at + 1])
  }

  /** The bytes `s` lie in memory from address `at` on. */
  predicate Holds(mem: seq<byte>, at: nat, s: seq<byte>) {
    at + |s| <= |mem| && mem[at..at + |s|] == s
  }

  function Bytes16(v: nat): (s: seq<byte>)
    requires v < 0x1_0000
    ensures |s| == 2
  {
    [v % 256, v / 256]
  }

  lemma HoldsSlice(mem: seq<byte>, a: nat, b: nat)
    requires a <= b <= |mem|
    ensures Holds(mem, a, mem[a..b])
  {
    assert a + |mem[a..b]| == b;
  }

  lemma HoldsConcat(mem: seq<byte>, at: nat, a: seq<byte>, b: seq<byte>)
    ensures Holds(mem, at, a + b) <==> Holds(mem, at, a) && Holds(mem, at + |a|, b)
  {
    if at + |a| + |b| <= |mem| {
      var s := mem[at..at + |a| + |b|];
      assert s[..|a|] == mem[at..at + |a|] && s[|a|..] == mem[at + |a|..at + |a| + |b|];
      assert s == s[..|a|] + s[|a|..];
      assert (a + b)[..|a|] == a && (a + b)[|a|..] == b;
    }
  }

  lemma HoldsBytes16(mem: seq<byte>, at: nat, v: nat)
    requires v < 0x1_0000 && at + 2 <= |mem|
    ensures Holds(mem, at, Bytes16(v)) <==> U16(mem, at) == v
  {
    assert mem[at..at + 2] == [mem[at], mem[at + 1]];
  }

  lemma SliceOfSlice(s: seq<byte>, lo: nat, hi: nat, i: nat, j: nat)
    requires lo <= hi <= |s| && i <= j <= hi - lo
    ensures s[lo..hi][i..j] == s[lo + i..lo + j]
  {
    var a, b := s[lo..hi][i..j], s[lo + i..lo + j];
    forall k | 0 <= k < |a| ensures a[k] == b[k] {
      assert a[k] == s[lo..hi][i + k] == s[lo + i + k];
    }
  }
}

/** The 32-bit one's-complement checksum of scattered buffers: the 32-bit analogue of the
    arithmetic in section 2 of RFC 1071. */
module Checksum {
  import opened Basics
  import opened Bytes

  const ONES: nat := 0xFFFF_FFFF

  type u32 = w: int | 0 <= w < 0x1_0000_0000

  /** Byte `i` of a buffer; past its end, zero. */
  function At(b: seq<byte>, i: nat): int { if i < |b| then b[i] else 0 }

  /** Little-endian word `i` of a buffer, the last one zero-padded. */
  function Word(b: seq<byte>, i: nat): u32 {
    At(b, 4 * i) + 0x100 * At(b, 4 * i + 1) + 0x1_0000 * At(b, 4 * i + 2) + 0x100_0000 * At(b, 4 * i + 3)
  }

  function Pow256(n: nat): (p: nat)
    requires n <= 4
    ensures p > 0
  {
    if n == 0 then 1 else if n == 1 then 0x100 else if n == 2 then 0x1_0000
    else if n == 3 then 0x100_0000 else 0x1_0000_0000
  }

  function Words(b: seq<byte>): nat { (|b| + 3) / 4 }

  /** Plain (unbounded) sum of the first `n` words of a buffer. */
  function Sum(b: seq<byte>, n: nat): nat {
    if n == 0 then 0 else Sum(b, n - 1) + Word(b, n - 1)
  }

  function Total(b: seq<byte>): nat { Sum(b, Words(b)) }

  /** Cast out multiples of 2^32 - 1, keeping a non-zero sum non-zero. */
  function Rep(n: nat): (r: u32)
    ensures r == 0 <==> n == 0
  {
    if n <= ONES then n else Rep(n - ONES)
  }

  /** End-around-carry addition as the code performs it: add, and add one more on overflow. */
  function AddCarry(sum: u32, w: u32): u32 {
    var s := (sum + w) % WRAP32;
    if s < w then s + 1 else s
  }

  /** The closed form: 0 for 0, otherwise the representative modulo 2^32 - 1 in 1 .. 2^32 - 1. */
  lemma {:induction false} RepFormula(n: nat)
    ensures Rep(n) == if n == 0 then 0 else (n - 1) % ONES + 1
    decreases n
  {
    if n > ONES {
      RepFormula(n - ONES);
      assert (n - 1) % ONES == (n - 1 - ONES) % ONES;
    }
  }

  lemma {:induction false} AddCarryIsRep(n: nat, w: u32)
    ensures AddCarry(Rep(n), w) == Rep(n + w)
    decreases n
  {
    if n > ONES { AddCarryIsRep(n - ONES, w); }
  }

  lemma {:induction false} SumOfHead(a: seq<byte>, b: seq<byte>, n: nat)
    requires |a| % 4 == 0 && 4 * n <= |a|
    ensures Sum(a + b, n) == Sum(a, n)
  {
    if n > 0 { SumOfHead(a, b, n - 1); }
  }

  lemma {:induction false} SumOfTail(a: seq<byte>, b: seq<byte>, n: nat)
    requires |a| % 4 == 0
    ensures Sum(a + b, |a| / 4 + n) == Sum(a, |a| / 4) + Sum(b, n)
  {
    if n == 0 {
      SumOfHead(a, b, |a| / 4);
    } else {
      SumOfTail(a, b, n - 1);
      assert Word(a + b, |a| / 4 + n - 1) == Word(b, n - 1);
    }
  }

  lemma TotalSplit(a: seq<byte>, b: seq<byte>)
    requires |a| % 4 == 0
    ensures Total(a + b) == Total(a) + Total(b)
  {
    SumOfTail(a, b, Words(b));
  }

  /** A word that begins in the buffer is the next four bytes, zeros where there are none, least
      significant first. */
  lemma WordIs(b: seq<byte>, pad: seq<byte>, i: nat)
    requires 4 * i < |b| && |pad| == 3 && pad[0] == pad[1] == pad[2] == 0
    ensures var m, j := b + pad, 4 * i;
      Word(b, i) == m[j] as int + 0x100 * m[j + 1] as int + 0x1_0000 * m[j + 2] as int + 0x100_0000 * m[j + 3] as int
  {
    var m, j := b + pad, 4 * i;
    assert m[j] == At(b, j) && m[j + 1] == At(b, j + 1) && m[j + 2] == At(b, j + 2) && m[j + 3] == At(b, j + 3);
  }

  lemma LowBytes(b0: byte, b1: byte, b2: byte, b3: byte)
    ensures var w := b0 + 0x100 * b1 + 0x1_0000 * b2 + 0x100_0000 * b3;
      w % 0x100 == b0 && w % 0x1_0000 == b0 + 0x100 * b1 && w % 0x100_0000 == b0 + 0x100 * b1 + 0x1_0000 * b2
  {
    assert (b0 + 0x100 * (b1 + 0x100 * b2 + 0x1_0000 * b3)) % 0x100 == b0;
    assert (b0 + 0x100 * b1 + 0x1_0000 * (b2 + 0x100 * b3)) % 0x1_0000 == b0 + 0x100 * b1;
  }

  /** Masking the upper bytes of a word read past the end of the buffer. */
  lemma MaskKeepsLowBytes(mem: seq<byte>, c: nat, r: nat)
    requires 0 < r < 4 && 4 * c + 4 <= |mem|
    ensures Word(mem, c) % Pow256(r) == Word(mem[..4 * c + r], c)
  {
    LowBytes(mem[4 * c], mem[4 * c + 1], mem[4 * c + 2], mem[4 * c + 3]);
  }

  lemma WholeWord(mem: seq<byte>, size: nat, k: nat)
    requires 4 * k + 4 <= size <= |mem|
    ensures Word(mem[..size], k) == Word(mem, k)
  {
  }

  /** The code's addition with end-around carry. */
  method AddWord(sum: u32, dword: u32, ghost n: nat) returns (s: u32)
    requires sum == Rep(n)
    ensures s == Rep(n + dword)
  {
    AddCarryIsRep(n, dword);
    s := (sum + dword) % WRAP32;
    if s < dword { s := s + 1; }
  }

  /** checksum_addition.  `mem` is the memory at `buf`; a partial last word is read whole and its
      upper bytes masked away. */
  method ChecksumAddition(mem: seq<byte>, size: nat, prev: u32, ghost before: nat) returns (sum: u32)
    requires Readable(Scatter(mem, size))
    requires prev == Rep(before)
    ensures sum == Rep(before + Total(mem[..size]))
  {
    sum := prev;
    if size == 0 { return; }
    ghost var buf := mem[..size];
    var limit := size - size % 4;
    var k := 0;
    while 4 * k < limit
      invariant 0 <= 4 * k <= limit
      invariant sum == Rep(before + Sum(buf, k))
    {
      WholeWord(mem, size, k);
      sum := AddWord(sum, Word(mem, k), before + Sum(buf, k));
      k := k + 1;
    }
    if size % 4 != 0 {
      MaskKeepsLowBytes(mem, k, size % 4);
      assert mem[..4 * k + size % 4] == buf;
      sum := AddWord(sum, Word(mem, k) % Pow256(size % 4), before + Sum(buf, k));
      k := k + 1;
    }
    assert k == Words(buf);
  }

  datatype Scatter = Scatter(mem: seq<byte>, size: nat)

  predicate Readable(s: Scatter) {
    s.size <= |s.mem| && (s.size % 4 != 0 ==> s.size - s.size % 4 + 4 <= |s.mem|)
  }

  type Chunk = s: Scatter | Readable(s) witness Scatter([], 0)

  function Contents(s: Chunk): seq<byte> { s.mem[..s.size] }

  function ScatterTotal(ss: seq<Chunk>): nat {
    if ss == [] then 0 else ScatterTotal(ss[..|ss| - 1]) + Total(Contents(ss[|ss| - 1]))
  }

  /** What the checksum of a plain sum of words is. */
  function Complemented(total: nat): u32 { ONES - Rep(total) }

  /** checksum_32bit */
  method Checksum32(ss: seq<Chunk>) returns (c: u32)
    ensures c == Complemented(ScatterTotal(ss))
  {
    var sum: u32 := 0;
    var cnt := 0;
    while cnt < |ss|
      invariant 0 <= cnt <= |ss| && sum == Rep(ScatterTotal(ss[..cnt]))
    {
      sum := ChecksumAddition(ss[cnt].mem, ss[cnt].size, sum, ScatterTotal(ss[..cnt]));
      assert ss[..cnt + 1][..cnt] == ss[..cnt];
      cnt := cnt + 1;
    }
    assert ss[..cnt] == ss;
    c := ONES - sum;
  }

  // ---- consequences ----

  function Concat(ss: seq<Chunk>): seq<byte> {
    if ss == [] then [] else Concat(ss[..|ss| - 1]) + Contents(ss[|ss| - 1])
  }

  lemma {:induction false} WholeWords(ss: seq<Chunk>)
    requires forall i :: 0 <= i < |ss| ==> ss[i].size % 4 == 0
    ensures |Concat(ss)| % 4 == 0
    decreases |ss|
  {
    if ss != [] { WholeWords(ss[..|ss| - 1]); }
  }

  /** Where a buffer is cut does not matter as long as the cuts are at word boundaries. */
  lemma {:induction false} SplittingIsInvisible(ss: seq<Chunk>)
    requires forall i :: 0 <= i < |ss| - 1 ==> ss[i].size % 4 == 0
    ensures ScatterTotal(ss) == Total(Concat(ss))
    decreases |ss|
  {
    if ss != [] {
      var front := ss[..|ss| - 1];
      SplittingIsInvisible(front);
      WholeWords(front);
      TotalSplit(Concat(front), Contents(ss[|ss| - 1]));
    }
  }

  lemma {:induction false} RepCongruent(a: nat, d: nat)
    requires 0 < d <= ONES
    ensures Rep(a) == Rep(a + d) <==> a > 0 && d == ONES
    decreases a
  {
    if a > ONES { RepCongruent(a - ONES, d); }
  }

  lemma {:induction false} OneWordSum(a: seq<byte>, b: seq<byte>, k: nat, n: nat)
    requires |a| == |b| && forall i :: 0 <= i < n && i != k ==> Word(a, i) == Word(b, i)
    ensures k >= n ==> Sum(a, n) == Sum(b, n)
    ensures k < n ==> Sum(a, n) - Word(a, k) == Sum(b, n) - Word(b, k) >= 0
  {
    if n > 0 { OneWordSum(a, b, k, n - 1); }
  }

  predicate ZeroAgainstOnes(a: nat, b: nat) { (a == 0 && b == ONES) || (a == ONES && b == 0) }

  lemma WordsCollide(rest: nat, a: u32, b: u32)
    requires a != b
    ensures Complemented(rest + a) == Complemented(rest + b) <==> ZeroAgainstOnes(a, b) && rest > 0
  {
    if a < b { RepCongruent(rest + a, b - a); } else { RepCongruent(rest + b, a - b); }
  }

  /** Changing one word of a buffer goes unnoticed in exactly one case: 0 against 2^32 - 1, in a
      buffer whose other words are not all zero. */
  lemma OneWordChange(a: seq<byte>, b: seq<byte>, k: nat)
    requires |a| == |b| && k < Words(a) && Word(a, k) != Word(b, k)
    requires forall i :: 0 <= i < Words(a) && i != k ==> Word(a, i) == Word(b, i)
    ensures Complemented(Total(a)) == Complemented(Total(b)) <==>
      ZeroAgainstOnes(Word(a, k), Word(b, k)) && Total(a) > Word(a, k)
  {
    OneWordSum(a, b, k, Words(a));
    WordsCollide(Total(a) - Word(a, k), Word(a, k), Word(b, k));
  }

  lemma OneByteInWord(a: seq<byte>, b: seq<byte>, k: nat, i: nat)
    requires |a| == |b| && k < |a| && forall j :: 0 <= j < |a| && j != k ==> a[j] == b[j]
    ensures i != k / 4 ==> Word(a, i) == Word(b, i)
    ensures i == k / 4 && a[k] != b[k] ==> Word(a, i) != Word(b, i) && !ZeroAgainstOnes(Word(a, i), Word(b, i))
  {
    var j := 4 * i;
    assert i == k / 4 <==> j <= k < j + 4;
    assert forall m :: j <= m < j + 4 && m != k ==> At(a, m) == At(b, m);
  }

  /** A change of one byte, anywhere in any buffer, always shows. */
  lemma OneByteChange(a: seq<byte>, b: seq<byte>, k: nat)
    requires |a| == |b| && k < |a| && a[k] != b[k] && forall j :: 0 <= j < |a| && j != k ==> a[j] == b[j]
    ensures Complemented(Total(a)) != Complemented(Total(b))
  {
    forall i: nat ensures i != k / 4 ==> Word(a, i) == Word(b, i) { OneByteInWord(a, b, k, i); }
    OneByteInWord(a, b, k, k / 4);
    OneWordChange(a, b, k / 4);
  }
}

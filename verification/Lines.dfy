/** Lines of a whole file held in memory: the reference the windowed reader must agree with. */
module Lines {
  const NL: char := '\n'

  /** How many line ends lie before `pos`: the number of the line `pos` is on. */
  function LineNo(f: seq<char>, pos: nat): nat
    requires pos <= |f|
  {
    if pos == 0 then 0 else LineNo(f, pos - 1) + if f[pos - 1] == NL then 1 else 0
  }

  function LastLine(f: seq<char>): nat { LineNo(f, |f|) }

  predicate IsLineStart(f: seq<char>, pos: nat)
    requires pos <= |f|
  {
    pos == 0 || f[pos - 1] == NL
  }

  /** Where the line around `pos` ends: at its line end, or at the end of the file. */
  function NextBreak(f: seq<char>, pos: nat): (r: nat)
    requires pos <= |f|
    ensures pos <= r <= |f| && (r < |f| ==> f[r] == NL)
    ensures forall i :: pos <= i < r ==> f[i] != NL
    decreases |f| - pos
  {
    if pos == |f| || f[pos] == NL then pos else NextBreak(f, pos + 1)
  }

  lemma LineNoMonotone(f: seq<char>, a: nat, b: nat)
    requires a <= b <= |f|
    ensures LineNo(f, a) <= LineNo(f, b)
    decreases b
  {
    if a < b { LineNoMonotone(f, a, b - 1); }
  }

  lemma SameLine(f: seq<char>, a: nat, b: nat)
    requires a <= b <= |f| && forall i :: a <= i < b ==> f[i] != NL
    ensures LineNo(f, b) == LineNo(f, a)
    decreases b
  {
    if a < b { SameLine(f, a, b - 1); }
  }

  lemma BreakBeforeEnd(f: seq<char>, a: nat)
    requires a <= |f|
    ensures NextBreak(f, a) < |f| <==> LineNo(f, a) < LastLine(f)
    ensures NextBreak(f, a) < |f| ==> LineNo(f, NextBreak(f, a) + 1) == LineNo(f, a) + 1
  {
    var e := NextBreak(f, a);
    SameLine(f, a, e);
    if e < |f| { LineNoMonotone(f, e + 1, |f|); }
  }

  /** First position of line `k`. */
  function StartOf(f: seq<char>, k: nat): (pos: nat)
    requires k <= LastLine(f)
    ensures pos <= |f| && IsLineStart(f, pos) && LineNo(f, pos) == k
  {
    if k == 0 then 0 else
      var p := StartOf(f, k - 1);
      BreakBeforeEnd(f, p);
      NextBreak(f, p) + 1
  }

  lemma StartsDiffer(f: seq<char>, p: nat, q: nat)
    requires p < q <= |f| && IsLineStart(f, q)
    ensures LineNo(f, p) < LineNo(f, q)
  {
    LineNoMonotone(f, p, q - 1);
  }

  lemma StartIsUnique(f: seq<char>, p: nat, q: nat)
    requires p <= |f| && q <= |f| && IsLineStart(f, p) && IsLineStart(f, q) && LineNo(f, p) == LineNo(f, q)
    ensures p == q
  {
    if p < q {
      StartsDiffer(f, p, q);
    } else if q < p {
      StartsDiffer(f, q, p);
    }
  }

  lemma StartOfIs(f: seq<char>, p: nat)
    requires p <= |f| && IsLineStart(f, p)
    ensures LineNo(f, p) <= LastLine(f) && p == StartOf(f, LineNo(f, p))
  {
    LineNoMonotone(f, p, |f|);
    StartIsUnique(f, p, StartOf(f, LineNo(f, p)));
  }

  /** The text of line `k`, without its line end. */
  function Text(f: seq<char>, k: nat): seq<char>
    requires k <= LastLine(f)
  {
    f[StartOf(f, k)..NextBreak(f, StartOf(f, k))]
  }
}

/** The distribution section of `show_distribution` (src/main.rs:528-602),
    with `hconv` the identity as `main` passes it (src/main.rs:112). The source
    computes `ceil(log_√2 L)` in floating point; this is its exact-arithmetic
    counterpart: `ceil(log_√2 L) == i` exactly when `(√2)^(i-1) < L <= (√2)^i`,
    that is when `2^(i-1) < L*L <= 2^i`. */
module Histogram {
  import opened Wrappers
  import opened Files
  import Seqs

  /** The number of bins the histogram array holds. */
  const BinCount: nat := 32

  /** `dist_width`: 300 pixels in HTML, 60 characters in text. */
  function DistWidth(html: bool): nat {
    if html then 300 else 60
  }

  function Pow2(i: nat): (r: nat)
    ensures r >= 1
  {
    if i == 0 then 1 else 2 * Pow2(i - 1)
  }

  lemma {:induction false} Pow2Monotone(i: nat, j: nat)
    requires i <= j
    ensures Pow2(i) <= Pow2(j)
    decreases j
  {
    if i < j {
      Pow2Monotone(i, j - 1);
    }
  }

  /** A file with `lines` lines belongs to bin `i`: bin 0 holds exactly the
      one-line files, bin `i > 0` the counts with `2^(i-1) < lines^2 <= 2^i`. */
  predicate InBin(lines: nat, i: nat) {
    lines >= 1 && lines * lines <= Pow2(i) && (i == 0 || Pow2(i - 1) < lines * lines)
  }

  /** A line count lies in at most one bin. */
  lemma BinUnique(lines: nat, i: nat, j: nat)
    requires InBin(lines, i) && InBin(lines, j)
    ensures i == j
  {
    if i < j {
      Pow2Monotone(i, j - 1);
    } else if j < i {
      Pow2Monotone(j, i - 1);
    }
  }

  function FindBin(sq: nat, i: nat): (r: nat)
    requires sq >= 1 && (i == 0 || Pow2(i - 1) < sq)
    ensures sq <= Pow2(r) && (r == 0 || Pow2(r - 1) < sq)
    decreases sq - Pow2(i)
  {
    if Pow2(i) >= sq then i else FindBin(sq, i + 1)
  }

  /** The bin of a non-empty file, the rounded-up logarithm of its line
      count to base √2: the first `i` with `2^i >= lines^2`. */
  function BinOf(lines: nat): (i: nat)
    requires lines >= 1
    ensures InBin(lines, i)
  {
    FindBin(lines * lines, 0)
  }

  lemma BinOfIff(lines: nat, i: nat)
    requires lines >= 1
    ensures BinOf(lines) == i <==> InBin(lines, i)
  {
    if InBin(lines, i) {
      BinUnique(lines, BinOf(lines), i);
    }
  }

  /** Bin 1 would hold `lines^2 == 2`, so it is always empty. */
  lemma BinOneEmpty(lines: nat)
    ensures !InBin(lines, 1)
  {
    if lines >= 2 {
      assert lines * lines >= 2 * lines;
    }
  }

  lemma SquareMonotone(a: nat, b: nat)
    requires a <= b
    ensures a * a <= b * b
  {
    assert a * a <= a * b;
    assert a * b <= b * b;
  }

  /** Only counts up to 46340 land in the 32 bins: `46340^2 <= 2^31 < 46341^2`. */
  lemma BinInRange(lines: nat)
    requires lines >= 1
    ensures BinOf(lines) < BinCount <==> lines <= 46340
  {
    assert Pow2(31) == 2147483648 by {
      assert Pow2(8) == 256;
      assert Pow2(16) == 65536;
      assert Pow2(24) == 16777216;
    }
    var b := BinOf(lines);
    if lines <= 46340 {
      SquareMonotone(lines, 46340);
      if b >= 32 {
        Pow2Monotone(31, b - 1);
      }
    } else {
      SquareMonotone(46341, lines);
      if b < 32 {
        Pow2Monotone(b, 31);
      }
    }
  }

  lemma BinExamples()
    ensures BinOf(1) == 0 && BinOf(2) == 2 && BinOf(100) == 14
  {
    assert Pow2(1) == 2 && Pow2(2) == 4 && Pow2(13) == 8192 && Pow2(14) == 16384;
    BinOfIff(1, 0);
    BinOfIff(2, 2);
    BinOfIff(100, 14);
  }

  /** Reference definition of a bin's height: the number of files in bin `i`. */
  function CountIn(list: seq<FileEntry>, i: nat): nat {
    if |list| == 0 then 0
    else CountIn(list[..|list| - 1], i) + (if InBin(list[|list| - 1].lines, i) then 1 else 0)
  }

  lemma {:induction false} CountInAppend(a: seq<FileEntry>, b: seq<FileEntry>, i: nat)
    ensures CountIn(a + b, i) == CountIn(a, i) + CountIn(b, i)
    decreases |b|
  {
    if |b| == 0 {
      assert a + b == a;
    } else {
      var b' := b[..|b| - 1];
      assert (a + b)[..|a + b| - 1] == a + b';
      assert (a + b)[|a + b| - 1] == b[|b| - 1];
      CountInAppend(a, b', i);
    }
  }

  lemma CountInSingle(e: FileEntry, i: nat)
    ensures CountIn([e], i) == if InBin(e.lines, i) then 1 else 0
  {
    assert [e][..0] == [];
  }

  lemma CountInRemove(b: seq<FileEntry>, j: nat, i: nat)
    requires j < |b|
    ensures CountIn(b, i) == CountIn([b[j]], i) + CountIn(b[..j] + b[j + 1..], i)
  {
    assert b == b[..j] + [b[j]] + b[j + 1..];
    CountInAppend(b[..j] + [b[j]], b[j + 1..], i);
    CountInAppend(b[..j], [b[j]], i);
    CountInAppend(b[..j], b[j + 1..], i);
  }

  /** The histogram does not depend on the order of the file list; in
      particular it is the same before and after the ranking sorts it. */
  lemma {:induction false} CountInPermutation(a: seq<FileEntry>, b: seq<FileEntry>, i: nat)
    requires multiset(a) == multiset(b)
    ensures CountIn(a, i) == CountIn(b, i)
  {
    if |a| == 0 {
      assert |b| == |multiset(b)| == 0;
    } else {
      var j := Seqs.MatchFirst(a, b);
      CountInPermutation(a[1..], b[..j] + b[j + 1..], i);
      assert a == [a[0]] + a[1..];
      CountInAppend([a[0]], a[1..], i);
      CountInRemove(b, j, i);
    }
  }

  /** The binning loop (src/main.rs:535-544). */
  method BuildHistogram(list: seq<FileEntry>) returns (h: seq<nat>)
    ensures |h| == BinCount
    ensures forall i :: 0 <= i < BinCount ==> h[i] == CountIn(list, i)
  {
    h := seq(BinCount, _ => 0);
    var k := 0;
    while k < |list|
      invariant k <= |list|
      invariant |h| == BinCount
      invariant forall i :: 0 <= i < BinCount ==> h[i] == CountIn(list[..k], i)
    {
      var lines := list[k].lines;
      assert list[..k + 1][..k] == list[..k];
      ghost var prev := h;
      if lines != 0 {
        var ind := BinOf(lines);
        if ind < BinCount {
          h := h[ind := h[ind] + 1];
        }
        forall i | 0 <= i < BinCount
          ensures h[i] == CountIn(list[..k + 1], i)
        {
          BinOfIff(lines, i);
        }
      }
      k := k + 1;
    }
    assert list[..k] == list;
  }

  /** Number of files with `1 <= lines <= 46340`. */
  function CountKept(list: seq<FileEntry>): nat {
    if |list| == 0 then 0
    else CountKept(list[..|list| - 1]) + (if 1 <= list[|list| - 1].lines <= 46340 then 1 else 0)
  }

  function BinSum(list: seq<FileEntry>, n: nat): nat {
    if n == 0 then 0 else BinSum(list, n - 1) + CountIn(list, n - 1)
  }

  lemma {:induction false} BinSumEmpty(n: nat)
    ensures BinSum([], n) == 0
  {
    if n > 0 {
      BinSumEmpty(n - 1);
    }
  }

  lemma {:induction false} BinSumStep(list: seq<FileEntry>, e: FileEntry, n: nat)
    ensures BinSum(list + [e], n) == BinSum(list, n) + (if e.lines >= 1 && BinOf(e.lines) < n then 1 else 0)
  {
    if n > 0 {
      BinSumStep(list, e, n - 1);
      assert (list + [e])[..|list|] == list;
      if e.lines >= 1 {
        BinOfIff(e.lines, n - 1);
      }
    }
  }

  lemma {:induction false} BinSumKept(list: seq<FileEntry>)
    ensures BinSum(list, BinCount) == CountKept(list)
  {
    if |list| == 0 {
      BinSumEmpty(BinCount);
    } else {
      var init, e := list[..|list| - 1], list[|list| - 1];
      assert list == init + [e];
      BinSumKept(init);
      BinSumStep(init, e, BinCount);
      if e.lines >= 1 {
        BinInRange(e.lines);
      }
    }
  }

  function Sum(h: seq<nat>): nat {
    if |h| == 0 then 0 else Sum(h[..|h| - 1]) + h[|h| - 1]
  }

  /** The bins together count exactly the files with 1 to 46340 lines: empty
      files are skipped and longer ones fall past the last bin. */
  lemma HistogramTotal(list: seq<FileEntry>, h: seq<nat>)
    requires |h| == BinCount
    requires forall i :: 0 <= i < BinCount ==> h[i] == CountIn(list, i)
    ensures Sum(h) == CountKept(list)
    ensures h[1] == 0
  {
    forall n | 0 <= n <= BinCount
      ensures Sum(h[..n]) == BinSum(list, n)
    {
      SumPrefix(list, h, n);
    }
    assert h[..BinCount] == h;
    BinSumKept(list);
    CountInNeverOne(list);
  }

  lemma {:induction false} SumPrefix(list: seq<FileEntry>, h: seq<nat>, n: nat)
    requires |h| == BinCount && n <= BinCount
    requires forall i :: 0 <= i < BinCount ==> h[i] == CountIn(list, i)
    ensures Sum(h[..n]) == BinSum(list, n)
  {
    if n > 0 {
      SumPrefix(list, h, n - 1);
      assert h[..n][..n - 1] == h[..n - 1];
    }
  }

  lemma {:induction false} CountInNeverOne(list: seq<FileEntry>)
    ensures CountIn(list, 1) == 0
  {
    if |list| > 0 {
      CountInNeverOne(list[..|list| - 1]);
      BinOneEmpty(list[|list| - 1].lines);
    }
  }

  /** Largest element, or 0 for an empty sequence. */
  function MaxOf(s: seq<nat>): (m: nat)
    ensures forall i :: 0 <= i < |s| ==> s[i] <= m
    ensures |s| > 0 ==> exists i :: 0 <= i < |s| && s[i] == m
    ensures |s| == 0 ==> m == 0
  {
    if |s| == 0 then 0
    else
      var rest := MaxOf(s[1..]);
      assert forall i :: 1 <= i < |s| ==> s[i] == s[1..][i - 1];
      if s[0] >= rest then s[0] else rest
  }

  /** `maxdirs`: the tallest of bins 1 to 31. Bin 1 takes part although it is
      never drawn. */
  function MaxDirs(h: seq<nat>): nat
    requires |h| == BinCount
  {
    MaxOf(h[1..])
  }

  lemma DivAtMost(c: nat, w: nat, m: nat)
    requires 0 < m && c <= m
    ensures c * w / m <= w
    ensures c == m ==> c * w / m == w
  {
    MulMonotone(c, m, w);
    DivMonotone(c * w, m * w, m);
    assert m * w == w * m;
  }

  lemma DivMonotone(x: nat, y: nat, m: nat)
    requires 0 < m && x <= y
    ensures x / m <= y / m
  {
    var qx, qy := x / m, y / m;
    assert qx * m <= x;
    assert y < (qy + 1) * m;
    MulCancel(qx, qy + 1, m);
  }

  lemma MulCancel(a: nat, b: nat, m: nat)
    requires a * m < b * m
    ensures a < b
  {
    if b <= a {
      MulMonotone(b, a, m);
    }
  }

  lemma MulMonotone(a: nat, b: nat, w: nat)
    requires a <= b
    ensures a * w <= b * w
  {
  }

  /** The bar of bin `i` (2 to 31) as the HTML branch computes it. Division by
      zero cannot happen: a non-empty bin makes `maxdirs` at least its count. */
  function BarLength(h: seq<nat>, i: nat, width: nat): (r: nat)
    requires |h| == BinCount && 2 <= i < BinCount
    ensures r <= width
    ensures h[i] == 0 ==> r == 0
    ensures h[i] > 0 && h[i] == MaxDirs(h) ==> r == width
  {
    if h[i] != 0 then
      MaxDirsBound(h, i);
      Scale(h[i], width, MaxDirs(h))
    else 0
  }

  /** `count * width / maxdirs` for a count no larger than `maxdirs`. */
  function Scale(c: nat, width: nat, m: nat): (r: nat)
    requires 0 < m && c <= m
    ensures r <= width
    ensures c == m ==> r == width
  {
    DivAtMost(c, width, m);
    c * width / m
  }

  lemma MaxDirsBound(h: seq<nat>, i: nat)
    requires |h| == BinCount && 1 <= i < BinCount
    ensures h[i] <= MaxDirs(h)
  {
    assert h[i] == h[1..][i - 1];
  }

  /** The text branch: the bin's share of the width, scaled by the fullest
      bin, drawn only when the fullest bin, the bin index and the bin's own
      count are all non-zero. */
  function TextBarLength(h: seq<nat>, i: nat, width: nat): nat
    requires |h| == BinCount && 2 <= i < BinCount
  {
    if 0 < MaxDirs(h) && i != 0 && h[i] != 0 then h[i] * width / MaxDirs(h) else 0
  }

  /** Both renderers draw the same bar; the extra guard of the text branch
      never changes the outcome. */
  lemma RenderersAgree(h: seq<nat>, i: nat, width: nat)
    requires |h| == BinCount && 2 <= i < BinCount
    ensures TextBarLength(h, i, width) == BarLength(h, i, width)
  {
    MaxDirsBound(h, i);
  }

  /** A taller bin never gets a shorter bar. */
  lemma BarMonotone(h: seq<nat>, i: nat, j: nat, width: nat)
    requires |h| == BinCount && 2 <= i < BinCount && 2 <= j < BinCount
    requires h[i] <= h[j]
    ensures BarLength(h, i, width) <= BarLength(h, j, width)
  {
    if h[i] != 0 {
      MaxDirsBound(h, j);
      MulMonotone(h[i], h[j], width);
      DivMonotone(h[i] * width, h[j] * width, MaxDirs(h));
    }
  }

  /** The bars drawn for bins 2 to 31. */
  function Bars(h: seq<nat>, width: nat): (bars: seq<nat>)
    requires |h| == BinCount
    ensures |bars| == BinCount - 2
    ensures forall k :: 0 <= k < |bars| ==> bars[k] == BarLength(h, k + 2, width) && bars[k] <= width
  {
    seq(BinCount - 2, k requires 0 <= k < BinCount - 2 => BarLength(h, k + 2, width))
  }
}

/** The "Top N files" section of `show_listing` (src/main.rs:485-525): a
    stable sort by descending line count,
    then at most `ranking` entries, stopping at the first empty file. */
module Ranking {
  import opened Files
  import Seqs

  predicate NonIncreasing(s: seq<FileEntry>) {
    forall i, j :: 0 <= i < j < |s| ==> s[i].lines >= s[j].lines
  }

  /** The entries with exactly `v` lines, in their order in `s`. Two lists
      that agree on these for every `v` order equal line counts alike. */
  function WithLines(s: seq<FileEntry>, v: nat): seq<FileEntry> {
    if |s| == 0 then []
    else (if s[0].lines == v then [s[0]] else []) + WithLines(s[1..], v)
  }

  lemma WithLinesCons(x: FileEntry, s: seq<FileEntry>, v: nat)
    ensures WithLines([x] + s, v) == (if x.lines == v then [x] else []) + WithLines(s, v)
  {
    assert ([x] + s)[1..] == s;
  }

  /** Places `x` before the first entry that has no more lines than `x`, so
      that `x` precedes every entry of `s` with the same count. */
  function Insert(x: FileEntry, s: seq<FileEntry>): (r: seq<FileEntry>)
    requires NonIncreasing(s)
    ensures NonIncreasing(r)
    ensures |r| == |s| + 1
    ensures r[0] == x || (|s| > 0 && r[0] == s[0])
  {
    if |s| == 0 || s[0].lines <= x.lines then
      [x] + s
    else
      var rest := Insert(x, s[1..]);
      InsertHeadBound(s, rest);
      [s[0]] + rest
  }

  /** The head of a non-increasing list stays in front of a non-increasing
      tail that starts no higher. */
  lemma InsertHeadBound(s: seq<FileEntry>, rest: seq<FileEntry>)
    requires |s| > 0
    requires NonIncreasing(rest) && (|rest| == 0 || rest[0].lines <= s[0].lines)
    ensures NonIncreasing([s[0]] + rest)
  {
    var r := [s[0]] + rest;
    forall i, j | 0 <= i < j < |r|
      ensures r[i].lines >= r[j].lines
    {
      assert r[j] == rest[j - 1];
      if i > 0 {
        assert r[i] == rest[i - 1];
      }
    }
  }

  /** Inserting adds exactly `x`. */
  lemma {:induction false} InsertPermutes(x: FileEntry, s: seq<FileEntry>)
    requires NonIncreasing(s)
    ensures multiset(Insert(x, s)) == multiset(s) + multiset{x}
  {
    if !(|s| == 0 || s[0].lines <= x.lines) {
      InsertPermutes(x, s[1..]);
      assert s == [s[0]] + s[1..];
    }
  }

  /** `x` comes out ahead of every entry of `s` with the same line count and
      the other counts keep their order. */
  lemma {:induction false} InsertStable(x: FileEntry, s: seq<FileEntry>, v: nat)
    requires NonIncreasing(s)
    ensures WithLines(Insert(x, s), v) == if v == x.lines then [x] + WithLines(s, v) else WithLines(s, v)
  {
    if |s| == 0 || s[0].lines <= x.lines {
      assert Insert(x, s) == [x] + s;
      WithLinesCons(x, s, v);
      assert [] + WithLines(s, v) == WithLines(s, v);
    } else {
      var rest := Insert(x, s[1..]);
      var h: seq<FileEntry> := if s[0].lines == v then [s[0]] else [];
      var w := WithLines(s[1..], v);
      assert Insert(x, s) == [s[0]] + rest;
      assert WithLines(Insert(x, s), v) == h + WithLines(rest, v) by {
        WithLinesCons(s[0], rest, v);
      }
      assert WithLines(rest, v) == (if v == x.lines then [x] + w else w) by {
        InsertStable(x, s[1..], v);
      }
      assert WithLines(s, v) == h + w by {
        assert s == [s[0]] + s[1..];
        WithLinesCons(s[0], s[1..], v);
      }
      if v == x.lines {
        // `s[0]` has more lines than `x`, so it adds nothing at `v`
        assert h == [];
        assert [] + ([x] + w) == [x] + w;
        assert [] + w == w;
      }
    }
  }

  /** The stable descending sort. */
  function SortDesc(s: seq<FileEntry>): (r: seq<FileEntry>)
    ensures NonIncreasing(r)
    ensures |r| == |s|
  {
    if |s| == 0 then [] else Insert(s[0], SortDesc(s[1..]))
  }

  /** Sorting only reorders. */
  lemma {:induction false} SortDescPermutes(s: seq<FileEntry>)
    ensures multiset(SortDesc(s)) == multiset(s)
  {
    if |s| > 0 {
      var t := SortDesc(s[1..]);
      assert SortDesc(s) == Insert(s[0], t);
      assert multiset(t) == multiset(s[1..]) by { SortDescPermutes(s[1..]); }
      assert multiset(Insert(s[0], t)) == multiset(t) + multiset{s[0]} by {
        InsertPermutes(s[0], t);
      }
      Seqs.MultisetCons(s);
    }
  }

  /** Sorting keeps equal line counts in input order. */
  lemma {:induction false} SortDescStable(s: seq<FileEntry>, v: nat)
    ensures WithLines(SortDesc(s), v) == WithLines(s, v)
  {
    if |s| > 0 {
      var t := SortDesc(s[1..]);
      var w := WithLines(s[1..], v);
      assert SortDesc(s) == Insert(s[0], t);
      SortDescStable(s[1..], v);
      InsertStable(s[0], t, v);
      WithLinesCons(s[0], s[1..], v);
      assert [s[0]] + s[1..] == s;
      assert [] + w == w;
    }
  }

  lemma {:induction false} WithLinesWitness(s: seq<FileEntry>, v: nat) returns (j: nat)
    requires |WithLines(s, v)| > 0
    ensures j < |s| && s[j].lines == v
  {
    if s[0].lines == v {
      j := 0;
    } else {
      var i := WithLinesWitness(s[1..], v);
      j := i + 1;
    }
  }

  lemma WithLinesHead(s: seq<FileEntry>)
    requires |s| > 0
    ensures WithLines(s, s[0].lines) == [s[0]] + WithLines(s[1..], s[0].lines)
  {
  }

  /** A non-increasing list is determined by its per-count subsequences. */
  lemma {:induction false} StableSortUnique(a: seq<FileEntry>, b: seq<FileEntry>)
    requires NonIncreasing(a) && NonIncreasing(b)
    requires forall v :: WithLines(a, v) == WithLines(b, v)
    ensures a == b
    decreases |a| + |b|
  {
    if |a| == 0 || |b| == 0 {
      if |a| > 0 {
        WithLinesHead(a);
        assert false;
      } else if |b| > 0 {
        WithLinesHead(b);
        assert false;
      }
    } else {
      var ma, mb := a[0].lines, b[0].lines;
      if ma > mb {
        assert |WithLines(a, ma)| > 0;
        var j := WithLinesWitness(b, ma);
      } else if mb > ma {
        assert |WithLines(b, mb)| > 0;
        var j := WithLinesWitness(a, mb);
      } else {
        assert WithLines(a, ma) == [a[0]] + WithLines(a[1..], ma);
        assert WithLines(b, ma) == [b[0]] + WithLines(b[1..], ma);
        assert a[0] == WithLines(a, ma)[0];
        forall v
          ensures WithLines(a[1..], v) == WithLines(b[1..], v)
        {
          if v == ma {
            assert WithLines(a, ma)[1..] == WithLines(a[1..], ma);
            assert WithLines(b, ma)[1..] == WithLines(b[1..], ma);
          } else {
            assert WithLines(a, v) == WithLines(a[1..], v);
            assert WithLines(b, v) == WithLines(b[1..], v);
          }
        }
        StableSortUnique(a[1..], b[1..]);
        assert a == [a[0]] + a[1..] && b == [b[0]] + b[1..];
      }
    }
  }

  /** Any stable descending sort of `s` (Rust's merge sort among them) is
      `SortDesc(s)`. */
  lemma SortDescIsTheStableSort(s: seq<FileEntry>, r: seq<FileEntry>)
    requires NonIncreasing(r)
    requires forall v :: WithLines(r, v) == WithLines(s, v)
    ensures r == SortDesc(s)
  {
    forall v
      ensures WithLines(r, v) == WithLines(SortDesc(s), v)
    {
      SortDescStable(s, v);
    }
    StableSortUnique(r, SortDesc(s));
  }

  /** Number of entries with at least one line. */
  function CountPositive(s: seq<FileEntry>): (n: nat)
    ensures n <= |s|
  {
    if |s| == 0 then 0 else (if s[0].lines > 0 then 1 else 0) + CountPositive(s[1..])
  }

  lemma {:induction false} CountPositiveInsert(x: FileEntry, s: seq<FileEntry>)
    requires NonIncreasing(s)
    ensures CountPositive(Insert(x, s)) == CountPositive(s) + (if x.lines > 0 then 1 else 0)
  {
    if !(|s| == 0 || s[0].lines <= x.lines) {
      CountPositiveInsert(x, s[1..]);
      assert Insert(x, s)[1..] == Insert(x, s[1..]);
    } else {
      assert ([x] + s)[1..] == s;
    }
  }

  lemma {:induction false} CountPositiveSort(s: seq<FileEntry>)
    ensures CountPositive(SortDesc(s)) == CountPositive(s)
  {
    if |s| > 0 {
      CountPositiveSort(s[1..]);
      CountPositiveInsert(s[0], SortDesc(s[1..]));
    }
  }

  /** In a non-increasing list the non-empty entries come first. */
  lemma {:induction false} PositivePrefix(s: seq<FileEntry>)
    requires NonIncreasing(s)
    ensures forall i :: 0 <= i < |s| ==> (s[i].lines > 0 <==> i < CountPositive(s))
  {
    if |s| > 0 {
      PositivePrefix(s[1..]);
      forall i | 0 <= i < |s|
        ensures s[i].lines > 0 <==> i < CountPositive(s)
      {
        if i > 0 {
          assert s[i] == s[1..][i - 1];
        }
      }
    }
  }

  /** The loop's `break` at the first entry with no lines. */
  function TakeWhilePositive(s: seq<FileEntry>): seq<FileEntry> {
    if |s| == 0 || s[0].lines == 0 then [] else [s[0]] + TakeWhilePositive(s[1..])
  }

  lemma {:induction false} TakeWhilePositiveIs(s: seq<FileEntry>, k: nat)
    requires k <= |s|
    requires forall i :: 0 <= i < k ==> s[i].lines > 0
    requires k < |s| ==> s[k].lines == 0
    ensures TakeWhilePositive(s) == s[..k]
  {
    if k > 0 {
      TakeWhilePositiveIs(s[1..], k - 1);
      assert s[..k] == [s[0]] + s[1..][..k - 1];
    }
  }

  function Min(a: nat, b: nat): nat {
    if a <= b then a else b
  }

  /** Cutting a non-increasing list at `n` and then at its first empty entry
      keeps its first `min(n, #non-empty)` entries. */
  lemma TakePositivePrefix(sorted: seq<FileEntry>, n: nat)
    requires NonIncreasing(sorted) && n <= |sorted|
    ensures TakeWhilePositive(sorted[..n]) == sorted[..Min(n, CountPositive(sorted))]
  {
    var taken := sorted[..n];
    var k := Min(n, CountPositive(sorted));
    PositivePrefix(sorted);
    forall i | 0 <= i < k
      ensures taken[i].lines > 0
    {
      assert taken[i] == sorted[i];
    }
    if k < |taken| {
      assert taken[k] == sorted[k];
    }
    TakeWhilePositiveIs(taken, k);
    assert taken[..k] == sorted[..k];
  }

  lemma TopPrefix(list: seq<FileEntry>, ranking: nat)
    requires ranking > 0
    ensures TakeWhilePositive(SortDesc(list)[..Min(ranking, |list|)])
         == SortDesc(list)[..Min(ranking, CountPositive(list))]
  {
    var sorted := SortDesc(list);
    CountPositiveSort(list);
    TakePositivePrefix(sorted, Min(ranking, |list|));
  }

  /** The entries the ranking prints, in order. */
  function Top(list: seq<FileEntry>, ranking: nat): (r: seq<FileEntry>)
    ensures r == SortDesc(list)[..Min(ranking, CountPositive(list))]
    ensures |r| <= ranking
    ensures NonIncreasing(r)
    ensures forall i :: 0 <= i < |r| ==> r[i].lines > 0
  {
    if ranking == 0 then []
    else
      var sorted := SortDesc(list);
      TopPrefix(list, ranking);
      CountPositiveSort(list);
      PositivePrefix(sorted);
      TakeWhilePositive(sorted[..Min(ranking, |list|)])
  }

  lemma InsertAtFront(x: FileEntry, s: seq<FileEntry>)
    requires NonIncreasing(s) && (|s| == 0 || s[0].lines <= x.lines)
    ensures Insert(x, s) == [x] + s
  {
  }

  lemma InsertPastHead(x: FileEntry, s: seq<FileEntry>)
    requires NonIncreasing(s) && |s| > 0 && s[0].lines > x.lines
    ensures Insert(x, s) == [s[0]] + Insert(x, s[1..])
  {
  }

  lemma SortDescCons(x: FileEntry, s: seq<FileEntry>)
    ensures SortDesc([x] + s) == Insert(x, SortDesc(s))
  {
    assert ([x] + s)[0] == x && ([x] + s)[1..] == s;
  }

  lemma CountPositiveCons(x: FileEntry, s: seq<FileEntry>)
    ensures CountPositive([x] + s) == (if x.lines > 0 then 1 else 0) + CountPositive(s)
  {
    assert ([x] + s)[1..] == s;
  }

  lemma ExampleSortTail(b: FileEntry, c: FileEntry, d: FileEntry)
    requires b.lines == 5 && c.lines == 5 && d.lines == 3
    ensures SortDesc([b, c, d]) == [b, c, d]
  {
    var s1, s2, s3 := [d], [c, d], [b, c, d];
    assert s1 == [d] + [] && s2 == [c] + s1 && s3 == [b] + s2;
    SortDescCons(d, []);
    InsertAtFront(d, []);
    SortDescCons(c, s1);
    InsertAtFront(c, s1);
    SortDescCons(b, s2);
    InsertAtFront(b, s2);
  }

  lemma ExampleInsert(a: FileEntry, b: FileEntry, c: FileEntry, d: FileEntry)
    requires a.lines == 0 && b.lines == 5 && c.lines == 5 && d.lines == 3
    ensures Insert(a, [b, c, d]) == [b, c, d, a]
  {
    var s1, s2, s3 := [d], [c, d], [b, c, d];
    assert s1[1..] == [] && s2[1..] == s1 && s3[1..] == s2;
    InsertAtFront(a, []);
    InsertPastHead(a, s1);
    InsertPastHead(a, s2);
    InsertPastHead(a, s3);
  }

  lemma ExampleSort(a: FileEntry, b: FileEntry, c: FileEntry, d: FileEntry)
    requires a.lines == 0 && b.lines == 5 && c.lines == 5 && d.lines == 3
    ensures SortDesc([a, b, c, d]) == [b, c, d, a]
  {
    var tail := [b, c, d];
    calc {
      SortDesc([a, b, c, d]);
      { assert [a, b, c, d] == [a] + tail; }
      SortDesc([a] + tail);
      { SortDescCons(a, tail); }
      Insert(a, SortDesc(tail));
      { ExampleSortTail(b, c, d); }
      Insert(a, tail);
      { ExampleInsert(a, b, c, d); }
      [b, c, d, a];
    }
  }

  lemma ExampleCount(a: FileEntry, b: FileEntry, c: FileEntry, d: FileEntry)
    requires a.lines == 0 && b.lines == 5 && c.lines == 5 && d.lines == 3
    ensures CountPositive([a, b, c, d]) == 3
  {
    CountPositiveCons(d, []);
    assert [d] == [d] + [];
    CountPositiveCons(c, [d]);
    assert [c, d] == [c] + [d];
    CountPositiveCons(b, [c, d]);
    assert [b, c, d] == [b] + [c, d];
    CountPositiveCons(a, [b, c, d]);
    assert [a, b, c, d] == [a] + [b, c, d];
  }

  /** Line counts [0, 5, 5, 3] with a ranking of 10 give [5, 5, 3]: the two
      5-line files keep their input order and the empty file is left out. */
  lemma RankingExample(a: FileEntry, b: FileEntry, c: FileEntry, d: FileEntry)
    requires a.lines == 0 && b.lines == 5 && c.lines == 5 && d.lines == 3
    ensures Top([a, b, c, d], 10) == [b, c, d]
  {
    var s := [a, b, c, d];
    calc {
      Top(s, 10);
      SortDesc(s)[..Min(10, CountPositive(s))];
      { ExampleCount(a, b, c, d); }
      SortDesc(s)[..3];
      { ExampleSort(a, b, c, d); }
      [b, c, d, a][..3];
      [b, c, d];
    }
  }
}

/** Per-extension statistics (src/main.rs:207-238, 319-326) and the summary's
    total row (src/main.rs:455-469). The `BTreeMap<OsString, SrcStats>` is a
    list of rows with strictly increasing keys, which is also the order the
    summary prints them in. */
module Aggregate {
  import opened Wrappers
  import opened Files
  import Text
  import Seqs
  import PathFilter

  /** `SrcStats { files, lines, size }`, accumulated by addition. */
  datatype Stats = Stats(files: nat, lines: nat, size: nat)

  const Zero := Stats(0, 0, 0)

  function Plus(a: Stats, b: Stats): Stats {
    Stats(a.files + b.files, a.lines + b.lines, a.size + b.size)
  }

  datatype Row = Row(key: string, stats: Stats)

  type Table = seq<Row>

  /** `extension().unwrap()` on an accepted file that has no extension. */
  datatype Panic = UnwrapOnNone

  predicate Sorted(t: Table) {
    forall i, j :: 0 <= i < j < |t| ==> Text.Less(t[i].key, t[j].key)
  }

  /** Every row was created by at least one file. */
  predicate NoEmptyRows(t: Table) {
    forall i :: 0 <= i < |t| ==> t[i].stats.files >= 1
  }

  /** `BTreeMap::get`. */
  function Find(t: Table, k: string): Option<Stats> {
    if |t| == 0 then None
    else if t[0].key == k then Some(t[0].stats)
    else Find(t[1..], k)
  }

  lemma {:induction false} FindIndex(t: Table, k: string) returns (i: nat)
    requires Find(t, k).Some?
    ensures i < |t| && t[i].key == k && t[i].stats == Find(t, k).value
  {
    if t[0].key == k {
      i := 0;
    } else {
      var j := FindIndex(t[1..], k);
      i := j + 1;
    }
  }

  lemma {:induction false} FindAt(t: Table, i: nat)
    requires Sorted(t) && i < |t|
    ensures Find(t, t[i].key) == Some(t[i].stats)
  {
    if i > 0 {
      Text.LessIrreflexive(t[0].key);
      assert t[0].key != t[i].key;
      assert t[1..][i - 1] == t[i];
      FindAt(t[1..], i - 1);
    }
  }

  /** A key below the first key of a sorted table is not in it. */
  lemma BelowHeadAbsent(t: Table, k: string)
    requires Sorted(t) && |t| > 0 && Text.Less(k, t[0].key)
    ensures Find(t, k).None?
  {
    if Find(t, k).Some? {
      var i := FindIndex(t, k);
      if i > 0 {
        Text.LessTransitive(k, t[0].key, k);
      }
      Text.LessIrreflexive(k);
    }
  }

  /** In a sorted table every later key is greater than the first one. */
  lemma TailAboveHead(t: Table, k: string)
    requires Sorted(t) && |t| > 0
    requires Find(t[1..], k).Some?
    ensures Text.Less(t[0].key, k)
  {
    var j := FindIndex(t[1..], k);
    assert t[j + 1] == t[1..][j];
  }

  lemma HeadNotInTail(t: Table)
    requires Sorted(t) && |t| > 0
    ensures Find(t[1..], t[0].key).None?
  {
    if Find(t[1..], t[0].key).Some? {
      TailAboveHead(t, t[0].key);
      Text.LessIrreflexive(t[0].key);
    }
  }

  /** Two sorted tables that agree on every lookup are the same table. */
  lemma {:induction false} Extensionality(a: Table, b: Table)
    requires Sorted(a) && Sorted(b)
    requires forall k :: Find(a, k) == Find(b, k)
    ensures a == b
    decreases |a| + |b|
  {
    if |a| == 0 || |b| == 0 {
      if |a| > 0 {
        assert Find(a, a[0].key) != Find(b, a[0].key);
      } else if |b| > 0 {
        assert Find(a, b[0].key) != Find(b, b[0].key);
      }
    } else {
      var ka, kb := a[0].key, b[0].key;
      if ka != kb {
        assert Find(b, ka).Some?;
        assert Find(b[1..], ka).Some?;
        TailAboveHead(b, ka);
        assert Find(b, kb).Some? && Find(a, kb).Some?;
        assert Find(a[1..], kb).Some?;
        TailAboveHead(a, kb);
        Text.LessTransitive(ka, kb, ka);
        Text.LessIrreflexive(ka);
      }
      assert a[0] == b[0] by {
        assert Find(a, ka) == Some(a[0].stats) && Find(b, kb) == Some(b[0].stats);
      }
      HeadNotInTail(a);
      HeadNotInTail(b);
      forall k
        ensures Find(a[1..], k) == Find(b[1..], k)
      {
        if k != ka {
          assert Find(a, k) == Find(a[1..], k);
          assert Find(b, k) == Find(b[1..], k);
        }
      }
      Extensionality(a[1..], b[1..]);
      assert a == [a[0]] + a[1..] && b == [b[0]] + b[1..];
    }
  }

  lemma FindCons(row: Row, t: Table)
    ensures forall x :: Find([row] + t, x) == if row.key == x then Some(row.stats) else Find(t, x)
  {
    assert ([row] + t)[1..] == t;
  }

  /** A key below the head goes in front. */
  lemma AddBelow(t: Table, k: string, s: Stats)
    requires Sorted(t) && |t| > 0 && Text.Less(k, t[0].key)
    ensures Sorted([Row(k, s)] + t)
    ensures Find(t, k).None?
  {
    BelowHeadAbsent(t, k);
    var r := [Row(k, s)] + t;
    forall j | 0 < j < |r|
      ensures Text.Less(k, r[j].key)
    {
      if j > 1 {
        Text.LessTransitive(k, t[0].key, t[j - 1].key);
      }
    }
  }

  /** The head stays in front of a tail that gained at most the key `k`. */
  lemma AddAbove(t: Table, k: string, rest: Table)
    requires Sorted(t) && |t| > 0 && Text.Less(t[0].key, k)
    requires Sorted(rest)
    requires forall x :: Find(rest, x).Some? ==> x == k || Find(t[1..], x).Some?
    ensures Sorted([t[0]] + rest)
  {
    var r := [t[0]] + rest;
    forall j | 0 < j < |r|
      ensures Text.Less(t[0].key, r[j].key)
    {
      var x := r[j].key;
      assert rest[j - 1].key == x;
      FindAt(rest, j - 1);
      if x != k {
        TailAboveHead(t, x);
      }
    }
  }

  /** Adding a file never leaves a row that no file created. */
  lemma AddKeepsRowsNonEmpty(t: Table, k: string, s: Stats)
    requires Sorted(t) && s.files >= 1
    ensures NoEmptyRows(t) ==> NoEmptyRows(Add(t, k, s))
  {
    var r := Add(t, k, s);
    forall j | 0 <= j < |r| && NoEmptyRows(t)
      ensures r[j].stats.files >= 1
    {
      FindAt(r, j);
      var x := r[j].key;
      if x != k {
        var i := FindIndex(t, x);
      }
    }
  }

  /** Adds one file's statistics to the row for `k`, creating the row when absent. */
  function Add(t: Table, k: string, s: Stats): (r: Table)
    requires Sorted(t)
    ensures Sorted(r)
    ensures |r| > 0 && (r[0].key == k || (|t| > 0 && r[0].key == t[0].key))
    ensures forall x :: Find(r, x) == if x == k then Some(Plus(Find(t, k).GetOr(Zero), s)) else Find(t, x)
  {
    if |t| == 0 then [Row(k, s)]
    else if t[0].key == k then
      HeadNotInTail(t);
      FindCons(Row(k, Plus(t[0].stats, s)), t[1..]);
      FindCons(t[0], t[1..]);
      assert t == [t[0]] + t[1..];
      [Row(k, Plus(t[0].stats, s))] + t[1..]
    else if Text.Less(k, t[0].key) then
      AddBelow(t, k, s);
      FindCons(Row(k, s), t);
      [Row(k, s)] + t
    else
      Text.LessTotal(k, t[0].key);
      var rest := Add(t[1..], k, s);
      AddAbove(t, k, rest);
      FindCons(t[0], rest);
      FindCons(t[0], t[1..]);
      assert t == [t[0]] + t[1..];
      [t[0]] + rest
  }

  /** The aggregation key of a measured file: the lower-cased extension of its
      file name, with the same `Path::extension` the filter uses. */
  function EntryKey(e: FileEntry): Option<string> {
    match PathFilter.Extension(FileName(e.name))
    case None => None
    case Some(x) => Some(Text.ToAsciiLowercase(x))
  }

  /** The folding below is stated for any key function, so that its proofs do
      not depend on how a key is computed; the pipeline uses `EntryKey`. */
  type KeyFn = FileEntry -> Option<string>

  function Unit(e: FileEntry): Stats {
    Stats(1, e.lines, e.size)
  }

  predicate AllKeyed(key: KeyFn, es: seq<FileEntry>) {
    forall e :: e in es ==> key(e).Some?
  }

  /** The loop over the file list, starting from the table `t`. */
  function Fold(key: KeyFn, t: Table, es: seq<FileEntry>): (r: Table)
    requires Sorted(t) && AllKeyed(key, es)
    ensures Sorted(r)
    ensures NoEmptyRows(t) ==> NoEmptyRows(r)
    decreases |es|
  {
    if |es| == 0 then t
    else
      assert es[0] in es;
      AddKeepsRowsNonEmpty(t, key(es[0]).value, Unit(es[0]));
      Fold(key, Add(t, key(es[0]).value, Unit(es[0])), es[1..])
  }

  /** The statistics table, or the panic of the first file without an
      extension (only reachable when an allow-list entry names a whole file). */
  function Aggregate(es: seq<FileEntry>): (r: Result<Table, Panic>)
    ensures r.Ok? <==> AllKeyed(EntryKey, es)
    ensures r.Ok? ==> Sorted(r.value) && NoEmptyRows(r.value)
  {
    if AllKeyed(EntryKey, es) then Ok(Fold(EntryKey, [], es)) else Err(UnwrapOnNone)
  }

  /** The run panics exactly when some measured file name has no extension. */
  lemma AggregatePanics(es: seq<FileEntry>)
    ensures Aggregate(es).Err? <==> exists e :: e in es && PathFilter.Extension(FileName(e.name)).None?
  {
  }

  /** What one file adds to the row for `k`. */
  function Contribution(key: KeyFn, e: FileEntry, k: string): Stats {
    if key(e) == Some(k) then Unit(e) else Zero
  }

  /** Reference definition of one row: the sum, over the files whose key is
      `k`, of one file and its lines and size. */
  function KeyStats(key: KeyFn, es: seq<FileEntry>, k: string): Stats {
    if |es| == 0 then Zero
    else Plus(Contribution(key, es[0], k), KeyStats(key, es[1..], k))
  }

  /** A looked-up row after `s` more has been added for its key; no row
      appears while nothing has been added. */
  function Merge(o: Option<Stats>, s: Stats): Option<Stats> {
    if o.None? && s.files == 0 then None else Some(Plus(o.GetOr(Zero), s))
  }

  lemma MergeMerge(o: Option<Stats>, a: Stats, b: Stats)
    requires a.files == 0 ==> a == Zero
    ensures Merge(Merge(o, a), b) == Merge(o, Plus(a, b))
  {
  }

  lemma MergeIntoNothing(s: Stats)
    ensures Merge(None, s) == if s.files == 0 then None else Some(s)
  {
  }

  lemma FindAfterAdd(key: KeyFn, t: Table, e: FileEntry, k: string)
    requires Sorted(t) && key(e).Some?
    ensures Find(Add(t, key(e).value, Unit(e)), k) == Merge(Find(t, k), Contribution(key, e, k))
  {
    var k0 := key(e).value;
    var o := Find(t, k);
    if k == k0 {
      assert Contribution(key, e, k) == Unit(e);
      assert Find(Add(t, k0, Unit(e)), k) == Some(Plus(o.GetOr(Zero), Unit(e)));
    } else {
      assert Contribution(key, e, k) == Zero;
      assert Find(Add(t, k0, Unit(e)), k) == o;
      assert o.Some? ==> Plus(o.value, Zero) == o.value;
    }
  }

  lemma {:induction false} FindFold(key: KeyFn, t: Table, es: seq<FileEntry>, k: string)
    requires Sorted(t) && AllKeyed(key, es)
    ensures Find(Fold(key, t, es), k) == Merge(Find(t, k), KeyStats(key, es, k))
    decreases |es|
  {
    if |es| > 0 {
      assert es[0] in es;
      var t' := Add(t, key(es[0]).value, Unit(es[0]));
      FindAfterAdd(key, t, es[0], k);
      FindFold(key, t', es[1..], k);
      MergeMerge(Find(t, k), Contribution(key, es[0], k), KeyStats(key, es[1..], k));
    }
  }

  /** From an empty table, the row for `k` is the sum over the files whose
      key is `k`, and there is no row when there are none. */
  lemma FoldPointwise(key: KeyFn, es: seq<FileEntry>, k: string)
    requires AllKeyed(key, es)
    ensures Find(Fold(key, [], es), k) ==
      if KeyStats(key, es, k).files == 0 then None else Some(KeyStats(key, es, k))
  {
    FindFold(key, [], es, k);
    MergeIntoNothing(KeyStats(key, es, k));
  }

  /** The table holds a row for `k` exactly when some file has key `k`, and
      that row is the sum over those files. */
  lemma AggregatePointwise(es: seq<FileEntry>, k: string)
    requires Aggregate(es).Ok?
    ensures Find(Aggregate(es).value, k) ==
      if KeyStats(EntryKey, es, k).files == 0 then None else Some(KeyStats(EntryKey, es, k))
  {
    FoldPointwise(EntryKey, es, k);
  }

  lemma {:induction false} KeyStatsAppend(key: KeyFn, a: seq<FileEntry>, b: seq<FileEntry>, k: string)
    ensures KeyStats(key, a + b, k) == Plus(KeyStats(key, a, k), KeyStats(key, b, k))
  {
    if |a| == 0 {
      assert a + b == b;
    } else {
      assert (a + b)[0] == a[0];
      assert (a + b)[1..] == a[1..] + b;
      KeyStatsAppend(key, a[1..], b, k);
    }
  }

  lemma KeyStatsRemove(key: KeyFn, b: seq<FileEntry>, j: nat, k: string)
    requires j < |b|
    ensures KeyStats(key, b, k) == Plus(Contribution(key, b[j], k), KeyStats(key, b[..j] + b[j + 1..], k))
  {
    assert b == b[..j] + [b[j]] + b[j + 1..];
    KeyStatsAppend(key, b[..j] + [b[j]], b[j + 1..], k);
    KeyStatsAppend(key, b[..j], [b[j]], k);
    KeyStatsAppend(key, b[..j], b[j + 1..], k);
    assert [b[j]][1..] == [];
  }

  lemma {:induction false} KeyStatsPermutation(key: KeyFn, a: seq<FileEntry>, b: seq<FileEntry>, k: string)
    requires multiset(a) == multiset(b)
    ensures KeyStats(key, a, k) == KeyStats(key, b, k)
  {
    if |a| == 0 {
      assert |b| == |multiset(b)| == 0;
    } else {
      var j := Seqs.MatchFirst(a, b);
      KeyStatsPermutation(key, a[1..], b[..j] + b[j + 1..], k);
      KeyStatsRemove(key, b, j, k);
    }
  }

  /** The merge order does not matter: any permutation of the files gives
      the same table. */
  lemma FoldPermutation(key: KeyFn, a: seq<FileEntry>, b: seq<FileEntry>)
    requires multiset(a) == multiset(b)
    requires AllKeyed(key, a)
    ensures AllKeyed(key, b)
    ensures Fold(key, [], a) == Fold(key, [], b)
  {
    forall e | e in b
      ensures key(e).Some?
    {
      assert e in multiset(a);
    }
    forall k
      ensures Find(Fold(key, [], a), k) == Find(Fold(key, [], b), k)
    {
      FoldPointwise(key, a, k);
      FoldPointwise(key, b, k);
      KeyStatsPermutation(key, a, b, k);
    }
    Extensionality(Fold(key, [], a), Fold(key, [], b));
  }

  /** The order parallel workers finish in does not matter: any permutation
      of the measured list gives the same table, or the same panic. */
  lemma AggregatePermutation(a: seq<FileEntry>, b: seq<FileEntry>)
    requires multiset(a) == multiset(b)
    ensures Aggregate(a) == Aggregate(b)
  {
    if AllKeyed(EntryKey, a) {
      FoldPermutation(EntryKey, a, b);
    } else if AllKeyed(EntryKey, b) {
      FoldPermutation(EntryKey, b, a);
    }
  }

  /** The summary's total row: the rows added up in key order. */
  function Total(t: Table): Stats {
    if |t| == 0 then Zero else Plus(t[0].stats, Total(t[1..]))
  }

  lemma {:induction false} TotalAdd(t: Table, k: string, s: Stats)
    requires Sorted(t)
    ensures Total(Add(t, k, s)) == Plus(Total(t), s)
  {
    if |t| > 0 && t[0].key != k && !Text.Less(k, t[0].key) {
      TotalAdd(t[1..], k, s);
    }
  }

  function SumLines(es: seq<FileEntry>): nat {
    if |es| == 0 then 0 else es[0].lines + SumLines(es[1..])
  }

  function SumSize(es: seq<FileEntry>): nat {
    if |es| == 0 then 0 else es[0].size + SumSize(es[1..])
  }

  lemma {:induction false} TotalFold(key: KeyFn, t: Table, es: seq<FileEntry>)
    requires Sorted(t) && AllKeyed(key, es)
    ensures Total(Fold(key, t, es)) == Plus(Total(t), Stats(|es|, SumLines(es), SumSize(es)))
    decreases |es|
  {
    if |es| > 0 {
      assert es[0] in es;
      var t' := Add(t, key(es[0]).value, Unit(es[0]));
      TotalAdd(t, key(es[0]).value, Unit(es[0]));
      TotalFold(key, t', es[1..]);
    }
  }

  /** Aggregation is lossless: the total row counts every measured file and
      sums all of their lines and sizes. */
  lemma AggregateTotals(es: seq<FileEntry>)
    requires Aggregate(es).Ok?
    ensures Total(Aggregate(es).value) == Stats(|es|, SumLines(es), SumSize(es))
  {
    TotalFold(EntryKey, [], es);
  }

  /** A row for `k` is backed by a measured file whose key is `k`. */
  lemma {:induction false} KeyStatsWitness(key: KeyFn, es: seq<FileEntry>, k: string) returns (i: nat)
    requires KeyStats(key, es, k).files > 0
    ensures i < |es| && key(es[i]) == Some(k)
  {
    if key(es[0]) == Some(k) {
      i := 0;
    } else {
      var j := KeyStatsWitness(key, es[1..], k);
      i := j + 1;
    }
  }

  /** The key the filter accepted the file under: its lower-cased extension,
      or its whole lower-cased name when it has none. */
  function FilterKey(e: FileEntry): Option<string> {
    Some(PathFilter.ExtensionKey(FileName(e.name)))
  }

  /** The aggregation with the key the filter used, so that a file accepted
      through its whole name is counted under that name instead of panicking. */
  function Tabulate(es: seq<FileEntry>): (r: Table)
    ensures Sorted(r) && NoEmptyRows(r)
  {
    Fold(FilterKey, [], es)
  }

  lemma TabulatePointwise(es: seq<FileEntry>, k: string)
    ensures Find(Tabulate(es), k) ==
      if KeyStats(FilterKey, es, k).files == 0 then None else Some(KeyStats(FilterKey, es, k))
  {
    FoldPointwise(FilterKey, es, k);
  }

  lemma TabulatePermutation(a: seq<FileEntry>, b: seq<FileEntry>)
    requires multiset(a) == multiset(b)
    ensures Tabulate(a) == Tabulate(b)
  {
    FoldPermutation(FilterKey, a, b);
  }

  lemma TabulateTotals(es: seq<FileEntry>)
    ensures Total(Tabulate(es)) == Stats(|es|, SumLines(es), SumSize(es))
  {
    TotalFold(FilterKey, [], es);
  }

  lemma {:induction false} FoldSameKeys(k1: KeyFn, k2: KeyFn, t: Table, es: seq<FileEntry>)
    requires Sorted(t) && AllKeyed(k1, es)
    requires forall e :: e in es ==> k1(e) == k2(e)
    ensures AllKeyed(k2, es)
    ensures Fold(k1, t, es) == Fold(k2, t, es)
    decreases |es|
  {
    if |es| > 0 {
      assert es[0] in es;
      FoldSameKeys(k1, k2, Add(t, k1(es[0]).value, Unit(es[0])), es[1..]);
    }
  }

  /** Wherever the aggregation as written does not panic, it computes the
      corrected table: the two keys agree on files that have an extension. */
  lemma AggregateAgrees(es: seq<FileEntry>)
    requires Aggregate(es).Ok?
    ensures Aggregate(es) == Ok(Tabulate(es))
  {
    forall e | e in es
      ensures EntryKey(e) == FilterKey(e)
    {
      assert EntryKey(e).Some?;
    }
    FoldSameKeys(EntryKey, FilterKey, [], es);
  }

  /** Empty input: an empty table whose total row is all zeros. */
  lemma EmptyInput()
    ensures Aggregate([]) == Ok([])
    ensures Total([]) == Zero
  {
  }
}

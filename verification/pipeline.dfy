/** `main` for a directory walk (src/main.rs:78-118): resolve the settings,
    walk and filter the tree, measure the accepted files, aggregate them per
    extension, then derive the ranking and the distribution from the measured
    list. Printing is left out; the report holds what would be printed. */
module Pipeline {
  import opened Wrappers
  import opened Files
  import Settings
  import PathFilter
  import Measure
  import Aggregate
  import Ranking
  import Histogram
  import Text
  import Lines

  /** Why a run ends in a panic. */
  datatype Failure =
    | BadExtension(entry: string)   // `&ext[1..]` on an entry that cannot be cut
    | MissingExtension              // `extension().unwrap()` on an accepted file without one

  /** What the sections print: the walked counter, the measured list, the
      per-extension table (with its total row), the ranked files, and the
      32 bins of the distribution. A disabled section is `None`. */
  datatype Report = Report(
    walked: nat,
    files: seq<FileEntry>,
    summary: Option<Aggregate.Table>,
    ranked: seq<FileEntry>,
    distribution: Option<seq<nat>>)

  function Distribution(list: seq<FileEntry>): (h: seq<nat>)
    ensures |h| == Histogram.BinCount
    ensures h[1] == 0
  {
    var h := seq(Histogram.BinCount, i requires 0 <= i => Histogram.CountIn(list, i));
    Histogram.CountInNeverOne(list);
    h
  }

  /** No measured file: every bin is empty, nothing is kept and every bar
      has length zero. */
  lemma EmptyDistribution(width: nat)
    ensures Distribution([]) == seq(Histogram.BinCount, _ => 0)
    ensures Histogram.CountKept([]) == 0
    ensures var bars := Histogram.Bars(Distribution([]), width);
      forall k :: 0 <= k < |bars| ==> bars[k] == 0
  {
  }

  function WalkOf(cfg: Settings.Config, root: PathFilter.Node): PathFilter.Walk {
    PathFilter.WalkNode(root, cfg.ignoreDirs, cfg.extensions)
  }

  /** `process_file_list` on the walk's output: the measured list. */
  function MeasuredOf(cfg: Settings.Config, root: PathFilter.Node, decode: Measure.Decoder): seq<FileEntry> {
    Measure.MeasureAll(WalkOf(cfg, root).files, cfg.utf8, decode)
  }

  /** The sections computed from a measured list and its table. */
  function Assemble(cfg: Settings.Config, w: PathFilter.Walk, files: seq<FileEntry>, table: Aggregate.Table): Report {
    // `show_listing` sorts the list in place before `show_distribution` reads it.
    var listed := if cfg.ranking == 0 then files else Ranking.SortDesc(files);
    Report(
      w.walked,
      files,
      if cfg.summary then Some(table) else None,
      Ranking.Top(files, cfg.ranking),
      if cfg.distribution then Some(Distribution(listed)) else None)
  }

  /** The run as the source performs it, panic on an extension-less file
      included. */
  function RunAsWritten(o: Settings.Options, root: PathFilter.Node, decode: Measure.Decoder): (r: Result<Report, Failure>)
    ensures r.Ok? ==> Settings.FromOptions(o).Ok?
    ensures r.Ok? ==> |r.value.files| <= r.value.walked
  {
    match Settings.FromOptions(o)
    case Err(e) => Err(BadExtension(e))
    case Ok(cfg) =>
      var files := MeasuredOf(cfg, root, decode);
      match Aggregate.Aggregate(files)
      case Err(_) => Err(MissingExtension)
      case Ok(table) => Ok(Assemble(cfg, WalkOf(cfg, root), files, table))
  }

  /** The run with the corrected aggregation: a file is counted under the key
      the filter accepted it by. */
  function Run(o: Settings.Options, root: PathFilter.Node, decode: Measure.Decoder): (r: Result<Report, Failure>)
    ensures r.Ok? <==> Settings.FromOptions(o).Ok?
    ensures r.Ok? ==> |r.value.files| <= r.value.walked
  {
    match Settings.FromOptions(o)
    case Err(e) => Err(BadExtension(e))
    case Ok(cfg) =>
      var files := MeasuredOf(cfg, root, decode);
      Ok(Assemble(cfg, WalkOf(cfg, root), files, Aggregate.Tabulate(files)))
  }

  /** Where the source does not panic, the corrected run reports exactly what
      it reports. */
  lemma RunAgrees(o: Settings.Options, root: PathFilter.Node, decode: Measure.Decoder)
    ensures RunAsWritten(o, root, decode).Ok? ==> Run(o, root, decode) == RunAsWritten(o, root, decode)
  {
    if RunAsWritten(o, root, decode).Ok? {
      var cfg := Settings.FromOptions(o).value;
      Aggregate.AggregateAgrees(MeasuredOf(cfg, root, decode));
    }
  }

  /** A run fails on the settings exactly when an extension entry cannot be
      cut, and the failure names such an entry. */
  lemma RunFailsOnSettings(o: Settings.Options, root: PathFilter.Node, decode: Measure.Decoder)
    ensures Run(o, root, decode).Err? <==> exists e :: e in o.extensions && !Settings.CanCutFirst(e)
    ensures Run(o, root, decode).Err? ==>
      && Run(o, root, decode).error.BadExtension?
      && Run(o, root, decode).error.entry in o.extensions
      && !Settings.CanCutFirst(Run(o, root, decode).error.entry)
  {
    if Settings.FromOptions(o).Err? {
      assert Settings.ExtensionSet(o.extensions).Err?;
    }
  }

  /** Every measured file passed the filter: no directory on its path is
      ignored and the allow-list holds its key. */
  lemma MeasuredAccepted(cfg: Settings.Config, root: PathFilter.Node, decode: Measure.Decoder, e: FileEntry)
    requires e in MeasuredOf(cfg, root, decode)
    ensures |e.name| >= 1
    ensures forall i :: 0 <= i < |e.name| - 1 ==> e.name[i] !in cfg.ignoreDirs
    ensures PathFilter.ExtensionKey(FileName(e.name)) in cfg.extensions
  {
    var c :| c in WalkOf(cfg, root).files && Measure.MeasureFile(c, cfg.utf8, decode) == Some(e);
    PathFilter.WalkAccepted(root, cfg.ignoreDirs, cfg.extensions, c);
  }

  /** After valid settings, a run panics exactly when a measured file has no
      extension; such a file got in because the allow-list holds its whole
      lower-cased name. */
  lemma RunPanicsOnBareName(o: Settings.Options, root: PathFilter.Node, decode: Measure.Decoder)
    requires Settings.FromOptions(o).Ok?
    ensures var cfg := Settings.FromOptions(o).value;
      RunAsWritten(o, root, decode) == Err(MissingExtension) <==>
        exists e :: e in MeasuredOf(cfg, root, decode) && PathFilter.Extension(FileName(e.name)).None?
    ensures var cfg := Settings.FromOptions(o).value;
      forall e :: e in MeasuredOf(cfg, root, decode) && PathFilter.Extension(FileName(e.name)).None? ==>
        Text.ToAsciiLowercase(FileName(e.name)) in cfg.extensions
  {
    var cfg := Settings.FromOptions(o).value;
    Aggregate.AggregatePanics(MeasuredOf(cfg, root, decode));
    forall e | e in MeasuredOf(cfg, root, decode) && PathFilter.Extension(FileName(e.name)).None?
      ensures Text.ToAsciiLowercase(FileName(e.name)) in cfg.extensions
    {
      MeasuredAccepted(cfg, root, decode, e);
    }
  }

  /** The command line without flags or options: every switch off, no list
      entries, and the ranking at its declared default of 10
      (src/main.rs:35-41). */
  function NoFlags(): Settings.Options {
    Settings.Options(false, false, 10, false, false, [], [], false, false)
  }

  /** A directory `src` holding one regular file named `c`. */
  function TreeWithC(src: Source): PathFilter.Node {
    PathFilter.Dir("src", [PathFilter.File("c", src)])
  }

  lemma CInDefaults()
    ensures Settings.ExtensionSet([]).Ok?
    ensures "c" in Settings.ExtensionSet([]).value
  {
    var all := Settings.DefaultExtensions + [];
    assert all[6] == ".c";
    assert ".c" in all && |".c"| > 0;
    assert ".c"[1..] == "c";
  }

  lemma SrcNotIgnored(cfg: Settings.Config)
    requires forall d :: d in cfg.ignoreDirs <==> d in Settings.DefaultIgnoreDirs || d in []
    ensures "src" !in cfg.ignoreDirs
  {
  }

  lemma DefaultsAcceptC()
    ensures Settings.FromOptions(NoFlags()).Ok?
    ensures "c" in Settings.FromOptions(NoFlags()).value.extensions
    ensures "src" !in Settings.FromOptions(NoFlags()).value.ignoreDirs
  {
    CInDefaults();
    assert forall e :: e in NoFlags().extensions ==> Settings.CanCutFirst(e);
    SrcNotIgnored(Settings.FromOptions(NoFlags()).value);
  }

  lemma KeyOfC()
    ensures PathFilter.Extension("c").None?
    ensures PathFilter.ExtensionKey("c") == "c"
  {
  }

  lemma WalkFindsC(cfg: Settings.Config, src: Source)
    requires "c" in cfg.extensions && "src" !in cfg.ignoreDirs
    ensures WalkOf(cfg, TreeWithC(src)).files == [Candidate(["src", "c"], src)]
  {
    KeyOfC();
    var kids := [PathFilter.File("c", src)];
    assert kids[1..] == [];
    assert PathFilter.AcceptsFile("c", cfg.extensions);
    var w := PathFilter.WalkChildren(kids, cfg.ignoreDirs, cfg.extensions);
    assert PathFilter.WalkNode(kids[0], cfg.ignoreDirs, cfg.extensions).files == [Candidate(["c"], src)];
    assert PathFilter.WalkChildren(kids[1..], cfg.ignoreDirs, cfg.extensions).files == [];
    assert w.files == [Candidate(["c"], src)] + [];
    assert ["src"] + ["c"] == ["src", "c"];
    assert PathFilter.Prepend("src", w.files) == [Candidate(["src", "c"], src)];
    assert PathFilter.AcceptsDirectory("src", cfg.ignoreDirs);
  }

  lemma MeasureC(src: Source, decode: Measure.Decoder)
    requires src.opens && src.metadataLen.Some?
    ensures Measure.MeasureAll([Candidate(["src", "c"], src)], false, decode) == [EntryC(src)]
  {
    assert [Candidate(["src", "c"], src)][1..] == [];
  }

  function EntryC(src: Source): FileEntry
    requires src.metadataLen.Some?
  {
    FileEntry(["src", "c"], Lines.LineCount(src.content, Lines.NewlineByte), src.metadataLen.value)
  }

  /** The source's aggregation panics on the entry for `c`; the corrected
      one gives it a row of its own. */
  lemma TableOfC(src: Source)
    requires src.metadataLen.Some?
    ensures Aggregate.Aggregate([EntryC(src)]).Err?
    ensures Aggregate.Find(Aggregate.Tabulate([EntryC(src)]), "c")
      == Some(Aggregate.Stats(1, Lines.LineCount(src.content, Lines.NewlineByte), src.metadataLen.value))
  {
    var e := EntryC(src);
    KeyOfC();
    assert FileName(e.name) == "c";
    assert Aggregate.EntryKey(e).None?;
    assert e in [e];
    assert !Aggregate.AllKeyed(Aggregate.EntryKey, [e]);
    Aggregate.TabulatePointwise([e], "c");
    assert Aggregate.KeyStats(Aggregate.FilterKey, [e][1..], "c") == Aggregate.Zero;
  }

  /** With the default settings, a regular file whose whole name is one of
      the default extensions, such as `c`, passes the filter through the
      file-name fallback and then makes the source panic; the corrected run
      counts it under `c`. */
  lemma FileNamedCPanics(src: Source, decode: Measure.Decoder)
    requires src.opens && src.metadataLen.Some?
    ensures RunAsWritten(NoFlags(), TreeWithC(src), decode) == Err(MissingExtension)
    ensures Run(NoFlags(), TreeWithC(src), decode).Ok?
    ensures Run(NoFlags(), TreeWithC(src), decode).value.files == [EntryC(src)]
    ensures Aggregate.Find(Aggregate.Tabulate(Run(NoFlags(), TreeWithC(src), decode).value.files), "c")
      == Some(Aggregate.Stats(1, Lines.LineCount(src.content, Lines.NewlineByte), src.metadataLen.value))
  {
    DefaultsAcceptC();
    var cfg := Settings.FromOptions(NoFlags()).value;
    WalkFindsC(cfg, src);
    MeasureC(src, decode);
    assert MeasuredOf(cfg, TreeWithC(src), decode) == [EntryC(src)];
    TableOfC(src);
  }

  /** Every row of the summary is an extension of the allow-list, and the
      total row counts every measured file, which are at most the accepted
      files, which are at most the walked entries. */
  lemma SummarySound(o: Settings.Options, root: PathFilter.Node, decode: Measure.Decoder)
    requires Settings.FromOptions(o).Ok? && !o.noSummary
    ensures var cfg := Settings.FromOptions(o).value;
      var table := Run(o, root, decode).value.summary.value;
      forall k :: Aggregate.Find(table, k).Some? ==> k in cfg.extensions
    ensures var rep := Run(o, root, decode).value;
      var cfg := Settings.FromOptions(o).value;
      && Aggregate.Total(rep.summary.value)
           == Aggregate.Stats(|rep.files|, Aggregate.SumLines(rep.files), Aggregate.SumSize(rep.files))
      && |rep.files| <= |WalkOf(cfg, root).files| <= rep.walked
  {
    var cfg := Settings.FromOptions(o).value;
    var files := MeasuredOf(cfg, root, decode);
    var table := Aggregate.Tabulate(files);
    forall k | Aggregate.Find(table, k).Some?
      ensures k in cfg.extensions
    {
      Aggregate.TabulatePointwise(files, k);
      var i := Aggregate.KeyStatsWitness(Aggregate.FilterKey, files, k);
      MeasuredAccepted(cfg, root, decode, files[i]);
    }
    Aggregate.TabulateTotals(files);
  }

  /** The distribution is that of the measured list, whether or not the
      ranking sorted the list first, and its bins count exactly the files
      with 1 to 46340 lines. */
  lemma DistributionOfMeasured(o: Settings.Options, root: PathFilter.Node, decode: Measure.Decoder)
    requires Settings.FromOptions(o).Ok? && !o.noDistrib
    ensures var rep := Run(o, root, decode).value;
      && rep.distribution.value == Distribution(rep.files)
      && Histogram.Sum(rep.distribution.value) == Histogram.CountKept(rep.files)
  {
    var rep := Run(o, root, decode).value;
    var files := rep.files;
    var sorted := Ranking.SortDesc(files);
    Ranking.SortDescPermutes(files);
    forall i | 0 <= i < Histogram.BinCount
      ensures Histogram.CountIn(sorted, i) == Histogram.CountIn(files, i)
    {
      Histogram.CountInPermutation(sorted, files, i);
    }
    Histogram.HistogramTotal(files, Distribution(files));
  }

  /** The ranking lists the measured files by falling line count, at most
      `ranking` of them and none empty. */
  lemma RankingOfMeasured(o: Settings.Options, root: PathFilter.Node, decode: Measure.Decoder)
    requires Settings.FromOptions(o).Ok?
    ensures var rep := Run(o, root, decode).value;
      && |rep.ranked| <= Settings.FromOptions(o).value.ranking
      && Ranking.NonIncreasing(rep.ranked)
      && (forall i :: 0 <= i < |rep.ranked| ==> rep.ranked[i].lines > 0 && rep.ranked[i] in rep.files)
  {
    var rep := Run(o, root, decode).value;
    var cfg := Settings.FromOptions(o).value;
    var r := Ranking.Top(rep.files, cfg.ranking);
    var sorted := Ranking.SortDesc(rep.files);
    Ranking.SortDescPermutes(rep.files);
    forall i | 0 <= i < |r|
      ensures r[i] in rep.files
    {
      assert r[i] == sorted[i];
      assert sorted[i] in multiset(sorted);
    }
  }
}

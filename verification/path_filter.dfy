/** The filesystem strategy of `process_files` (src/main.rs:240-261): a
    depth-first walk that prunes ignored directories before descending and
    accepts regular files whose lower-cased extension (or, lacking one, whole
    file name) is in the allow-list. */
module PathFilter {
  import opened Wrappers
  import opened Files
  import Text

  /** Position of the last `c` in `s`. */
  function LastIndexOf(s: string, c: char): (r: Option<nat>)
    ensures r.Some? ==> r.value < |s| && s[r.value] == c && c !in s[r.value + 1..]
    ensures r.None? ==> c !in s
  {
    if |s| == 0 then None
    else if s[|s| - 1] == c then Some(|s| - 1)
    else
      var r := LastIndexOf(s[..|s| - 1], c);
      assert s == s[..|s| - 1] + [s[|s| - 1]];
      r
  }

  /** `Path::extension` of a file name: the text after the last dot, provided
      something precedes that dot. A name with no dot, or whose only dot is its
      first character (".bashrc"), has none, and neither has "..". */
  function Extension(name: string): (r: Option<string>)
    ensures r.Some? <==> name != ".." && exists i :: 0 < i < |name| && name[i] == '.'
    ensures r.Some? ==>
      && |r.value| + 1 < |name|
      && name[|name| - |r.value| - 1] == '.'
      && name[|name| - |r.value|..] == r.value
      && '.' !in r.value
  {
    if name == ".." then None
    else
      match LastIndexOf(name, '.')
      case None => None
      case Some(i) =>
        if i == 0 then
          assert forall j :: 0 < j < |name| ==> name[j] == name[1..][j - 1];
          None
        else Some(name[i + 1..])
  }

  /** The key the filter looks up: the lower-cased extension, or the whole
      lower-cased file name when there is no extension. */
  function ExtensionKey(name: string): string {
    Text.ToAsciiLowercase(Extension(name).GetOr(name))
  }

  /** The `filter_map` test on a regular file (src/main.rs:252-255). */
  predicate AcceptsFile(name: string, extensions: set<string>) {
    ExtensionKey(name) in extensions
  }

  /** The `filter_entry` test on a directory (src/main.rs:244). */
  predicate AcceptsDirectory(name: string, ignoreDirs: set<string>) {
    name !in ignoreDirs
  }

  /** A directory tree as the walker sees it, children in `read_dir` order. */
  datatype Node =
    | Dir(name: string, children: seq<Node>)
    | File(name: string, source: Source)
    | Other(name: string)   // a symlink or another non-regular entry: visited, never accepted
    | Unreadable            // an entry WalkDir reports as an error: counted, then skipped

  /** What the walk yields: the accepted files in visiting order and the
      number of entries `filter_map` saw (the `walked` counter). */
  datatype Walk = Walk(files: seq<Candidate>, walked: nat)

  function Prepend(name: string, cs: seq<Candidate>): (r: seq<Candidate>)
    ensures |r| == |cs|
    ensures forall i :: 0 <= i < |cs| ==> r[i] == Candidate([name] + cs[i].path, cs[i].source)
  {
    if |cs| == 0 then [] else [Candidate([name] + cs[0].path, cs[0].source)] + Prepend(name, cs[1..])
  }

  /** The walk from `n`; paths start with `n`'s own name. */
  function WalkNode(n: Node, ignoreDirs: set<string>, extensions: set<string>): (w: Walk)
    ensures |w.files| <= w.walked
    decreases n
  {
    match n
    case Dir(name, children) =>
      if !AcceptsDirectory(name, ignoreDirs) then Walk([], 0)
      else
        var w := WalkChildren(children, ignoreDirs, extensions);
        Walk(Prepend(name, w.files), w.walked + 1)
    case File(name, source) =>
      Walk(if AcceptsFile(name, extensions) then [Candidate([name], source)] else [], 1)
    case Other(_) => Walk([], 1)
    case Unreadable => Walk([], 1)
  }

  function WalkChildren(ns: seq<Node>, ignoreDirs: set<string>, extensions: set<string>): (w: Walk)
    ensures |w.files| <= w.walked
    decreases ns
  {
    if |ns| == 0 then Walk([], 0)
    else
      var first := WalkNode(ns[0], ignoreDirs, extensions);
      var rest := WalkChildren(ns[1..], ignoreDirs, extensions);
      Walk(first.files + rest.files, first.walked + rest.walked)
  }

  /** Independent description of the accepted files: `path` leads from `n`
      through directories that are not ignored to a regular file holding
      `source` whose name the allow-list accepts. */
  ghost predicate Visible(n: Node, path: Path, source: Source, ignoreDirs: set<string>, extensions: set<string>)
    decreases n
  {
    match n
    case Dir(name, children) =>
      && AcceptsDirectory(name, ignoreDirs)
      && |path| >= 2 && path[0] == name
      && exists c :: c in children && Visible(c, path[1..], source, ignoreDirs, extensions)
    case File(name, s) => path == [name] && s == source && AcceptsFile(name, extensions)
    case Other(_) => false
    case Unreadable => false
  }

  lemma PrependMember(name: string, cs: seq<Candidate>, x: Candidate)
    ensures x in Prepend(name, cs) <==>
      |x.path| >= 1 && x.path[0] == name && Candidate(x.path[1..], x.source) in cs
  {
    var r := Prepend(name, cs);
    if x in r {
      var i :| 0 <= i < |r| && r[i] == x;
      assert x.path[1..] == cs[i].path;
    }
    if |x.path| >= 1 && x.path[0] == name && Candidate(x.path[1..], x.source) in cs {
      var i :| 0 <= i < |cs| && cs[i] == Candidate(x.path[1..], x.source);
      assert r[i] == x;
    }
  }

  lemma VisiblePathNonEmpty(n: Node, x: Candidate, ignoreDirs: set<string>, extensions: set<string>)
    requires Visible(n, x.path, x.source, ignoreDirs, extensions)
    ensures |x.path| >= 1
  {
  }

  /** The walk yields exactly the visible files of the tree: nothing under an
      ignored directory, nothing the allow-list rejects, and nothing missed. */
  lemma {:induction false} WalkNodeExact(n: Node, x: Candidate, ignoreDirs: set<string>, extensions: set<string>)
    ensures x in WalkNode(n, ignoreDirs, extensions).files <==> Visible(n, x.path, x.source, ignoreDirs, extensions)
    decreases n
  {
    match n
    case Dir(name, children) =>
      if AcceptsDirectory(name, ignoreDirs) {
        var w := WalkChildren(children, ignoreDirs, extensions);
        PrependMember(name, w.files, x);
        if |x.path| >= 1 && x.path[0] == name {
          var y := Candidate(x.path[1..], x.source);
          WalkChildrenExact(children, y, ignoreDirs, extensions);
          if y in w.files {
            var c :| c in children && Visible(c, y.path, y.source, ignoreDirs, extensions);
            VisiblePathNonEmpty(c, y, ignoreDirs, extensions);
          }
        }
      }
    case File(_, _) =>
    case Other(_) =>
    case Unreadable =>
  }

  lemma {:induction false} WalkChildrenExact(ns: seq<Node>, x: Candidate, ignoreDirs: set<string>, extensions: set<string>)
    ensures x in WalkChildren(ns, ignoreDirs, extensions).files <==>
      exists c :: c in ns && Visible(c, x.path, x.source, ignoreDirs, extensions)
    decreases ns
  {
    if |ns| > 0 {
      WalkNodeExact(ns[0], x, ignoreDirs, extensions);
      WalkChildrenExact(ns[1..], x, ignoreDirs, extensions);
      assert forall c :: c in ns <==> c == ns[0] || c in ns[1..];
    }
  }

  /** Every accepted path runs through directories outside the ignore set
      and ends in a file name the allow-list accepts. */
  lemma {:induction false} VisibleAvoidsIgnored(n: Node, path: Path, source: Source, ignoreDirs: set<string>, extensions: set<string>)
    requires Visible(n, path, source, ignoreDirs, extensions)
    ensures |path| >= 1
    ensures forall i :: 0 <= i < |path| - 1 ==> path[i] !in ignoreDirs
    ensures AcceptsFile(path[|path| - 1], extensions)
    decreases n
  {
    match n
    case Dir(name, children) =>
      var c :| c in children && Visible(c, path[1..], source, ignoreDirs, extensions);
      VisibleAvoidsIgnored(c, path[1..], source, ignoreDirs, extensions);
      forall i | 0 <= i < |path| - 1
        ensures path[i] !in ignoreDirs
      {
        if i > 0 {
          assert path[i] == path[1..][i - 1];
        }
      }
    case File(_, _) =>
  }

  /** The walker's guarantee, stated on its output. */
  lemma WalkAccepted(n: Node, ignoreDirs: set<string>, extensions: set<string>, x: Candidate)
    requires x in WalkNode(n, ignoreDirs, extensions).files
    ensures |x.path| >= 1
    ensures forall i :: 0 <= i < |x.path| - 1 ==> x.path[i] !in ignoreDirs
    ensures AcceptsFile(FileName(x.path), extensions)
  {
    WalkNodeExact(n, x, ignoreDirs, extensions);
    VisibleAvoidsIgnored(n, x.path, x.source, ignoreDirs, extensions);
  }

  /** An ignored directory is never descended into: nothing beneath it is
      visited, let alone accepted. */
  lemma IgnoredDirectoryPruned(name: string, children: seq<Node>, ignoreDirs: set<string>, extensions: set<string>)
    requires name in ignoreDirs
    ensures WalkNode(Dir(name, children), ignoreDirs, extensions) == Walk([], 0)
  {
  }

  /** A name's extension is what follows its last dot. */
  lemma ExtensionFound()
    ensures Extension("main.rs") == Some("rs")
    ensures Extension("archive.tar.GZ") == Some("GZ")
    ensures Extension("notes.") == Some("")
  {
    assert "main.rs"[4] == '.';
    assert "archive.tar.GZ"[11] == '.';
    assert "notes."[5] == '.';
  }

  /** A leading dot does not start an extension. */
  lemma ExtensionMissing()
    ensures Extension(".bashrc") == None
    ensures Extension("Makefile") == None
  {
  }

  lemma LowercaseRS()
    ensures Text.ToAsciiLowercase("RS") == "rs"
  {
    var r := Text.ToAsciiLowercase("RS");
    assert r[0] == Text.LowerChar('R') == 'r';
    assert r[1] == Text.LowerChar('S') == 's';
  }

  lemma LowercaseMakefile()
    ensures Text.ToAsciiLowercase("Makefile") == "makefile"
  {
    var m := Text.ToAsciiLowercase("Makefile");
    assert m[0] == Text.LowerChar('M') == 'm';
    Text.LowercaseUnchanged("akefile");
    assert m[1..] == Text.ToAsciiLowercase("akefile");
  }

  lemma ExtensionOfUpper()
    ensures Extension("LIB.RS") == Some("RS")
  {
    assert "LIB.RS"[3] == '.';
  }

  /** The lookup key is lower-cased and falls back to the whole name. */
  lemma ExtensionKeyExamples()
    ensures ExtensionKey("LIB.RS") == "rs"
    ensures ExtensionKey("Makefile") == "makefile"
  {
    ExtensionOfUpper();
    ExtensionMissing();
    LowercaseRS();
    LowercaseMakefile();
  }
}

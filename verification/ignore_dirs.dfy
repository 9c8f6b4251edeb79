/** The helpers of src/ignore_dirs.rs over in-memory inputs: which directory
    entries are ignore files, which of their lines are patterns, and the
    concatenation `query_from` builds. The two regular expressions are
    modelled by the matching they perform, without a regex engine. */
module IgnoreDirs {
  import opened Lines
  import Seqs

  predicate IsLowerAscii(c: char) {
    'a' <= c <= 'z'
  }

  /** Lower-case letters ending in `ignore`: either `ignore` is the whole
      rest, or one more lower-case letter comes first. */
  predicate StarThenIgnore(t: string)
    decreases |t|
  {
    t == "ignore" || (|t| > 0 && IsLowerAscii(t[0]) && StarThenIgnore(t[1..]))
  }

  /** An ignore-file name (src/ignore_dirs.rs:19-26): one arbitrary leading
      character other than a line feed, then lower-case letters ending in
      `ignore`. */
  predicate IsIgnoreFilePattern(name: string) {
    |name| > 0 && name[0] != '\n' && StarThenIgnore(name[1..])
  }

  lemma {:induction false} StarThenIgnoreIff(t: string)
    ensures StarThenIgnore(t) <==>
      |t| >= 6 && t[|t| - 6..] == "ignore" && forall i :: 0 <= i < |t| - 6 ==> IsLowerAscii(t[i])
    decreases |t|
  {
    if |t| > 0 {
      StarThenIgnoreIff(t[1..]);
      assert forall i :: 1 <= i < |t| ==> t[i] == t[1..][i - 1];
      if |t| > 6 {
        assert t[1..][|t[1..]| - 6..] == t[|t| - 6..];
      }
    }
  }

  /** Any run of lower-case letters followed by `ignore` is accepted. */
  lemma {:induction false} LettersThenIgnore(p: string)
    requires forall i :: 0 <= i < |p| ==> IsLowerAscii(p[i])
    ensures StarThenIgnore(p + "ignore")
    decreases |p|
  {
    if |p| == 0 {
      assert p + "ignore" == "ignore";
    } else {
      assert (p + "ignore")[1..] == p[1..] + "ignore";
      LettersThenIgnore(p[1..]);
    }
  }

  /** The closed form: at least seven characters, any first character but a
      line feed, then only `a`-`z`, then `ignore`. So `gitignore` matches as
      well as `.gitignore`, while a bare `ignore` does not. */
  lemma IgnoreFilePatternIff(name: string)
    ensures IsIgnoreFilePattern(name) <==>
      |name| >= 7 && name[0] != '\n' && name[|name| - 6..] == "ignore" &&
      forall i :: 1 <= i < |name| - 6 ==> IsLowerAscii(name[i])
  {
    if |name| > 0 {
      StarThenIgnoreIff(name[1..]);
      assert forall i :: 1 <= i < |name| ==> name[i] == name[1..][i - 1];
      if |name| >= 7 {
        assert name[1..][|name[1..]| - 6..] == name[|name| - 6..];
      }
    }
  }

  /** The accepted cases of `check_is_ignore_file_pattern`, and a name
      whose leading wildcard is not a dot. */
  lemma IgnoreFileAccepted()
    ensures IsIgnoreFilePattern(".gitignore")
    ensures IsIgnoreFilePattern(".dockerignore")
    ensures IsIgnoreFilePattern(".ignore")
    ensures IsIgnoreFilePattern("gitignore")
  {
    assert ".gitignore"[1..] == "git" + "ignore";
    LettersThenIgnore("git");
    assert ".dockerignore"[1..] == "docker" + "ignore";
    LettersThenIgnore("docker");
    assert ".ignore"[1..] == "ignore";
    assert "gitignore"[1..] == "it" + "ignore";
    LettersThenIgnore("it");
  }

  /** The rejected cases of `check_is_ignore_file_pattern`, and a bare
      `ignore`, which leaves nothing for the leading wildcard. */
  lemma IgnoreFileRejected()
    ensures !IsIgnoreFilePattern("src")
    ensures !IsIgnoreFilePattern("build")
    ensures !IsIgnoreFilePattern(".123ignore")
    ensures !IsIgnoreFilePattern("README.md")
    ensures !IsIgnoreFilePattern(".IGNORE")
    ensures !IsIgnoreFilePattern("ignore")
  {
    assert !IsIgnoreFilePattern("src") by { IgnoreFilePatternIff("src"); }
    assert !IsIgnoreFilePattern("build") by { IgnoreFilePatternIff("build"); }
    assert !IsIgnoreFilePattern(".123ignore") by {
      IgnoreFilePatternIff(".123ignore");
      assert ".123ignore"[1] == '1';
    }
    assert !IsIgnoreFilePattern("README.md") by {
      IgnoreFilePatternIff("README.md");
      assert "README.md"[3..] != "ignore";
    }
    assert !IsIgnoreFilePattern(".IGNORE") by {
      IgnoreFilePatternIff(".IGNORE");
      assert ".IGNORE"[1..] != "ignore";
    }
    assert !IsIgnoreFilePattern("ignore") by { IgnoreFilePatternIff("ignore"); }
  }

  /** `\s`: the Unicode White_Space property. */
  predicate IsWhiteSpace(c: char) {
    ('\t' <= c <= '\r') || c == ' ' || c == '\U{0085}' || c == '\U{00A0}' || c == '\U{1680}'
    || ('\U{2000}' <= c <= '\U{200A}') || c == '\U{2028}' || c == '\U{2029}'
    || c == '\U{202F}' || c == '\U{205F}' || c == '\U{3000}'
  }

  /** A comment line: only the leading `#` decides. */
  predicate MatchesComment(line: string) {
    |line| > 0 && line[0] == '#'
  }

  /** A blank line: white space up to the end, the empty line included. */
  predicate MatchesBlank(line: string)
    decreases |line|
  {
    |line| == 0 || (IsWhiteSpace(line[0]) && MatchesBlank(line[1..]))
  }

  /** A line is a path pattern when it is neither a comment nor blank
      (src/ignore_dirs.rs:38-45). */
  predicate IsIgnorePathPattern(line: string) {
    !(MatchesComment(line) || MatchesBlank(line))
  }

  lemma {:induction false} MatchesBlankIff(line: string)
    ensures MatchesBlank(line) <==> forall i :: 0 <= i < |line| ==> IsWhiteSpace(line[i])
    decreases |line|
  {
    if |line| > 0 {
      MatchesBlankIff(line[1..]);
      assert forall i :: 1 <= i < |line| ==> line[i] == line[1..][i - 1];
    }
  }

  /** A line is dropped exactly when it starts with `#` or holds nothing but
      white space (the empty line included). */
  lemma PathPatternIff(line: string)
    ensures !IsIgnorePathPattern(line) <==>
      (|line| > 0 && line[0] == '#') || forall i :: 0 <= i < |line| ==> IsWhiteSpace(line[i])
  {
    MatchesBlankIff(line);
  }

  /** The cases of `check_is_ignore_path_pattern`. */
  lemma PathPatternExamples()
    ensures !IsIgnorePathPattern("# build directory")
    ensures !IsIgnorePathPattern("")
    ensures IsIgnorePathPattern("/build")
    ensures IsIgnorePathPattern("build")
    ensures IsIgnorePathPattern(".editorconfig")
  {
    assert !IsWhiteSpace("/build"[0]);
    assert !IsWhiteSpace("build"[0]);
    assert !IsWhiteSpace(".editorconfig"[0]);
  }

  /** Only a `#` in the first column makes a comment, and a line of white
      space is blank. */
  lemma PathPatternEdges()
    ensures IsIgnorePathPattern("  # note")
    ensures !IsIgnorePathPattern(" \t ")
  {
    var note := "  # note";
    assert note[1..][1..][0] == '#';
    assert !MatchesBlank(note[1..][1..]);
    var blank := " \t ";
    assert blank[1..][1..][1..] == [];
  }

  /** One `lines()` item: `read_line` keeps the terminator, `lines()` drops a
      final `\n` and then a `\r` just before it. The removed suffix is empty
      exactly when the chunk is unterminated, and is `\r\n` exactly when the
      chunk ends in `\r\n`. */
  function StripTerminator(chunk: string): (line: string)
    ensures line <= chunk
    ensures chunk[|line|..] in ["", "\n", "\r\n"]
    ensures chunk[|line|..] == "" <==> (|chunk| == 0 || chunk[|chunk| - 1] != '\n')
    ensures chunk[|line|..] == "\r\n" <==> (|chunk| >= 2 && chunk[|chunk| - 2..] == "\r\n")
  {
    var n := |chunk|;
    if n > 0 && chunk[n - 1] == '\n' then
      if n >= 2 && chunk[n - 2] == '\r' then
        assert chunk[n - 2..] == [chunk[n - 2], chunk[n - 1]] == "\r\n";
        chunk[..n - 2]
      else
        assert chunk[n - 1..] == [chunk[n - 1]] == "\n";
        assert n >= 2 ==> chunk[n - 2..][0] == chunk[n - 2];
        chunk[..n - 1]
    else
      assert chunk[n..] == "";
      assert n >= 2 ==> chunk[n - 2..][1] == chunk[n - 1];
      chunk
  }

  /** The lines of an ignore file whose text is valid UTF-8: line k is the k-th
      `read_line` chunk without its terminator. */
  function LinesOf(text: string): (ls: seq<string>)
    ensures |ls| == LineCount(text, '\n') == |Pieces(text, '\n')|
    ensures forall k :: 0 <= k < |ls| ==> ls[k] == StripTerminator(Pieces(text, '\n')[k])
    ensures forall k :: 0 <= k < |ls| ==> '\n' !in ls[k]
  {
    var P := Pieces(text, '\n');
    PiecesCount(text, '\n');
    PiecesShape(text, '\n');
    seq(|P|, k requires 0 <= k < |P| => StripTerminator(P[k]))
  }

  /** The first line is the first chunk without its terminator; the rest are
      the lines of what follows the chunk. */
  lemma LinesOfStep(text: string)
    requires |text| > 0
    ensures LinesOf(text)
      == [StripTerminator(text[..NextEnd(text, '\n')])] + LinesOf(text[NextEnd(text, '\n')..])
  {
    var e := NextEnd(text, '\n');
    var P := Pieces(text, '\n');
    var Q := Pieces(text[e..], '\n');
    assert P == [text[..e]] + Q;
    var ls := LinesOf(text);
    var rest := LinesOf(text[e..]);
    var r := [StripTerminator(text[..e])] + rest;
    assert |ls| == |r|;
    forall k | 0 <= k < |ls|
      ensures ls[k] == r[k]
    {
      if k > 0 {
        calc {
          ls[k];
          StripTerminator(P[k]);
          { assert P[k] == Q[k - 1]; }
          StripTerminator(Q[k - 1]);
          rest[k - 1];
        }
      }
    }
  }

  /** Each line followed by a line feed. */
  function Unlines(ls: seq<string>): string {
    if |ls| == 0 then "" else ls[0] + "\n" + Unlines(ls[1..])
  }

  /** Without carriage returns, a terminated chunk loses exactly its line
      feed and an unterminated one loses nothing. */
  lemma ChunkRejoin(chunk: string)
    requires '\r' !in chunk
    ensures StripTerminator(chunk) + "\n"
      == if |chunk| > 0 && chunk[|chunk| - 1] == '\n' then chunk else chunk + "\n"
  {
    var line := StripTerminator(chunk);
    var n := |chunk|;
    if n > 0 && chunk[n - 1] == '\n' {
      if n >= 2 {
        assert chunk[n - 2..][0] == chunk[n - 2] != '\r';
      }
      assert chunk[|line|..] == "\n";
      assert chunk == line + chunk[|line|..];
    }
  }

  /** Rejoining the lines of a text without carriage returns gives the text
      back, plus a final line feed when the text lacked one. */
  lemma UnlinesStep(text: string)
    requires |text| > 0
    ensures Unlines(LinesOf(text))
      == StripTerminator(text[..NextEnd(text, '\n')]) + "\n" + Unlines(LinesOf(text[NextEnd(text, '\n')..]))
  {
    LinesOfStep(text);
    assert LinesOf(text)[1..] == LinesOf(text[NextEnd(text, '\n')..]);
  }

  /** The first `read_line` chunk either ends in its line feed or is the
      whole text. */
  lemma FirstChunkShape(text: string)
    requires |text| > 0
    ensures var e := NextEnd(text, '\n');
      text[..e][e - 1] == '\n' || e == |text|
  {
    var i := FirstIndex(text, '\n');
    if i < |text| {
      assert text[..i + 1][i] == text[i];
    }
  }

  /** A split of a text without carriage returns leaves none on either side. */
  lemma SplitNoReturn(text: string, e: nat)
    requires '\r' !in text && e <= |text|
    ensures '\r' !in text[..e] && '\r' !in text[e..]
  {
    assert forall x :: x in text[..e] || x in text[e..] ==> x in text;
  }

  /** Rejoining one chunk and the rejoined rest gives the rejoined whole. */
  lemma JoinStep(chunk: string, rest: string, line: string, u: string)
    requires |chunk| > 0
    requires chunk[|chunk| - 1] != '\n' ==> |rest| == 0
    requires line + "\n" == if chunk[|chunk| - 1] == '\n' then chunk else chunk + "\n"
    requires u == if |rest| == 0 || rest[|rest| - 1] == '\n' then rest else rest + "\n"
    ensures var text := chunk + rest;
      line + "\n" + u == if text[|text| - 1] == '\n' then text else text + "\n"
  {
    var text := chunk + rest;
    if |rest| == 0 {
      assert text == chunk;
    } else {
      assert text[|text| - 1] == rest[|rest| - 1];
      Seqs.Assoc(chunk, rest, "\n");
    }
  }

  lemma {:induction false} LinesRoundTrip(text: string)
    requires '\r' !in text
    ensures Unlines(LinesOf(text)) == if |text| == 0 || text[|text| - 1] == '\n' then text else text + "\n"
    decreases |text|
  {
    if |text| == 0 {
      assert LinesOf(text) == [];
    } else {
      var e := NextEnd(text, '\n');
      var chunk, rest := text[..e], text[e..];
      var line := StripTerminator(chunk);
      var u := Unlines(LinesOf(rest));
      assert Unlines(LinesOf(text)) == line + "\n" + u by { UnlinesStep(text); }
      assert '\r' !in chunk && '\r' !in rest by { SplitNoReturn(text, e); }
      assert u == if |rest| == 0 || rest[|rest| - 1] == '\n' then rest else rest + "\n" by {
        LinesRoundTrip(rest);
      }
      assert line + "\n" == if chunk[|chunk| - 1] == '\n' then chunk else chunk + "\n" by {
        ChunkRejoin(chunk);
      }
      assert chunk[|chunk| - 1] != '\n' ==> |rest| == 0 by { FirstChunkShape(text); }
      Seqs.SplitJoin(text, e);
      JoinStep(chunk, rest, line, u);
    }
  }

  /** The lines that are path patterns, in file order. */
  function KeepPatterns(lines: seq<string>): (kept: seq<string>)
    ensures |kept| <= |lines|
    ensures forall k :: 0 <= k < |kept| ==> IsIgnorePathPattern(kept[k])
    ensures forall x :: x in kept <==> x in lines && IsIgnorePathPattern(x)
  {
    if |lines| == 0 then []
    else
      var rest := KeepPatterns(lines[1..]);
      assert forall x :: x in lines <==> x == lines[0] || x in lines[1..];
      (if IsIgnorePathPattern(lines[0]) then [lines[0]] else []) + rest
  }

  /** `a` is `b` with some elements removed and the rest in their order. */
  predicate IsSubsequence<T(==)>(a: seq<T>, b: seq<T>)
    decreases |b|
  {
    if |a| == 0 then true
    else if |b| == 0 then false
    else if a[0] == b[0] then IsSubsequence(a[1..], b[1..])
    else IsSubsequence(a, b[1..])
  }

  /** The filter keeps lines in their order. */
  lemma {:induction false} KeepOrdered(lines: seq<string>)
    ensures IsSubsequence(KeepPatterns(lines), lines)
  {
    if |lines| > 0 {
      KeepOrdered(lines[1..]);
      var rest := KeepPatterns(lines[1..]);
      var kept := KeepPatterns(lines);
      if IsIgnorePathPattern(lines[0]) {
        assert kept == [lines[0]] + rest;
        assert kept[1..] == rest;
      } else {
        assert kept == rest;
      }
    }
  }

  /** Every occurrence of a pattern line is kept and no other line is. */
  lemma {:induction false} KeepCount(lines: seq<string>, x: string)
    ensures Count(KeepPatterns(lines), x) == if IsIgnorePathPattern(x) then Count(lines, x) else 0
  {
    if |lines| > 0 {
      var h: seq<string> := if IsIgnorePathPattern(lines[0]) then [lines[0]] else [];
      KeepCount(lines[1..], x);
      CountAppend(h, KeepPatterns(lines[1..]), x);
      if |h| == 1 {
        assert h[1..] == [];
      }
    }
  }

  /** Lines that already pass the filter all pass again. */
  lemma {:induction false} KeepAllPass(lines: seq<string>)
    requires forall k :: 0 <= k < |lines| ==> IsIgnorePathPattern(lines[k])
    ensures KeepPatterns(lines) == lines
  {
    if |lines| > 0 {
      KeepAllPass(lines[1..]);
    }
  }

  lemma KeepIdempotent(lines: seq<string>)
    ensures KeepPatterns(KeepPatterns(lines)) == KeepPatterns(lines)
  {
    KeepAllPass(KeepPatterns(lines));
  }

  lemma {:induction false} KeepAppend(a: seq<string>, b: seq<string>)
    ensures KeepPatterns(a + b) == KeepPatterns(a) + KeepPatterns(b)
  {
    if |a| == 0 {
      assert a + b == b;
    } else {
      assert (a + b)[1..] == a[1..] + b;
      KeepAppend(a[1..], b);
    }
  }

  /** `get_all_ignore_paths_from_ignore_file` on the file's text
      (src/ignore_dirs.rs:47-56). */
  function PatternsOf(text: string): (ps: seq<string>)
    ensures |ps| <= LineCount(text, '\n')
    ensures forall k :: 0 <= k < |ps| ==> IsIgnorePathPattern(ps[k]) && ps[k] in LinesOf(text)
  {
    KeepPatterns(LinesOf(text))
  }

  /** The patterns are exactly the file's pattern lines: each as many times
      as the file holds it, no other line, and in file order. */
  lemma PatternsOfExact(text: string)
    ensures forall x ::
      Count(PatternsOf(text), x) == (if IsIgnorePathPattern(x) then Count(LinesOf(text), x) else 0)
    ensures IsSubsequence(PatternsOf(text), LinesOf(text))
  {
    var ls := LinesOf(text);
    KeepOrdered(ls);
    forall x
      ensures Count(KeepPatterns(ls), x) == if IsIgnorePathPattern(x) then Count(ls, x) else 0
    {
      KeepCount(ls, x);
    }
  }

  /** A directory entry: its file name and, for files, the text they hold. */
  datatype Entry = Entry(name: string, text: string)

  /** `get_all_ignore_files`: the entries whose names look like ignore files,
      in listing order. */
  function IgnoreFiles(listing: seq<Entry>): (r: seq<Entry>)
    ensures forall e :: e in r <==> e in listing && IsIgnoreFilePattern(e.name)
  {
    if |listing| == 0 then []
    else
      var rest := IgnoreFiles(listing[1..]);
      assert forall e :: e in listing <==> e == listing[0] || e in listing[1..];
      (if IsIgnoreFilePattern(listing[0].name) then [listing[0]] else []) + rest
  }

  function PatternLists(files: seq<Entry>): (r: seq<seq<string>>)
    ensures |r| == |files|
    ensures forall k :: 0 <= k < |r| ==> r[k] == PatternsOf(files[k].text)
  {
    if |files| == 0 then []
    else
      var rest := PatternLists(files[1..]);
      assert forall k :: 1 <= k < |files| ==> files[k] == files[1..][k - 1];
      [PatternsOf(files[0].text)] + rest
  }

  lemma {:induction false} PatternListsAppend(x: seq<Entry>, y: seq<Entry>)
    ensures PatternLists(x + y) == PatternLists(x) + PatternLists(y)
  {
    if |x| == 0 {
      assert x + y == y;
    } else {
      assert (x + y)[1..] == x[1..] + y;
      PatternListsAppend(x[1..], y);
    }
  }

  /** `query_from`: the patterns of every ignore file, file after file. */
  function QueryFrom(listing: seq<Entry>): seq<string> {
    Concat(PatternLists(IgnoreFiles(listing)))
  }

  function TotalLength(ls: seq<seq<string>>): nat {
    if |ls| == 0 then 0 else |ls[0]| + TotalLength(ls[1..])
  }

  lemma {:induction false} ConcatLength(ls: seq<seq<string>>)
    ensures |Concat(ls)| == TotalLength(ls)
  {
    if |ls| > 0 {
      ConcatLength(ls[1..]);
    }
  }

  lemma {:induction false} ConcatAppend(a: seq<seq<string>>, b: seq<seq<string>>)
    ensures Concat(a + b) == Concat(a) + Concat(b)
  {
    if |a| == 0 {
      assert a + b == b;
    } else {
      assert (a + b)[1..] == a[1..] + b;
      ConcatAppend(a[1..], b);
    }
  }

  lemma {:induction false} IgnoreFilesAppend(a: seq<Entry>, b: seq<Entry>)
    ensures IgnoreFiles(a + b) == IgnoreFiles(a) + IgnoreFiles(b)
  {
    if |a| == 0 {
      assert a + b == b;
    } else {
      assert (a + b)[1..] == a[1..] + b;
      IgnoreFilesAppend(a[1..], b);
    }
  }

  /** The result holds as many patterns as the ignore files hold together. */
  lemma QueryLength(listing: seq<Entry>)
    ensures |QueryFrom(listing)| == TotalLength(PatternLists(IgnoreFiles(listing)))
  {
    ConcatLength(PatternLists(IgnoreFiles(listing)));
  }

  /** Splitting the listing splits the result: each ignore file contributes
      its patterns in place and other entries contribute nothing. */
  lemma QueryAppend(a: seq<Entry>, b: seq<Entry>)
    ensures QueryFrom(a + b) == QueryFrom(a) + QueryFrom(b)
  {
    var fa, fb := IgnoreFiles(a), IgnoreFiles(b);
    assert IgnoreFiles(a + b) == fa + fb by { IgnoreFilesAppend(a, b); }
    assert PatternLists(fa + fb) == PatternLists(fa) + PatternLists(fb) by {
      PatternListsAppend(fa, fb);
    }
    ConcatAppend(PatternLists(fa), PatternLists(fb));
  }

  /** One entry's share of the result. */
  lemma QuerySingle(e: Entry)
    ensures QueryFrom([e]) == if IsIgnoreFilePattern(e.name) then PatternsOf(e.text) else []
  {
    assert [e][1..] == [];
    if IsIgnoreFilePattern(e.name) {
      assert IgnoreFiles([e]) == [e];
      assert PatternLists([e]) == [PatternsOf(e.text)];
      var ps := PatternsOf(e.text);
      assert [ps][1..] == [];
      assert Concat([ps]) == ps + Concat([ps][1..]);
      assert ps + [] == ps;
    } else {
      assert IgnoreFiles([e]) == [];
    }
  }
}

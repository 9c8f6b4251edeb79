/** The measurement stage of `process_file_list` (src/main.rs:277-317) and the
    line count of `process_file` (src/main.rs:342-343). Each accepted file is
    opened and sized; any failing step drops that file alone. `rayon`'s
    `par_extend` keeps the input order, so the stage is a sequential
    `filter_map` here. The UTF-8 decoder of `read_to_string` is a parameter. */
module Measure {
  import opened Wrappers
  import opened Files
  import Lines

  /** Decodes a file's bytes as UTF-8 text, or fails. */
  type Decoder = seq<Byte> -> Option<seq<char>>

  /** The size the configuration asks for: the decoded character count in
      utf8 mode (which needs a second successful open and a successful
      decode), the metadata length otherwise. */
  function Size(s: Source, utf8: bool, decode: Decoder): (r: Option<nat>)
    ensures r.Some? <==> if utf8 then s.reopens && decode(s.content).Some? else s.metadataLen.Some?
    ensures r.Some? && utf8 ==> r.value == |decode(s.content).value|
    ensures r.Some? && !utf8 ==> r.value == s.metadataLen.value
  {
    if utf8 then
      if !s.reopens then None
      else match decode(s.content)
        case None => None
        case Some(text) => Some(|text|)
    else s.metadataLen
  }

  /** One task of the parallel `filter_map`: `None` when the first open, the
      size step, or (in utf8 mode) the second open or the decode fails. */
  function MeasureFile(c: Candidate, utf8: bool, decode: Decoder): (r: Option<FileEntry>)
    ensures r.Some? <==> c.source.opens && Size(c.source, utf8, decode).Some?
    ensures r.Some? ==> r.value.name == c.path
    ensures r.Some? ==> r.value.lines == Lines.LineCount(c.source.content, Lines.NewlineByte)
    ensures r.Some? ==> r.value.size == Size(c.source, utf8, decode).value
  {
    if !c.source.opens then None
    else
      match Size(c.source, utf8, decode)
      case None => None
      case Some(size) =>
        Lines.PiecesCount(c.source.content, Lines.NewlineByte);
        Some(FileEntry(c.path, |Lines.Pieces(c.source.content, Lines.NewlineByte)|, size))
  }

  /** The measured list: the successful entries, in input order. */
  function MeasureAll(cs: seq<Candidate>, utf8: bool, decode: Decoder): (r: seq<FileEntry>)
    ensures |r| <= |cs|
    ensures forall e :: e in r <==> exists c :: c in cs && MeasureFile(c, utf8, decode) == Some(e)
  {
    if |cs| == 0 then []
    else
      var rest := MeasureAll(cs[1..], utf8, decode);
      assert forall c :: c in cs <==> c == cs[0] || c in cs[1..];
      match MeasureFile(cs[0], utf8, decode)
      case None => rest
      case Some(e) => [e] + rest
  }

  /** The stage distributes over concatenation, so any split of the work
      across workers gives the same list. */
  lemma {:induction false} MeasureAllAppend(a: seq<Candidate>, b: seq<Candidate>, utf8: bool, decode: Decoder)
    ensures MeasureAll(a + b, utf8, decode) == MeasureAll(a, utf8, decode) + MeasureAll(b, utf8, decode)
  {
    if |a| == 0 {
      assert a + b == b;
    } else {
      assert (a + b)[0] == a[0];
      assert (a + b)[1..] == a[1..] + b;
      MeasureAllAppend(a[1..], b, utf8, decode);
    }
  }

  /** A failure on file `i` removes that file and leaves every other entry,
      and the order of the rest, as it was. */
  lemma FailureIsolated(cs: seq<Candidate>, i: nat, bad: Source, utf8: bool, decode: Decoder)
    requires i < |cs|
    requires MeasureFile(Candidate(cs[i].path, bad), utf8, decode).None?
    ensures MeasureAll(cs[i := Candidate(cs[i].path, bad)], utf8, decode)
         == MeasureAll(cs[..i], utf8, decode) + MeasureAll(cs[i + 1..], utf8, decode)
  {
    var x := Candidate(cs[i].path, bad);
    var pre, post := cs[..i], cs[i + 1..];
    assert cs[i := x] == (pre + [x]) + post;
    assert [x][1..] == [];
    assert MeasureAll([x], utf8, decode) == [];
    MeasureAllAppend(pre, [x], utf8, decode);
    assert MeasureAll(pre + [x], utf8, decode) == MeasureAll(pre, utf8, decode);
    MeasureAllAppend(pre + [x], post, utf8, decode);
  }

  /** The number of files that survive measurement. */
  function Survivors(cs: seq<Candidate>, utf8: bool, decode: Decoder): nat {
    if |cs| == 0 then 0
    else (if MeasureFile(cs[0], utf8, decode).Some? then 1 else 0) + Survivors(cs[1..], utf8, decode)
  }

  /** The measured list has one entry per file whose steps all succeed. */
  lemma {:induction false} MeasureAllLength(cs: seq<Candidate>, utf8: bool, decode: Decoder)
    ensures |MeasureAll(cs, utf8, decode)| == Survivors(cs, utf8, decode)
  {
    if |cs| > 0 {
      MeasureAllLength(cs[1..], utf8, decode);
    }
  }
}

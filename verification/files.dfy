/** The records that flow through the pipeline: a walked file's path and its
    in-memory stand-in for the file system, and the measured `FileEntry`. */
module Files {
  import opened Wrappers

  type Byte = b: int | 0 <= b < 256

  /** A path as its components, root first; the last component is the file name. */
  type Path = seq<string>

  /** What the file system would answer for one accepted file. Each I/O step of
      `process_file_list` is an independent outcome, because the file may change
      or vanish between the calls.
      - `content`: the bytes read through the first handle (line counting)
      - `opens`: the first `File::open` succeeds
      - `reopens`: the second `File::open`, made only in utf8 mode, succeeds
      - `metadataLen`: the length the file's metadata reports, or `None` when
        the metadata call fails */
  datatype Source = Source(content: seq<Byte>, opens: bool, reopens: bool, metadataLen: Option<nat>)

  /** An entry the walker accepted. */
  datatype Candidate = Candidate(path: Path, source: Source)

  /** `FileEntry { name, lines, size }` (src/main.rs:189-193). */
  datatype FileEntry = FileEntry(name: Path, lines: nat, size: nat)

  function FileName(p: Path): string {
    if |p| == 0 then "" else p[|p| - 1]
  }
}

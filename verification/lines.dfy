/** Line splitting as `BufRead::lines` performs it (src/main.rs:342-343 counts
    the lines of every measured file; src/ignore_dirs.rs:51-55 reads ignore
    files line by line). Each step of `lines()` is one `read_line`: it reads up
    to and including the next newline, or to the end of the input. A step whose
    bytes are not valid UTF-8 yields an error item, and `count()` counts those
    items too, so the number of items depends on the newlines alone. */
module Lines {
  import opened Files

  const NewlineByte: Byte := 10

  /** Position of the first `nl` in `c`, or `|c|` when there is none. */
  function FirstIndex<T(==)>(c: seq<T>, nl: T): (i: nat)
    ensures i <= |c|
    ensures nl !in c[..i]
    ensures i < |c| ==> c[i] == nl
  {
    if |c| == 0 then 0
    else if c[0] == nl then 0
    else
      var j := FirstIndex(c[1..], nl);
      assert c[..j + 1] == [c[0]] + c[1..][..j];
      j + 1
  }

  /** Where the next `read_line` stops: just past the first newline, or at the end. */
  function NextEnd<T(==)>(c: seq<T>, nl: T): (e: nat)
    requires |c| > 0
    ensures 0 < e <= |c|
  {
    var i := FirstIndex(c, nl);
    if i < |c| then i + 1 else |c|
  }

  /** The chunks successive `read_line` calls return, terminators included. */
  function Pieces<T(==)>(c: seq<T>, nl: T): seq<seq<T>>
    decreases |c|
  {
    if |c| == 0 then []
    else
      var e := NextEnd(c, nl);
      [c[..e]] + Pieces(c[e..], nl)
  }

  /** Number of occurrences of `x` in `c`. */
  function Count<T(==)>(c: seq<T>, x: T): nat {
    if |c| == 0 then 0 else (if c[0] == x then 1 else 0) + Count(c[1..], x)
  }

  /** The closed form: one line per newline, plus one for an unterminated tail. */
  function LineCount<T(==)>(c: seq<T>, nl: T): nat {
    Count(c, nl) + (if |c| > 0 && c[|c| - 1] != nl then 1 else 0)
  }

  function Concat<T>(ss: seq<seq<T>>): seq<T> {
    if |ss| == 0 then [] else ss[0] + Concat(ss[1..])
  }

  lemma CountAppend<T>(a: seq<T>, b: seq<T>, x: T)
    ensures Count(a + b, x) == Count(a, x) + Count(b, x)
  {
    if |a| > 0 {
      assert (a + b)[0] == a[0];
      assert (a + b)[1..] == a[1..] + b;
      CountAppend(a[1..], b, x);
    } else {
      assert a + b == b;
    }
  }

  lemma CountAbsent<T>(c: seq<T>, x: T)
    requires x !in c
    ensures Count(c, x) == 0
  {
    if |c| > 0 {
      CountAbsent(c[1..], x);
    }
  }

  /** Joining the chunks gives back the input: nothing is lost or duplicated. */
  lemma {:induction false} PiecesConcat<T>(c: seq<T>, nl: T)
    ensures Concat(Pieces(c, nl)) == c
    decreases |c|
  {
    if |c| > 0 {
      var e := NextEnd(c, nl);
      PiecesConcat(c[e..], nl);
      assert c == c[..e] + c[e..];
    }
  }

  /** Every chunk is non-empty, holds no newline before its last element, and
      every chunk except the last ends in a newline. */
  lemma {:induction false} PiecesShape<T>(c: seq<T>, nl: T)
    ensures forall k :: 0 <= k < |Pieces(c, nl)| ==>
      |Pieces(c, nl)[k]| > 0 && nl !in Pieces(c, nl)[k][..|Pieces(c, nl)[k]| - 1]
    ensures forall k :: 0 <= k < |Pieces(c, nl)| - 1 ==>
      Pieces(c, nl)[k][|Pieces(c, nl)[k]| - 1] == nl
    decreases |c|
  {
    if |c| > 0 {
      var e := NextEnd(c, nl);
      var i := FirstIndex(c, nl);
      PiecesShape(c[e..], nl);
      assert c[..e][..e - 1] == c[..e - 1];
      assert c[..e - 1] <= c[..i];
      if i == |c| {
        assert c[e..] == [];
      }
      var P := Pieces(c, nl);
      assert P == [c[..e]] + Pieces(c[e..], nl);
      forall k | 0 <= k < |P|
        ensures |P[k]| > 0 && nl !in P[k][..|P[k]| - 1]
      {
        if k > 0 {
          assert P[k] == Pieces(c[e..], nl)[k - 1];
        }
      }
    }
  }

  /** The first chunk holds one newline if it ends in one and none otherwise. */
  lemma ChunkCount<T>(c: seq<T>, nl: T)
    requires |c| > 0
    ensures Count(c[..NextEnd(c, nl)], nl) == if FirstIndex(c, nl) < |c| then 1 else 0
  {
    var i := FirstIndex(c, nl);
    CountAbsent(c[..i], nl);
    if i < |c| {
      assert c[..NextEnd(c, nl)] == c[..i] + [nl];
      CountAppend(c[..i], [nl], nl);
      assert Count([nl], nl) == 1;
    } else {
      assert c[..NextEnd(c, nl)] == c[..i];
    }
  }

  /** Each chunk accounts for exactly one line of the closed form. */
  lemma LineCountStep<T>(c: seq<T>, nl: T)
    requires |c| > 0
    ensures LineCount(c, nl) == 1 + LineCount(c[NextEnd(c, nl)..], nl)
  {
    var e := NextEnd(c, nl);
    var rest := c[e..];
    assert c == c[..e] + rest;
    CountAppend(c[..e], rest, nl);
    ChunkCount(c, nl);
    if |rest| > 0 {
      assert c[|c| - 1] == rest[|rest| - 1];
    }
  }

  /** The number of chunks is the closed form: "" has 0 lines, "a" and "a\n"
      have 1, "a\n\n" has 2. */
  lemma {:induction false} PiecesCount<T>(c: seq<T>, nl: T)
    ensures |Pieces(c, nl)| == LineCount(c, nl)
    decreases |c|
  {
    if |c| > 0 {
      PiecesStep(c, nl);
      PiecesCount(c[NextEnd(c, nl)..], nl);
      LineCountStep(c, nl);
    }
  }

  lemma PiecesStep<T>(c: seq<T>, nl: T)
    requires |c| > 0
    ensures |Pieces(c, nl)| == 1 + |Pieces(c[NextEnd(c, nl)..], nl)|
  {
  }

  /** Counting the items of `lines()` on a buffered reader: one `read_line`
      per iteration. */
  method CountLines(c: seq<Byte>) returns (n: nat)
    ensures n == |Pieces(c, NewlineByte)|
    ensures n == Count(c, NewlineByte) + (if |c| > 0 && c[|c| - 1] != NewlineByte then 1 else 0)
  {
    n := 0;
    var pos := 0;
    while pos < |c|
      invariant pos <= |c|
      invariant n + |Pieces(c[pos..], NewlineByte)| == |Pieces(c, NewlineByte)|
      decreases |c| - pos
    {
      var rest := c[pos..];
      var e := NextEnd(rest, NewlineByte);
      PiecesStep(rest, NewlineByte);
      assert rest[e..] == c[pos + e..];
      pos := pos + e;
      n := n + 1;
    }
    assert c[pos..] == [];
    PiecesCount(c, NewlineByte);
  }

  lemma Examples()
    ensures LineCount([] , NewlineByte) == 0
    ensures LineCount([97 as Byte], NewlineByte) == 1
    ensures LineCount([97 as Byte, 10], NewlineByte) == 1
    ensures LineCount([97 as Byte, 10, 10], NewlineByte) == 2
  {
  }
}

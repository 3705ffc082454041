/** internal/capture/capture.go: the writer that hands out complete lines. */
module LineWriters {
  import opened Streams

  const NEWLINE: Byte := 10

  // ---- The lines of a stream ----

  /** The newline-terminated lines of a stream, without their newlines. */
  function AllLines(s: Bytes): seq<Bytes>
    decreases |s|
  {
    if NEWLINE !in s then [] else [s[..FirstNewline(s)]] + AllLines(s[FirstNewline(s) + 1..])
  }

  /** What follows the last newline. */
  function Tail(s: Bytes): Bytes
    decreases |s|
  {
    if NEWLINE !in s then s else Tail(s[FirstNewline(s) + 1..])
  }

  function FirstNewline(s: Bytes): (i: nat)
    requires NEWLINE in s
    ensures i < |s| && s[i] == NEWLINE && NEWLINE !in s[..i]
  {
    if s[0] == NEWLINE then 0 else
      assert s == [s[0]] + s[1..];
      var i := FirstNewline(s[1..]) + 1;
      assert s[..i] == [s[0]] + s[1..][..i - 1];
      i
  }

  function NonEmpty(lines: seq<Bytes>): seq<Bytes> {
    if lines == [] then [] else (if lines[0] == [] then [] else [lines[0]]) + NonEmpty(lines[1..])
  }

  /** The lines, each ended by a line feed. */
  function Unlines(lines: seq<Bytes>): Bytes {
    if lines == [] then [] else lines[0] + [NEWLINE] + Unlines(lines[1..])
  }

  lemma FirstNewlineIs(s: Bytes, i: nat)
    requires i < |s| && s[i] == NEWLINE && NEWLINE !in s[..i]
    ensures NEWLINE in s && FirstNewline(s) == i
  {
    var j := FirstNewline(s);
    assert forall k :: 0 <= k < i ==> s[..i][k] == s[k];
    assert forall k :: 0 <= k < j ==> s[..j][k] == s[k];
  }

  lemma FirstOfLines(x: Bytes, lines: seq<Bytes>)
    ensures Unlines([x] + lines) == (x + [NEWLINE]) + Unlines(lines)
    ensures NonEmpty([x] + lines) == (if x == [] then [] else [x]) + NonEmpty(lines)
  {
    assert ([x] + lines)[1..] == lines;
  }

  lemma OneLine(s: Bytes, i: nat)
    requires NEWLINE in s && i == FirstNewline(s)
    ensures s == (s[..i] + [NEWLINE]) + s[i + 1..]
    ensures AllLines(s) == [s[..i]] + AllLines(s[i + 1..]) && Tail(s) == Tail(s[i + 1..])
    ensures Unlines(AllLines(s)) == (s[..i] + [NEWLINE]) + Unlines(AllLines(s[i + 1..]))
    ensures NonEmpty(AllLines(s)) == (if i == 0 then [] else [s[..i]]) + NonEmpty(AllLines(s[i + 1..]))
  {
    FirstOfLines(s[..i], AllLines(s[i + 1..]));
  }

  /** The lines and the tail are a faithful reading of the stream: put together again they are the stream,
      and none of them contains a newline. */
  lemma {:induction false} LinesAndTailAreTheStream(s: Bytes)
    ensures Unlines(AllLines(s)) + Tail(s) == s
    ensures forall l :: l in AllLines(s) ==> 10 !in l
    ensures 10 !in Tail(s)
    decreases |s|
  {
    if NEWLINE in s {
      var i := FirstNewline(s);
      OneLine(s, i);
      LinesAndTailAreTheStream(s[i + 1..]);
      Associate(s[..i] + [NEWLINE], Unlines(AllLines(s[i + 1..])), Tail(s[i + 1..]));
    }
  }

  lemma FirstNewlineStays(a: Bytes, b: Bytes)
    requires NEWLINE in a
    ensures NEWLINE in a + b && FirstNewline(a + b) == FirstNewline(a)
  {
    var i := FirstNewline(a);
    assert (a + b)[..i] == a[..i];
    FirstNewlineIs(a + b, i);
  }

  /** Reading a stream in two parts: the second part is read behind the tail of the first. */
  lemma {:induction false} ReadingInParts(a: Bytes, b: Bytes)
    ensures AllLines(a + b) == AllLines(a) + AllLines(Tail(a) + b)
    ensures Tail(a + b) == Tail(Tail(a) + b)
    decreases |a|
  {
    if NEWLINE in a {
      FirstNewlineStays(a, b);
      var i := FirstNewline(a);
      assert (a + b)[i + 1..] == a[i + 1..] + b;
      assert (a + b)[..i] == a[..i];
      ReadingInParts(a[i + 1..], b);
    }
  }

  lemma {:induction false} NonEmptySplits(a: seq<Bytes>, b: seq<Bytes>)
    ensures NonEmpty(a + b) == NonEmpty(a) + NonEmpty(b)
  {
    if a == [] {
      assert a + b == b;
    } else {
      assert (a + b)[1..] == a[1..] + b;
      NonEmptySplits(a[1..], b);
    }
  }

  /** Exactly the empty lines are left out, and no other line is lost or doubled. */
  lemma {:induction false} OnlyEmptyLinesAreLeftOut(lines: seq<Bytes>, l: Bytes)
    ensures multiset(NonEmpty(lines))[l] == if l == [] then 0 else multiset(lines)[l]
  {
    if lines != [] {
      assert lines == [lines[0]] + lines[1..];
      OnlyEmptyLinesAreLeftOut(lines[1..], l);
    }
  }

  function Concat(chunks: seq<Bytes>): Bytes {
    if chunks == [] then [] else Concat(chunks[..|chunks| - 1]) + chunks[|chunks| - 1]
  }

  // ---- The writer ----

  class LineWriter {
    var buf: Bytes
    var delivered: seq<Bytes>   // the lines fn was called with

    constructor ()
      ensures buf == [] && delivered == []
    {
      buf, delivered := [], [];
    }

    method Write(p: Bytes) returns (n: nat)
      modifies this
      ensures n == |p|
      ensures delivered == old(delivered) + NonEmpty(AllLines(old(buf) + p))
      ensures buf == Tail(old(buf) + p)
    {
      buf := buf + p;
      ghost var all := buf;
      while true
        invariant delivered + NonEmpty(AllLines(buf)) == old(delivered) + NonEmpty(AllLines(all))
        invariant Tail(buf) == Tail(all)
        decreases |buf|
      {
        var i := -1;
        for j := 0 to |buf|
          invariant i == -1 && NEWLINE !in buf[..j]
        {
          if buf[j] == NEWLINE {
            i := j;
            break;
          }
        }
        if i < 0 {
          break;
        }
        FirstNewlineIs(buf, i);
        OneLine(buf, i);
        Associate(delivered, if i == 0 then [] else [buf[..i]], NonEmpty(AllLines(buf[i + 1..])));
        var line := buf[..i];
        buf := buf[i + 1..];
        if line != [] {
          delivered := delivered + [line];
        }
      }
      return |p|;
    }

    /** However a stream is cut into writes, the lines delivered are the non-empty lines of the whole, in
        order, and the buffer holds exactly its unterminated tail. */
    method WriteAll(chunks: seq<Bytes>)
      requires buf == [] && delivered == []
      modifies this
      ensures delivered == NonEmpty(AllLines(Concat(chunks)))
      ensures buf == Tail(Concat(chunks))
    {
      for k := 0 to |chunks|
        invariant delivered == NonEmpty(AllLines(Concat(chunks[..k])))
        invariant buf == Tail(Concat(chunks[..k]))
      {
        ghost var done := Concat(chunks[..k]);
        assert chunks[..k + 1][..k] == chunks[..k];
        ReadingInParts(done, chunks[k]);
        NonEmptySplits(AllLines(done), AllLines(Tail(done) + chunks[k]));
        var n := Write(chunks[k]);
      }
      assert chunks[..|chunks|] == chunks;
    }
  }
}

/** Go's `bufio.Scanner` with its default split function `ScanLines`, reading from an
    in-memory buffer (which never fails to read). */
module LineScanner {
  import opened Text

  const Newline: Byte := 10
  const CarriageReturn: Byte := 13

  /** `bufio.MaxScanTokenSize`: the largest buffer the scanner grows to. */
  const MaxScanTokenSize: nat := 64 * 1024

  /** The tokens `Scan` delivers, in order, and whether `Err()` then reports
      `bufio.ErrTooLong` (the only error a scanner over a byte buffer can report). */
  datatype Lines = Lines(lines: seq<string>, tooLong: bool)

  /** `dropCR`: one trailing '\r' is removed from every line. */
  function DropCR(b: seq<Byte>): (r: seq<Byte>)
    ensures r <= b && |b| - 1 <= |r|
    ensures r != b <==> (|b| > 0 && b[|b| - 1] == CarriageReturn)
  {
    if |b| > 0 && b[|b| - 1] == CarriageReturn then b[..|b| - 1] else b
  }

  /** The token for the raw bytes of one line. */
  function Line(raw: seq<Byte>): string
  {
    BytesToString(DropCR(raw))
  }

  /** The scan of `buf` when the bytes `pending` of the current line have been read but
      not yet delivered. A line ends at '\n', or at the end of input if it is not empty;
      a '\n' at the very end therefore does not start an empty line. A line whose raw
      length reaches 64 KiB does not fit in the scanner's buffer (which must also hold the
      line's '\n'): the scan stops there, before delivering it, with `ErrTooLong`. */
  function ScanFrom(buf: seq<Byte>, pending: seq<Byte>): Lines
    decreases |buf|
  {
    if |pending| >= MaxScanTokenSize then Lines([], true)
    else if buf == [] then (if pending == [] then Lines([], false) else Lines([Line(pending)], false))
    else if buf[0] == Newline then
      var rest := ScanFrom(buf[1..], []);
      Lines([Line(pending)] + rest.lines, rest.tooLong)
    else ScanFrom(buf[1..], pending + [buf[0]])
  }

  /** The tokens `for scanner.Scan() { ... scanner.Text() ... }` visits, then `scanner.Err()`:
      the reading of `buf`'s '\n'-separated pieces that `LinesOf` describes. */
  function ScanLines(buf: seq<Byte>): Lines
  {
    ScanFrom(buf, [])
  }

  /** Reference reading of a buffer already cut at every '\n': each piece is one line, a
      last piece that is empty (the buffer was empty or ended with '\n') is no line, and
      the first piece that reaches 64 KiB ends the reading with `ErrTooLong`. */
  function LinesOf(pieces: seq<seq<Byte>>): Lines
    requires |pieces| >= 1
    decreases |pieces|
  {
    if |pieces[0]| >= MaxScanTokenSize then Lines([], true)
    else if |pieces| == 1 then (if pieces[0] == [] then Lines([], false) else Lines([Line(pieces[0])], false))
    else
      var rest := LinesOf(pieces[1..]);
      Lines([Line(pieces[0])] + rest.lines, rest.tooLong)
  }

  /** The pieces of `buf` with `pending` in front of the first one. */
  function PiecesAfter(pending: seq<Byte>, buf: seq<Byte>): (pieces: seq<seq<Byte>>)
    ensures |pieces| >= 1
  {
    var rest := Split(buf, Newline);
    [pending + rest[0]] + rest[1..]
  }

  /** The byte-by-byte scan agrees with the reference on the pieces, the pending bytes
      being the start of the first piece. */
  lemma {:induction false} ScanFromPieces(buf: seq<Byte>, pending: seq<Byte>)
    ensures ScanFrom(buf, pending) == LinesOf(PiecesAfter(pending, buf))
    decreases |buf|
  {
    if |pending| < MaxScanTokenSize {
      if buf == [] {
        assert Split(buf, Newline) == [[]];
        assert pending + [] == pending;
        assert PiecesAfter(pending, buf) == [pending];
      } else if buf[0] == Newline {
        ScanFromPieces(buf[1..], []);
        NewlineEndsPiece(buf, pending);
      } else {
        ScanFromPieces(buf[1..], pending + [buf[0]]);
        ByteExtendsPiece(buf, pending);
      }
    }
  }

  lemma NewlineEndsPiece(buf: seq<Byte>, pending: seq<Byte>)
    requires buf != [] && buf[0] == Newline
    ensures PiecesAfter(pending, buf) == [pending] + PiecesAfter([], buf[1..])
  {
    var rest := Split(buf[1..], Newline);
    assert Split(buf, Newline) == [[]] + rest;
    assert pending + [] == pending && ([[]] + rest)[1..] == rest;
    assert [] + rest[0] == rest[0];
    assert PiecesAfter([], buf[1..]) == rest;
  }

  lemma ByteExtendsPiece(buf: seq<Byte>, pending: seq<Byte>)
    requires buf != [] && buf[0] != Newline
    ensures PiecesAfter(pending, buf) == PiecesAfter(pending + [buf[0]], buf[1..])
  {
    var rest := Split(buf[1..], Newline);
    assert Split(buf, Newline) == [[buf[0]] + rest[0]] + rest[1..];
    assert pending + ([buf[0]] + rest[0]) == (pending + [buf[0]]) + rest[0];
  }

  /** The reference reading delivers the lines of its first pieces, in order, each piece
      shorter than 64 KiB. */
  lemma {:induction false} LinesOfPrefix(pieces: seq<seq<Byte>>)
    requires |pieces| >= 1
    ensures |LinesOf(pieces).lines| <= |pieces|
    ensures forall i :: 0 <= i < |LinesOf(pieces).lines| ==>
      LinesOf(pieces).lines[i] == Line(pieces[i]) && |pieces[i]| < MaxScanTokenSize
    decreases |pieces|
  {
    if |pieces[0]| < MaxScanTokenSize && |pieces| > 1 {
      var tail := pieces[1..];
      LinesOfPrefix(tail);
      var r, rest := LinesOf(pieces), LinesOf(tail);
      assert r.lines == [Line(pieces[0])] + rest.lines;
      forall i | 1 <= i < |r.lines|
        ensures r.lines[i] == Line(pieces[i]) && |pieces[i]| < MaxScanTokenSize
      {
        assert r.lines[i] == rest.lines[i - 1] && pieces[i] == tail[i - 1];
      }
    }
  }

  /** `ErrTooLong` is reported exactly when some piece reaches 64 KiB, and then the first
      such piece is the one right after the delivered lines. */
  lemma {:induction false} LinesOfTooLong(pieces: seq<seq<Byte>>)
    requires |pieces| >= 1
    ensures LinesOf(pieces).tooLong <==> exists i :: 0 <= i < |pieces| && |pieces[i]| >= MaxScanTokenSize
    ensures LinesOf(pieces).tooLong ==>
      |LinesOf(pieces).lines| < |pieces| && |pieces[|LinesOf(pieces).lines|]| >= MaxScanTokenSize
    decreases |pieces|
  {
    if |pieces[0]| < MaxScanTokenSize && |pieces| > 1 {
      var tail := pieces[1..];
      LinesOfTooLong(tail);
      var r, rest := LinesOf(pieces), LinesOf(tail);
      assert r.tooLong == rest.tooLong && |r.lines| == |rest.lines| + 1;
      if exists i :: 0 <= i < |pieces| && |pieces[i]| >= MaxScanTokenSize {
        var i :| 0 <= i < |pieces| && |pieces[i]| >= MaxScanTokenSize;
        assert tail[i - 1] == pieces[i];
      }
      if rest.tooLong {
        var i :| 0 <= i < |tail| && |tail[i]| >= MaxScanTokenSize;
        assert pieces[i + 1] == tail[i];
        assert pieces[|r.lines|] == tail[|rest.lines|];
      }
    }
  }

  /** Without `ErrTooLong`, every piece is a line except a last empty one. */
  lemma {:induction false} LinesOfCount(pieces: seq<seq<Byte>>)
    requires |pieces| >= 1
    ensures !LinesOf(pieces).tooLong ==>
      |LinesOf(pieces).lines| == if pieces[|pieces| - 1] == [] then |pieces| - 1 else |pieces|
    decreases |pieces|
  {
    if |pieces[0]| < MaxScanTokenSize && |pieces| > 1 {
      LinesOfCount(pieces[1..]);
      assert pieces[1..][|pieces| - 2] == pieces[|pieces| - 1];
    }
  }

  /** `ScanLines` on `buf` is the reference reading of `buf`'s '\n'-separated pieces, so
      `LinesOfPrefix`, `LinesOfTooLong` and `LinesOfCount` describe its lines and its
      error in terms of those pieces. */
  lemma ScanLinesPieces(buf: seq<Byte>)
    ensures ScanLines(buf) == LinesOf(Split(buf, Newline))
  {
    var pieces := Split(buf, Newline);
    ScanFromPieces(buf, []);
    assert [] + pieces[0] == pieces[0];
    assert PiecesAfter([], buf) == pieces;
  }

  lemma {:induction false} ScanFromShape(buf: seq<Byte>, pending: seq<Byte>)
    requires Newline !in pending
    ensures forall i :: 0 <= i < |ScanFrom(buf, pending).lines| ==>
      |ScanFrom(buf, pending).lines[i]| < MaxScanTokenSize && '\n' !in ScanFrom(buf, pending).lines[i]
    decreases |buf|
  {
    if |pending| < MaxScanTokenSize {
      var line := Line(pending);
      assert '\n' !in line by {
        forall j | 0 <= j < |line| ensures line[j] != '\n' {
          assert line[j] as int == pending[j] as int;
        }
      }
      if buf != [] && buf[0] == Newline {
        ScanFromShape(buf[1..], []);
      } else if buf != [] {
        ScanFromShape(buf[1..], pending + [buf[0]]);
      }
    }
  }

  /** Every delivered line fits the scanner's buffer and holds no '\n'. */
  lemma ScanLinesShape(buf: seq<Byte>)
    ensures forall i :: 0 <= i < |ScanLines(buf).lines| ==>
      |ScanLines(buf).lines[i]| < MaxScanTokenSize && '\n' !in ScanLines(buf).lines[i]
  {
    ScanFromShape(buf, []);
  }

  lemma {:induction false} ScanFromAppend(x: seq<Byte>, y: seq<Byte>, pending: seq<Byte>)
    requires |x| > 0 && x[|x| - 1] == Newline && !ScanFrom(x, pending).tooLong
    ensures ScanFrom(x + y, pending) == Lines(ScanFrom(x, pending).lines + ScanLines(y).lines, ScanLines(y).tooLong)
    decreases |x|
  {
    assert (x + y)[0] == x[0];
    assert (x + y)[1..] == x[1..] + y;
    if x[0] == Newline {
      if |x| == 1 {
        assert x[1..] + y == y;
      } else {
        ScanFromAppend(x[1..], y, []);
      }
    } else {
      ScanFromAppend(x[1..], y, pending + [x[0]]);
    }
  }

  /** Scanning is compositional at line boundaries: the lines of `x + y`, where `x` ends
      with '\n' and scans without error, are the lines of `x` followed by those of `y`. */
  lemma ScanLinesAppend(x: seq<Byte>, y: seq<Byte>)
    requires |x| > 0 && x[|x| - 1] == Newline && !ScanLines(x).tooLong
    ensures ScanLines(x + y) == Lines(ScanLines(x).lines + ScanLines(y).lines, ScanLines(y).tooLong)
  {
    ScanFromAppend(x, y, []);
  }
}

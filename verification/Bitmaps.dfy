/** How the BMP loader uses Bof_ReadGraphicFile. It passes the bits of a pixel where the bytes are
    expected, so that a line of the reader is eight rows of the bitmap, and it passes the header's
    height, which is the number of rows, negative for a top-down file, as a 32-bit number. */
module Bitmaps {
  import opened Basics
  import opened ImageRecords

  // ---- Lines and rows ------------------------------------------------------------------------------

  /** The loader's length of a row of pixels of `bytes` bytes, padded by the rest of the width. */
  function RowBytes(width: nat, bytes: nat): nat {
    width * bytes + if width % 4 == 0 then 0 else 4 - width % 4
  }

  /** The length of a line of the reader: the loader's width times its "bytes" per pixel, which are the
      bits. */
  function LineBytes(width: nat, bytes: nat, bits: nat): nat
    requires bytes > 0
  {
    RowBytes(width, bytes) / bytes * bits
  }

  lemma MulAtMost(a: nat, b: nat, c: nat)
    requires a <= b
    ensures a * c <= b * c
  {
  }

  lemma QuotientIs(q: nat, d: nat, r: nat)
    requires r < d
    ensures (q * d + r) / d == q
  {
    var x := q * d + r;
    var y := x / d;
    assert x == y * d + x % d;
    if y < q {
      MulAtMost(y + 1, q, d);
    } else if y > q {
      MulAtMost(q + 1, y, d);
    }
  }

  lemma AlignedRow(m: nat, bytes: nat)
    requires bytes > 0
    ensures RowBytes(4 * m, bytes) == 4 * (m * bytes)
    ensures (4 * m * (8 * bytes) + 31) / 32 * 4 == 4 * (m * bytes)
    ensures RowBytes(4 * m, bytes) / bytes == 4 * m
  {
    assert 4 * m * bytes == 4 * (m * bytes) && 4 * m * (8 * bytes) == 32 * (m * bytes);
    QuotientIs(4 * m, bytes, 0);
  }

  /** In a bitmap whose width is a multiple of four, or of one byte per pixel, the loader's row is the
      one of the file, padded to 32 bits, and a line of the reader is eight of them. */
  lemma LineIsEightRows(width: nat, bytes: nat)
    requires bytes > 0 && (width % 4 == 0 || bytes == 1)
    ensures RowBytes(width, bytes) == (width * (8 * bytes) + 31) / 32 * 4
    ensures LineBytes(width, bytes, 8 * bytes) == 8 * RowBytes(width, bytes)
  {
    if width % 4 == 0 {
      var m := width / 4;
      AlignedRow(m, bytes);
      assert 4 * m * (8 * bytes) == 8 * (4 * (m * bytes));
    }
  }

  /** The whole lines of the pixel data; what is left behind them is too short to be read as one. */
  function Cut(data: seq<bv8>, length: nat): seq<Line>
    requires length > 0
  {
    if |data| < length then [] else [data[..length]] + Cut(data[length..], length)
  }

  function Join(lines: seq<Line>): seq<bv8> {
    if lines == [] then [] else lines[0] + Join(lines[1..])
  }

  ghost predicate AllLong(lines: seq<Line>, length: nat) {
    forall i :: 0 <= i < |lines| ==> |lines[i]| == length
  }

  lemma TimesStep(k: nat, a: nat)
    requires k > 0
    ensures k * a == (k - 1) * a + a
  {
  }

  lemma {:induction false} JoinLength(lines: seq<Line>, length: nat)
    requires AllLong(lines, length)
    ensures |Join(lines)| == |lines| * length
  {
    if lines != [] {
      JoinLength(lines[1..], length);
      TimesStep(|lines|, length);
    }
  }

  /** The bytes of a bitmap of `rows` rows. */
  predicate IsBitmap(data: seq<bv8>, rows: nat, rowBytes: nat) {
    rowBytes > 0 && |data| == rows * rowBytes
  }

  lemma EightRows(rows: nat, rowBytes: nat)
    ensures rows >= 8 ==> rows * rowBytes == 8 * rowBytes + (rows - 8) * rowBytes
    ensures rows < 8 && rowBytes > 0 ==> rows * rowBytes < 8 * rowBytes
  {
    if rows >= 8 {
      assert rows * rowBytes == (8 + (rows - 8)) * rowBytes;
    }
  }

  /** A bitmap has an eighth of its rows as lines, all of one length; joined they are the bitmap exactly
      when the number of rows is a multiple of eight. */
  lemma {:induction false} CutBitmap(data: seq<bv8>, rows: nat, rowBytes: nat)
    requires IsBitmap(data, rows, rowBytes)
    ensures var lines := Cut(data, 8 * rowBytes);
      |lines| == rows / 8 && AllLong(lines, 8 * rowBytes) && (rows % 8 == 0 ==> Join(lines) == data)
    decreases rows
  {
    EightRows(rows, rowBytes);
    if rows >= 8 {
      var line := 8 * rowBytes;
      CutBitmap(data[line..], rows - 8, rowBytes);
      assert data == data[..line] + data[line..];
    }
  }

  // ---- Top-down bitmaps ----------------------------------------------------------------------------

  /** A negative number of rows on 32 bits. */
  function TopDownHeight(rows: nat): nat
    requires 0 < rows <= SIGN_BIT
  {
    U32_RANGE - rows
  }

  /** The first `n` records reach the end of the lines. */
  predicate ReachEnd(file: seq<Line>, lines: nat, n: nat) {
    if file == [] then n == 0 else Reach(file, lines, n)
  }

  lemma {:induction false} RecordsAreLines(file: seq<Line>, height: nat, lines: nat, n: nat, length: nat)
    requires AllLong(file, length)
    ensures AllLong(Records(file, height, lines, n), length)
  {
    if n > 0 {
      RecordsAreLines(file, height, lines, n - 1, length);
    }
  }

  lemma CancelRow(rows: nat, count: nat, rowBytes: nat)
    requires rowBytes > 0 && rows * rowBytes == count * (8 * rowBytes)
    ensures rows == 8 * count
  {
    assert count * (8 * rowBytes) == (8 * count) * rowBytes;
    if rows < 8 * count {
      MulLess(rows, 8 * count, rowBytes);
    } else if rows > 8 * count {
      MulLess(8 * count, rows, rowBytes);
    }
  }

  lemma MulLess(a: nat, b: nat, c: nat)
    requires a < b && c > 0
    ensures a * c < b * c
  {
  }

  lemma LinesInFull(file: seq<Line>, rows: nat, lines: nat, n: nat)
    requires 0 < rows < SIGN_BIT && |file| == rows / 8 && file != []
    requires 0 < lines <= TopDownHeight(rows) && Reach(file, lines, n)
    ensures Records(file, TopDownHeight(rows), lines, n) == file <==> n * lines == |file|
    ensures var read := Records(file, TopDownHeight(rows), lines, n);
      |read| <= |file| && (|read| == |file| ==> read == file)
  {
    OneMoreRecord(n, lines);
    MultipleIsZeroOrMore(n, lines);
    TopDownTilesIff(file, TopDownHeight(rows), lines, n);
  }

  /** A top-down bitmap is read in full exactly when its rows are a whole number of records and of
      lines: the last partial record runs into the end of the file, and rows behind the last line are
      never delivered. */
  lemma TopDownBitmapIff(data: seq<bv8>, rows: nat, rowBytes: nat, lines: nat, n: nat)
    requires IsBitmap(data, rows, rowBytes) && 0 < rows < SIGN_BIT
    requires 0 < lines <= TopDownHeight(rows) && ReachEnd(Cut(data, 8 * rowBytes), lines, n)
    ensures var file := Cut(data, 8 * rowBytes);
      Join(Records(file, TopDownHeight(rows), lines, n)) == data <==> rows == 8 * (n * lines)
  {
    var file := Cut(data, 8 * rowBytes);
    CutBitmap(data, rows, rowBytes);
    var read := Records(file, TopDownHeight(rows), lines, n);
    RecordsAreLines(file, TopDownHeight(rows), lines, n, 8 * rowBytes);
    JoinLength(read, 8 * rowBytes);
    if file != [] {
      LinesInFull(file, rows, lines, n);
    }
    if Join(read) == data {
      CancelRow(rows, |read|, rowBytes);
    }
  }

  /** The record behind the last one of a top-down bitmap is not refused: its read fails. */
  lemma TopDownBitmapPastEnd(file: seq<Line>, rows: nat, lines: nat, n: nat)
    requires 0 < rows < SIGN_BIT && |file| == rows / 8 && 0 < lines && |file| <= n * lines
    requires lines < SIGN_BIT && n * lines < SIGN_BIT
    ensures Record(file, true, TopDownHeight(rows), lines, n) == ReadError
  {
    if n > 0 {
      MultipleIsZeroOrMore(n, lines);
      PastEndRefusedIff(file, TopDownHeight(rows), lines, n);
    } else {
      TopDownWindow(TopDownHeight(rows), lines, 0);
    }
  }

  lemma RowsPerRecord(count: nat, rowBytes: nat)
    requires rowBytes > 0
    ensures count * rowBytes / (8 * rowBytes) == count / 8
  {
    var q, r := count / 8, count % 8;
    assert count * rowBytes == q * (8 * rowBytes) + r * rowBytes by {
      assert count * rowBytes == (8 * q + r) * rowBytes;
      assert 8 * q * rowBytes == q * (8 * rowBytes);
    }
    MulLess(r, 8, rowBytes);
    QuotientIs(q, 8 * rowBytes, r * rowBytes);
  }

  /** A top-down bitmap of 480 rows. Asked for 100 rows at a time, the reader takes 12 lines, which are
      96 rows, and five records are the whole bitmap; the sixth is not refused. Asked for 128 rows, it
      takes 16 lines, and the fourth record fails. */
  lemma Bitmap480(data: seq<bv8>, rowBytes: nat)
    requires IsBitmap(data, 480, rowBytes)
    ensures var file, height := Cut(data, 8 * rowBytes), TopDownHeight(480);
      && LinesPerRecord(100 * rowBytes, 8 * rowBytes, height) == 12
      && Join(Records(file, height, 12, 5)) == data && Record(file, true, height, 12, 5) == ReadError
      && LinesPerRecord(128 * rowBytes, 8 * rowBytes, height) == 16
      && Record(file, true, height, 16, 3) == ReadError && Join(Records(file, height, 16, 4)) != data
  {
    var file := Cut(data, 8 * rowBytes);
    CutBitmap(data, 480, rowBytes);
    RowsPerRecord(100, rowBytes);
    RowsPerRecord(128, rowBytes);
    TopDownBitmapIff(data, 480, rowBytes, 12, 5);
    TopDownBitmapIff(data, 480, rowBytes, 16, 4);
    TopDownBitmapPastEnd(file, 480, 12, 5);
    TopDownWindow(TopDownHeight(480), 16, 48);
  }

  /** The last four of 484 rows are never delivered, although every record of 12 lines succeeds. */
  lemma Bitmap484(data: seq<bv8>, rowBytes: nat)
    requires IsBitmap(data, 484, rowBytes)
    ensures var file, height := Cut(data, 8 * rowBytes), TopDownHeight(484);
      Records(file, height, 12, 5) == file && Join(file) != data && |data| == |Join(file)| + 4 * rowBytes
  {
    var file := Cut(data, 8 * rowBytes);
    CutBitmap(data, 484, rowBytes);
    LinesInFull(file, 484, 12, 5);
    JoinLength(file, 8 * rowBytes);
  }

  // ---- Bottom-up bitmaps ---------------------------------------------------------------------------

  /** An ordinary bitmap: the reader counts lines from a height that is eight times their number. A
      record inside that height fails exactly when it starts in front of the last eighth, and is never
      refused. */
  lemma BottomUpBitmapIff(file: seq<Line>, rows: nat, lines: nat, start: nat)
    requires 0 < rows < SIGN_BIT && |file| == rows / 8 && 0 < lines && start + lines <= rows
    ensures RecordAt(file, false, rows, lines, start) == ReadError <==> start < rows - rows / 8
    ensures RecordAt(file, false, rows, lines, start) != Refused
  {
    FullWindow(rows, lines, start);
  }

  /** So the first record of a bottom-up bitmap always fails, whatever its size. */
  lemma BottomUpBitmapFails(data: seq<bv8>, rows: nat, rowBytes: nat, lines: nat)
    requires IsBitmap(data, rows, rowBytes) && 0 < lines <= rows < SIGN_BIT
    ensures Record(Cut(data, 8 * rowBytes), false, rows, lines, 0) == ReadError
  {
    CutBitmap(data, rows, rowBytes);
    BottomUpBitmapIff(Cut(data, 8 * rowBytes), rows, lines, 0);
  }
}

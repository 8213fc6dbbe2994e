/** Bof_ReadGraphicFile: an image file is read record by record, each a window of whole lines. A
    top-down file is read as it stands, a bottom-up file from its end and with the lines of each
    record turned round. Lines are taken as units. The height is the 32-bit number of the file's
    header, which need not be the number of lines that the file holds. */
module ImageRecords {
  import opened Basics

  const SIGN_BIT := 0x8000_0000

  type Line = seq<bv8>

  /** The first line in the file and the number of lines to read. */
  datatype Window = Window(first: nat, count: nat)

  /** What a call delivers: the lines of the record, nothing because there is no such record
      (BOF_ERR_EINVAL), or nothing of use because the file ends first (BOF_ERR_READ). */
  datatype Outcome = Lines(lines: seq<Line>) | Refused | ReadError

  predicate Negative(x: nat) {
    x % U32_RANGE >= SIGN_BIT
  }

  function Least(a: nat, b: nat): nat {
    if a <= b then a else b
  }

  /** The length of a line, on 32 bits. */
  function WidthInByte(width: nat, bytePerPixel: nat): nat {
    width * bytePerPixel % U32_RANGE
  }

  /** How many lines a record of `size` bytes holds. */
  function LinesPerRecord(size: nat, widthInByte: nat, height: nat): nat
    requires widthInByte > 0
  {
    Least(size / widthInByte, height)
  }

  /** A line of 2^32 bytes counts as none: the length goes round. */
  lemma WidthGoesRound(width: nat)
    ensures WidthInByte(width + U32_RANGE, 1) == WidthInByte(width, 1) < U32_RANGE
  {
  }

  /** A record is the largest number of whole lines that fits its size, but never more than the height. */
  lemma RecordIsLargest(size: nat, width: nat, bytePerPixel: nat, height: nat)
    requires 0 < width * bytePerPixel < U32_RANGE
    ensures WidthInByte(width, bytePerPixel) == width * bytePerPixel
    ensures var line, lines := width * bytePerPixel, LinesPerRecord(size, width * bytePerPixel, height);
      && lines * line <= size && lines <= height
      && (lines < height ==> size < (lines + 1) * line)
  {
    LargestFit(size, width * bytePerPixel, height);
  }

  lemma LargestFit(size: nat, line: nat, height: nat)
    requires line > 0
    ensures var lines := LinesPerRecord(size, line, height);
      lines * line <= size && lines <= height && (lines < height ==> size < (lines + 1) * line)
  {
    var q := size / line;
    assert size == q * line + size % line;
    assert (q + 1) * line == q * line + line;
    if height < q {
      TimesMono(height, q, line);
    }
  }

  lemma TimesMono(a: nat, b: nat, c: nat)
    requires a <= b
    ensures a * c <= b * c
  {
  }

  /** Which lines the record covers whose lines start at number `start`, counted in the direction of
      the file; none when it is refused. Every sum is one of the program, on 32 bits. */
  function WindowAt(topDown: bool, height: nat, lines: nat, start: nat): Option<Window> {
    var w :=
      if topDown then
        var first := start % U32_RANGE;
        var cut := first < height && (first + lines) % U32_RANGE >= height;
        Window(first, if cut then height - first else lines)
      else
        var first := (height - (start + lines)) % U32_RANGE;
        if Negative(first) then Window(0, (height + first) % U32_RANGE) else Window(first, lines);
    if !Negative(w.first) && !Negative(w.count) && w.first < height then Some(w) else None
  }

  function Reverse(s: seq<Line>): (r: seq<Line>)
    ensures |r| == |s| && forall i :: 0 <= i < |s| ==> r[i] == s[|s| - 1 - i]
  {
    seq(|s|, i requires 0 <= i < |s| => s[|s| - 1 - i])
  }

  function RecordAt(file: seq<Line>, topDown: bool, height: nat, lines: nat, start: nat): Outcome {
    match WindowAt(topDown, height, lines, start)
    case None => Refused
    case Some(w) => ReadWindow(file, topDown, w)
  }

  function ReadWindow(file: seq<Line>, topDown: bool, w: Window): Outcome {
    if w.count == 0 then Lines([])
    else if w.first + w.count > |file| then ReadError
    else
      var read := file[w.first..w.first + w.count];
      Lines(if topDown then read else Reverse(read))
  }

  /** What a call for record `k` delivers. */
  function Record(file: seq<Line>, topDown: bool, height: nat, lines: nat, k: nat): Outcome {
    RecordAt(file, topDown, height, lines, k * lines)
  }

  /** A 32-bit height, and records of at least one line that are no longer than the image. */
  predicate Sized(height: nat, lines: nat) {
    0 < lines <= height < U32_RANGE
  }

  lemma MultipleIsZeroOrMore(k: nat, lines: nat)
    ensures k * lines == 0 || lines <= k * lines
    ensures k > 0 ==> lines <= k * lines
  {
  }

  /** A size below one line makes records of no lines: reading one delivers no lines from a top-down file
      and is refused for a bottom-up one below 2^31 lines. */
  lemma EmptyRecord(file: seq<Line>, height: nat, k: nat)
    requires 0 < height < U32_RANGE
    ensures Record(file, true, height, 0, k) == Lines([])
    ensures height < SIGN_BIT ==> Record(file, false, height, 0, k) == Refused
  {
    assert k * 0 == 0;
  }

  // ---- Top-down ------------------------------------------------------------------------------------

  /** The window of every top-down record. Where the sum of first line and length goes round, the
      record is longer than the program can handle. */
  lemma TopDownWindow(height: nat, lines: nat, start: nat)
    requires Sized(height, lines)
    ensures var first := start % U32_RANGE;
      WindowAt(true, height, lines, start) ==
        if first < Least(height, SIGN_BIT) && first + lines < U32_RANGE && Least(lines, height - first) < SIGN_BIT
        then Some(Window(first, Least(lines, height - first)))
        else None
  {
  }

  /** The lines of the record that starts at `start`, as far as the file goes. */
  function WantedDown(file: seq<Line>, lines: nat, start: nat): seq<Line>
    requires start <= |file|
  {
    file[start..Least(start + lines, |file|)]
  }

  lemma ReadDownIff(file: seq<Line>, first: nat, count: nat, end: nat)
    requires first < end <= |file| && count > 0
    ensures ReadWindow(file, true, Window(first, count)) == Lines(file[first..end]) <==> first + count == end
  {
    if first + count <= |file| {
      assert |file[first..first + count]| == count && |file[first..end]| == end - first;
    }
  }

  lemma TopDownAt(file: seq<Line>, height: nat, lines: nat, start: nat)
    requires Sized(height, lines) && start < |file| <= U32_RANGE && (start == 0 || lines <= start)
    ensures RecordAt(file, true, height, lines, start) == Lines(WantedDown(file, lines, start)) <==>
      && start < Least(height, SIGN_BIT) && lines < SIGN_BIT
      && Least(start + lines, height) == Least(start + lines, |file|)
  {
    TopDownWindow(height, lines, start);
    assert start % U32_RANGE == start;
    if start < Least(height, SIGN_BIT) && lines < SIGN_BIT {
      ReadDownIff(file, start, Least(lines, height - start), Least(start + lines, |file|));
    }
  }

  /** For every 32-bit height: a top-down record that starts inside the file is the wanted lines
      exactly when its first line is below 2^31 and inside the height, it has less than 2^31 lines, and
      the height and the file agree on where it ends. */
  lemma TopDownRecordIff(file: seq<Line>, height: nat, lines: nat, k: nat)
    requires Sized(height, lines) && k * lines < |file| <= U32_RANGE
    ensures var start := k * lines;
      Record(file, true, height, lines, k) == Lines(WantedDown(file, lines, start)) <==>
        && start < Least(height, SIGN_BIT) && lines < SIGN_BIT
        && Least(start + lines, height) == Least(start + lines, |file|)
  {
    MultipleIsZeroOrMore(k, lines);
    TopDownAt(file, height, lines, k * lines);
  }

  lemma PastEndAt(file: seq<Line>, height: nat, lines: nat, start: nat)
    requires Sized(height, lines) && |file| <= start && lines <= start < U32_RANGE
    ensures RecordAt(file, true, height, lines, start) ==
      if start >= Least(height, SIGN_BIT) then Refused else ReadError
  {
    TopDownWindow(height, lines, start);
  }

  /** A top-down record past the end of the file never delivers lines while line numbers fit in 32
      bits. It is refused exactly when it starts at or behind the height or 2^31; otherwise the read
      fails. */
  lemma PastEndRefusedIff(file: seq<Line>, height: nat, lines: nat, k: nat)
    requires Sized(height, lines) && k > 0 && |file| <= k * lines < U32_RANGE
    ensures Record(file, true, height, lines, k) ==
      if k * lines >= Least(height, SIGN_BIT) then Refused else ReadError
  {
    MultipleIsZeroOrMore(k, lines);
    PastEndAt(file, height, lines, k * lines);
  }

  /** Any record number, the line number taken on 32 bits. */
  lemma RefusedIff(file: seq<Line>, height: nat, lines: nat, k: nat)
    requires Sized(height, lines)
    ensures var first := k * lines % U32_RANGE;
      Record(file, true, height, lines, k) == Refused <==>
        first >= Least(height, SIGN_BIT) || first + lines >= U32_RANGE || Least(lines, height - first) >= SIGN_BIT
  {
    TopDownWindow(height, lines, k * lines);
  }

  lemma WrappedAt(file: seq<Line>, height: nat, lines: nat, start: nat)
    requires Sized(height, lines) && lines < SIGN_BIT && start < height + lines
    ensures start >= U32_RANGE ==> RecordAt(file, true, height, lines, start) != Refused
    ensures height <= start < U32_RANGE ==> RecordAt(file, true, height, lines, start) == Refused
  {
    TopDownWindow(height, lines, start);
  }

  /** With an honest height and records below 2^31 lines, the first record past the end is refused
      exactly when its line number has not gone round. */
  lemma FirstPastEndRefusedIff(file: seq<Line>, lines: nat, n: nat)
    requires Sized(|file|, lines) && lines < SIGN_BIT && |file| <= n * lines < |file| + lines
    ensures Record(file, true, |file|, lines, n) == Refused <==> n * lines < U32_RANGE
  {
    WrappedAt(file, |file|, lines, n * lines);
  }

  // ---- Top-down records one behind the other ---------------------------------------------------------

  function LinesOf(o: Outcome): seq<Line> {
    if o.Lines? then o.lines else []
  }

  /** The lines of the first `n` records, one behind the other. */
  function Records(file: seq<Line>, height: nat, lines: nat, n: nat): seq<Line> {
    if n == 0 then []
    else Records(file, height, lines, n - 1) + LinesOf(Record(file, true, height, lines, n - 1))
  }

  lemma OneMoreRecord(n: nat, lines: nat)
    requires n > 0
    ensures n * lines == (n - 1) * lines + lines
  {
  }

  lemma Grows(i: nat, n: nat, lines: nat)
    requires i <= n
    ensures i * lines <= n * lines
  {
  }

  /** A record delivers at most the wanted lines, and all of them only if it is the wanted one. */
  lemma AtMostWanted(file: seq<Line>, height: nat, lines: nat, start: nat)
    requires Sized(height, lines) && start < |file| <= U32_RANGE && (start == 0 || lines <= start)
    ensures var r, w := RecordAt(file, true, height, lines, start), WantedDown(file, lines, start);
      |LinesOf(r)| <= |w| && (|LinesOf(r)| == |w| ==> r == Lines(w))
  {
    TopDownWindow(height, lines, start);
    assert start % U32_RANGE == start;
    var window := WindowAt(true, height, lines, start);
    if window.Some? {
      ReadAtMost(file, start, window.value.count, lines);
    }
  }

  lemma ReadAtMost(file: seq<Line>, first: nat, count: nat, lines: nat)
    requires first < |file| && 0 < count <= lines
    ensures var r, w := ReadWindow(file, true, Window(first, count)), WantedDown(file, lines, first);
      |LinesOf(r)| <= |w| && (|LinesOf(r)| == |w| ==> r == Lines(w))
  {
    if first + count <= |file| {
      assert |file[first..first + count]| == count;
    }
  }

  /** The first `n` records have at most the lines in front of their end, and fewer when the record
      number `j` among them is not the wanted one. */
  lemma {:induction false} RecordsLength(file: seq<Line>, height: nat, lines: nat, n: nat, j: nat)
    requires Sized(height, lines) && |file| <= U32_RANGE && j * lines < |file|
    requires n > 0 ==> (n - 1) * lines < |file|
    ensures |Records(file, height, lines, n)| <= Least(n * lines, |file|)
    ensures j < n && Record(file, true, height, lines, j) != Lines(WantedDown(file, lines, j * lines)) ==>
      |Records(file, height, lines, n)| < Least(n * lines, |file|)
  {
    if n > 0 {
      OneMoreRecord(n, lines);
      if n > 1 {
        OneMoreRecord(n - 1, lines);
      }
      RecordsLength(file, height, lines, n - 1, j);
      MultipleIsZeroOrMore(n - 1, lines);
      AtMostWanted(file, height, lines, (n - 1) * lines);
    }
  }

  lemma NextTile(file: seq<Line>, lines: nat, start: nat)
    requires start <= |file|
    ensures file[..start] + WantedDown(file, lines, start) == file[..Least(start + lines, |file|)]
  {
  }

  lemma {:induction false} RightRecordsTile(file: seq<Line>, height: nat, lines: nat, n: nat)
    requires n > 0 ==> (n - 1) * lines < |file|
    requires forall k: nat :: k < n && k * lines < |file| ==>
      Record(file, true, height, lines, k) == Lines(WantedDown(file, lines, k * lines))
    ensures Records(file, height, lines, n) == file[..Least(n * lines, |file|)]
  {
    if n > 0 {
      OneMoreRecord(n, lines);
      if n > 1 {
        OneMoreRecord(n - 1, lines);
      }
      RightRecordsTile(file, height, lines, n - 1);
      assert Least((n - 1) * lines, |file|) == (n - 1) * lines;
      NextTile(file, lines, (n - 1) * lines);
    }
  }

  /** The records 0, 1, ..., n - 1 reach the end of the file, the last of them starting inside it. */
  predicate Reach(file: seq<Line>, lines: nat, n: nat) {
    n > 0 && (n - 1) * lines < |file| <= n * lines
  }

  /** The header is right, or it is too high but the records end where the file does. */
  predicate HeightFits(file: seq<Line>, height: nat, lines: nat, n: nat) {
    height == |file| || (height > |file| && n * lines == |file|)
  }

  lemma EndsAgree(total: nat, height: nat, lines: nat, start: nat, last: nat)
    requires start == last || start + lines <= last
    requires last < total <= last + lines
    requires height == total || (height > total && last + lines == total)
    ensures start < height && Least(start + lines, height) == Least(start + lines, total)
  {
  }

  lemma FitsMakesRight(file: seq<Line>, height: nat, lines: nat, n: nat, k: nat)
    requires Sized(height, lines) && |file| <= U32_RANGE && Reach(file, lines, n) && k < n
    requires HeightFits(file, height, lines, n) && lines < SIGN_BIT && (n - 1) * lines < SIGN_BIT
    ensures k * lines < |file|
    ensures Record(file, true, height, lines, k) == Lines(WantedDown(file, lines, k * lines))
  {
    OneMoreRecord(n, lines);
    Grows(k, n - 1, lines);
    if k < n - 1 {
      OneMoreRecord(k + 1, lines);
      Grows(k + 1, n - 1, lines);
    }
    EndsAgree(|file|, height, lines, k * lines, (n - 1) * lines);
    TopDownRecordIff(file, height, lines, k);
  }

  /** For every 32-bit height: the top-down records 0, 1, 2, ... are the lines of the file in order,
      each exactly once, if and only if no record and no record start exceeds 31 bits and the height
      is right, or too high for a file that is a whole number of records. */
  lemma TopDownTilesIff(file: seq<Line>, height: nat, lines: nat, n: nat)
    requires Sized(height, lines) && |file| <= U32_RANGE && Reach(file, lines, n)
    ensures Records(file, height, lines, n) == file <==>
      lines < SIGN_BIT && (n - 1) * lines < SIGN_BIT && HeightFits(file, height, lines, n)
    ensures Records(file, height, lines, n) != file ==> |Records(file, height, lines, n)| < |file|
  {
    if lines < SIGN_BIT && (n - 1) * lines < SIGN_BIT && HeightFits(file, height, lines, n) {
      forall k: nat | k < n && k * lines < |file|
        ensures Record(file, true, height, lines, k) == Lines(WantedDown(file, lines, k * lines))
      {
        FitsMakesRight(file, height, lines, n, k);
      }
      RightRecordsTile(file, height, lines, n);
      assert file[..|file|] == file;
    } else {
      OneMoreRecord(n, lines);
      TopDownRecordIff(file, height, lines, n - 1);
      RecordsLength(file, height, lines, n, n - 1);
    }
  }

  /** Below 2^31 lines an honest header gives the whole image, and the next record is refused. */
  lemma TopDownCovers(file: seq<Line>, lines: nat, n: nat)
    requires 0 < lines <= |file| < SIGN_BIT && Reach(file, lines, n)
    ensures Records(file, |file|, lines, n) == file && Record(file, true, |file|, lines, n) == Refused
  {
    OneMoreRecord(n, lines);
    TopDownTilesIff(file, |file|, lines, n);
    FirstPastEndRefusedIff(file, lines, n);
  }

  // ---- Bottom-up -------------------------------------------------------------------------------------

  /** The record of the image with its lines turned round that starts at line `start`. */
  function Wanted(file: seq<Line>, lines: nat, start: nat): seq<Line>
    requires start <= |file|
  {
    Reverse(file)[start..Least(start + lines, |file|)]
  }

  lemma SliceOfReverse(s: seq<Line>, a: nat, b: nat)
    requires a <= b <= |s|
    ensures Reverse(s)[a..b] == Reverse(s[|s| - b..|s| - a])
  {
    var left, right := Reverse(s)[a..b], Reverse(s[|s| - b..|s| - a]);
    forall i | 0 <= i < b - a ensures left[i] == right[i] {
      assert left[i] == Reverse(s)[a + i] == s[|s| - 1 - (a + i)];
    }
  }

  /** A bottom-up record inside the image, for every 32-bit height. When it lies 2^31 lines or more
      behind the start of the file, its first line is taken for a negative number. */
  lemma FullWindow(height: nat, lines: nat, start: nat)
    requires Sized(height, lines) && start + lines <= height
    ensures var first := height - start - lines;
      WindowAt(false, height, lines, start) ==
        if first < SIGN_BIT then (if lines < SIGN_BIT then Some(Window(first, lines)) else None)
        else if (height + first) % U32_RANGE < SIGN_BIT then Some(Window(0, (height + first) % U32_RANGE))
        else None
  {
  }

  /** In the last record of an image that it does not fill, the program counts the lines to read from
      the height of the image instead of the record. */
  lemma PartialWindow(height: nat, lines: nat, start: nat)
    requires Sized(height, lines) && start < height < start + lines
    ensures var count := 2 * height - start - lines;
      WindowAt(false, height, lines, start) ==
        if start + lines - height <= SIGN_BIT && 0 <= count < SIGN_BIT then Some(Window(0, count)) else None
  {
    var first := height - (start + lines);
    assert first % U32_RANGE == first + U32_RANGE;
  }

  lemma BottomUpAt(file: seq<Line>, lines: nat, start: nat)
    requires Sized(|file|, lines) && |file| < SIGN_BIT && start < |file| && (start == 0 || lines <= start)
    ensures RecordAt(file, false, |file|, lines, start) == Lines(Wanted(file, lines, start)) <==>
      start + lines <= |file|
  {
    if start + lines <= |file| {
      FullWindow(|file|, lines, start);
      SliceOfReverse(file, start, start + lines);
    } else {
      PartialWindow(|file|, lines, start);
    }
  }

  /** Below 2^31 lines: a bottom-up record that starts inside the image is the same record of the
      reversed image exactly when it also ends inside it. */
  lemma BottomUpRecordIff(file: seq<Line>, lines: nat, k: nat)
    requires Sized(|file|, lines) && |file| < SIGN_BIT && k * lines < |file|
    ensures Record(file, false, |file|, lines, k) == Lines(Wanted(file, lines, k * lines)) <==>
      k * lines + lines <= |file|
  {
    MultipleIsZeroOrMore(k, lines);
    BottomUpAt(file, lines, k * lines);
  }

  /** The record is the wanted one whatever the lines hold. */
  ghost predicate AlwaysRight(height: nat, lines: nat, start: nat)
    requires start <= height
  {
    forall file: seq<Line> :: |file| == height ==>
      RecordAt(file, false, height, lines, start) == Lines(Wanted(file, lines, start))
  }

  /** An image whose lines all differ. */
  ghost function Stripes(height: nat): (file: seq<Line>)
    ensures |file| == height && forall i :: 0 <= i < height ==> |file[i]| == i
  {
    seq(height, i requires 0 <= i < height => seq(i, _ => 0))
  }

  /** In such an image only the wanted window gives the wanted lines. */
  lemma StripesTell(height: nat, lines: nat, start: nat, w: Window)
    requires 0 < lines && start < height
    requires ReadWindow(Stripes(height), false, w) == Lines(Wanted(Stripes(height), lines, start))
    ensures w.count == Least(lines, height - start) && w.first + w.count == height - start
  {
    var file, wanted := Stripes(height), Wanted(Stripes(height), lines, start);
    assert |wanted| == Least(lines, height - start) > 0;
    assert wanted[0] == Reverse(file)[start] == file[height - 1 - start];
    var part := file[w.first..w.first + w.count];
    assert Reverse(part) == wanted && Reverse(part)[0] == part[|part| - 1] == file[w.first + w.count - 1];
  }

  lemma WindowIsWanted(height: nat, lines: nat, start: nat)
    requires Sized(height, lines) && start < height && (start == 0 || lines <= start)
    ensures var count := Least(lines, height - start);
      WindowAt(false, height, lines, start) == Some(Window(height - start - count, count)) <==>
        start + lines <= height && height - start - lines < SIGN_BIT && lines < SIGN_BIT
  {
    if start + lines <= height {
      FullWindow(height, lines, start);
    } else {
      PartialWindow(height, lines, start);
    }
  }

  /** For every 32-bit height: a bottom-up record is the same record of the reversed image, whatever the
      image, exactly when it ends inside it, lies less than 2^31 lines behind the start of the file and
      has less than 2^31 lines. */
  lemma BottomUpRightIff(height: nat, lines: nat, k: nat)
    requires Sized(height, lines) && k * lines < height
    ensures AlwaysRight(height, lines, k * lines) <==>
      k * lines + lines <= height && height - k * lines - lines < SIGN_BIT && lines < SIGN_BIT
  {
    MultipleIsZeroOrMore(k, lines);
    BottomUpRightAt(height, lines, k * lines);
  }

  lemma RightWindow(file: seq<Line>, lines: nat, start: nat)
    requires 0 < lines && start + lines <= |file|
    ensures ReadWindow(file, false, Window(|file| - start - lines, lines)) == Lines(Wanted(file, lines, start))
  {
    SliceOfReverse(file, start, start + lines);
  }

  lemma WantedWindowIsRight(height: nat, lines: nat, start: nat)
    requires 0 < lines && start + lines <= height
    requires WindowAt(false, height, lines, start) == Some(Window(height - start - lines, lines))
    ensures AlwaysRight(height, lines, start)
  {
    forall file: seq<Line> | |file| == height
      ensures RecordAt(file, false, height, lines, start) == Lines(Wanted(file, lines, start))
    {
      RightWindow(file, lines, start);
    }
  }

  lemma RightNeedsWindow(height: nat, lines: nat, start: nat, window: Option<Window>)
    requires 0 < lines && start < height && window == WindowAt(false, height, lines, start)
    requires RecordAt(Stripes(height), false, height, lines, start) == Lines(Wanted(Stripes(height), lines, start))
    ensures var count := Least(lines, height - start); window == Some(Window(height - start - count, count))
  {
    StripesTell(height, lines, start, window.value);
  }

  lemma BottomUpRightAt(height: nat, lines: nat, start: nat)
    requires Sized(height, lines) && start < height && (start == 0 || lines <= start)
    ensures AlwaysRight(height, lines, start) <==>
      start + lines <= height && height - start - lines < SIGN_BIT && lines < SIGN_BIT
  {
    var window := WindowAt(false, height, lines, start);
    WindowIsWanted(height, lines, start);
    if start + lines <= height && height - start - lines < SIGN_BIT && lines < SIGN_BIT {
      WantedWindowIsRight(height, lines, start);
    } else if AlwaysRight(height, lines, start) {
      RightNeedsWindow(height, lines, start, window);
    }
  }

  /** A bottom-up record that starts past the end: refused exactly when it lies more than the height
      behind the end, or when a number involved does not fit in 31 bits. */
  lemma BottomUpPastEnd(height: nat, lines: nat, start: nat)
    requires Sized(height, lines) && height <= start && start + lines < U32_RANGE
    ensures WindowAt(false, height, lines, start).None? <==>
      start + lines > 2 * height || start + lines > height + SIGN_BIT || 2 * height - (start + lines) >= SIGN_BIT
  {
    var first := height - (start + lines);
    assert first % U32_RANGE == first + U32_RANGE;
  }

  // ---- The method ------------------------------------------------------------------------------------

  /** The bottom-up loop: a row pointer that starts at the last line of the record and goes down, until
      the file ends. */
  method ReadUp(file: seq<Line>, w: Window, data: array<Line>) returns (ok: bool)
    requires w.count <= data.Length
    modifies data
    ensures ok <==> w.count == 0 || w.first + w.count <= |file|
    ensures ok && w.count > 0 ==> data[..w.count] == Reverse(file[w.first..w.first + w.count])
  {
    var n: int, i := w.count, 0;
    var p := n - 1;
    while i < n && w.first + i < |file|
      invariant 0 <= i <= n && p == n - 1 - i && (i > 0 ==> w.first + i <= |file|)
      invariant forall j :: n - i <= j < n ==> data[j] == file[w.first + (n - 1 - j)]
    {
      data[p] := file[w.first + i];
      p := p - 1;
      i := i + 1;
    }
    ok := i == n;
  }

  /** The top-down read: one call for all lines. */
  method ReadDown(file: seq<Line>, w: Window, data: array<Line>) returns (ok: bool)
    requires w.count <= data.Length
    modifies data
    ensures ok <==> w.count == 0 || w.first + w.count <= |file|
    ensures ok && w.count > 0 ==> data[..w.count] == file[w.first..w.first + w.count]
  {
    ok := w.count == 0 || w.first + w.count <= |file|;
    if ok {
      forall i | 0 <= i < w.count {
        data[i] := file[w.first + i];
      }
    }
  }

  /** Bof_ReadGraphicFile: `data` receives the lines of record `k`, for records of `size` bytes. */
  method ReadGraphicFile(
      file: seq<Line>, topDown: bool, bytePerPixel: nat, width: nat, height: nat, size: nat, k: nat,
      data: array<Line>)
    returns (r: Outcome)
    requires WidthInByte(width, bytePerPixel) > 0 && height < U32_RANGE
    requires var lines := LinesPerRecord(size, WidthInByte(width, bytePerPixel), height);
      var w := WindowAt(topDown, height, lines, k * lines);
      w.Some? ==> w.value.count <= data.Length
    modifies data
    ensures var lines := LinesPerRecord(size, WidthInByte(width, bytePerPixel), height);
      r == Record(file, topDown, height, lines, k)
    ensures r.Lines? ==> |r.lines| <= data.Length && data[..|r.lines|] == r.lines
  {
    var lines := LinesPerRecord(size, WidthInByte(width, bytePerPixel), height);
    var window := WindowAt(topDown, height, lines, k * lines);
    match window {
      case None => r := Refused;
      case Some(w) => r := ReadIn(file, topDown, w, data);
    }
  }

  method ReadIn(file: seq<Line>, topDown: bool, w: Window, data: array<Line>) returns (r: Outcome)
    requires w.count <= data.Length
    modifies data
    ensures r == ReadWindow(file, topDown, w)
    ensures r.Lines? ==> |r.lines| <= data.Length && data[..|r.lines|] == r.lines
  {
    var ok;
    if topDown {
      ok := ReadDown(file, w, data);
    } else {
      ok := ReadUp(file, w, data);
    }
    r := if ok then Lines(data[..w.count]) else ReadError;
  }
}

/** The line chunker: overlapping windows over the lines of a document, each under a character limit. */
module Chunker {
  import opened Prelude
  import opened Unicode

  /** Text as the program measures it: a sequence of UTF-16 units. */
  type Text = seq<Unit>

  const LINE_FEED: Unit := 0x0A

  /** Lines `start` up to but not including `end`, counted from zero. */
  datatype Window = Window(start: nat, end: nat)

  /** An emitted chunk with its one-based, inclusive line locator. */
  datatype Chunk = Chunk(text: Text, lineStart: nat, lineEnd: nat)

  // ---------------------------------------------------------------------------------------------
  // Text

  /** The units that trimming removes: white space and line terminators. */
  predicate IsSpace(u: Unit) {
    || 0x09 <= u <= 0x0D || u == 0x20 || u == 0xA0 || u == 0x1680 || 0x2000 <= u <= 0x200A
    || u == 0x2028 || u == 0x2029 || u == 0x202F || u == 0x205F || u == 0x3000 || u == 0xFEFF
  }

  predicate Blank(text: Text) {
    forall i :: 0 <= i < |text| ==> IsSpace(text[i])
  }

  function Join(lines: seq<Text>): Text {
    if lines == [] then []
    else if |lines| == 1 then lines[0]
    else lines[0] + [LINE_FEED] + Join(lines[1..])
  }

  /** Characters of lines `lo` up to `hi`, each with its line break. */
  function Span(lines: seq<Text>, lo: nat, hi: nat): nat
    requires lo <= hi <= |lines|
    decreases hi - lo
  {
    if lo == hi then 0 else |lines[lo]| + 1 + Span(lines, lo + 1, hi)
  }

  // ---------------------------------------------------------------------------------------------
  // Specification of the loops

  /** The inner loop that extends a window while the next line still fits. */
  function Extend(lines: seq<Text>, end: nat, length: int, limit: int): (r: nat)
    requires end <= |lines|
    ensures end <= r <= |lines|
    decreases |lines| - end
  {
    if end < |lines| && length + |lines[end]| + 1 <= limit then Extend(lines, end + 1, length + |lines[end]| + 1, limit) else end
  }

  function WindowEnd(lines: seq<Text>, start: nat, limit: int): (r: nat)
    requires start < |lines|
    ensures start < r <= |lines|
  {
    var end := Extend(lines, start, 0, limit);
    if end == start then start + 1 else end
  }

  /** The inner loop that steps back from the end of a window until the overlap is reached. */
  function StepBack(lines: seq<Text>, start: nat, next: nat, overlap: int, wanted: int): (r: nat)
    requires start < next <= |lines|
    ensures start < r <= next
    decreases next
  {
    if next > start + 1 && overlap < wanted then StepBack(lines, start, next - 1, overlap + |lines[next - 1]| + 1, wanted) else next
  }

  function NextStart(lines: seq<Text>, w: Window, wanted: int): (r: nat)
    requires w.start < w.end <= |lines|
    ensures w.start < r <= w.end
  {
    StepBack(lines, w.start, w.end, 0, wanted)
  }

  predicate Inside(lines: seq<Text>, w: Window) { w.start < w.end <= |lines| }

  function Windows(lines: seq<Text>, start: nat, limit: int, wanted: int): (r: seq<Window>)
    requires start < |lines|
    ensures forall i :: 0 <= i < |r| ==> Inside(lines, r[i])
    decreases |lines| - start
  {
    var w := Window(start, WindowEnd(lines, start, limit));
    if w.end >= |lines| then [w] else [w] + Windows(lines, NextStart(lines, w, wanted), limit, wanted)
  }

  function AllWindows(lines: seq<Text>, limit: int, wanted: int): (r: seq<Window>)
    ensures forall i :: 0 <= i < |r| ==> Inside(lines, r[i])
  {
    if lines == [] then [] else Windows(lines, 0, limit, wanted)
  }

  function ChunkOf(lines: seq<Text>, w: Window): Chunk
    requires w.start <= w.end <= |lines|
  {
    Chunk(Join(lines[w.start..w.end]), w.start + 1, w.end)
  }

  function Emit(lines: seq<Text>, windows: seq<Window>): seq<Chunk>
    requires forall i :: 0 <= i < |windows| ==> Inside(lines, windows[i])
  {
    if windows == [] then []
    else
      assert Inside(lines, windows[0]);
      Piece(lines, windows[0].start, windows[0].end) + Emit(lines, windows[1..])
  }

  /** The chunk of a window, unless it is blank. */
  function Piece(lines: seq<Text>, start: nat, end: nat): seq<Chunk>
    requires start <= end <= |lines|
  {
    var text := Join(lines[start..end]);
    if Blank(text) then [] else [Chunk(text, start + 1, end)]
  }

  /** What the outer loop emits from `start` on. */
  function Chunks(lines: seq<Text>, start: nat, limit: int, wanted: int): seq<Chunk>
    requires start < |lines|
    decreases |lines| - start
  {
    var end := WindowEnd(lines, start, limit);
    Piece(lines, start, end) +
    (if end >= |lines| then [] else Chunks(lines, NextStart(lines, Window(start, end), wanted), limit, wanted))
  }

  function AllChunks(lines: seq<Text>, limit: int, wanted: int): seq<Chunk> {
    if lines == [] then [] else Chunks(lines, 0, limit, wanted)
  }

  // ---------------------------------------------------------------------------------------------
  // The loops themselves

  method ExtendWindow(lines: seq<Text>, start: nat, limit: int) returns (end: nat)
    requires start < |lines|
    ensures end == WindowEnd(lines, start, limit)
  {
    end := start;
    var length := 0;
    while end < |lines| && length + |lines[end]| + 1 <= limit
      invariant start <= end <= |lines|
      invariant Extend(lines, end, length, limit) == Extend(lines, start, 0, limit)
    {
      length := length + |lines[end]| + 1;
      end := end + 1;
    }
    if end == start {
      end := end + 1;
    }
  }

  method Overlapping(lines: seq<Text>, w: Window, wanted: int) returns (next: nat)
    requires Inside(lines, w)
    ensures next == NextStart(lines, w, wanted)
  {
    var overlap := 0;
    next := w.end;
    while next > w.start + 1 && overlap < wanted
      invariant w.start < next <= w.end
      invariant StepBack(lines, w.start, next, overlap, wanted) == StepBack(lines, w.start, w.end, 0, wanted)
    {
      next := next - 1;
      overlap := overlap + |lines[next]| + 1;
    }
  }

  /** What is emitted so far and what the windows from `start` on emit make the whole. */
  ghost predicate Remains(lines: seq<Text>, result: seq<Chunk>, start: nat, limit: int, wanted: int) {
    if start < |lines| then result + Chunks(lines, start, limit, wanted) == AllChunks(lines, limit, wanted)
    else result == AllChunks(lines, limit, wanted)
  }

  lemma RemainsTurn(lines: seq<Text>, result: seq<Chunk>, start: nat, limit: int, wanted: int)
    requires start < |lines| && Remains(lines, result, start, limit, wanted)
    ensures
      var end := WindowEnd(lines, start, limit);
      var next := if end >= |lines| then |lines| else NextStart(lines, Window(start, end), wanted);
      Remains(lines, result + Piece(lines, start, end), next, limit, wanted)
  {
    var end := WindowEnd(lines, start, limit);
    var piece := Piece(lines, start, end);
    if end >= |lines| {
      assert result + (piece + []) == result + piece;
    } else {
      var rest := Chunks(lines, NextStart(lines, Window(start, end), wanted), limit, wanted);
      assert result + (piece + rest) == result + piece + rest;
    }
  }

  method ExtractChunks(lines: seq<Text>, limit: int, wanted: int) returns (result: seq<Chunk>)
    ensures result == AllChunks(lines, limit, wanted)
  {
    result := [];
    var start := 0;
    assert Remains(lines, result, start, limit, wanted);
    while start < |lines|
      invariant start <= |lines|
      invariant Remains(lines, result, start, limit, wanted)
      decreases |lines| - start
    {
      RemainsTurn(lines, result, start, limit, wanted);
      var end := ExtendWindow(lines, start, limit);
      var value := Join(lines[start..end]);
      ghost var before := result;
      if !Blank(value) {
        result := result + [Chunk(value, start + 1, end)];
      }
      assert result == before + Piece(lines, start, end);
      if end >= |lines| {
        break;
      }
      start := Overlapping(lines, Window(start, end), wanted);
    }
  }

  // ---------------------------------------------------------------------------------------------
  // What the windows are

  lemma {:induction false} SpanSplit(lines: seq<Text>, lo: nat, mid: nat, hi: nat)
    requires lo <= mid <= hi <= |lines|
    ensures Span(lines, lo, hi) == Span(lines, lo, mid) + Span(lines, mid, hi)
    decreases mid - lo
  {
    if lo < mid { SpanSplit(lines, lo + 1, mid, hi); }
  }

  /** Extension stops exactly at the last line that fits. */
  lemma {:induction false} ExtendExact(lines: seq<Text>, start: nat, end: nat, limit: int)
    requires start <= end <= |lines| && (end > start ==> Span(lines, start, end) <= limit)
    ensures
      var r := Extend(lines, end, Span(lines, start, end), limit);
      && (r > start ==> Span(lines, start, r) <= limit)
      && (r < |lines| ==> Span(lines, start, r + 1) > limit)
    decreases |lines| - end
  {
    if end < |lines| {
      SpanSplit(lines, start, end, end + 1);
      if Span(lines, start, end + 1) <= limit { ExtendExact(lines, start, end + 1, limit); }
    }
  }

  /** A window is under the limit or a single line, and taking one more line would exceed the limit. */
  lemma WindowEndExact(lines: seq<Text>, start: nat, limit: int)
    requires start < |lines|
    ensures
      var end := WindowEnd(lines, start, limit);
      && (Span(lines, start, end) <= limit || end == start + 1)
      && (end < |lines| ==> Span(lines, start, end + 1) > limit)
  {
    ExtendExact(lines, start, start, limit);
    var end := Extend(lines, start, 0, limit);
    if end == start && start + 1 < |lines| {
      SpanSplit(lines, start, start + 1, start + 2);
    }
  }

  /** Stepping back stops as soon as the overlap is reached, or keeps all but the first line. */
  lemma {:induction false} StepBackExact(lines: seq<Text>, start: nat, next: nat, end: nat, wanted: int)
    requires start < next <= end <= |lines|
    requires next < end ==> Span(lines, next + 1, end) < wanted
    ensures
      var r := StepBack(lines, start, next, Span(lines, next, end), wanted);
      && (Span(lines, r, end) >= wanted || r == start + 1)
      && (r < end ==> Span(lines, r + 1, end) < wanted)
    decreases next
  {
    if next > start + 1 && Span(lines, next, end) < wanted {
      SpanSplit(lines, next - 1, next, end);
      StepBackExact(lines, start, next - 1, end, wanted);
    }
  }

  /** A later start never ends earlier: what fitted after the earlier start still fits. */
  lemma {:induction false} ExtendReaches(lines: seq<Text>, start: nat, end: nat, target: nat, limit: int)
    requires start <= end <= target <= |lines| && Span(lines, start, target) <= limit
    ensures Extend(lines, end, Span(lines, start, end), limit) >= target
    decreases target - end
  {
    if end < target {
      SpanSplit(lines, start, end, end + 1);
      SpanSplit(lines, start, end + 1, target);
      ExtendReaches(lines, start, end + 1, target, limit);
    }
  }

  lemma EndsDoNotDecrease(lines: seq<Text>, w: Window, limit: int, next: nat)
    requires w.start < |lines| && w.end == WindowEnd(lines, w.start, limit) && w.start < next <= w.end && next < |lines|
    ensures WindowEnd(lines, next, limit) >= w.end
  {
    WindowEndExact(lines, w.start, limit);
    if next < w.end {
      SpanSplit(lines, w.start, next, w.end);
      ExtendReaches(lines, next, next, w.end, limit);
    }
  }

  ghost predicate GoodWindow(lines: seq<Text>, w: Window, limit: int) {
    && Inside(lines, w)
    && (Span(lines, w.start, w.end) <= limit || w.end == w.start + 1)
    && (w.end < |lines| ==> Span(lines, w.start, w.end + 1) > limit)
  }

  ghost predicate GoodPair(lines: seq<Text>, a: Window, b: Window, wanted: int) {
    && Inside(lines, a) && a.start < b.start <= a.end <= b.end
    && (Span(lines, b.start, a.end) >= wanted || b.start == a.start + 1)
    && (b.start < a.end ==> Span(lines, b.start + 1, a.end) < wanted)
  }

  /**
   From the first line to the last: windows leave no gap, start strictly later each time, never end
   earlier, are as long as the limit allows, and share just enough lines to reach the overlap.
   */
  lemma {:induction false} WindowsCover(lines: seq<Text>, start: nat, limit: int, wanted: int)
    requires start < |lines|
    ensures
      var ws := Windows(lines, start, limit, wanted);
      && ws != [] && ws[0].start == start && ws[|ws| - 1].end == |lines|
      && (forall i :: 0 <= i < |ws| ==> GoodWindow(lines, ws[i], limit))
      && (forall i :: 0 <= i < |ws| - 1 ==> GoodPair(lines, ws[i], ws[i + 1], wanted))
    decreases |lines| - start
  {
    var w := Window(start, WindowEnd(lines, start, limit));
    WindowEndExact(lines, start, limit);
    if w.end < |lines| {
      var next := NextStart(lines, w, wanted);
      var rest := Windows(lines, next, limit, wanted);
      var ws := Windows(lines, start, limit, wanted);
      WindowsCover(lines, next, limit, wanted);
      EndsDoNotDecrease(lines, w, limit, next);
      StepBackExact(lines, w.start, w.end, w.end, wanted);
      assert ws == [w] + rest;
      assert rest[0] == Window(next, WindowEnd(lines, next, limit));
      assert GoodPair(lines, w, rest[0], wanted);
      forall i | 0 <= i < |ws| - 1 ensures GoodPair(lines, ws[i], ws[i + 1], wanted) {
        if i > 0 { assert ws[i] == rest[i - 1] && ws[i + 1] == rest[i]; }
      }
    }
  }

  /** Every line lies in some window. */
  lemma {:induction false} LineIsCovered(lines: seq<Text>, start: nat, limit: int, wanted: int, line: nat) returns (i: nat)
    requires start <= line < |lines|
    ensures i < |Windows(lines, start, limit, wanted)|
    ensures Windows(lines, start, limit, wanted)[i].start <= line < Windows(lines, start, limit, wanted)[i].end
    decreases |lines| - start
  {
    var w := Window(start, WindowEnd(lines, start, limit));
    if line < w.end {
      i := 0;
    } else {
      var rest := LineIsCovered(lines, NextStart(lines, w, wanted), limit, wanted, line);
      i := rest + 1;
    }
  }

  // ---------------------------------------------------------------------------------------------
  // What is emitted

  lemma {:induction false} JoinShows(lines: seq<Text>, k: nat)
    requires k < |lines| && !Blank(lines[k])
    ensures !Blank(Join(lines))
  {
    if |lines| > 1 {
      var head := lines[0] + [LINE_FEED];
      assert Join(lines) == head + Join(lines[1..]);
      if k == 0 {
        var i :| 0 <= i < |lines[0]| && !IsSpace(lines[0][i]);
        assert Join(lines)[i] == lines[0][i];
      } else {
        assert lines[1..][k - 1] == lines[k];
        JoinShows(lines[1..], k - 1);
        var i :| 0 <= i < |Join(lines[1..])| && !IsSpace(Join(lines[1..])[i]);
        assert Join(lines)[|head| + i] == Join(lines[1..])[i];
      }
    }
  }

  lemma PartShows(lines: seq<Text>, start: nat, end: nat, k: nat)
    requires start <= k < end <= |lines| && !Blank(lines[k])
    ensures !Blank(Join(lines[start..end]))
  {
    JoinShows(lines[start..end], k - start);
  }

  lemma {:induction false} EmitExact(lines: seq<Text>, windows: seq<Window>)
    requires forall i :: 0 <= i < |windows| ==> Inside(lines, windows[i])
    ensures forall c :: c in Emit(lines, windows) <==>
      exists i :: 0 <= i < |windows| && c == ChunkOf(lines, windows[i]) && !Blank(c.text)
  {
    if windows != [] {
      var rest := windows[1..];
      EmitExact(lines, rest);
      forall c ensures c in Emit(lines, windows) <==>
        exists i :: 0 <= i < |windows| && c == ChunkOf(lines, windows[i]) && !Blank(c.text)
      {
        if c in Emit(lines, rest) {
          var i :| 0 <= i < |rest| && c == ChunkOf(lines, rest[i]) && !Blank(c.text);
          assert windows[i + 1] == rest[i];
        }
        if i :| 0 <= i < |windows| && c == ChunkOf(lines, windows[i]) && !Blank(c.text) {
          if i > 0 { assert rest[i - 1] == windows[i]; }
        }
      }
    }
  }

  /** The chunks are the windows that are not blank, in order. */
  lemma {:induction false} ChunksAreWindows(lines: seq<Text>, start: nat, limit: int, wanted: int)
    requires start < |lines|
    ensures Chunks(lines, start, limit, wanted) == Emit(lines, Windows(lines, start, limit, wanted))
    decreases |lines| - start
  {
    var w := Window(start, WindowEnd(lines, start, limit));
    var all := Windows(lines, start, limit, wanted);
    assert all[0] == w;
    if w.end >= |lines| {
      assert all[1..] == [];
    } else {
      var next := NextStart(lines, w, wanted);
      assert all[1..] == Windows(lines, next, limit, wanted);
      ChunksAreWindows(lines, next, limit, wanted);
    }
  }

  /** Each chunk is exactly its located lines, and is under the limit or a single line. */
  lemma ChunksAreLocated(lines: seq<Text>, limit: int, wanted: int, c: Chunk)
    requires c in AllChunks(lines, limit, wanted)
    ensures Located(lines, c, limit)
  {
    ChunksAreWindows(lines, 0, limit, wanted);
    var ws := AllWindows(lines, limit, wanted);
    EmitExact(lines, ws);
    var i :| 0 <= i < |ws| && c == ChunkOf(lines, ws[i]) && !Blank(c.text);
    assert GoodWindow(lines, ws[i], limit) by { WindowsCover(lines, 0, limit, wanted); }
  }

  /** Every non-blank line lies in an emitted chunk. */
  lemma NonBlankLinesAreEmitted(lines: seq<Text>, limit: int, wanted: int, k: nat)
    requires k < |lines| && !Blank(lines[k])
    ensures Holds(AllChunks(lines, limit, wanted), k)
  {
    ChunksAreWindows(lines, 0, limit, wanted);
    var ws := AllWindows(lines, limit, wanted);
    var i := LineIsCovered(lines, 0, limit, wanted, k);
    assert Inside(lines, ws[i]);
    PartShows(lines, ws[i].start, ws[i].end, k);
    EmitExact(lines, ws);
    assert ChunkOf(lines, ws[i]) in Emit(lines, ws);
  }

  ghost predicate Located(lines: seq<Text>, c: Chunk, limit: int) {
    && 1 <= c.lineStart <= c.lineEnd <= |lines|
    && c.text == Join(lines[c.lineStart - 1..c.lineEnd])
    && (Span(lines, c.lineStart - 1, c.lineEnd) <= limit || c.lineEnd == c.lineStart)
  }

  ghost predicate Holds(chunks: seq<Chunk>, k: nat) {
    exists c :: c in chunks && c.lineStart <= k + 1 <= c.lineEnd
  }
}

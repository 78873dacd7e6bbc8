/**
 Paging a log file from its end (app/admin.go, GetLogsSkipSend): a byte-by-byte backward scan, against a
 specification that splits the file forwards and slices the result.
 */
module LogPaging {
  import opened Prelude

  type Bytes = seq<byte>

  const NEWLINE: byte := 10

  datatype LogError = FileReadError

  // ---------- Specification ----------

  /** The file without the newline it ends with, if any. */
  function Body(file: Bytes): Bytes {
    if file != [] && file[|file| - 1] == NEWLINE then file[..|file| - 1] else file
  }

  /** Where the chunk that starts at `lo` ends: at the next newline in front of `hi`. */
  function ChunkEnd(s: Bytes, lo: nat, hi: nat): (e: nat)
    requires lo < hi <= |s|
    ensures lo < e <= hi
    ensures e < hi ==> s[e] == NEWLINE
    ensures forall k :: lo < k < e ==> s[k] != NEWLINE
    decreases hi - lo
  {
    if lo + 1 == hi || s[lo + 1] == NEWLINE then lo + 1 else ChunkEnd(s, lo + 1, hi)
  }

  function ChunksBetween(s: Bytes, lo: nat, hi: nat): seq<Bytes>
    requires lo <= hi <= |s|
    decreases hi - lo
  {
    if lo == hi then [] else
      var e := ChunkEnd(s, lo, hi);
      [s[lo..e]] + ChunksBetween(s, e, hi)
  }

  /** Forward split: every chunk but possibly the first starts with a newline, and no chunk holds another. */
  function Chunks(s: Bytes): seq<Bytes> { ChunksBetween(s, 0, |s|) }

  function Max0(x: int): nat { if x < 0 then 0 else x }

  /** `size` items, `skipped` items before the end. */
  function Slice<T>(items: seq<T>, skipped: nat, size: nat): seq<T> {
    items[Max0(|items| - skipped - size)..Max0(|items| - skipped)]
  }

  /** Chunks of page `page`, counted from the end of the file, in file order. */
  function Page(chunks: seq<Bytes>, page: int, perPage: int): seq<Bytes>
    requires perPage >= 1
  {
    Slice(chunks, Max0(page * perPage), perPage)
  }

  /** The answer when `skip` chunks are passed over: a negative page size is no limit, and a page size of zero stops the
      scan at its first byte unless that byte completes a chunk. */
  function RequestedFrom(body: Bytes, skip: int, perPage: int): seq<Bytes>
    requires body != []
  {
    var chunks := Chunks(body);
    if perPage >= 1 then Slice(chunks, Max0(skip), perPage)
    else if perPage < 0 then chunks[..Max0(|chunks| - Max0(skip))]
    else if |body| == 1 || body[|body| - 1] == NEWLINE then chunks
    else []
  }

  function Requested(body: Bytes, page: int, perPage: int): seq<Bytes>
    requires body != []
  {
    RequestedFrom(body, page * perPage, perPage)
  }

  /** The answer for a file; None is an error. */
  function Answer(file: Bytes, page: int, perPage: int): Option<seq<Bytes>> {
    if Body(file) == [] then None else Some(Requested(Body(file), page, perPage))
  }

  function Flatten(ss: seq<Bytes>): Bytes {
    if ss == [] then [] else ss[0] + Flatten(ss[1..])
  }

  // ---------- The split is a split ----------

  lemma {:induction false} FlattenChunks(s: Bytes, lo: nat, hi: nat)
    requires lo <= hi <= |s|
    ensures Flatten(ChunksBetween(s, lo, hi)) == s[lo..hi]
    decreases hi - lo
  {
    if lo < hi {
      var e := ChunkEnd(s, lo, hi);
      FlattenChunks(s, e, hi);
      assert s[lo..hi] == s[lo..e] + s[e..hi];
      assert ([s[lo..e]] + ChunksBetween(s, e, hi))[1..] == ChunksBetween(s, e, hi);
    }
  }

  /** Every chunk but the first starts with a newline and no chunk holds another: with FlattenChunks this pins the
      split down. */
  lemma {:induction false} ChunksAreNewlineLed(s: Bytes, lo: nat, hi: nat, i: nat)
    requires lo <= hi <= |s| && i < |ChunksBetween(s, lo, hi)|
    ensures var c := ChunksBetween(s, lo, hi)[i];
            && c != [] && (i > 0 ==> c[0] == NEWLINE)
            && forall k :: 1 <= k < |c| ==> c[k] != NEWLINE
    decreases hi - lo
  {
    if i > 0 {
      var e := ChunkEnd(s, lo, hi);
      ChunksAreNewlineLed(s, e, hi, i - 1);
      assert i == 1 ==> ChunksBetween(s, e, hi)[0] == s[e..ChunkEnd(s, e, hi)];
    }
  }

  /** A newline starts a chunk, so the split can be cut there. */
  lemma {:induction false} ChunksAt(s: Bytes, lo: nat, pos: nat, hi: nat)
    requires lo <= pos < hi <= |s| && (pos == lo || s[pos] == NEWLINE)
    ensures ChunksBetween(s, lo, hi) == ChunksBetween(s, lo, pos) + ChunksBetween(s, pos, hi)
    decreases hi - lo
  {
    if lo < pos {
      var e := ChunkEnd(s, lo, hi);
      SameEnd(s, lo, pos, hi);
      ChunksAt(s, e, pos, hi);
      var first, front, back := [s[lo..e]], ChunksBetween(s, e, pos), ChunksBetween(s, pos, hi);
      assert ChunksBetween(s, lo, pos) == first + front;
      assert ChunksBetween(s, lo, hi) == first + (front + back);
    }
  }

  lemma {:induction false} SameEnd(s: Bytes, lo: nat, pos: nat, hi: nat)
    requires lo < pos < hi <= |s| && s[pos] == NEWLINE
    ensures ChunkEnd(s, lo, pos) == ChunkEnd(s, lo, hi)
    decreases hi - lo
  {
    if lo + 1 < pos && s[lo + 1] != NEWLINE {
      SameEnd(s, lo + 1, pos, hi);
    }
  }

  // ---------- The pages partition the file ----------

  /** The number of chunks on the pages in front of `page`. */
  function Skipped(page: nat, perPage: nat): nat {
    if page == 0 then 0 else Skipped(page - 1, perPage) + perPage
  }

  lemma {:induction false} SkippedIsProduct(page: nat, perPage: nat)
    ensures Skipped(page, perPage) == page * perPage
  {
    if page > 0 {
      SkippedIsProduct(page - 1, perPage);
      assert page * perPage == (page - 1) * perPage + perPage;
    }
  }

  lemma AnswerIsSlice(file: Bytes, page: nat, perPage: nat)
    requires perPage >= 1
    ensures Answer(file, page, perPage) ==
              if Body(file) == [] then None else Some(Slice(Chunks(Body(file)), Skipped(page, perPage), perPage))
  {
    SkippedIsProduct(page, perPage);
  }

  /** Pages 0 to `count` - 1 laid end to end, oldest first. */
  function Joined<T>(pages: nat -> seq<T>, count: nat): seq<T> {
    if count == 0 then [] else pages(count - 1) + Joined(pages, count - 1)
  }

  lemma SliceThenTail<T>(items: seq<T>, skipped: nat, size: nat)
    ensures Slice(items, skipped, size) + items[Max0(|items| - skipped)..] == items[Max0(|items| - skipped - size)..]
  {
  }

  predicate IsSlice<T(==)>(pages: nat -> seq<T>, items: seq<T>, page: nat, perPage: nat) {
    pages(page) == Slice(items, Skipped(page, perPage), perPage)
  }

  lemma {:induction false} SlicesAreTheTail<T>(pages: nat -> seq<T>, items: seq<T>, count: nat, perPage: nat)
    requires forall page: nat :: IsSlice(pages, items, page, perPage)
    ensures Joined(pages, count) == items[Max0(|items| - Skipped(count, perPage))..]
  {
    if count > 0 {
      SlicesAreTheTail(pages, items, count - 1, perPage);
      assert IsSlice(pages, items, count - 1, perPage);
      SliceThenTail(items, Skipped(count - 1, perPage), perPage);
    }
  }

  /** Slices that go on until nothing is left are the whole. */
  lemma SlicesAreAll<T>(pages: nat -> seq<T>, items: seq<T>, count: nat, perPage: nat)
    requires forall page: nat :: IsSlice(pages, items, page, perPage)
    requires perPage >= 1 && pages(count) == []
    ensures Joined(pages, count) == items
  {
    assert IsSlice(pages, items, count, perPage);
    SlicesAreTheTail(pages, items, count, perPage);
    assert items[0..] == items;
  }

  /** The lines answered, none on an error. */
  function PageLines(file: Bytes, page: nat, perPage: nat): seq<Bytes> {
    var answer := Answer(file, page, perPage);
    if answer.Some? then answer.value else []
  }

  function LinesOf(file: Bytes, perPage: nat): nat -> seq<Bytes> { (page: nat) => PageLines(file, page, perPage) }

  lemma PageLinesAreSlice(file: Bytes, page: nat, perPage: nat)
    requires perPage >= 1
    ensures PageLines(file, page, perPage) == Slice(Chunks(Body(file)), Skipped(page, perPage), perPage)
  {
    AnswerIsSlice(file, page, perPage);
    if Body(file) == [] {
      NoPages(Chunks(Body(file)), page, perPage);
    }
  }

  lemma NoPages(chunks: seq<Bytes>, page: nat, perPage: nat)
    ensures chunks == [] ==> Slice(chunks, Skipped(page, perPage), perPage) == []
  {
  }

  /** The newline that a file ends with, if any. */
  function LastNewline(file: Bytes): Bytes {
    if file != [] && file[|file| - 1] == NEWLINE then [NEWLINE] else []
  }

  lemma BodyAndNewline(file: Bytes)
    ensures Body(file) + LastNewline(file) == file
  {
  }

  lemma LinesAreChunks(file: Bytes, count: nat, perPage: nat)
    requires perPage >= 1 && PageLines(file, count, perPage) == []
    ensures Joined(LinesOf(file, perPage), count) == Chunks(Body(file))
  {
    forall page: nat
      ensures IsSlice(LinesOf(file, perPage), Chunks(Body(file)), page, perPage)
    {
      PageLinesAreSlice(file, page, perPage);
    }
    SlicesAreAll(LinesOf(file, perPage), Chunks(Body(file)), count, perPage);
  }

  /** When page `count` is empty or an error, the pages before it, laid end to end, oldest first, are the file but for
      the newline it ends with. */
  lemma PagesRebuildFile(file: Bytes, count: nat, perPage: nat)
    requires perPage >= 1 && PageLines(file, count, perPage) == []
    ensures Flatten(Joined(LinesOf(file, perPage), count)) + LastNewline(file) == file
  {
    LinesAreChunks(file, count, perPage);
    FlattenChunks(Body(file), 0, |Body(file)|);
    BodyAndNewline(file);
  }

  lemma {:induction false} SkippedGrows(page: nat, later: nat, perPage: nat)
    requires page < later
    ensures Skipped(page, perPage) + perPage <= Skipped(later, perPage)
  {
    if page + 1 < later {
      SkippedGrows(page, later - 1, perPage);
    }
  }

  /** An answer has at most `perPage` lines, and fewer only if all later pages are empty. */
  lemma PagesAreFull(file: Bytes, page: nat, perPage: nat, later: nat)
    requires perPage >= 1 && Answer(file, page, perPage).Some? && page < later
    ensures var lines := Answer(file, page, perPage).value;
            |lines| <= perPage && (|lines| < perPage ==> Answer(file, later, perPage) == Some([]))
  {
    AnswerIsSlice(file, page, perPage);
    AnswerIsSlice(file, later, perPage);
    SkippedGrows(page, later, perPage);
  }

  /** A newline at the end of a file makes no line of its own: the file has the lines of what is in front of it, and is
      unreadable if that is nothing. */
  lemma TrailingNewlineIsSkipped(s: Bytes, page: int, perPage: int)
    ensures Answer(s + [NEWLINE], page, perPage) == if s == [] then None else Some(Requested(s, page, perPage))
    ensures s == [] ==> Answer(s, page, perPage) == None
    ensures s != [] && s[|s| - 1] != NEWLINE ==> Answer(s, page, perPage) == Some(Requested(s, page, perPage))
    ensures s != [] && perPage >= 1 ==> Requested(s, page, perPage) == Page(Chunks(s), page, perPage)
  {
    var file := s + [NEWLINE];
    assert file[..|file| - 1] == s;
  }

  // ---------- The source's scan ----------

  function Reversed(s: seq<Bytes>): seq<Bytes> { seq(|s|, i requires 0 <= i < |s| => s[|s| - 1 - i]) }

  method ReverseInPlace(lines: array<Bytes>)
    modifies lines
    ensures lines[..] == Reversed(old(lines[..]))
  {
    var i, j := 0, lines.Length - 1;
    while i < j
      invariant 0 <= i && i + j == lines.Length - 1 && i <= j + 1
      invariant forall k :: 0 <= k < lines.Length ==>
                  lines[k] == old(lines[if i <= k <= j then k else lines.Length - 1 - k])
    {
      lines[i], lines[j] := lines[j], lines[i];
      i, j := i + 1, j - 1;
    }
  }

  /** What the scan has collected, latest chunk first: the chunks of `tail` beyond the first `skip`, up to `limit`. */
  ghost predicate Collected(lines: seq<Bytes>, tail: seq<Bytes>, skip: int) {
    Reversed(lines) == tail[..Max0(|tail| - Max0(skip))]
  }

  lemma CollectChunk(lines: seq<Bytes>, tail: seq<Bytes>, skip: int, chunk: Bytes)
    requires Collected(lines, tail, skip)
    ensures |tail| + 1 > skip ==> Collected(lines + [chunk], [chunk] + tail, skip)
    ensures |tail| + 1 <= skip ==> Collected(lines, [chunk] + tail, skip)
  {
    var tail' := [chunk] + tail;
    if |tail| + 1 > skip {
      assert Reversed(lines + [chunk]) == [chunk] + Reversed(lines);
      var n := |tail| - Max0(skip);
      assert n >= 0 ==> tail'[..n + 1] == [chunk] + tail[..n];
    }
  }

  /** The scan meets the start `pos` of the last chunk in front of `end`. */
  lemma MeetChunk(body: Bytes, pos: nat, end: nat, tail: seq<Bytes>)
    requires pos < end <= |body| && (pos == 0 || body[pos] == NEWLINE)
    requires forall k :: pos < k < end ==> body[k] != NEWLINE
    requires Chunks(body) == ChunksBetween(body, 0, end) + tail
    ensures Chunks(body) == ChunksBetween(body, 0, pos) + ([body[pos..end]] + tail)
  {
    ChunksAt(body, 0, pos, end);
    assert ChunkEnd(body, pos, end) == end;
    assert ChunksBetween(body, pos, end) == [body[pos..end]];
  }

  /** The scan between two bytes: everything in front of `cursor` is unread, the chunk that ends at `lineEndPos` is
      open, and `tail` holds the chunks met so far. */
  ghost predicate Scanning(body: Bytes, cursor: int, lineEndPos: int, tail: seq<Bytes>, lines: seq<Bytes>, skip: int) {
    && 0 <= cursor <= lineEndPos <= |body|
    && Chunks(body) == ChunksBetween(body, 0, lineEndPos) + tail
    && (forall k :: cursor <= k < lineEndPos ==> body[k] != NEWLINE)
    && Collected(lines, tail, skip)
  }

  lemma ScanChunk(body: Bytes, pos: nat, end: nat, tail: seq<Bytes>, lines: seq<Bytes>, skip: int)
    requires Scanning(body, pos + 1, end, tail, lines, skip) && (pos == 0 || body[pos] == NEWLINE)
    ensures Scanning(body, pos, pos, [body[pos..end]] + tail,
                     if |tail| + 1 > skip then lines + [body[pos..end]] else lines, skip)
  {
    CollectChunk(lines, tail, skip, body[pos..end]);
    MeetChunk(body, pos, end, tail);
  }

  /** The scan stops full, or at the start of the file. */
  lemma ScanDone(body: Bytes, end: int, tail: seq<Bytes>, lines: seq<Bytes>, skip: int, perPage: int)
    requires body != [] && Scanning(body, end, end, tail, lines, skip) && (perPage == 0 ==> skip == 0)
    requires perPage >= 1 ==> |lines| <= perPage
    requires end > 0 ==> |lines| == perPage >= 1
    requires perPage == 0 ==> |body| == 1 || body[|body| - 1] == NEWLINE
    ensures Reversed(lines) == RequestedFrom(body, skip, perPage)
  {
    assert |lines| == |Reversed(lines)| == Max0(|tail| - Max0(skip));
    if end == 0 {
      assert Chunks(body) == tail;
    }
  }

  /** The loop over the file, from the cursor at `end` down to its first byte. */
  method Scan(data: Bytes, end: nat, skip: int, perPage: int) returns (r: Result<seq<Bytes>, LogError>)
    requires end <= |data| && (perPage == 0 ==> skip == 0)
    ensures r.Err? <==> end == 0
    ensures r.Ok? ==> Reversed(r.value) == RequestedFrom(data[..end], skip, perPage)
  {
    var cursor, lineEndPos, lineCount, lines := end, end, 0, [];
    ghost var body, tail := data[..end], [];
    while true
      invariant Scanning(body, cursor, lineEndPos, tail, lines, skip) && lineCount == |tail|
      invariant cursor == 0 ==> end == 0
      invariant perPage >= 1 ==> |lines| < perPage
      invariant perPage == 0 && cursor < end ==> tail != [] && body[end - 1] == NEWLINE
      decreases cursor
    {
      if cursor - 1 < 0 {
        return Err(FileReadError);
      }
      var pos := cursor - 1;
      cursor := pos;
      if data[pos] == NEWLINE || pos == 0 {
        assert data[pos..lineEndPos] == body[pos..lineEndPos];
        ScanChunk(body, pos, lineEndPos, tail, lines, skip);
        tail := [body[pos..lineEndPos]] + tail;
        lineCount := lineCount + 1;
        if lineCount > skip {
          lines := lines + [data[pos..lineEndPos]];
        }
        if pos == 0 {
          ScanDone(body, 0, tail, lines, skip, perPage);
          return Ok(lines);
        }
        lineEndPos := pos;
      }
      if |lines| == perPage {
        if perPage >= 1 {
          assert Scanning(body, lineEndPos, lineEndPos, tail, lines, skip);
          ScanDone(body, lineEndPos, tail, lines, skip, perPage);
        }
        return Ok(lines);
      }
    }
  }

  /** The lines of the page asked for. `file` is None when the log file cannot be opened. */
  method GetLogsSkipSend(enableFile: bool, file: Option<Bytes>, page: int, perPage: int)
    returns (r: Result<seq<Bytes>, LogError>)
    ensures !enableFile ==> r == Ok([[]])
    ensures enableFile && file.None? ==> r.Err?
    ensures enableFile && file.Some? ==>
              Answer(file.value, page, perPage) == if r.Ok? then Some(r.value) else None
  {
    if !enableFile {
      return Ok([[]]);
    }
    if file.None? {
      return Err(FileReadError);
    }
    var data := file.value;
    var end := |data|;
    if |data| >= 1 && data[|data| - 1] == NEWLINE {
      end := |data| - 1;
    }
    assert data[..end] == Body(data);
    r := Scan(data, end, page * perPage, perPage);
    if r.Ok? {
      var lines := r.value;
      var collected := new Bytes[|lines|](i requires 0 <= i < |lines| => lines[i]);
      assert collected[..] == lines;
      ReverseInPlace(collected);
      r := Ok(collected[..]);
    }
  }
}

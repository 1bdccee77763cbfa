/** What chunking promises about every text. */
module ChunkingTheorems {
  import opened Common
  import opened Text
  import opened Chunking

  // ------------------------------------------------- consecutive windows

  /** A window ends with the text, at the last newline or blank of its second
      half, or at its full size when that half has none. */
  predicate EndsRight(s: string, window: (nat, nat), size: nat) {
    var (start, end) := window;
    if start + size >= |s| then end == |s|
    else
      || (start + size / 2 <= end < start + size && s[end] in {'\n', ' '}
          && forall k | end < k < start + size :: s[k] !in {'\n', ' '})
      || (end == start + size && forall k | start + size / 2 <= k < end :: s[k] !in {'\n', ' '})
  }

  lemma WindowEndsRight(s: string, start: nat, size: nat)
    requires start < |s| && size >= 2
    ensures EndsRight(s, (start, WindowEnd(s, start, size)), size)
  {
    WindowEndMeaning(s, start, size);
  }

  /** The boundary search may stop early, yet no window ends before its
      predecessor; neighbours leave no gap and share `overlap` characters, or all
      but one where the window is no longer than that. */
  lemma NextWindowAdvances(s: string, start: nat, size: nat, overlap: nat)
    requires start < |s| && size >= 2 && WindowEnd(s, start, size) < |s|
    ensures
      var end := WindowEnd(s, start, size);
      var next := NextStart(start, end, overlap);
      && start < next <= end <= next + overlap
      && next == (if end - overlap > start then end - overlap else start + 1)
      && end <= WindowEnd(s, next, size)
  {
    WindowEndMeaning(s, start, size);
    var next := NextStart(start, WindowEnd(s, start, size), overlap);
    WindowEndMeaning(s, next, size);
  }

  predicate Neighbours(a: (nat, nat), b: (nat, nat), overlap: nat) {
    && a.0 < b.0 <= a.1 <= b.1 && a.1 <= b.0 + overlap
    && b.0 == if a.1 - overlap > a.0 then a.1 - overlap else a.0 + 1
  }

  lemma {:induction false} WindowsAdvance(s: string, start: nat, size: nat, overlap: nat)
    requires start < |s| && size >= 2
    ensures
      var windows := Windows(s, start, size, overlap);
      && windows[0].0 == start && windows[|windows| - 1].1 == |s|
      && (forall k | 0 <= k < |windows| :: EndsRight(s, windows[k], size))
      && (forall k | 0 <= k < |windows| - 1 :: Neighbours(windows[k], windows[k + 1], overlap) && windows[k].1 < |s|)
    decreases |s| - start
  {
    var end := WindowEnd(s, start, size);
    WindowEndsRight(s, start, size);
    if end < |s| {
      var next := NextStart(start, end, overlap);
      NextWindowAdvances(s, start, size, overlap);
      WindowsAdvance(s, next, size, overlap);
      PrependWindow(s, (start, end), Windows(s, next, size, overlap), size, overlap);
      assert Windows(s, start, size, overlap) == [(start, end)] + Windows(s, next, size, overlap);
    }
  }

  lemma PrependWindow(s: string, window: (nat, nat), rest: seq<(nat, nat)>, size: nat, overlap: nat)
    requires rest != [] && EndsRight(s, window, size) && window.1 < |s| && Neighbours(window, rest[0], overlap)
    requires forall k | 0 <= k < |rest| :: EndsRight(s, rest[k], size)
    requires forall k | 0 <= k < |rest| - 1 :: Neighbours(rest[k], rest[k + 1], overlap) && rest[k].1 < |s|
    ensures
      var windows := [window] + rest;
      && (forall k | 0 <= k < |windows| :: EndsRight(s, windows[k], size))
      && (forall k | 0 <= k < |windows| - 1 :: Neighbours(windows[k], windows[k + 1], overlap) && windows[k].1 < |s|)
  {
  }

  // ------------------------------------------------------------ stitching

  /** The window texts one after another, each without what its predecessors
      already covered. */
  function Stitch(s: string, windows: seq<(nat, nat)>, covered: nat): string
    requires Within(s, windows)
    decreases |windows|
  {
    if windows == [] then ""
    else
      var w := windows[0];
      (if w.0 <= covered <= w.1 then s[w.0..w.1][covered - w.0..] else s[w.0..w.1])
      + Stitch(s, windows[1..], w.1)
  }

  lemma {:induction false} StitchChain(s: string, windows: seq<(nat, nat)>, overlap: nat, covered: nat)
    requires windows != [] && Within(s, windows) && windows[|windows| - 1].1 == |s|
    requires forall k | 0 <= k < |windows| - 1 :: Neighbours(windows[k], windows[k + 1], overlap)
    requires windows[0].0 <= covered <= windows[0].1
    ensures Stitch(s, windows, covered) == s[covered..]
    decreases |windows|
  {
    var w, rest := windows[0], windows[1..];
    assert s[w.0..w.1][covered - w.0..] == s[covered..w.1];
    if rest != [] {
      assert Neighbours(windows[0], windows[0 + 1], overlap);
      forall k | 0 <= k < |rest| - 1 ensures Neighbours(rest[k], rest[k + 1], overlap) {
        assert Neighbours(windows[k + 1], windows[k + 2], overlap);
      }
      StitchChain(s, rest, overlap, w.1);
      assert s[covered..w.1] + s[w.1..] == s[covered..];
    }
  }

  // ------------------------------------------------------------- coverage

  predicate Inside(p: nat, w: (nat, nat)) {
    w.0 <= p < w.1
  }

  lemma {:induction false} SomeWindowCovers(s: string, start: nat, size: nat, overlap: nat, p: nat) returns (k: nat)
    requires start <= p < |s| && size >= 2
    ensures k < |Windows(s, start, size, overlap)| && Inside(p, Windows(s, start, size, overlap)[k])
    decreases |s| - start
  {
    var end := WindowEnd(s, start, size);
    if p < end {
      k := 0;
    } else {
      var next := NextStart(start, end, overlap);
      k := SomeWindowCovers(s, next, size, overlap, p);
      assert Windows(s, start, size, overlap)[k + 1] == Windows(s, next, size, overlap)[k];
      k := k + 1;
    }
  }

  /** Every nonempty content appears among the numbered chunks. */
  lemma {:induction false} ContentNumbered(contents: seq<string>, first: nat, k: nat) returns (c: nat)
    requires k < |contents| && contents[k] != ""
    ensures c < |Number(contents, first)| && Number(contents, first)[c].content == contents[k]
    decreases |contents|
  {
    if k == 0 {
      c := 0;
    } else if contents[0] == "" {
      c := ContentNumbered(contents[1..], first, k - 1);
    } else {
      c := ContentNumbered(contents[1..], first + 1, k - 1);
      c := c + 1;
    }
  }

  /** Chunks are numbered consecutively, each a nonempty window content. */
  lemma {:induction false} ChunksNumbered(contents: seq<string>, first: nat, c: nat) returns (k: nat)
    requires c < |Number(contents, first)|
    ensures Number(contents, first)[c].chunkNumber == first + c
    ensures k < |contents| && contents[k] != "" && Number(contents, first)[c].content == contents[k]
    decreases |contents|
  {
    if contents[0] == "" {
      k := ChunksNumbered(contents[1..], first, c);
      k := k + 1;
    } else if c == 0 {
      k := 0;
    } else {
      k := ChunksNumbered(contents[1..], first + 1, c - 1);
      k := k + 1;
    }
  }

  /** The part stands in the text at position `at`. */
  predicate Occurs(s: string, part: string, at: nat) {
    at + |part| <= |s| && s[at..at + |part|] == part
  }

  /** The chunk holds the text's characters from `at` on, position `p` among them. */
  predicate ShowsPosition(s: string, chunk: TextChunk, at: nat, p: nat) {
    Occurs(s, chunk.content, at) && at <= p < at + |chunk.content|
  }

  lemma ContentShows(s: string, window: (nat, nat), p: nat)
    requires window.0 <= p < window.1 <= |s| && !IsSpace(s[p])
    ensures Content(s, window) != ""
    ensures
      var at := StripBounds(s, window.0, window.1).0;
      Occurs(s, Content(s, window), at) && at <= p < at + |Content(s, window)|
  {
  }

  lemma VisiblePositionKept(s: string, size: nat, overlap: nat, p: nat) returns (c: nat, at: nat)
    requires p < |s| && size >= 2 && !IsSpace(s[p])
    ensures
      var chunks := Number(Contents(s, Windows(s, 0, size, overlap)), 0);
      c < |chunks| && ShowsPosition(s, chunks[c], at, p)
  {
    var windows := Windows(s, 0, size, overlap);
    var k := SomeWindowCovers(s, 0, size, overlap, p);
    var contents := Contents(s, windows);
    at := StripBounds(s, windows[k].0, windows[k].1).0;
    ContentsAt(s, windows, k);
    ContentShows(s, windows[k], p);
    c := ContentNumbered(contents, 0, k);
  }

  /** Loss-freedom of a successful chunking: the windows have no gaps, stitched
      together without their overlap they are the normalised text, and every
      visible character of it survives in some chunk. */
  lemma ChunkingLosesNothing(s: string, chunkSize: int, overlap: int, maximumChunks: int)
    requires ChunkNormalized(s, chunkSize, overlap, maximumChunks).Ok?
    ensures
      var windows := Windows(s, 0, chunkSize, overlap);
      var chunks := ChunkNormalized(s, chunkSize, overlap, maximumChunks).value;
      && Stitch(s, windows, 0) == s
      && (forall k | 0 <= k < |windows| - 1 :: Neighbours(windows[k], windows[k + 1], overlap))
      && forall p | 0 <= p < |s| && !IsSpace(s[p]) ::
           exists c, at :: 0 <= c < |chunks| && ShowsPosition(s, chunks[c], at, p)
  {
    var chunks := ChunkNormalized(s, chunkSize, overlap, maximumChunks).value;
    WindowsAdvance(s, 0, chunkSize, overlap);
    StitchChain(s, Windows(s, 0, chunkSize, overlap), overlap, 0);
    assert s[0..] == s;
    forall p | 0 <= p < |s| && !IsSpace(s[p])
      ensures exists c, at :: 0 <= c < |chunks| && ShowsPosition(s, chunks[c], at, p)
    {
      var c, at := VisiblePositionKept(s, chunkSize, overlap, p);
      assert ShowsPosition(s, chunks[c], at, p);
    }
  }

  /** A window's content is its text without the whitespace at both ends. */
  lemma ContentMeaning(s: string, window: (nat, nat)) returns (lo: nat, hi: nat)
    requires window.0 <= window.1 <= |s|
    ensures window.0 <= lo <= hi <= window.1 && Content(s, window) == s[lo..hi]
    ensures forall k | window.0 <= k < lo || hi <= k < window.1 :: IsSpace(s[k])
    ensures lo < hi ==> !IsSpace(s[lo]) && !IsSpace(s[hi - 1])
  {
    var bounds := StripBounds(s, window.0, window.1);
    lo, hi := bounds.0, bounds.1;
  }

  /** The contents that are not empty, by place. */
  function Kept(contents: seq<string>): (places: seq<nat>)
    ensures forall c | 0 <= c < |places| :: places[c] < |contents| && contents[places[c]] != ""
    ensures forall k: nat :: k in places <==> k < |contents| && contents[k] != ""
    ensures forall c, d | 0 <= c < d < |places| :: places[c] < places[d]
    decreases |contents|
  {
    if contents == [] then []
    else
      var n := |contents| - 1;
      if contents[n] == "" then Kept(contents[..n]) else Kept(contents[..n]) + [n]
  }

  lemma NumberLast(contents: seq<string>)
    requires contents != []
    ensures
      var n := |contents| - 1;
      var before := Number(contents[..n], 0);
      Number(contents, 0) == if contents[n] == "" then before else before + [TextChunk(|before|, contents[n])]
  {
    NumberNext(contents, |contents| - 1);
    assert contents[..|contents|] == contents;
  }

  predicate ChunksStandAt(chunks: seq<TextChunk>, contents: seq<string>, places: seq<nat>) {
    |chunks| == |places|
    && forall c | 0 <= c < |chunks| :: places[c] < |contents| && chunks[c] == TextChunk(c, contents[places[c]])
  }

  lemma OneMoreContent(chunks: seq<TextChunk>, contents: seq<string>, places: seq<nat>, last: string)
    requires ChunksStandAt(chunks, contents, places)
    ensures ChunksStandAt(chunks, contents + [last], places)
    ensures ChunksStandAt(chunks + [TextChunk(|chunks|, last)], contents + [last], places + [|contents|])
  {
  }

  /** The chunks are exactly the windows that hold anything visible, in order. */
  lemma {:induction false} ChunksAreWindows(contents: seq<string>)
    ensures ChunksStandAt(Number(contents, 0), contents, Kept(contents))
    decreases |contents|
  {
    if contents != [] {
      var n := |contents| - 1;
      ChunksAreWindows(contents[..n]);
      NumberLast(contents);
      OneMoreContent(Number(contents[..n], 0), contents[..n], Kept(contents[..n]), contents[n]);
      assert contents == contents[..n] + [contents[n]];
    }
  }

  /** Which error a call reports, if any: its arguments are checked in order, then
      the text, and the limit is exceeded exactly if that many chunks were found
      before the last window. */
  lemma ErrorsExactly(s: string, size: int, overlap: int, maximum: int)
    requires Stripped(s)
    ensures
      var result := ChunkNormalized(s, size, overlap, maximum);
      if size < 200 || size > 4000 then result == Err(ChunkSizeOutOfRange)
      else if overlap < 0 || overlap >= size || overlap > 1000 then result == Err(OverlapOutOfRange)
      else if maximum < 1 || maximum > 2000 then result == Err(MaximumOutOfRange)
      else if s == "" then result == Err(NoExtractableText)
      else if |s| > 2_000_000 then result == Err(TextTooLong)
      else
        var contents := Contents(s, Windows(s, 0, size, overlap));
        if |Kept(AllButLast(contents))| >= maximum then result == Err(ChunkLimitExceeded)
        else result == Ok(Number(contents, 0))
  {
    if 200 <= size <= 4000 && 0 <= overlap < size && overlap <= 1000 && 1 <= maximum <= 2000 && s != "" && |s| <= 2_000_000 {
      ChunksAreWindows(AllButLast(Contents(s, Windows(s, 0, size, overlap))));
      FirstWindowKept(s, size, overlap);
    }
  }

  lemma ContentShape(s: string, window: (nat, nat))
    requires window.0 <= window.1 <= |s| && Content(s, window) != ""
    ensures Stripped(Content(s, window)) && |Content(s, window)| <= window.1 - window.0
    ensures exists at :: Occurs(s, Content(s, window), at)
  {
    var bounds := StripBounds(s, window.0, window.1);
    assert Occurs(s, Content(s, window), bounds.0);
  }

  /** Each chunk is a stripped, nonempty stretch of the normalised text no longer
      than the chunk size, and the chunks are numbered 0, 1, 2, ... */
  lemma ChunksWellFormed(s: string, chunkSize: int, overlap: int, maximumChunks: int, c: nat)
    requires ChunkNormalized(s, chunkSize, overlap, maximumChunks).Ok?
    requires c < |ChunkNormalized(s, chunkSize, overlap, maximumChunks).value|
    ensures
      var chunk := ChunkNormalized(s, chunkSize, overlap, maximumChunks).value[c];
      && chunk.chunkNumber == c
      && 0 < |chunk.content| <= chunkSize
      && Stripped(chunk.content)
      && exists at :: Occurs(s, chunk.content, at)
  {
    var windows := Windows(s, 0, chunkSize, overlap);
    var k := ChunksNumbered(Contents(s, windows), 0, c);
    ContentsAt(s, windows, k);
    WindowsSized(s, 0, chunkSize, overlap, k);
    ContentShape(s, windows[k]);
  }

  lemma {:induction false} WindowsSized(s: string, start: nat, size: nat, overlap: nat, k: nat)
    requires start < |s| && size >= 2 && k < |Windows(s, start, size, overlap)|
    ensures Windows(s, start, size, overlap)[k].1 <= Windows(s, start, size, overlap)[k].0 + size
    decreases |s| - start
  {
    if k > 0 {
      var next := NextStart(start, WindowEnd(s, start, size), overlap);
      assert Windows(s, start, size, overlap)[k] == Windows(s, next, size, overlap)[k - 1];
      WindowsSized(s, next, size, overlap, k - 1);
    }
  }

  // --------------------------------------------------------- the chunk limit

  lemma OneMoreStride(count: int, stride: nat)
    ensures (count + 1) * stride == count * stride + stride
  {
  }

  /** Every window but the last moves the start on by at least half the size
      less the overlap. */
  lemma {:induction false} WindowsBounded(s: string, start: nat, size: nat, overlap: nat, stride: nat)
    requires start < |s| && size >= 2 && overlap + stride == size / 2 && stride > 0
    ensures (|Windows(s, start, size, overlap)| - 1) * stride <= |s| - start
    decreases |s| - start
  {
    var end := WindowEnd(s, start, size);
    if end < |s| {
      WindowEndMeaning(s, start, size);
      var next := NextStart(start, end, overlap);
      assert next >= start + stride;
      WindowsBounded(s, next, size, overlap, stride);
      var rest := |Windows(s, next, size, overlap)|;
      assert |Windows(s, start, size, overlap)| == rest + 1;
      OneMoreStride(rest - 1, stride);
    }
  }

  lemma {:induction false} NumberShortens(contents: seq<string>, first: nat)
    ensures |Number(contents, first)| <= |contents|
    decreases |contents|
  {
    if contents != [] {
      NumberShortens(contents[1..], first);
      NumberShortens(contents[1..], first + 1);
    }
  }

  lemma ProductMonotone(a: int, b: int, stride: nat)
    requires a <= b
    ensures a * stride <= b * stride
  {
  }

  lemma ProductOrder(a: nat, b: nat, stride: nat)
    requires a * stride < b * stride
    ensures a < b
  {
  }

  /** A stripped text always yields a chunk, and never more than were counted
      when the last window started, plus one. */
  lemma ChunkCount(s: string, size: nat, overlap: nat)
    requires s != "" && Stripped(s) && size >= 2
    ensures
      var contents := Contents(s, Windows(s, 0, size, overlap));
      0 < |Number(contents, 0)| <= |Number(AllButLast(contents), 0)| + 1
  {
    FirstWindowKept(s, size, overlap);
    var contents := Contents(s, Windows(s, 0, size, overlap));
    NumberNext(contents, |contents| - 1);
    assert contents[..|contents|] == contents;
  }

  lemma CollectedKeepsLimit(contents: seq<string>, maximumChunks: nat)
    requires contents != [] && 0 < |Number(contents, 0)| <= |Number(AllButLast(contents), 0)| + 1
    ensures
      var result := Collected(contents, maximumChunks);
      result != Err(NoIndexableText) && (result.Ok? ==> 0 < |result.value| <= maximumChunks)
  {
  }

  /** The last error of the chunker cannot happen: whatever the input, at least
      one chunk is found before it is checked; and the limit is kept. */
  lemma NoIndexableTextUnreachable(s: string, chunkSize: int, overlap: int, maximumChunks: int)
    requires Stripped(s)
    ensures ChunkNormalized(s, chunkSize, overlap, maximumChunks) != Err(NoIndexableText)
    ensures var result := ChunkNormalized(s, chunkSize, overlap, maximumChunks);
            result.Ok? ==> 0 < |result.value| <= maximumChunks
  {
    if s != "" && 200 <= chunkSize <= 4000 && 0 <= overlap < chunkSize && 1 <= maximumChunks {
      ChunkCount(s, chunkSize, overlap);
      CollectedKeepsLimit(Contents(s, Windows(s, 0, chunkSize, overlap)), maximumChunks);
    }
  }

  /** A limit on the windows is one on the chunks. */
  lemma CountsFit(contents: seq<string>, maximumChunks: nat, stride: nat, length: nat)
    requires contents != [] && stride > 0 && (|contents| - 1) * stride <= length
    requires Collected(contents, maximumChunks) != Err(NoIndexableText)
    ensures
      var result := Collected(contents, maximumChunks);
      && (result.Ok? ==> (|result.value| - 1) * stride <= length)
      && (length < maximumChunks * stride ==> result.Ok?)
  {
    NumberShortens(contents, 0);
    NumberShortens(AllButLast(contents), 0);
    ProductMonotone(|Number(contents, 0)| - 1, |contents| - 1, stride);
    if length < maximumChunks * stride {
      ProductOrder(|contents| - 1, maximumChunks, stride);
    }
  }

  /** With an overlap under half the chunk size the number of chunks is at most
      one more than the text length over the stride, and a text that short never
      meets the chunk limit. */
  lemma ShortTextsFit(s: string, chunkSize: int, overlap: int, maximumChunks: int)
    requires 200 <= chunkSize <= 4000 && 0 <= overlap <= 1000 && overlap < chunkSize / 2
    requires 1 <= maximumChunks <= 2000
    requires s != "" && Stripped(s) && |s| <= MAXIMUM_CHARACTERS
    ensures
      var stride := chunkSize / 2 - overlap;
      var result := ChunkNormalized(s, chunkSize, overlap, maximumChunks);
      && (result.Ok? ==> (|result.value| - 1) * stride <= |s|)
      && (|s| < maximumChunks * stride ==> result.Ok?)
  {
    var stride := chunkSize / 2 - overlap;
    WindowsBounded(s, 0, chunkSize, overlap, stride);
    NoIndexableTextUnreachable(s, chunkSize, overlap, maximumChunks);
    CountsFit(Contents(s, Windows(s, 0, chunkSize, overlap)), maximumChunks, stride, |s|);
  }

  // --------------------------------------------------------- normalisation

  lemma {:induction false} JoinWithoutReturns(s: string)
    requires '\r' !in s
    ensures JoinLineEnds(s) == s
    decreases |s|
  {
    if |s| >= 2 {
      JoinWithoutReturns(s[1..]);
    }
  }

  /** Normalised text has no carriage returns and normalises to itself, so a
      document normalised at ingestion is chunked position for position. */
  lemma NormalizeIdempotent(text: string)
    ensures '\r' !in Normalize(text) && Stripped(Normalize(text))
    ensures Normalize(Normalize(text)) == Normalize(text)
  {
    var replaced := ReplaceReturns(JoinLineEnds(text));
    var s := Normalize(text);
    StripStrips(replaced);
    assert '\r' !in replaced;
    assert '\r' !in s;
    JoinWithoutReturns(s);
    assert ReplaceReturns(s) == s;
    StripFixes(s);
  }
}

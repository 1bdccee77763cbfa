/** The sliding-window text chunker and what its windows keep of the text. */
module Chunking {
  import opened Common
  import opened Text

  datatype ChunkingError =
    | ChunkSizeOutOfRange
    | OverlapOutOfRange
    | MaximumOutOfRange
    | NoExtractableText
    | TextTooLong
    | ChunkLimitExceeded
    | NoIndexableText

  datatype TextChunk = TextChunk(chunkNumber: nat, content: string)

  const MAXIMUM_CHARACTERS := 2_000_000

  // ------------------------------------------------------- normalisation

  /** `replace("\r\n", "\n")`, left to right without overlaps. */
  function JoinLineEnds(s: string): string {
    if |s| < 2 then s
    else if s[0] == '\r' && s[1] == '\n' then "\n" + JoinLineEnds(s[2..])
    else [s[0]] + JoinLineEnds(s[1..])
  }

  /** `replace("\r", "\n")`. */
  function ReplaceReturns(s: string): string {
    seq(|s|, i requires 0 <= i < |s| => if s[i] == '\r' then '\n' else s[i])
  }

  /** Every line end, CRLF, CR or LF, as one newline, in a single pass. */
  function UnifiedLines(s: string): string {
    if s == "" then ""
    else if |s| >= 2 && s[..2] == "\r\n" then "\n" + UnifiedLines(s[2..])
    else if s[0] == '\r' then "\n" + UnifiedLines(s[1..])
    else [s[0]] + UnifiedLines(s[1..])
  }

  lemma {:induction false} TwoPassesUnify(s: string)
    ensures ReplaceReturns(JoinLineEnds(s)) == UnifiedLines(s)
    decreases |s|
  {
    if |s| >= 2 && s[0] == '\r' && s[1] == '\n' {
      assert s[..2] == "\r\n";
      TwoPassesUnify(s[2..]);
    } else if s != "" {
      assert |s| >= 2 ==> s[..2][0] == s[0] && s[..2][1] == s[1];
      TwoPassesUnify(s[1..]);
      if |s| == 1 { assert JoinLineEnds(s[1..]) == ""; }
      assert JoinLineEnds(s) == [s[0]] + JoinLineEnds(s[1..]);
    }
  }

  /** The normalised text is the text with unified line ends, stripped. */
  lemma NormalizeMeaning(text: string)
    ensures Normalize(text) == Strip(UnifiedLines(text))
  {
    TwoPassesUnify(text);
  }

  function Normalize(text: string): string {
    Strip(ReplaceReturns(JoinLineEnds(text)))
  }

  // -------------------------------------------------------------- windows

  /** `s.rfind(c, lo, hi)`: the last position of `c` in `lo..hi`. */
  function FindLast(s: string, c: char, lo: nat, hi: nat): (found: Option<nat>)
    requires hi <= |s|
    ensures found.Some? ==> lo <= found.value < hi && s[found.value] == c
                            && forall k | found.value < k < hi :: s[k] != c
    ensures found.None? ==> forall k | lo <= k < hi :: s[k] != c
    decreases hi - lo
  {
    if hi <= lo then None
    else if s[hi - 1] == c then Some(hi - 1)
    else FindLast(s, c, lo, hi - 1)
  }

  predicate Boundary(c: char) {
    c == '\n' || c == ' '
  }

  /** Where the window that starts at `start` ends. */
  function WindowEnd(s: string, start: nat, size: nat): (end: nat)
    requires start < |s| && size >= 2
    ensures start < end <= |s| && end <= start + size
  {
    var hardEnd := if start + size < |s| then start + size else |s|;
    if hardEnd == |s| then hardEnd
    else
      var line := FindLast(s, '\n', start + size / 2, hardEnd);
      var space := FindLast(s, ' ', start + size / 2, hardEnd);
      match (line, space)
      case (None, None) => hardEnd
      case (Some(i), None) => i
      case (None, Some(j)) => j
      case (Some(i), Some(j)) => if i < j then j else i
  }

  /** The window ends at the text's end, at the last boundary of its second
      half, or at its full size when that half has none. */
  lemma WindowEndMeaning(s: string, start: nat, size: nat)
    requires start < |s| && size >= 2
    ensures
      var end := WindowEnd(s, start, size);
      || (end == |s| && |s| <= start + size)
      || (start + size / 2 <= end < start + size && Boundary(s[end]) && start + size < |s|
          && forall k | end < k < start + size :: !Boundary(s[k]))
      || (end == start + size < |s| && forall k | start + size / 2 <= k < end :: !Boundary(s[k]))
  {
  }

  function NextStart(start: nat, end: nat, overlap: nat): (next: nat)
    requires start < end
    ensures start < next <= end
  {
    if end >= overlap && end - overlap > start then end - overlap else start + 1
  }

  /** All windows from `start` on, as bounds into the text. */
  function Windows(s: string, start: nat, size: nat, overlap: nat): (windows: seq<(nat, nat)>)
    requires start < |s| && size >= 2
    ensures |windows| > 0 && windows[0] == (start, WindowEnd(s, start, size))
    ensures forall i | 0 <= i < |windows| :: start <= windows[i].0 < windows[i].1 <= |s|
    decreases |s| - start
  {
    var end := WindowEnd(s, start, size);
    var next := NextStart(start, end, overlap);
    if end >= |s| then [(start, end)]
    else [(start, end)] + Windows(s, next, size, overlap)
  }

  /** The stripped text of a window. */
  function Content(s: string, window: (nat, nat)): string
    requires window.0 <= window.1 <= |s|
  {
    var bounds := StripBounds(s, window.0, window.1);
    s[bounds.0..bounds.1]
  }

  predicate Within(s: string, windows: seq<(nat, nat)>) {
    forall i | 0 <= i < |windows| :: windows[i].0 <= windows[i].1 <= |s|
  }

  function Contents(s: string, windows: seq<(nat, nat)>): (contents: seq<string>)
    requires Within(s, windows)
    ensures |contents| == |windows|
    decreases |windows|
  {
    if windows == [] then [] else [Content(s, windows[0])] + Contents(s, windows[1..])
  }

  lemma {:induction false} ContentsAt(s: string, windows: seq<(nat, nat)>, k: nat)
    requires Within(s, windows) && k < |windows|
    ensures Contents(s, windows)[k] == Content(s, windows[k])
    decreases |windows|
  {
    var rest := windows[1..];
    assert Contents(s, windows) == [Content(s, windows[0])] + Contents(s, rest);
    if k > 0 {
      ContentsAt(s, rest, k - 1);
    }
  }

  /** Empty contents are dropped and the others numbered from `first`. */
  function Number(contents: seq<string>, first: nat): seq<TextChunk> {
    if contents == [] then []
    else if contents[0] == "" then Number(contents[1..], first)
    else [TextChunk(first, contents[0])] + Number(contents[1..], first + 1)
  }

  lemma {:induction false} NumberConcat(a: seq<string>, b: seq<string>, first: nat)
    ensures Number(a + b, first) == Number(a, first) + Number(b, first + |Number(a, first)|)
    decreases |a|
  {
    if a == [] {
      assert a + b == b;
    } else {
      assert (a + b)[1..] == a[1..] + b;
      var head, next := if a[0] == "" then [] else [TextChunk(first, a[0])], if a[0] == "" then first else first + 1;
      assert Number(a + b, first) == head + Number(a[1..] + b, next);
      assert Number(a, first) == head + Number(a[1..], next);
      NumberConcat(a[1..], b, next);
    }
  }

  lemma NumberNext(contents: seq<string>, k: nat)
    requires k < |contents|
    ensures
      var chunks := Number(contents[..k], 0);
      Number(contents[..k + 1], 0)
      == if contents[k] == "" then chunks else chunks + [TextChunk(|chunks|, contents[k])]
  {
    assert contents[..k + 1] == contents[..k] + [contents[k]];
    NumberConcat(contents[..k], [contents[k]], 0);
    assert [contents[k]][1..] == [];
  }

  function AllButLast<T>(items: seq<T>): seq<T>
    requires |items| > 0
  {
    items[..|items| - 1]
  }

  /** The limit check fires early exactly when it would fire at the last window. */
  lemma LimitHit(contents: seq<string>, k: nat)
    requires k < |contents|
    ensures |Number(contents[..k], 0)| <= |Number(AllButLast(contents), 0)|
  {
    var a, b := contents[..k], AllButLast(contents)[k..];
    assert AllButLast(contents) == a + b;
    NumberConcat(a, b, 0);
  }

  // ------------------------------------------------------------- the result

  /** Chunking a normalised text: the chunks of all windows, or an error when the
      limit is already reached as the last window starts. */
  function ChunkNormalized(s: string, chunkSize: int, overlap: int, maximumChunks: int)
    : Result<seq<TextChunk>, ChunkingError>
  {
    if !(200 <= chunkSize <= 4000) then Err(ChunkSizeOutOfRange)
    else if overlap < 0 || overlap >= chunkSize || overlap > 1000 then Err(OverlapOutOfRange)
    else if !(1 <= maximumChunks <= 2000) then Err(MaximumOutOfRange)
    else if s == "" then Err(NoExtractableText)
    else if |s| > MAXIMUM_CHARACTERS then Err(TextTooLong)
    else Collected(Contents(s, Windows(s, 0, chunkSize, overlap)), maximumChunks)
  }

  function Collected(contents: seq<string>, maximumChunks: nat): Result<seq<TextChunk>, ChunkingError>
    requires contents != []
  {
    if |Number(AllButLast(contents), 0)| >= maximumChunks then Err(ChunkLimitExceeded)
    else if Number(contents, 0) == [] then Err(NoIndexableText)
    else Ok(Number(contents, 0))
  }

  /** A stripped text starts with a visible character, so its first window is
      never dropped. */
  lemma FirstWindowKept(s: string, size: nat, overlap: nat)
    requires s != "" && Stripped(s) && size >= 2
    ensures Number(Contents(s, Windows(s, 0, size, overlap)), 0) != []
  {
    var end := WindowEnd(s, 0, size);
    assert 0 <= 0 < end && !IsSpace(s[0]);
    assert Contents(s, Windows(s, 0, size, overlap))[0] != "";
  }

  // ------------------------------------------------------------- the loop

  /** The window's end as the loop body computes it. */
  method FindEnd(s: string, start: nat, chunkSize: nat) returns (end: nat)
    requires start < |s| && chunkSize >= 2
    ensures end == WindowEnd(s, start, chunkSize)
  {
    var hardEnd := if start + chunkSize < |s| then start + chunkSize else |s|;
    end := hardEnd;
    if hardEnd < |s| {
      var line := FindLast(s, '\n', start + chunkSize / 2, hardEnd);
      var space := FindLast(s, ' ', start + chunkSize / 2, hardEnd);
      var boundary := -1;
      if line.Some? { boundary := line.value; }
      if space.Some? && space.value > boundary { boundary := space.value; }
      if boundary > start { end := boundary; }
    }
  }

  method ChunkText(text: string, chunkSize: int, overlap: int, maximumChunks: int)
    returns (result: Result<seq<TextChunk>, ChunkingError>)
    ensures result == ChunkNormalized(Normalize(text), chunkSize, overlap, maximumChunks)
  {
    if !(200 <= chunkSize <= 4000) { return Err(ChunkSizeOutOfRange); }
    if overlap < 0 || overlap >= chunkSize || overlap > 1000 { return Err(OverlapOutOfRange); }
    if !(1 <= maximumChunks <= 2000) { return Err(MaximumOutOfRange); }
    var s := Normalize(text);
    if s == "" { return Err(NoExtractableText); }
    if |s| > MAXIMUM_CHARACTERS { return Err(TextTooLong); }
    result := CollectChunks(s, chunkSize, overlap, maximumChunks, Contents(s, Windows(s, 0, chunkSize, overlap)));
  }

  /** Where the loop stands when it has handled the first `k` windows. */
  ghost predicate AtWindow(s: string, contents: seq<string>, k: nat, start: nat, size: nat, overlap: nat) {
    start < |s| && size >= 2 && k < |contents| && contents[k..] == Contents(s, Windows(s, start, size, overlap))
  }

  lemma NextWindow(s: string, contents: seq<string>, k: nat, start: nat, size: nat, overlap: nat)
    requires AtWindow(s, contents, k, start, size, overlap)
    ensures contents[k] == Content(s, (start, WindowEnd(s, start, size)))
    ensures WindowEnd(s, start, size) >= |s| ==> k + 1 == |contents|
    ensures WindowEnd(s, start, size) < |s| ==>
              AtWindow(s, contents, k + 1, NextStart(start, WindowEnd(s, start, size), overlap), size, overlap)
  {
    var end := WindowEnd(s, start, size);
    assert contents[k] == contents[k..][0];
    if end < |s| {
      assert Windows(s, start, size, overlap)[1..] == Windows(s, NextStart(start, end, overlap), size, overlap);
      assert contents[k + 1..] == contents[k..][1..];
    } else {
      assert Windows(s, start, size, overlap)[1..] == [];
    }
  }

  /** The window loop; `contents` are the window texts it is bound to meet. */
  method CollectChunks(s: string, chunkSize: nat, overlap: nat, maximumChunks: nat, ghost contents: seq<string>)
    returns (result: Result<seq<TextChunk>, ChunkingError>)
    requires AtWindow(s, contents, 0, 0, chunkSize, overlap)
    ensures result == Collected(contents, maximumChunks)
  {
    ghost var k: nat := 0;
    var chunks: seq<TextChunk> := [];
    var start: nat := 0;
    while start < |s|
      invariant AtWindow(s, contents, k, start, chunkSize, overlap)
      invariant chunks == Number(contents[..k], 0)
      decreases |s| - start
    {
      if |chunks| >= maximumChunks {
        LimitHit(contents, k);
        return Err(ChunkLimitExceeded);
      }
      var end := FindEnd(s, start, chunkSize);
      var content := StripWindow(s, start, end);
      NextWindow(s, contents, k, start, chunkSize, overlap);
      NumberNext(contents, k);
      if content != "" {
        chunks := chunks + [TextChunk(|chunks|, content)];
      }
      if end >= |s| {
        assert AllButLast(contents) == contents[..k] && contents[..k + 1] == contents;
        break;
      }
      var next := if start + 1 > end - overlap then start + 1 else end - overlap;
      assert next == NextStart(start, end, overlap);
      start, k := next, k + 1;
    }
    if |chunks| == 0 { return Err(NoIndexableText); }
    return Ok(chunks);
  }

  method StripWindow(s: string, start: nat, end: nat) returns (content: string)
    requires start <= end <= |s|
    ensures content == Content(s, (start, end))
  {
    var bounds := StripBounds(s, start, end);
    content := s[bounds.0..bounds.1];
  }
}

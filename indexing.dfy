/**
 * The text chunker used when evidence is indexed: whitespace is normalised
 * and the text is cut into windows of `chunkSize` characters, each starting
 * `chunkSize - overlap` characters after the previous one, the last one
 * stopping at the end of the text.
 */
module Indexing {
  import opened Text

  /** The default window and overlap of `chunk_text`. */
  const DefaultChunkSize := 800
  const DefaultOverlap := 150

  /**
   * The windows of `t` from offset `start` on. A window that reaches the end
   * of the text is the last; otherwise the next starts `size - overlap` later.
   */
  function Windows(t: string, start: nat, size: int, overlap: int): seq<string>
    requires 0 < size && overlap < size
    decreases |t| - start
  {
    if start >= |t| then []
    else if start + size >= |t| then [t[start..]]
    else [t[start..start + size]] + Windows(t, start + size - overlap, size, overlap)
  }

  /** What `chunk_text(text, size, overlap)` returns. */
  function Chunks(text: string, size: int, overlap: int): seq<string>
    requires 0 < size && overlap < size
  {
    var t := Normalize(text);
    if t == [] then [] else Windows(t, 0, size, overlap)
  }

  /** `chunk_text`: the sliding window loop over the normalised text. */
  method ChunkText(text: string, chunkSize: int, overlap: int) returns (chunks: seq<string>)
    requires 0 < chunkSize && overlap < chunkSize
    ensures chunks == Chunks(text, chunkSize, overlap)
  {
    var t := Normalize(text);
    if t == [] {
      return [];
    }
    chunks := [];
    var start := 0;
    while start < |t|
      invariant 0 <= start
      invariant chunks + Windows(t, start, chunkSize, overlap) == Windows(t, 0, chunkSize, overlap)
      decreases |t| - start
    {
      var end := if |t| < start + chunkSize then |t| else start + chunkSize;
      ghost var from := start;
      chunks := chunks + [t[start..end]];
      start := end - overlap;
      if start < 0 {
        start := 0;
      }
      if end == |t| {
        assert t[from..end] == t[from..];
        break;
      }
    }
    assert chunks == Windows(t, 0, chunkSize, overlap);
  }

  /** Later windows, each without the `overlap` characters it repeats. */
  function Tails(ws: seq<string>, overlap: nat): string {
    if ws == [] then ""
    else (if overlap <= |ws[0]| then ws[0][overlap..] else "") + Tails(ws[1..], overlap)
  }

  /** The text the chunks were cut from: the first chunk, then each later one less its overlap. */
  function Reassemble(chunks: seq<string>, overlap: nat): string {
    if chunks == [] then "" else chunks[0] + Tails(chunks[1..], overlap)
  }

  /** Chunking yields nothing exactly when the text is empty or only whitespace. */
  lemma ChunksEmptyIff(text: string, size: int, overlap: int)
    requires 0 < size && overlap < size
    ensures Chunks(text, size, overlap) == [] <==> AllSpace(text)
  {
    NormalizeEmptyIff(text);
  }

  /**
   * Window `w` sits at offset `p` of `t`: it is that stretch of the text,
   * non-empty and at most `size` long, exactly `size` and short of the end of
   * the text unless it is the last, and (without a negative overlap) the last
   * one reaches the end of the text.
   */
  predicate PlacedWindow(t: string, p: int, w: string, isLast: bool, size: int, overlap: int) {
    && 0 <= p && p + |w| <= |t|
    && w == t[p..p + |w|]
    && 0 < |w| <= size
    && (!isLast ==> |w| == size && p + size < |t|)
    && (0 <= overlap && isLast ==> p + |w| == |t|)
  }

  /**
   * The `i`-th window from `start` sits `i * (size - overlap)` further on. A
   * negative overlap skips characters between windows.
   */
  lemma {:induction false} WindowAt(t: string, start: nat, size: int, overlap: int, i: nat)
    requires 0 < size && overlap < size
    requires i < |Windows(t, start, size, overlap)|
    ensures var ws := Windows(t, start, size, overlap);
      PlacedWindow(t, start + i * (size - overlap), ws[i], i == |ws| - 1, size, overlap)
    decreases i
  {
    var ws := Windows(t, start, size, overlap);
    var step := size - overlap;
    if i > 0 {
      var next := start + step;
      var rest := Windows(t, next, size, overlap);
      assert ws == [t[start..start + size]] + rest;
      WindowAt(t, next, size, overlap, i - 1);
      assert next + (i - 1) * step == start + i * step;
      assert ws[i] == rest[i - 1];
      assert |ws| == |rest| + 1;
    } else {
      assert start + i * step == start;
      if start + size >= |t| {
        assert ws[0] == t[start..] == t[start..|t|];
      }
    }
  }

  /**
   * Chunk `i` is the normalised text from offset `i * (size - overlap)`; it is
   * non-empty and at most `size` long, exactly `size` and short of the end
   * of the text unless it is the last, and without a negative overlap the last chunk ends where the text ends.
   */
  lemma ChunkAt(text: string, size: int, overlap: int, i: nat)
    requires 0 < size && overlap < size
    requires i < |Chunks(text, size, overlap)|
    ensures var cs := Chunks(text, size, overlap);
      PlacedWindow(Normalize(text), i * (size - overlap), cs[i], i == |cs| - 1, size, overlap)
  {
    var t := Normalize(text);
    var cs := Chunks(text, size, overlap);
    assert cs == Windows(t, 0, size, overlap);
    WindowAt(t, 0, size, overlap, i);
    assert 0 + i * (size - overlap) == i * (size - overlap);
  }

  /** A normalised text of at most `size` characters is one chunk, the whole text. */
  lemma ShortTextOneChunk(text: string, size: int, overlap: int)
    requires 0 < size && overlap < size
    requires 0 < |Normalize(text)| <= size
    ensures Chunks(text, size, overlap) == [Normalize(text)]
  {
    assert Normalize(text)[0..] == Normalize(text);
  }

  /** Each later chunk begins with the last `overlap` characters of the one before. */
  lemma ChunksOverlap(text: string, size: int, overlap: nat, i: nat)
    requires overlap < size
    requires 1 <= i < |Chunks(text, size, overlap)|
    ensures var cs := Chunks(text, size, overlap);
      |cs[i - 1]| == size && overlap < |cs[i]| && cs[i][..overlap] == cs[i - 1][size - overlap..]
  {
    var t := Normalize(text);
    assert Chunks(text, size, overlap) == Windows(t, 0, size, overlap);
    WindowsOverlap(t, 0, size, overlap, i);
  }

  /** Each later window begins with the last `overlap` characters of the one before. */
  lemma {:induction false} WindowsOverlap(t: string, start: nat, size: int, overlap: nat, i: nat)
    requires overlap < size
    requires 1 <= i < |Windows(t, start, size, overlap)|
    ensures var ws := Windows(t, start, size, overlap);
      |ws[i - 1]| == size && overlap < |ws[i]| && ws[i][..overlap] == ws[i - 1][size - overlap..]
    decreases i
  {
    var ws := Windows(t, start, size, overlap);
    var next := start + size - overlap;
    var rest := Windows(t, next, size, overlap);
    assert ws == [t[start..start + size]] + rest;
    if i == 1 {
      WindowAt(t, next, size, overlap, 0);
      assert next + 0 * (size - overlap) == next;
      assert PlacedWindow(t, start, ws[0], false, size, overlap);
      SharedPart(t, start, size, overlap, ws[0], rest[0], 0 == |rest| - 1);
    } else {
      WindowsOverlap(t, next, size, overlap, i - 1);
      assert ws[i - 1] == rest[i - 2] && ws[i] == rest[i - 1];
    }
  }

  /** Two windows `size - overlap` apart, the first not the last, share `overlap` characters. */
  lemma SharedPart(t: string, a: int, size: int, overlap: nat, prev: string, cur: string, curLast: bool)
    requires overlap < size
    requires PlacedWindow(t, a, prev, false, size, overlap)
    requires PlacedWindow(t, a + size - overlap, cur, curLast, size, overlap)
    ensures |prev| == size && overlap < |cur| && cur[..overlap] == prev[size - overlap..]
  {
    assert prev == t[a..a + size];
    assert cur[..overlap] == t[a + size - overlap..a + size];
  }

  /** From any start inside the text, the windows reassemble the rest of the text. */
  lemma {:induction false} WindowsReassemble(t: string, start: nat, size: int, overlap: nat)
    requires overlap < size && start < |t|
    ensures Reassemble(Windows(t, start, size, overlap), overlap) == t[start..]
    decreases |t| - start
  {
    if start + size < |t| {
      WindowsReassemble(t, start + size - overlap, size, overlap);
      ReassembleFromNext(t, start, size, overlap);
    } else {
      LastWindowReassembles(t, start, size, overlap);
    }
  }

  /** If the windows from the next start reassemble the text from there, those from `start` do from `start`. */
  lemma ReassembleFromNext(t: string, start: nat, size: int, overlap: nat)
    requires overlap < size && start + size < |t|
    requires Reassemble(Windows(t, start + size - overlap, size, overlap), overlap) == t[start + size - overlap..]
    ensures Reassemble(Windows(t, start, size, overlap), overlap) == t[start..]
  {
    ReassembleStep(t, start, size, overlap);
    OverlappingSlices(t, start, start + size, start + size - overlap, overlap);
  }

  /** A stretch of `t` followed by the rest of `t` from an earlier point, less the repeated part, is all of `t` from the start. */
  lemma OverlappingSlices(t: string, start: nat, end: nat, next: nat, k: nat)
    requires start <= next && next + k == end <= |t|
    ensures t[start..end] + t[next..][k..] == t[start..]
  {
    assert t[next..][k..] == t[end..];
  }

  /** A window that reaches the end of the text is the whole rest of it. */
  lemma LastWindowReassembles(t: string, start: nat, size: int, overlap: nat)
    requires overlap < size && start < |t| <= start + size
    ensures Reassemble(Windows(t, start, size, overlap), overlap) == t[start..]
  {
    assert Windows(t, start, size, overlap) == [t[start..]];
    assert Tails([], overlap) == "";
  }

  /**
   * A window short of the end is followed by the reassembled later windows,
   * less the `overlap` characters the next window repeats.
   */
  lemma ReassembleStep(t: string, start: nat, size: int, overlap: nat)
    requires overlap < size && start + size < |t|
    ensures var next := start + size - overlap;
      var rest := Reassemble(Windows(t, next, size, overlap), overlap);
      overlap <= |rest| &&
      Reassemble(Windows(t, start, size, overlap), overlap) == t[start..start + size] + rest[overlap..]
  {
    var next := start + size - overlap;
    var ws := Windows(t, start, size, overlap);
    var rest := Windows(t, next, size, overlap);
    assert ws == [t[start..start + size]] + rest;
    assert ws[1..] == rest;
    WindowAt(t, next, size, overlap, 0);
    assert next + 0 * (size - overlap) == next;
    var first := rest[0];
    assert overlap < |first|;
    assert Tails(rest, overlap) == first[overlap..] + Tails(rest[1..], overlap);
    assert (first + Tails(rest[1..], overlap))[overlap..] == first[overlap..] + Tails(rest[1..], overlap);
  }

  /**
   * Round trip: the first chunk followed by every later chunk less its first
   * `overlap` characters is exactly the normalised text.
   */
  lemma ChunksReassemble(text: string, size: int, overlap: nat)
    requires overlap < size
    ensures Reassemble(Chunks(text, size, overlap), overlap) == Normalize(text)
  {
    var t := Normalize(text);
    if t != [] {
      WindowsReassemble(t, 0, size, overlap);
      assert t[0..] == t;
    }
  }
}

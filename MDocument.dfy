/** The baseline chunker of bh-rag (`MDocument.ts`): the extracted text is cut into windows
    of at most `maxLength` characters, consecutive windows sharing `overlap` characters,
    and every trimmed non-empty window becomes a text chunk. */
module MDocument {
  import opened Strings
  import Chunking

  // ---------------------------------------------------------------------------
  // windows

  /** `end` for a window at `start`: `start + maxLength`, lowered to the length `n`. */
  function WindowEnd(n: nat, maxLength: nat, start: nat): nat {
    if start + maxLength > n then n else start + maxLength
  }

  /** The windows, as `(start, end)` pairs, that `recursiveChunk` reads from `start` on: the
      scan stops after the window that reaches the end of the text and otherwise resumes
      `overlap` characters before `end`. */
  function Windows(n: nat, maxLength: nat, overlap: nat, start: nat): seq<(nat, nat)>
    requires overlap < maxLength
    decreases n - start
  {
    if start >= n then []
    else
      var end := WindowEnd(n, maxLength, start);
      [(start, end)] + if end == n then [] else Windows(n, maxLength, overlap, end - overlap)
  }

  /** Windows that slide over `start..n`: the first starts at `start`, the last ends at `n`,
      each holds 1 to `maxLength` characters, and each starts `overlap` characters before
      the previous one ends. */
  predicate Sliding(ws: seq<(nat, nat)>, n: nat, maxLength: nat, overlap: nat, start: nat) {
    (|ws| > 0 ==> ws[0].0 == start && ws[|ws| - 1].1 == n)
    && (forall k :: 0 <= k < |ws| ==> start <= ws[k].0 < ws[k].1 <= n && ws[k].1 - ws[k].0 <= maxLength)
    && (forall k :: 0 < k < |ws| ==> ws[k].0 == ws[k - 1].1 - overlap)
  }

  lemma {:induction false} WindowsSlide(n: nat, maxLength: nat, overlap: nat, start: nat)
    requires overlap < maxLength
    ensures Sliding(Windows(n, maxLength, overlap, start), n, maxLength, overlap, start)
    ensures start < n <==> |Windows(n, maxLength, overlap, start)| > 0
    decreases n - start
  {
    if start < n {
      var end := WindowEnd(n, maxLength, start);
      if end < n {
        var rest := Windows(n, maxLength, overlap, end - overlap);
        WindowsSlide(n, maxLength, overlap, end - overlap);
        var ws := [(start, end)] + rest;
        assert Windows(n, maxLength, overlap, start) == ws;
        forall k | 0 < k < |ws| ensures ws[k] == rest[k - 1] {}
      }
    }
  }

  /** Every character from `start` on lies in one of the windows. */
  lemma {:induction false} WindowsCover(n: nat, maxLength: nat, overlap: nat, start: nat, j: int)
    returns (k: nat)
    requires overlap < maxLength && start <= j < n
    ensures k < |Windows(n, maxLength, overlap, start)|
    ensures Windows(n, maxLength, overlap, start)[k].0 <= j < Windows(n, maxLength, overlap, start)[k].1
    decreases n - start
  {
    var end := WindowEnd(n, maxLength, start);
    if j < end {
      k := 0;
    } else {
      var rest := Windows(n, maxLength, overlap, end - overlap);
      assert Windows(n, maxLength, overlap, start) == [(start, end)] + rest;
      var k' := WindowsCover(n, maxLength, overlap, end - overlap, j);
      k := k' + 1;
      assert Windows(n, maxLength, overlap, start)[k] == rest[k'];
    }
  }

  // ---------------------------------------------------------------------------
  // chunks of windows

  /** `text[lo..hi]`, or the empty string for bounds outside the text. */
  function Slice(text: string, lo: nat, hi: nat): string {
    if lo <= hi <= |text| then text[lo..hi] else ""
  }

  /** A trimmed window is pushed only when it is non-empty. */
  function Keep(chunk: string): seq<string> {
    if |chunk| > 0 then [chunk] else []
  }

  /** The chunks pushed for the windows `ws`: each window trimmed, empty ones dropped. */
  function TrimAll(text: string, ws: seq<(nat, nat)>): seq<string> {
    if ws == [] then [] else Keep(Trim(Slice(text, ws[0].0, ws[0].1))) + TrimAll(text, ws[1..])
  }

  /** What `recursiveChunk(text, maxLength, overlap)` returns, with the loop stopped after
      the window that reaches the end of the text. */
  function RecursiveChunks(text: string, maxLength: nat, overlap: nat): seq<string>
    requires overlap < maxLength
  {
    TrimAll(text, Windows(|text|, maxLength, overlap, 0))
  }

  /** The first window from `start`, `(start, end)`, and the windows after it, which
      start at `next`. */
  lemma WindowsUnfold(n: nat, maxLength: nat, overlap: nat, start: nat, end: nat, next: int)
    returns (rest: seq<(nat, nat)>)
    requires overlap < maxLength && start < n && end == WindowEnd(n, maxLength, start)
    requires end < n ==> next == end - overlap
    ensures Windows(n, maxLength, overlap, start) == [(start, end)] + rest
    ensures end == n ==> rest == []
    ensures end < n ==> 0 <= next && rest == Windows(n, maxLength, overlap, next)
  {
    rest := if end == n then [] else Windows(n, maxLength, overlap, end - overlap);
  }

  lemma TrimAllCons(text: string, w: (nat, nat), ws: seq<(nat, nat)>)
    ensures TrimAll(text, [w] + ws) == Keep(Trim(Slice(text, w.0, w.1))) + TrimAll(text, ws)
  {
    assert ([w] + ws)[1..] == ws;
  }

  lemma AppendAssoc(a: seq<string>, b: seq<string>, c: seq<string>)
    ensures (a + b) + c == a + (b + c)
  {
  }

  /** `recursiveChunk`: slides a window of `maxLength` characters over the text, keeping
      each trimmed non-empty window, and stops once a window reaches the end of the text
      (the loop as written does not stop there; see AsWrittenRevisitsTail). */
  method RecursiveChunk(text: string, maxLength: nat, overlap: nat) returns (chunks: seq<string>)
    requires overlap < maxLength
    ensures chunks == RecursiveChunks(text, maxLength, overlap)
  {
    chunks := [];
    var start: int := 0;
    while start < |text|
      invariant 0 <= start
      invariant chunks + TrimAll(text, Windows(|text|, maxLength, overlap, start)) == RecursiveChunks(text, maxLength, overlap)
      decreases |text| - start
    {
      var end := start + maxLength;
      if end > |text| {
        end := |text|;
      }
      var chunk := Trim(text[start..end]);
      ghost var chunks0, start0 := chunks, start;
      if |chunk| > 0 {
        chunks := chunks + [chunk];
      }
      if end == |text| {
        RecursiveChunkStep(text, maxLength, overlap, start0, end, chunk, chunks0, chunks, 0);
        return;
      }
      start := end - overlap;
      if start < 0 {
        start := 0;
      }
      RecursiveChunkStep(text, maxLength, overlap, start0, end, chunk, chunks0, chunks, start);
    }
  }

  /** One iteration of `recursiveChunk` keeps the loop invariant, and the iteration whose
      window reaches the end of the text has pushed every chunk. */
  lemma RecursiveChunkStep(text: string, maxLength: nat, overlap: nat, start: nat, end: nat,
                           chunk: string, chunks0: seq<string>, chunks: seq<string>, start': int)
    requires overlap < maxLength && start < |text|
    requires end == (if start + maxLength > |text| then |text| else start + maxLength)
    requires chunk == Trim(text[start..end])
    requires chunks == if |chunk| > 0 then chunks0 + [chunk] else chunks0
    requires chunks0 + TrimAll(text, Windows(|text|, maxLength, overlap, start)) == RecursiveChunks(text, maxLength, overlap)
    requires end < |text| ==> start' == if end - overlap < 0 then 0 else end - overlap
    ensures end == |text| ==> chunks == RecursiveChunks(text, maxLength, overlap)
    ensures end < |text| ==>
              start < start' && chunks + TrimAll(text, Windows(|text|, maxLength, overlap, start')) == RecursiveChunks(text, maxLength, overlap)
  {
    var rest := WindowsUnfold(|text|, maxLength, overlap, start, end, start');
    TrimAllCons(text, (start, end), rest);
    assert Slice(text, start, end) == text[start..end];
    assert chunks == chunks0 + Keep(chunk);
    AppendAssoc(chunks0, Keep(chunk), TrimAll(text, rest));
  }

  /** Chunks as `recursiveChunk` pushes them: non-empty, at most `maxLength` long and
      already trimmed. */
  predicate TrimmedChunks(cs: seq<string>, maxLength: nat) {
    forall k :: 0 <= k < |cs| ==> 0 < |cs[k]| <= maxLength && Trim(cs[k]) == cs[k]
  }

  lemma TrimmedChunksAppend(a: seq<string>, b: seq<string>, maxLength: nat)
    requires TrimmedChunks(a, maxLength) && TrimmedChunks(b, maxLength)
    ensures TrimmedChunks(a + b, maxLength)
  {
    forall k | 0 <= k < |a + b| ensures (a + b)[k] == if k < |a| then a[k] else b[k - |a|] {
    }
  }

  /** Windows of at most `maxLength` characters. */
  predicate Short(ws: seq<(nat, nat)>, maxLength: nat) {
    forall k :: 0 <= k < |ws| ==> ws[k].1 <= ws[k].0 + maxLength
  }

  lemma {:induction false} TrimAllTrimmed(text: string, ws: seq<(nat, nat)>, maxLength: nat)
    requires Short(ws, maxLength)
    ensures TrimmedChunks(TrimAll(text, ws), maxLength)
  {
    if ws != [] {
      var w := Slice(text, ws[0].0, ws[0].1);
      TrimIdempotent(w);
      assert Short(ws[1..], maxLength);
      TrimAllTrimmed(text, ws[1..], maxLength);
      TrimmedChunksAppend(Keep(Trim(w)), TrimAll(text, ws[1..]), maxLength);
    }
  }

  /** Every chunk is non-empty, at most `maxLength` long and its own trim. */
  lemma RecursiveChunksTrimmed(text: string, maxLength: nat, overlap: nat)
    requires overlap < maxLength
    ensures TrimmedChunks(RecursiveChunks(text, maxLength, overlap), maxLength)
  {
    var ws := Windows(|text|, maxLength, overlap, 0);
    WindowsSlide(|text|, maxLength, overlap, 0);
    TrimAllTrimmed(text, ws, maxLength);
  }

  /** The chunk of a window, when there is one, is a slice of the text inside the window. */
  lemma HeadSlice(text: string, w: (nat, nat)) returns (lo: nat, hi: nat)
    requires |Keep(Trim(Slice(text, w.0, w.1)))| > 0
    ensures w.0 <= lo <= hi <= w.1 <= |text| && Keep(Trim(Slice(text, w.0, w.1))) == [text[lo..hi]]
  {
    var s := Slice(text, w.0, w.1);
    var a, b := TrimBounds(s);
    assert |s| > 0;
    lo, hi := w.0 + a, w.0 + b;
    SliceOfSlice(text, w.0, w.1, a, b);
  }

  /** Every chunk of `TrimAll` is a slice of the text inside one of the windows. */
  lemma {:induction false} TrimAllSlice(text: string, ws: seq<(nat, nat)>, i: int)
    returns (k: nat, lo: nat, hi: nat)
    requires 0 <= i < |TrimAll(text, ws)|
    ensures k < |ws| && ws[k].0 <= lo <= hi <= ws[k].1 <= |text| && TrimAll(text, ws)[i] == text[lo..hi]
  {
    var head := Keep(Trim(Slice(text, ws[0].0, ws[0].1)));
    var tail := TrimAll(text, ws[1..]);
    assert TrimAll(text, ws) == head + tail;
    if i < |head| {
      k := 0;
      lo, hi := HeadSlice(text, ws[0]);
    } else {
      var k' := 0;
      k', lo, hi := TrimAllSlice(text, ws[1..], i - |head|);
      k := k' + 1;
      assert (head + tail)[i] == tail[i - |head|];
    }
  }

  /** Every chunk is a slice of the text. */
  lemma RecursiveChunksAreSlices(text: string, maxLength: nat, overlap: nat, i: int)
    requires overlap < maxLength && 0 <= i < |RecursiveChunks(text, maxLength, overlap)|
    ensures exists lo, hi :: 0 <= lo <= hi <= |text| && RecursiveChunks(text, maxLength, overlap)[i] == text[lo..hi]
  {
    var k, lo, hi := TrimAllSlice(text, Windows(|text|, maxLength, overlap, 0), i);
  }

  /** A character that is not `\s` inside a window is inside the chunk of that window. */
  lemma HeadKeeps(text: string, w: (nat, nat), j: int) returns (lo: nat, hi: nat)
    requires w.0 <= j < w.1 <= |text| && !IsSpace(text[j])
    ensures lo <= j < hi <= |text| && Keep(Trim(Slice(text, w.0, w.1))) == [text[lo..hi]]
  {
    var s := Slice(text, w.0, w.1);
    assert s[j - w.0] == text[j];
    var a, b := TrimKeepsNonSpace(s, j - w.0);
    lo, hi := w.0 + a, w.0 + b;
    SliceOfSlice(text, w.0, w.1, a, b);
  }

  /** A character that is not `\s` inside window `k` is inside one of the chunks. */
  lemma {:induction false} TrimAllKeeps(text: string, ws: seq<(nat, nat)>, k: int, j: int)
    returns (i: nat, lo: nat, hi: nat)
    requires 0 <= k < |ws| && ws[k].0 <= j < ws[k].1 <= |text| && !IsSpace(text[j])
    ensures i < |TrimAll(text, ws)| && lo <= j < hi <= |text| && TrimAll(text, ws)[i] == text[lo..hi]
  {
    var head := Keep(Trim(Slice(text, ws[0].0, ws[0].1)));
    var tail := TrimAll(text, ws[1..]);
    assert TrimAll(text, ws) == head + tail;
    if k == 0 {
      i := 0;
      lo, hi := HeadKeeps(text, ws[0], j);
    } else {
      var i' := 0;
      i', lo, hi := TrimAllKeeps(text, ws[1..], k - 1, j);
      i := |head| + i';
      assert (head + tail)[i] == tail[i'];
    }
  }

  /** No character that is not `\s` is lost: each lies inside one of the chunks, taken as
      the slice of the text around it. */
  lemma RecursiveChunksCover(text: string, maxLength: nat, overlap: nat, j: int)
    requires overlap < maxLength && 0 <= j < |text| && !IsSpace(text[j])
    ensures var cs := RecursiveChunks(text, maxLength, overlap);
      exists i, lo, hi :: 0 <= i < |cs| && 0 <= lo <= j < hi <= |text| && cs[i] == text[lo..hi]
  {
    var ws := Windows(|text|, maxLength, overlap, 0);
    WindowsSlide(|text|, maxLength, overlap, 0);
    var k := WindowsCover(|text|, maxLength, overlap, 0, j);
    var i, lo, hi := TrimAllKeeps(text, ws, k, j);
    var cs := RecursiveChunks(text, maxLength, overlap);
    assert cs == TrimAll(text, ws);
    assert 0 <= i < |cs| && 0 <= lo <= j < hi <= |text| && cs[i] == text[lo..hi];
  }

  /** A text no longer than one window gives at most one chunk: the trimmed text. */
  lemma ShortTextChunks(text: string, maxLength: nat, overlap: nat)
    requires overlap < maxLength && |text| <= maxLength
    ensures RecursiveChunks(text, maxLength, overlap) == if Trim(text) == "" then [] else [Trim(text)]
  {
    if |text| > 0 {
      var ws := Windows(|text|, maxLength, overlap, 0);
      assert ws == [(0, |text|)];
      assert Slice(text, 0, |text|) == text;
      assert TrimAll(text, ws) == Keep(Trim(text)) + TrimAll(text, []);
    }
  }

  // ---------------------------------------------------------------------------
  // the loop as written

  /** The next value of `start` in the loop as written: `end - overlap`, raised to 0. */
  function NextStart(n: nat, maxLength: nat, overlap: nat, start: nat): nat {
    var end := WindowEnd(n, maxLength, start);
    if end < overlap then 0 else end - overlap
  }

  /** The windows the loop as written reads in its first `k` iterations from `start`: it
      goes on while `start < n`. */
  function AsWrittenWindows(n: nat, maxLength: nat, overlap: nat, start: nat, k: nat): seq<(nat, nat)>
    decreases k
  {
    if k == 0 || start >= n then []
    else [(start, WindowEnd(n, maxLength, start))]
         + AsWrittenWindows(n, maxLength, overlap, NextStart(n, maxLength, overlap, start), k - 1)
  }

  /** Where the loop as written goes after the window that reaches the end: `overlap`
      characters before the end (or 0). */
  function TailStart(n: nat, overlap: nat): nat {
    if n < overlap then 0 else n - overlap
  }

  /** `k` copies of `x`. */
  function Copies<T>(x: T, k: nat): (r: seq<T>)
    ensures |r| == k && forall i :: 0 <= i < k ==> r[i] == x
  {
    if k == 0 then [] else [x] + Copies(x, k - 1)
  }

  /** Once at the tail start, the loop as written reads the same window again and again. */
  lemma {:induction false} AsWrittenStaysAtTail(n: nat, maxLength: nat, overlap: nat, k: nat)
    requires 0 < n && 0 < overlap <= maxLength
    ensures AsWrittenWindows(n, maxLength, overlap, TailStart(n, overlap), k)
         == Copies((TailStart(n, overlap), n), k)
  {
    if k > 0 {
      var t := TailStart(n, overlap);
      assert WindowEnd(n, maxLength, t) == n;
      assert NextStart(n, maxLength, overlap, t) == t;
      AsWrittenStaysAtTail(n, maxLength, overlap, k - 1);
    }
  }

  /** The loop as written reads the windows of the corrected loop and then, for a positive
      `overlap`, the tail window forever: its guard `start < text.length` never fails on a
      non-empty text, and the tail chunk is pushed again on every iteration. */
  lemma {:induction false} AsWrittenRevisitsTail(n: nat, maxLength: nat, overlap: nat, start: nat, k: nat)
    requires 0 < overlap < maxLength && start < n
    ensures AsWrittenWindows(n, maxLength, overlap, start, |Windows(n, maxLength, overlap, start)| + k)
         == Windows(n, maxLength, overlap, start) + Copies((TailStart(n, overlap), n), k)
    decreases n - start
  {
    var end := WindowEnd(n, maxLength, start);
    if end == n {
      var rest := WindowsUnfold(n, maxLength, overlap, start, end, 0);
      assert NextStart(n, maxLength, overlap, start) == TailStart(n, overlap);
      AsWrittenStaysAtTail(n, maxLength, overlap, k);
    } else {
      var next := end - overlap;
      var rest := WindowsUnfold(n, maxLength, overlap, start, end, next);
      assert NextStart(n, maxLength, overlap, start) == next;
      AsWrittenRevisitsTail(n, maxLength, overlap, next, k);
      AppendAssocW([(start, end)], rest, Copies((TailStart(n, overlap), n), k));
    }
  }

  lemma AppendAssocW(a: seq<(nat, nat)>, b: seq<(nat, nat)>, c: seq<(nat, nat)>)
    ensures (a + b) + c == a + (b + c)
  {
  }

  /** With the parameters `toChunks` uses, a three-letter text is read again on every
      iteration: the loop as written has pushed `k` copies of it after `k` iterations. */
  lemma AsWrittenRepeatsShortText(k: nat)
    ensures TrimAll("abc", AsWrittenWindows(3, 1000, 200, 0, k)) == Copies("abc", k)
  {
    AsWrittenStaysAtTail(3, 1000, 200, k);
    assert TailStart(3, 200) == 0;
    assert Trim("abc") == "abc";
    TrimAllRepeat("abc", k);
  }

  /** Reading the whole text `k` times pushes its trim `k` times. */
  lemma {:induction false} TrimAllRepeat(text: string, k: nat)
    requires 0 < |text| && Trim(text) == text
    ensures TrimAll(text, Copies((0, |text|), k)) == Copies(text, k)
  {
    if k > 0 {
      TrimAllCons(text, (0, |text|), Copies((0, |text|), k - 1));
      assert Slice(text, 0, |text|) == text;
      TrimAllRepeat(text, k - 1);
    }
  }

  // ---------------------------------------------------------------------------
  // toChunks

  /** The window length and overlap `toChunks` passes to `recursiveChunk`. */
  const MaxLength: nat := 1000
  const Overlap: nat := 200

  /** `toChunks`: the text extracted from the PDF cut by `recursiveChunk(text, 1000, 200)`,
      every piece a text chunk of at most 1000 characters. */
  method ToChunks(text: string) returns (chunks: seq<Chunking.Chunk>)
    ensures |chunks| == |RecursiveChunks(text, MaxLength, Overlap)|
    ensures forall k :: 0 <= k < |chunks| ==>
      chunks[k] == Chunking.Chunk(RecursiveChunks(text, MaxLength, Overlap)[k], Chunking.Text)
    ensures forall k :: 0 <= k < |chunks| ==> 0 < |chunks[k].content| <= MaxLength
  {
    var raw := RecursiveChunk(text, MaxLength, Overlap);
    RecursiveChunksTrimmed(text, MaxLength, Overlap);
    chunks := seq(|raw|, k requires 0 <= k < |raw| => Chunking.Chunk(raw[k], Chunking.Text));
  }
}

/** Table-aware chunking of extracted letter text (bh-rag `chunk.ts`): lines are grouped
    into maximal runs of table-like and narrative lines, and narrative text is cut into
    overlapping windows of words. */
module Chunking {
  import opened Strings

  datatype Kind = Text | Table

  /** A piece of a document to embed: its text and whether it came from a table. */
  datatype Chunk = Chunk(content: string, kind: Kind)

  // ---------------------------------------------------------------------------
  // table lines

  /** `/\s{2,}/` matches: two consecutive `\s` characters somewhere in the line. */
  predicate HasSpaceRun(line: string) {
    exists i :: 0 <= i < |line| - 1 && IsSpace(line[i]) && IsSpace(line[i + 1])
  }

  /** `/\d/` matches. */
  predicate HasDigit(line: string) {
    exists i :: 0 <= i < |line| && IsDigit(line[i])
  }

  /** Scans for a run of two `\s` characters at or after `from`, as the regex engine does. */
  predicate SpaceRunFrom(line: string, from: nat)
    decreases |line| - from
  {
    from + 1 < |line| &&
    ((IsSpace(line[from]) && IsSpace(line[from + 1])) || SpaceRunFrom(line, from + 1))
  }

  lemma {:induction false} SpaceRunFromIff(line: string, from: nat)
    ensures SpaceRunFrom(line, from) <==> exists i :: from <= i < |line| - 1 && IsSpace(line[i]) && IsSpace(line[i + 1])
    decreases |line| - from
  {
    if from + 1 < |line| {
      SpaceRunFromIff(line, from + 1);
    }
  }

  /** Scans for a digit at or after `from`. */
  predicate DigitFrom(line: string, from: nat)
    decreases |line| - from
  {
    from < |line| && (IsDigit(line[from]) || DigitFrom(line, from + 1))
  }

  lemma {:induction false} DigitFromIff(line: string, from: nat)
    ensures DigitFrom(line, from) <==> exists i :: from <= i < |line| && IsDigit(line[i])
    decreases |line| - from
  {
    if from < |line| {
      DigitFromIff(line, from + 1);
    }
  }

  /** `line.includes(pat)` as a scan for an occurrence at or after `from`. */
  predicate IncludesFrom(line: string, pat: string, from: nat)
    decreases |line| - from
  {
    from + |pat| <= |line| && (OccursAt(line, pat, from) || IncludesFrom(line, pat, from + 1))
  }

  lemma {:induction false} IncludesFromIff(line: string, pat: string, from: nat)
    ensures IncludesFrom(line, pat, from) <==> exists i :: from <= i <= |line| && OccursAt(line, pat, i)
    decreases |line| - from
  {
    if from + |pat| <= |line| {
      IncludesFromIff(line, pat, from + 1);
    }
  }

  /** The line includes one of `markers`. */
  predicate IncludesAny(line: string, markers: seq<string>) {
    |markers| > 0 && (IncludesFrom(line, markers[0], 0) || IncludesAny(line, markers[1..]))
  }

  lemma {:induction false} IncludesAnyIff(line: string, markers: seq<string>)
    ensures IncludesAny(line, markers) <==> exists m :: m in markers && Contains(line, m)
    decreases |markers|
  {
    if |markers| > 0 {
      IncludesFromIff(line, markers[0], 0);
      assert IncludesFrom(line, markers[0], 0) <==> Contains(line, markers[0]);
      IncludesAnyIff(line, markers[1..]);
      if IncludesAny(line, markers) {
        if !IncludesFrom(line, markers[0], 0) {
          var m :| m in markers[1..] && Contains(line, m);
          assert m in markers;
        }
      } else {
        forall m | m in markers ensures !Contains(line, m) {
          if m != markers[0] {
            assert m in markers[1..];
          }
        }
      }
    }
  }

  /** The three markers `isTableLine` looks for with `includes`: a dashed rule, a double
      rule and the word "Total". */
  const TableMarkers: seq<string> := ["-----", "====", "Total"]

  /** `isTableLine(line)`: spaced-out columns together with a digit (a regex search and a
      regex test), or one of the table markers. */
  predicate IsTableLine(line: string) {
    (SpaceRunFrom(line, 0) && DigitFrom(line, 0)) || IncludesAny(line, TableMarkers)
  }

  /** What the heuristic means, stated with the character classes and `includes`. */
  lemma IsTableLineIff(line: string)
    ensures IsTableLine(line) <==>
      (HasSpaceRun(line) && HasDigit(line))
      || Contains(line, "-----") || Contains(line, "====") || Contains(line, "Total")
  {
    SpaceRunFromIff(line, 0);
    DigitFromIff(line, 0);
    IncludesAnyIff(line, TableMarkers);
    assert Contains(line, "-----") ==> "-----" in TableMarkers;
    assert Contains(line, "====") ==> "====" in TableMarkers;
    assert Contains(line, "Total") ==> "Total" in TableMarkers;
  }

  function KindOf(line: string): Kind {
    if IsTableLine(line) then Table else Text
  }

  // ---------------------------------------------------------------------------
  // smartChunk

  /** Every group is non-empty. */
  predicate NonEmptyGroups(gs: seq<seq<string>>) {
    forall k :: 0 <= k < |gs| ==> |gs[k]| > 0
  }

  /** The lines grouped into maximal runs by `kind`: each line joins the last group when it
      has the same kind, and opens a new group otherwise. GroupsPartition, GroupsUniform
      and GroupsAlternate say this is the partition into maximal runs. The grouping is
      stated for any classification; `smartChunk` uses KindOf. */
  function Groups(lines: seq<string>, kind: string -> Kind): (gs: seq<seq<string>>)
    ensures NonEmptyGroups(gs)
    ensures |lines| > 0 ==> |gs| > 0
    ensures |lines| == 0 ==> gs == []
  {
    if |lines| == 0 then []
    else
      var gs := Groups(lines[..|lines| - 1], kind);
      var line := lines[|lines| - 1];
      if |gs| > 0 && kind(gs[|gs| - 1][0]) == kind(line)
      then gs[..|gs| - 1] + [gs[|gs| - 1] + [line]]
      else gs + [[line]]
  }

  /** The groups, read in order, are the lines. */
  lemma {:induction false} GroupsPartition(lines: seq<string>, kind: string -> Kind)
    ensures Flatten(Groups(lines, kind)) == lines
  {
    if |lines| > 0 {
      var init := lines[..|lines| - 1];
      var gs := Groups(init, kind);
      var line := lines[|lines| - 1];
      GroupsPartition(init, kind);
      assert init + [line] == lines;
      if |gs| > 0 && kind(gs[|gs| - 1][0]) == kind(line) {
        var front := gs[..|gs| - 1];
        assert gs == front + [gs[|gs| - 1]];
        FlattenExtendLast(front, gs[|gs| - 1], line);
      } else {
        FlattenAppend(gs, [line]);
      }
    }
  }

  /** Adding an item to the last group adds it to the end of the flattening. */
  lemma FlattenExtendLast<T>(front: seq<seq<T>>, last: seq<T>, x: T)
    ensures Flatten(front + [last + [x]]) == Flatten(front + [last]) + [x]
  {
    FlattenAppend(front, last);
    FlattenAppend(front, last + [x]);
    AppendAssoc(Flatten(front), last, [x]);
  }

  /** All lines of each group have the kind of its first line. */
  predicate Uniform(gs: seq<seq<string>>, kind: string -> Kind)
    requires NonEmptyGroups(gs)
  {
    forall k, j :: 0 <= k < |gs| && 0 <= j < |gs[k]| ==> kind(gs[k][j]) == kind(gs[k][0])
  }

  lemma {:induction false} GroupsUniform(lines: seq<string>, kind: string -> Kind)
    ensures Uniform(Groups(lines, kind), kind)
  {
    if |lines| > 0 {
      var init := lines[..|lines| - 1];
      var g0 := Groups(init, kind);
      var line := lines[|lines| - 1];
      var gs := Groups(lines, kind);
      GroupsUniform(init, kind);
      if |g0| > 0 && kind(g0[|g0| - 1][0]) == kind(line) {
        assert gs == g0[..|g0| - 1] + [g0[|g0| - 1] + [line]];
        forall k, j | 0 <= k < |gs| && 0 <= j < |gs[k]| ensures kind(gs[k][j]) == kind(gs[k][0]) {
          if k < |g0| - 1 {
            assert gs[k] == g0[k];
          } else {
            assert gs[k] == g0[k] + [line];
            if j < |g0[k]| {
              assert gs[k][j] == g0[k][j];
            }
          }
        }
      } else {
        assert gs == g0 + [[line]];
        forall k, j | 0 <= k < |gs| && 0 <= j < |gs[k]| ensures kind(gs[k][j]) == kind(gs[k][0]) {
          if k < |g0| {
            assert gs[k] == g0[k];
          }
        }
      }
    }
  }

  /** Neighbouring groups have different kinds, so no run could be longer. */
  predicate Alternating(gs: seq<seq<string>>, kind: string -> Kind)
    requires NonEmptyGroups(gs)
  {
    forall k :: 0 < k < |gs| ==> kind(gs[k][0]) != kind(gs[k - 1][0])
  }

  lemma {:induction false} GroupsAlternate(lines: seq<string>, kind: string -> Kind)
    ensures Alternating(Groups(lines, kind), kind)
  {
    if |lines| > 0 {
      var init := lines[..|lines| - 1];
      var g0 := Groups(init, kind);
      var line := lines[|lines| - 1];
      var gs := Groups(lines, kind);
      GroupsAlternate(init, kind);
      if |g0| > 0 && kind(g0[|g0| - 1][0]) == kind(line) {
        assert gs == g0[..|g0| - 1] + [g0[|g0| - 1] + [line]];
        forall k | 0 < k < |gs| ensures kind(gs[k][0]) != kind(gs[k - 1][0]) {
          assert gs[k - 1] == g0[k - 1];
          assert gs[k][0] == g0[k][0];
        }
      } else {
        assert gs == g0 + [[line]];
        forall k | 0 < k < |gs| ensures kind(gs[k][0]) != kind(gs[k - 1][0]) {
          assert gs[k - 1] == g0[k - 1];
          if k < |g0| {
            assert gs[k] == g0[k];
          }
        }
      }
    }
  }

  /** The chunk of one group: its lines joined with line breaks, with the group's kind. */
  function ChunkOfGroup(g: seq<string>, kind: string -> Kind): Chunk
    requires |g| > 0
  {
    Chunk(Join(g, "\n"), kind(g[0]))
  }

  /** One chunk per group. */
  function ChunksOf(gs: seq<seq<string>>, kind: string -> Kind): (cs: seq<Chunk>)
    requires NonEmptyGroups(gs)
    ensures |cs| == |gs|
    ensures forall k :: 0 <= k < |gs| ==> cs[k] == ChunkOfGroup(gs[k], kind)
  {
    seq(|gs|, k requires 0 <= k < |gs| => ChunkOfGroup(gs[k], kind))
  }

  /** What `smartChunk(text)` returns. */
  function SmartChunks(text: string): seq<Chunk> {
    ChunksOf(Groups(Split(text, "\n"), KindOf), KindOf)
  }

  lemma ChunksOfSnoc(gs: seq<seq<string>>, g: seq<string>, kind: string -> Kind)
    requires NonEmptyGroups(gs) && |g| > 0
    ensures NonEmptyGroups(gs + [g])
    ensures ChunksOf(gs + [g], kind) == ChunksOf(gs, kind) + [ChunkOfGroup(g, kind)]
  {
    var a, b := ChunksOf(gs + [g], kind), ChunksOf(gs, kind) + [ChunkOfGroup(g, kind)];
    forall k | 0 <= k < |gs| + 1 ensures (gs + [g])[k] == if k < |gs| then gs[k] else g {}
    assert |a| == |b|;
    forall k | 0 <= k < |a| ensures a[k] == b[k] {}
  }

  /** One step of `Groups`, seen from the line after a prefix. */
  lemma GroupsStep(lines: seq<string>, i: nat, kind: string -> Kind)
    requires 0 < i < |lines|
    ensures var gs := Groups(lines[..i], kind); var line := lines[i];
      Groups(lines[..i + 1], kind) ==
        if kind(gs[|gs| - 1][0]) == kind(line) then gs[..|gs| - 1] + [gs[|gs| - 1] + [line]]
        else gs + [[line]]
  {
    assert lines[..i + 1][..i] == lines[..i];
    assert lines[..i + 1][i] == lines[i];
  }

  /** The state of `smartChunk` after the first `i` lines: the chunks flushed so far are
      all groups but the last, which is the buffer, of the buffer's kind. */
  predicate SmartChunkState(lines: seq<string>, i: nat, chunks: seq<Chunk>, buffer: seq<string>,
                            mode: Kind, kind: string -> Kind)
  {
    i <= |lines| &&
    if i == 0 then buffer == [] && chunks == [] && mode == Text
    else BufferedGroups(Groups(lines[..i], kind), chunks, buffer, mode, kind)
  }

  /** The chunks are those of all groups but the last, and the last group is the buffer. */
  predicate BufferedGroups(gs: seq<seq<string>>, chunks: seq<Chunk>, buffer: seq<string>,
                           mode: Kind, kind: string -> Kind)
  {
    |gs| > 0 && NonEmptyGroups(gs) && gs[|gs| - 1] == buffer && kind(buffer[0]) == mode
    && chunks == ChunksOf(gs[..|gs| - 1], kind)
  }

  /** Before the first line: no chunks, an empty buffer, text mode. */
  lemma SmartChunkStart(lines: seq<string>, kind: string -> Kind)
    ensures SmartChunkState(lines, 0, [], [], Text, kind)
  {
  }

  /** One line handled: a line of the buffer's kind is added to it; a line of the other kind
      makes the buffer (if any) a chunk and starts a new buffer with the line. */
  lemma SmartChunkStep(lines: seq<string>, i: nat, chunks: seq<Chunk>, buffer: seq<string>, mode: Kind,
                       i': nat, chunks': seq<Chunk>, buffer': seq<string>, lineKind: Kind, kind: string -> Kind)
    requires i < |lines| && i' == i + 1 && SmartChunkState(lines, i, chunks, buffer, mode, kind)
    requires mode == lineKind ==> chunks' == chunks && buffer' == buffer + [lines[i]]
    requires mode != lineKind ==>
      buffer' == [lines[i]] &&
      chunks' == if |buffer| > 0 then chunks + [Chunk(Join(buffer, "\n"), mode)] else chunks
    requires lineKind == kind(lines[i])
    ensures SmartChunkState(lines, i', chunks', buffer', lineKind, kind)
  {
    if i == 0 {
      FirstLineStep(lines, chunks', buffer', lineKind, kind);
    } else {
      var gs := Groups(lines[..i], kind);
      GroupsStep(lines, i, kind);
      if mode == lineKind {
        SameKindStep(gs, chunks, buffer, mode, lines[i], kind);
      } else {
        NewKindStep(gs, chunks, buffer, mode, lines[i], kind);
      }
    }
  }

  /** The first line always opens the first buffer. */
  lemma FirstLineStep(lines: seq<string>, chunks': seq<Chunk>, buffer': seq<string>, lineKind: Kind,
                      kind: string -> Kind)
    requires 0 < |lines| && chunks' == [] && buffer' == [lines[0]] && lineKind == kind(lines[0])
    ensures SmartChunkState(lines, 1, chunks', buffer', lineKind, kind)
  {
    assert lines[..1] == [lines[0]];
    assert lines[..1][..0] == [];
  }

  /** A line of the buffer's kind: the buffer grows, the chunks stay. */
  lemma SameKindStep(gs: seq<seq<string>>, chunks: seq<Chunk>, buffer: seq<string>, mode: Kind,
                     line: string, kind: string -> Kind)
    requires BufferedGroups(gs, chunks, buffer, mode, kind) && kind(line) == mode
    ensures BufferedGroups(gs[..|gs| - 1] + [gs[|gs| - 1] + [line]], chunks, buffer + [line], mode, kind)
  {
    var gs' := gs[..|gs| - 1] + [gs[|gs| - 1] + [line]];
    assert gs'[..|gs'| - 1] == gs[..|gs| - 1];
    assert gs'[|gs'| - 1] == buffer + [line];
  }

  /** A line of the other kind: the buffer becomes a chunk and a new buffer starts. */
  lemma NewKindStep(gs: seq<seq<string>>, chunks: seq<Chunk>, buffer: seq<string>, mode: Kind,
                    line: string, kind: string -> Kind)
    requires BufferedGroups(gs, chunks, buffer, mode, kind)
    ensures BufferedGroups(gs + [[line]], chunks + [Chunk(Join(buffer, "\n"), mode)], [line], kind(line), kind)
  {
    LastGroupFlushed(gs, chunks, buffer, mode, kind);
    var gs' := gs + [[line]];
    assert gs'[..|gs'| - 1] == gs;
  }

  /** Flushing the buffer turns the last group into the last chunk. */
  lemma LastGroupFlushed(gs: seq<seq<string>>, chunks: seq<Chunk>, buffer: seq<string>, mode: Kind,
                    kind: string -> Kind)
    requires BufferedGroups(gs, chunks, buffer, mode, kind)
    ensures chunks + [Chunk(Join(buffer, "\n"), mode)] == ChunksOf(gs, kind)
  {
    ChunksOfSnoc(gs[..|gs| - 1], gs[|gs| - 1], kind);
    assert gs[..|gs| - 1] + [gs[|gs| - 1]] == gs;
  }

  /** The final flush: the buffer becomes the last chunk. */
  lemma SmartChunkEnd(lines: seq<string>, chunks: seq<Chunk>, buffer: seq<string>, mode: Kind,
                      kind: string -> Kind)
    requires |lines| > 0 && SmartChunkState(lines, |lines|, chunks, buffer, mode, kind)
    ensures |buffer| > 0 && chunks + [Chunk(Join(buffer, "\n"), mode)] == ChunksOf(Groups(lines, kind), kind)
  {
    assert lines[..|lines|] == lines;
    LastGroupFlushed(Groups(lines, kind), chunks, buffer, mode, kind);
  }

  /** `flushBuffer`: the buffered lines, if any, become one chunk of the current mode and
      the buffer is emptied. */
  method FlushBuffer(chunks: seq<Chunk>, buffer: seq<string>, mode: Kind)
    returns (chunks': seq<Chunk>, buffer': seq<string>)
    ensures buffer' == []
    ensures chunks' == if |buffer| > 0 then chunks + [Chunk(Join(buffer, "\n"), mode)] else chunks
  {
    chunks', buffer' := chunks, buffer;
    if |buffer| > 0 {
      chunks' := chunks + [Chunk(Join(buffer, "\n"), mode)];
      buffer' := [];
    }
  }

  /** `smartChunk`: walks the lines with a buffer and a mode, flushing the buffer into a
      chunk whenever the kind of line changes and once at the end. */
  method SmartChunk(text: string) returns (chunks: seq<Chunk>)
    ensures chunks == SmartChunks(text)
  {
    var lines := Split(text, "\n");
    ghost var kind := KindOf;
    chunks := [];
    var buffer: seq<string> := [];
    var mode := Text;
    var i := 0;
    SmartChunkStart(lines, kind);
    while i < |lines|
      invariant 0 <= i <= |lines|
      invariant SmartChunkState(lines, i, chunks, buffer, mode, kind)
    {
      var line := lines[i];
      ghost var chunks0, buffer0, mode0 := chunks, buffer, mode;
      if IsTableLine(line) {
        if mode == Text {
          chunks, buffer := FlushBuffer(chunks, buffer, mode);
          mode := Table;
        }
      } else {
        if mode == Table {
          chunks, buffer := FlushBuffer(chunks, buffer, mode);
          mode := Text;
        }
      }
      buffer := buffer + [line];
      i := i + 1;
      SmartChunkStep(lines, i - 1, chunks0, buffer0, mode0, i, chunks, buffer, mode, kind);
    }
    SmartChunkEnd(lines, chunks, buffer, mode, kind);
    chunks, buffer := FlushBuffer(chunks, buffer, mode);
  }

  /** Joining non-empty groups one by one is joining their lines. */
  lemma {:induction false} JoinFlatten(gs: seq<seq<string>>, sep: string)
    requires |gs| >= 1 && NonEmptyGroups(gs)
    ensures Join(Flatten(gs), sep) == Join(seq(|gs|, k requires 0 <= k < |gs| => Join(gs[k], sep)), sep)
  {
    var js := seq(|gs|, k requires 0 <= k < |gs| => Join(gs[k], sep));
    if |gs| == 1 {
      assert Flatten(gs) == gs[0] + Flatten(gs[1..]);
      assert gs[0] + [] == gs[0];
    } else {
      var rest := gs[1..];
      JoinFlatten(rest, sep);
      assert Flatten(gs) == gs[0] + Flatten(rest);
      assert |Flatten(rest)| >= 1 by { FlattenNonEmpty(rest); }
      JoinConcat(gs[0], Flatten(rest), sep);
      assert js[1..] == seq(|rest|, k requires 0 <= k < |rest| => Join(rest[k], sep));
    }
  }

  lemma {:induction false} FlattenNonEmpty(gs: seq<seq<string>>)
    requires |gs| >= 1 && NonEmptyGroups(gs)
    ensures |Flatten(gs)| >= |gs[0]|
  {
  }

  /** The contents of the chunks, rejoined with line breaks, are the text: no line is lost,
      duplicated or reordered. */
  lemma SmartChunksRejoin(text: string)
    ensures var cs := SmartChunks(text);
      |cs| >= 1 && Join(seq(|cs|, k requires 0 <= k < |cs| => cs[k].content), "\n") == text
  {
    var lines := Split(text, "\n");
    var gs := Groups(lines, KindOf);
    var cs := SmartChunks(text);
    JoinFlatten(gs, "\n");
    GroupsPartition(lines, KindOf);
    JoinSplit(text, "\n");
    assert seq(|cs|, k requires 0 <= k < |cs| => cs[k].content)
        == seq(|gs|, k requires 0 <= k < |gs| => Join(gs[k], "\n"));
  }

  /** Each chunk is labelled with the kind of every one of its lines: a table chunk holds
      only table lines, a text chunk none. */
  lemma SmartChunksKinds(text: string, k: int)
    requires 0 <= k < |SmartChunks(text)|
    ensures var c := SmartChunks(text)[k];
      forall line :: line in Split(c.content, "\n") ==> KindOf(line) == c.kind
  {
    var lines := Split(text, "\n");
    var gs := Groups(lines, KindOf);
    GroupsPartition(lines, KindOf);
    GroupsUniform(lines, KindOf);
    SplitPiecesFree(text, "\n");
    GroupLinesFree(gs, k, lines);
    SplitJoin(gs[k], '\n');
    assert SmartChunks(text)[k] == ChunkOfGroup(gs[k], KindOf);
  }

  /** The lines of a group come from the split, so none contains a line break. */
  lemma GroupLinesFree(gs: seq<seq<string>>, k: int, lines: seq<string>)
    requires 0 <= k < |gs| && Flatten(gs) == lines
    requires forall j :: 0 <= j < |lines| ==> !Contains(lines[j], "\n")
    ensures forall j :: 0 <= j < |gs[k]| ==> !Contains(gs[k][j], "\n")
  {
    forall j | 0 <= j < |gs[k]| ensures gs[k][j] in lines {
      FlattenMember(gs, k, j);
    }
  }

  lemma {:induction false} FlattenMember(gs: seq<seq<string>>, k: int, j: int)
    requires 0 <= k < |gs| && 0 <= j < |gs[k]|
    ensures gs[k][j] in Flatten(gs)
  {
    if k > 0 {
      FlattenMember(gs[1..], k - 1, j);
    }
  }

  /** Neighbouring chunks have different kinds. */
  lemma SmartChunksAlternate(text: string, k: int)
    requires 0 < k < |SmartChunks(text)|
    ensures SmartChunks(text)[k].kind != SmartChunks(text)[k - 1].kind
  {
    var gs := Groups(Split(text, "\n"), KindOf);
    GroupsAlternate(Split(text, "\n"), KindOf);
    assert KindOf(gs[k][0]) != KindOf(gs[k - 1][0]);
    assert SmartChunks(text)[k] == ChunkOfGroup(gs[k], KindOf);
    assert SmartChunks(text)[k - 1] == ChunkOfGroup(gs[k - 1], KindOf);
  }

  // ---------------------------------------------------------------------------
  // recursiveTextChunk

  function Min(a: int, b: int): int {
    if a <= b then a else b
  }

  /** The windows from word `start` on: `size` words (fewer at the end), the next one
      starting `size - overlap` words later, until a window would start past the last word. */
  function WordWindows(words: seq<string>, size: nat, overlap: nat, start: nat): seq<string>
    requires overlap < size
    decreases |words| - start
  {
    if start >= |words| then []
    else [Join(words[start..Min(|words|, start + size)], " ")] + WordWindows(words, size, overlap, start + size - overlap)
  }

  /** What `recursiveTextChunk(text, size, overlap)` returns. */
  function TextWindows(text: string, size: nat, overlap: nat): seq<string>
    requires overlap < size
  {
    WordWindows(Split(text, " "), size, overlap, 0)
  }

  lemma WordWindowsStep(words: seq<string>, size: nat, overlap: nat, start: nat)
    requires overlap < size && start < |words|
    ensures WordWindows(words, size, overlap, start)
      == [Join(words[start..Min(|words|, start + size)], " ")] + WordWindows(words, size, overlap, start + size - overlap)
  {
  }

  lemma AppendAssoc<T>(a: seq<T>, b: seq<T>, c: seq<T>)
    ensures (a + b) + c == a + (b + c)
  {
  }

  /** `recursiveTextChunk`: the loop over word windows. */
  method RecursiveTextChunk(text: string, size: nat, overlap: nat) returns (result: seq<string>)
    requires overlap < size
    ensures result == TextWindows(text, size, overlap)
  {
    var words := Split(text, " ");
    result := [];
    var start: nat := 0;
    while start < |words|
      invariant result + WordWindows(words, size, overlap, start) == WordWindows(words, size, overlap, 0)
      decreases |words| - start
    {
      var end := start + size;
      var chunk := Join(words[start..Min(|words|, end)], " ");
      ghost var rest := WordWindows(words, size, overlap, end - overlap);
      WordWindowsStep(words, size, overlap, start);
      AppendAssoc(result, [chunk], rest);
      result := result + [chunk];
      var next := end - overlap;
      if next < 0 {
        next := 0;
      }
      start := next;
    }
    assert WordWindows(words, size, overlap, start) == [];
    assert result + [] == result;
  }

  /** The window at position `k`: it starts at word `k * (size - overlap)`. */
  lemma {:induction false} WordWindowsAt(words: seq<string>, size: nat, overlap: nat, start: nat, k: nat)
    requires overlap < size
    requires k < |WordWindows(words, size, overlap, start)|
    ensures var b := start + k * (size - overlap);
      b < |words| && WordWindows(words, size, overlap, start)[k] == Join(words[b..Min(|words|, b + size)], " ")
    decreases k
  {
    if k > 0 {
      WordWindowsAt(words, size, overlap, start + size - overlap, k - 1);
      assert start + k * (size - overlap) == start + size - overlap + (k - 1) * (size - overlap);
    }
  }

  /** How many windows there are: the fewest steps of `size - overlap` words from `start`
      that reach the end of the words. */
  lemma {:induction false} WordWindowsCount(words: seq<string>, size: nat, overlap: nat, start: nat)
    requires overlap < size
    ensures var n := |WordWindows(words, size, overlap, start)|;
      start + n * (size - overlap) >= |words| && (n == 0 || start + (n - 1) * (size - overlap) < |words|)
    decreases |words| - start
  {
    if start < |words| {
      var step := size - overlap;
      WordWindowsCount(words, size, overlap, start + step);
      var m := |WordWindows(words, size, overlap, start + step)|;
      assert start + (m + 1) * step == start + step + m * step;
      if m > 0 {
        assert start + m * step == start + step + (m - 1) * step;
      }
    }
  }

  /** Every word lies in some window: the one whose start is the last multiple of
      `size - overlap` at or before it. */
  lemma WordWindowsCover(text: string, size: nat, overlap: nat, j: nat)
    requires overlap < size && j < |Split(text, " ")|
    ensures var step := size - overlap; var k := j / step;
      k < |TextWindows(text, size, overlap)| && k * step <= j < k * step + size
  {
    var words := Split(text, " ");
    WordWindowsCount(words, size, overlap, 0);
    CoverArith(j, size - overlap, size, |WordWindows(words, size, overlap, 0)|);
  }

  /** The arithmetic of covering: with `n` steps reaching past `j`, the step `j / step`
      is one of them and its window holds `j`. */
  lemma CoverArith(j: nat, step: nat, size: nat, n: nat)
    requires 0 < step <= size && j < n * step
    ensures j / step < n && (j / step) * step <= j < (j / step) * step + size
  {
    var k := j / step;
    assert k * step <= j < k * step + step;
    MulMono(n, k, step);
  }

  lemma MulMono(a: nat, b: nat, c: nat)
    ensures a <= b ==> a * c <= b * c
  {
  }

  /** A text of at most `size - overlap` words is one chunk: the text itself. */
  lemma ShortTextOneChunk(text: string, size: nat, overlap: nat)
    requires overlap < size && |Split(text, " ")| <= size - overlap
    ensures TextWindows(text, size, overlap) == [text]
  {
    var words := Split(text, " ");
    JoinSplit(text, " ");
    assert words[0..Min(|words|, size)] == words;
    assert WordWindows(words, size, overlap, size - overlap) == [];
  }

  /** A text of at most `size` words has the text itself as its first chunk (a second,
      redundant window follows when it has more than `size - overlap` words). */
  lemma FirstChunkIsText(text: string, size: nat, overlap: nat)
    requires overlap < size && |Split(text, " ")| <= size
    ensures TextWindows(text, size, overlap)[0] == text
  {
    var words := Split(text, " ");
    TextWindowsNonEmpty(text, size, overlap);
    WordWindowsAt(words, size, overlap, 0, 0);
    JoinSplit(text, " ");
    assert words[0..Min(|words|, size)] == words;
  }

  /** There is always at least one chunk (the split of any text has a piece). */
  lemma TextWindowsNonEmpty(text: string, size: nat, overlap: nat)
    requires overlap < size
    ensures |TextWindows(text, size, overlap)| >= 1
  {
  }
}

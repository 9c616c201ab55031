/** The incremental framing both chat clients use on a response body: every read is
    appended to a carried buffer, the buffer is split on a separator, every complete piece
    is handled in order, and the last, incomplete piece is carried to the next read. A
    handler may ask to stop (the `[DONE]` sentinel), after which nothing more is handled. */
module Framing {
  import opened Strings
  import opened Options

  /** An error thrown while reading: its `name`, its `message` (`None` when undefined) and
      `String(err)`. */
  datatype ClientError = ClientError(name: string, message: Option<string>, shown: string)

  /** The response `fetch` gives a client: a status that is not ok with its status text and
      body text, or a body read as decoded chunks (`failure` is the error a later read
      throws, if any) under a content type. */
  datatype Reply =
    | NotOk(status: nat, statusText: string, body: string)
    | Body(contentType: string, chunks: seq<string>, failure: Option<ClientError>)

  /** How a stream of chunks ends: stopped by a handler, or drained with a carried buffer. */
  datatype End<M> = Stopped(m: M) | Drained(m: M, buf: string)

  /** The complete pieces handled in order from `m`; `true` when a handler stopped. */
  function Pieces<M>(m: M, parts: seq<string>, handle: (M, string) -> (M, bool)): (M, bool)
    decreases |parts|
  {
    if |parts| == 0 then (m, false)
    else
      var (m1, stop) := handle(m, parts[0]);
      if stop then (m1, true) else Pieces(m1, parts[1..], handle)
  }

  /** Handling two runs of pieces is handling the first, then, unless it stopped, the
      second. */
  lemma {:induction false} PiecesAppend<M>(m: M, a: seq<string>, b: seq<string>, handle: (M, string) -> (M, bool))
    ensures Pieces(m, a + b, handle) ==
      var (m1, stop) := Pieces(m, a, handle);
      if stop then (m1, true) else Pieces(m1, b, handle)
    decreases |a|
  {
    if |a| == 0 {
      assert a + b == b;
    } else {
      assert (a + b)[0] == a[0] && (a + b)[1..] == a[1..] + b;
      var (m1, stop) := handle(m, a[0]);
      if !stop {
        PiecesAppend(m1, a[1..], b, handle);
      }
    }
  }

  /** The reads handled with the carried buffer `buf` and separator `sep`. */
  function Stream<M>(m: M, buf: string, chunks: seq<string>, sep: string, handle: (M, string) -> (M, bool)): End<M>
    requires |sep| > 0
    decreases |chunks|
  {
    if |chunks| == 0 then Drained(m, buf)
    else
      var parts := Split(buf + chunks[0], sep);
      var (m1, stop) := Pieces(m, parts[..|parts| - 1], handle);
      if stop then Stopped(m1) else Stream(m1, parts[|parts| - 1], chunks[1..], sep, handle)
  }

  /** The whole text split at once: every complete piece handled, the last one carried. */
  function Whole<M>(m: M, text: string, sep: string, handle: (M, string) -> (M, bool)): End<M>
    requires |sep| > 0
  {
    var parts := Split(text, sep);
    var (m1, stop) := Pieces(m, parts[..|parts| - 1], handle);
    if stop then Stopped(m1) else Drained(m1, parts[|parts| - 1])
  }

  /** A text without the separator is a single piece. */
  lemma SplitFree(s: string, sep: string)
    requires |sep| > 0 && !Contains(s, sep)
    ensures Split(s, sep) == [s]
  {
    ContainsIffIndexOf(s, sep);
    SplitNone(s, sep);
  }

  /** Where the stream is cut into chunks does not matter: handling the chunks one by one
      with a carried buffer is handling their concatenation split at once. */
  lemma {:induction false} StreamIsWhole<M>(m: M, buf: string, chunks: seq<string>, sep: string, handle: (M, string) -> (M, bool))
    requires |sep| > 0 && !Contains(buf, sep)
    ensures Stream(m, buf, chunks, sep, handle) == Whole(m, buf + Flatten(chunks), sep, handle)
    decreases |chunks|
  {
    if |chunks| == 0 {
      SplitFree(buf, sep);
      assert buf + Flatten(chunks) == buf;
    } else {
      var x := buf + chunks[0];
      var y := Flatten(chunks[1..]);
      assert buf + Flatten(chunks) == x + y;
      var q := Split(x, sep);
      var last := q[|q| - 1];
      SplitPiecesFree(x, sep);
      SplitAppend(x, y, sep);
      var rest := Split(last + y, sep);
      assert Split(x + y, sep) == q[..|q| - 1] + rest;
      assert (q[..|q| - 1] + rest)[..|q| - 1 + |rest| - 1] == q[..|q| - 1] + rest[..|rest| - 1];
      PiecesAppend(m, q[..|q| - 1], rest[..|rest| - 1], handle);
      var (m1, stop) := Pieces(m, q[..|q| - 1], handle);
      if !stop {
        StreamIsWhole(m1, last, chunks[1..], sep, handle);
      }
    }
  }

  /** A property of the state every handler step keeps is kept by handling any pieces ... */
  lemma {:induction false} PiecesPreserve<M>(m: M, parts: seq<string>, handle: (M, string) -> (M, bool), inv: M -> bool)
    requires inv(m)
    requires forall x, p :: inv(x) ==> inv(handle(x, p).0)
    ensures inv(Pieces(m, parts, handle).0)
    decreases |parts|
  {
    if |parts| > 0 {
      var (m1, stop) := handle(m, parts[0]);
      if !stop {
        PiecesPreserve(m1, parts[1..], handle, inv);
      }
    }
  }

  /** ... and by a whole stream of reads. */
  lemma {:induction false} StreamPreserve<M>(m: M, buf: string, chunks: seq<string>, sep: string,
                                             handle: (M, string) -> (M, bool), inv: M -> bool)
    requires |sep| > 0 && inv(m)
    requires forall x, p :: inv(x) ==> inv(handle(x, p).0)
    ensures inv(Stream(m, buf, chunks, sep, handle).m)
    decreases |chunks|
  {
    if |chunks| > 0 {
      var parts := Split(buf + chunks[0], sep);
      PiecesPreserve(m, parts[..|parts| - 1], handle, inv);
      var (m1, stop) := Pieces(m, parts[..|parts| - 1], handle);
      if !stop {
        StreamPreserve(m1, parts[|parts| - 1], chunks[1..], sep, handle, inv);
      }
    }
  }

  /** A piece that stops the handler ends the stream there: the pieces after it are never
      handled. */
  lemma {:induction false} PiecesStopAt<M>(m: M, a: seq<string>, part: string, b: seq<string>, handle: (M, string) -> (M, bool))
    requires forall x :: handle(x, part).1
    ensures Pieces(m, a + [part] + b, handle) == Pieces(m, a + [part], handle)
    ensures Pieces(m, a + [part], handle).1
  {
    assert a + [part] + b == a + ([part] + b);
    PiecesAppend(m, a, [part] + b, handle);
    PiecesAppend(m, a, [part], handle);
    var (m1, stop) := Pieces(m, a, handle);
    if !stop {
      assert ([part] + b)[0] == part && [part][0] == part;
    }
  }

  /** A property every step keeps unless it stops holds after pieces that did not stop ... */
  lemma {:induction false} PiecesPreserveUnlessStopped<M>(m: M, parts: seq<string>, handle: (M, string) -> (M, bool), inv: M -> bool)
    requires inv(m)
    requires forall x, p :: inv(x) && !handle(x, p).1 ==> inv(handle(x, p).0)
    ensures !Pieces(m, parts, handle).1 ==> inv(Pieces(m, parts, handle).0)
    decreases |parts|
  {
    if |parts| > 0 {
      var (m1, stop) := handle(m, parts[0]);
      if !stop {
        PiecesPreserveUnlessStopped(m1, parts[1..], handle, inv);
      }
    }
  }

  /** ... and after a stream that drained. */
  lemma {:induction false} StreamPreserveUnlessStopped<M>(m: M, buf: string, chunks: seq<string>, sep: string,
                                                          handle: (M, string) -> (M, bool), inv: M -> bool)
    requires |sep| > 0 && inv(m)
    requires forall x, p :: inv(x) && !handle(x, p).1 ==> inv(handle(x, p).0)
    ensures Stream(m, buf, chunks, sep, handle).Drained? ==> inv(Stream(m, buf, chunks, sep, handle).m)
    decreases |chunks|
  {
    if |chunks| > 0 {
      var parts := Split(buf + chunks[0], sep);
      PiecesPreserveUnlessStopped(m, parts[..|parts| - 1], handle, inv);
      var (m1, stop) := Pieces(m, parts[..|parts| - 1], handle);
      if !stop {
        StreamPreserveUnlessStopped(m1, parts[|parts| - 1], chunks[1..], sep, handle, inv);
      }
    }
  }

  /** What every stopping step establishes holds after pieces that stopped ... */
  lemma {:induction false} PiecesStopWith<M>(m: M, parts: seq<string>, handle: (M, string) -> (M, bool), post: M -> bool)
    requires forall x, p :: handle(x, p).1 ==> post(handle(x, p).0)
    ensures Pieces(m, parts, handle).1 ==> post(Pieces(m, parts, handle).0)
    decreases |parts|
  {
    if |parts| > 0 {
      var (m1, stop) := handle(m, parts[0]);
      if !stop {
        PiecesStopWith(m1, parts[1..], handle, post);
      }
    }
  }

  /** ... and after a stream that stopped. */
  lemma {:induction false} StreamStopWith<M>(m: M, buf: string, chunks: seq<string>, sep: string,
                                             handle: (M, string) -> (M, bool), post: M -> bool)
    requires |sep| > 0
    requires forall x, p :: handle(x, p).1 ==> post(handle(x, p).0)
    ensures Stream(m, buf, chunks, sep, handle).Stopped? ==> post(Stream(m, buf, chunks, sep, handle).m)
    decreases |chunks|
  {
    if |chunks| > 0 {
      var parts := Split(buf + chunks[0], sep);
      PiecesStopWith(m, parts[..|parts| - 1], handle, post);
      var (m1, stop) := Pieces(m, parts[..|parts| - 1], handle);
      if !stop {
        StreamStopWith(m1, parts[|parts| - 1], chunks[1..], sep, handle, post);
      }
    }
  }

  /** One piece of a run: handled, then the rest unless it stopped. */
  lemma PiecesStep<M>(m: M, parts: seq<string>, j: int, handle: (M, string) -> (M, bool), r: (M, bool))
    requires 0 <= j < |parts| && r == handle(m, parts[j])
    ensures Pieces(m, parts[j..], handle) == if r.1 then (r.0, true) else Pieces(r.0, parts[j + 1..], handle)
  {
    assert parts[j..][0] == parts[j] && parts[j..][1..] == parts[j + 1..];
  }

  /** One read of a stream: its complete pieces handled, then the rest of the reads with the
      last piece carried, unless a piece stopped. */
  lemma StreamStep<M>(m: M, buf: string, chunks: seq<string>, i: int, sep: string, handle: (M, string) -> (M, bool),
                      parts: seq<string>, r: (M, bool))
    requires |sep| > 0 && 0 <= i < |chunks|
    requires parts == Split(buf + chunks[i], sep) && r == Pieces(m, parts[..|parts| - 1], handle)
    ensures Stream(m, buf, chunks[i..], sep, handle)
      == if r.1 then Stopped(r.0) else Stream(r.0, parts[|parts| - 1], chunks[i + 1..], sep, handle)
  {
    assert chunks[i..][0] == chunks[i] && chunks[i..][1..] == chunks[i + 1..];
  }
}

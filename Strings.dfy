/** The JavaScript string operations the system relies on, over strings as sequences of
    characters: the `\s` and `\w` character classes, `trim`, `indexOf`, `includes`,
    `startsWith`, `endsWith`, `split` (which keeps empty pieces), `join`, and decimal
    rendering of non-negative integers. */
module Strings {

  /** The characters that JavaScript's `\s` matches and that `String.prototype.trim` removes. */
  predicate IsSpace(c: char) {
    if c < '\U{A0}' then c == ' ' || '\t' <= c <= '\r'
    else if c < '\U{2000}' then c == '\U{A0}' || c == '\U{1680}'
    else if c <= '\U{200A}' then true
    else if c < '\U{3000}' then c == '\U{2028}' || c == '\U{2029}' || c == '\U{202F}' || c == '\U{205F}'
    else c == '\U{3000}' || c == '\U{FEFF}'
  }

  /** JavaScript's `\d` (without the `u` flag): the ASCII digits. */
  predicate IsDigit(c: char) {
    '0' <= c <= '9'
  }

  /** JavaScript's `\w` (without the `u` flag): `[A-Za-z0-9_]`; `\b` is a change of this class. */
  predicate IsWordChar(c: char) {
    ('a' <= c <= 'z') || ('A' <= c <= 'Z') || IsDigit(c) || c == '_'
  }

  predicate StartsWith(s: string, prefix: string) {
    |prefix| <= |s| && s[..|prefix|] == prefix
  }

  predicate EndsWith(s: string, suffix: string) {
    |suffix| <= |s| && s[|s| - |suffix|..] == suffix
  }

  /** `pat` occurs in `s` starting at index `i`. */
  predicate OccursAt(s: string, pat: string, i: int) {
    0 <= i && i + |pat| <= |s| && s[i..i + |pat|] == pat
  }

  /** `s.indexOf(pat, from)` for a non-negative `from`: the first occurrence at or after
      `from`, or -1 (see IndexOfFirst). */
  function IndexOf(s: string, pat: string, from: nat): (r: int)
    decreases |s| - from
    ensures r == -1 || (from <= r && OccursAt(s, pat, r))
  {
    if from + |pat| > |s| then -1
    else if s[from..from + |pat|] == pat then from
    else IndexOf(s, pat, from + 1)
  }

  /** `IndexOf` finds the first occurrence: nothing occurs before the index it returns, and
      nothing occurs at all when it returns -1. */
  lemma {:induction false} IndexOfFirst(s: string, pat: string, from: nat)
    ensures var r := IndexOf(s, pat, from);
      forall i :: from <= i && (r == -1 || i < r) ==> !OccursAt(s, pat, i)
    decreases |s| - from
  {
    if from + |pat| <= |s| && s[from..from + |pat|] != pat {
      IndexOfFirst(s, pat, from + 1);
    }
  }

  /** The first occurrence at or after `from` is the one at `i` exactly when nothing occurs
      between them. */
  lemma IndexOfIs(s: string, pat: string, from: nat, i: int)
    requires from <= i && OccursAt(s, pat, i)
    requires forall j :: from <= j < i ==> !OccursAt(s, pat, j)
    ensures IndexOf(s, pat, from) == i
  {
    IndexOfFirst(s, pat, from);
  }

  /** `s.includes(pat)`. */
  predicate Contains(s: string, pat: string) {
    exists i :: 0 <= i <= |s| && OccursAt(s, pat, i)
  }

  lemma ContainsIffIndexOf(s: string, pat: string)
    ensures Contains(s, pat) <==> IndexOf(s, pat, 0) != -1
  {
    IndexOfFirst(s, pat, 0);
  }

  /** An occurrence inside a slice is an occurrence in the whole string. */
  lemma OccursInSlice(s: string, pat: string, lo: nat, hi: nat, i: int)
    requires lo <= hi <= |s| && OccursAt(s[lo..hi], pat, i)
    ensures OccursAt(s, pat, lo + i)
  {
    var a, b := s[lo..hi][i..i + |pat|], s[lo + i..lo + i + |pat|];
    forall k | 0 <= k < |a| ensures a[k] == b[k] {}
    assert a == b;
  }

  lemma OccursInPrefix(a: string, b: string, pat: string, i: int)
    requires OccursAt(a, pat, i)
    ensures OccursAt(a + b, pat, i)
  {
    assert (a + b)[i..i + |pat|] == a[i..i + |pat|];
  }

  lemma OccursInSuffix(a: string, b: string, pat: string, i: int)
    requires OccursAt(b, pat, i)
    ensures OccursAt(a + b, pat, |a| + i)
  {
    assert (a + b)[|a| + i..|a| + i + |pat|] == b[i..i + |pat|];
  }

  // ---------------------------------------------------------------------------
  // trim

  /** `s.trim()`: `\s` characters are removed from the start and from the end until
      neither end is one (see TrimSpec). */
  function Trim(s: string): (r: string)
    ensures |r| <= |s|
  {
    if |s| > 0 && IsSpace(s[0]) then Trim(s[1..])
    else if |s| > 0 && IsSpace(s[|s| - 1]) then Trim(s[..|s| - 1])
    else s
  }

  /** `s[lo..hi]` is `\s` throughout. */
  predicate AllSpace(s: string, lo: int, hi: int)
    requires 0 <= lo && hi <= |s|
  {
    forall j :: lo <= j < hi ==> IsSpace(s[j])
  }

  lemma SliceOfSlice(s: string, lo: nat, hi: nat, a: nat, b: nat)
    requires lo <= hi <= |s| && a <= b <= hi - lo
    ensures s[lo..hi][a..b] == s[lo + a..lo + b]
  {
    assert forall k :: 0 <= k < b - a ==> s[lo..hi][a..b][k] == s[lo + a + k];
  }

  /** What `Trim` keeps: the slice `s[lo..hi]` that neither starts nor ends with `\s`,
      everything cut off before and after it being `\s`. */
  lemma {:induction false} TrimBounds(s: string) returns (lo: nat, hi: nat)
    ensures lo <= hi <= |s| && Trim(s) == s[lo..hi]
    ensures lo < hi ==> !IsSpace(s[lo]) && !IsSpace(s[hi - 1])
    ensures AllSpace(s, 0, lo) && AllSpace(s, hi, |s|)
  {
    if |s| > 0 && IsSpace(s[0]) {
      var t := s[1..];
      var lo', hi' := TrimBounds(t);
      lo, hi := lo' + 1, hi' + 1;
      SliceOfSlice(s, 1, |s|, lo', hi');
      forall j | 0 <= j < lo ensures IsSpace(s[j]) {
        if j > 0 { assert s[j] == t[j - 1]; }
      }
      forall j | hi <= j < |s| ensures IsSpace(s[j]) {
        assert s[j] == t[j - 1];
      }
    } else if |s| > 0 && IsSpace(s[|s| - 1]) {
      var t := s[..|s| - 1];
      lo, hi := TrimBounds(t);
      SliceOfSlice(s, 0, |s| - 1, lo, hi);
      forall j | hi <= j < |s| ensures IsSpace(s[j]) {
        if j < |s| - 1 { assert s[j] == t[j]; }
      }
    } else {
      lo, hi := 0, |s|;
      assert s[0..|s|] == s;
    }
  }

  /** The trim is a slice of `s` that neither starts nor ends with `\s`. */
  lemma TrimSpec(s: string)
    ensures var r := Trim(s);
      (r == [] || (!IsSpace(r[0]) && !IsSpace(r[|r| - 1])))
      && exists lo, hi :: 0 <= lo <= hi <= |s| && r == s[lo..hi]
  {
    var lo, hi := TrimBounds(s);
  }

  /** A string that neither starts nor ends with `\s` is its own trim. */
  lemma TrimOfTrimmed(s: string)
    requires s == [] || (!IsSpace(s[0]) && !IsSpace(s[|s| - 1]))
    ensures Trim(s) == s
  {
  }

  /** A string made only of `\s` trims to the empty string, and conversely. */
  lemma TrimEmptyIffAllSpace(s: string)
    ensures Trim(s) == [] <==> forall i :: 0 <= i < |s| ==> IsSpace(s[i])
  {
    var lo, hi := TrimBounds(s);
    if lo == hi {
      forall i | 0 <= i < |s| ensures IsSpace(s[i]) {
        if i < lo { assert AllSpace(s, 0, lo); } else { assert AllSpace(s, hi, |s|); }
      }
    }
  }

  lemma TrimIdempotent(s: string)
    ensures Trim(Trim(s)) == Trim(s)
  {
    TrimSpec(s);
    TrimOfTrimmed(Trim(s));
  }

  /** Trimming removes only `\s`: a character that is not `\s` lies inside the slice of
      `s` that `Trim` keeps. */
  lemma TrimKeepsNonSpace(s: string, j: int) returns (lo: nat, hi: nat)
    requires 0 <= j < |s| && !IsSpace(s[j])
    ensures lo <= j < hi <= |s| && Trim(s) == s[lo..hi]
  {
    lo, hi := TrimBounds(s);
  }

  // ---------------------------------------------------------------------------
  // split and join

  /** `s.split(sep)` for a non-empty separator: the pieces between the occurrences of `sep`
      found left to right, empty pieces included. */
  function Split(s: string, sep: string): (r: seq<string>)
    requires |sep| > 0
    decreases |s|
    ensures |r| >= 1
  {
    SplitAt(s, sep, IndexOf(s, sep, 0))
  }

  /** `Split` once the first separator is known to be at `i` (or absent, `i == -1`). */
  function SplitAt(s: string, sep: string, i: int): (r: seq<string>)
    requires |sep| > 0 && (i == -1 || 0 <= i <= i + |sep| <= |s|)
    decreases |s|, 0
    ensures |r| >= 1
  {
    if i == -1 then [s] else [s[..i]] + Split(s[i + |sep|..], sep)
  }

  /** `parts.join(sep)`. */
  function Join(parts: seq<string>, sep: string): string {
    if |parts| == 0 then ""
    else if |parts| == 1 then parts[0]
    else parts[0] + sep + Join(parts[1..], sep)
  }

  /** One step of a split: the piece before the first separator, then the split of the rest. */
  lemma SplitStep(s: string, sep: string, i: int)
    requires |sep| > 0 && i != -1 && IndexOf(s, sep, 0) == i
    ensures i + |sep| <= |s| && Split(s, sep) == [s[..i]] + Split(s[i + |sep|..], sep)
  {
  }

  /** A string without the separator splits into itself alone. */
  lemma SplitNone(s: string, sep: string)
    requires |sep| > 0 && IndexOf(s, sep, 0) == -1
    ensures Split(s, sep) == [s]
  {
    assert Split(s, sep) == SplitAt(s, sep, -1);
  }

  lemma JoinCons(p: string, parts: seq<string>, sep: string)
    requires |parts| >= 1
    ensures Join([p] + parts, sep) == p + sep + Join(parts, sep)
  {
    assert ([p] + parts)[1..] == parts;
  }

  /** A string cut around an occurrence of `sep`. */
  lemma Around(s: string, sep: string, i: int)
    requires OccursAt(s, sep, i)
    ensures s == s[..i] + sep + s[i + |sep|..]
  {
    assert s == s[..i] + s[i..i + |sep|] + s[i + |sep|..];
  }

  lemma SlicesOfAppend(x: string, y: string, i: nat)
    requires i <= |x|
    ensures (x + y)[..i] == x[..i] && (x + y)[i..] == x[i..] + y
  {
  }

  /** Joining the pieces of a split with the same separator gives back the string. */
  lemma {:induction false} JoinSplit(s: string, sep: string)
    requires |sep| > 0
    ensures Join(Split(s, sep), sep) == s
    decreases |s|
  {
    var i := IndexOf(s, sep, 0);
    if i != -1 {
      SplitStep(s, sep, i);
      var rest := s[i + |sep|..];
      JoinSplit(rest, sep);
      JoinCons(s[..i], Split(rest, sep), sep);
      Around(s, sep, i);
    }
  }

  /** Inside a prefix, an occurrence is an occurrence in the whole string. */
  lemma OccursAtSliceIff(s: string, i: nat, pat: string, j: nat)
    requires i <= |s| && j + |pat| <= i
    ensures OccursAt(s[..i], pat, j) == OccursAt(s, pat, j)
  {
    assert s[..i][j..j + |pat|] == s[j..j + |pat|];
  }

  /** No piece of a split contains the separator. */
  lemma {:induction false} SplitPiecesFree(s: string, sep: string)
    requires |sep| > 0
    ensures forall k :: 0 <= k < |Split(s, sep)| ==> !Contains(Split(s, sep)[k], sep)
    decreases |s|
  {
    var i := IndexOf(s, sep, 0);
    IndexOfFirst(s, sep, 0);
    if i != -1 {
      var rest := s[i + |sep|..];
      SplitPiecesFree(rest, sep);
      forall j: nat ensures !OccursAt(s[..i], sep, j) {
        if j + |sep| <= i {
          OccursAtSliceIff(s, i, sep, j);
        }
      }
      SplitStep(s, sep, i);
    }
  }

  /** Splitting the join of single-character-free pieces on that character gives the pieces back. */
  lemma {:induction false} SplitJoin(parts: seq<string>, c: char)
    requires |parts| >= 1
    requires forall k :: 0 <= k < |parts| ==> !Contains(parts[k], [c])
    ensures Split(Join(parts, [c]), [c]) == parts
  {
    var s := Join(parts, [c]);
    var p := parts[0];
    forall j | 0 <= j < |p| ensures p[j] != c {
      assert !OccursAt(p, [c], j);
      assert p[j..j + 1] == [p[j]];
    }
    if |parts| == 1 {
      forall j | 0 <= j < |s| ensures !OccursAt(s, [c], j) {
        assert s[j..j + 1] == [s[j]];
      }
      IndexOfFirst(s, [c], 0);
    } else {
      var rest := Join(parts[1..], [c]);
      assert s == p + [c] + rest;
      SlicesOfAppend(p + [c], rest, |p|);
      SlicesOfAppend(p + [c], rest, |p| + 1);
      assert OccursAt(s, [c], |p|) by {
        assert s[|p|..|p| + 1] == [c];
      }
      forall j | 0 <= j < |p| ensures !OccursAt(s, [c], j) {
        assert s[j..j + 1] == [p[j]];
      }
      IndexOfIs(s, [c], 0, |p|);
      SplitStep(s, [c], |p|);
      SplitJoin(parts[1..], c);
    }
  }

  /** Away from the junction, an occurrence in `x + y` is an occurrence in `x`. */
  lemma OccursAtPrefixIff(x: string, y: string, pat: string, j: nat)
    requires j + |pat| <= |x|
    ensures OccursAt(x + y, pat, j) == OccursAt(x, pat, j)
  {
    assert (x + y)[j..j + |pat|] == x[j..j + |pat|];
  }

  /** A separator found in `x` is still the first one once text is appended. */
  lemma IndexOfInPrefix(x: string, y: string, sep: string)
    requires |sep| > 0 && IndexOf(x, sep, 0) != -1
    ensures IndexOf(x + y, sep, 0) == IndexOf(x, sep, 0)
  {
    var i := IndexOf(x, sep, 0);
    IndexOfFirst(x, sep, 0);
    OccursAtPrefixIff(x, y, sep, i);
    forall j | 0 <= j < i ensures !OccursAt(x + y, sep, j) {
      OccursAtPrefixIff(x, y, sep, j);
    }
    IndexOfIs(x + y, sep, 0, i);
  }

  /** The sequence algebra behind SplitAppend: a head put in front of a split whose last
      piece has been re-split. */
  lemma ConsBeforeLast<T>(whole: seq<T>, h: T, rest: seq<T>, px: seq<T>, pr: seq<T>, tail: seq<T>)
    requires whole == [h] + rest && px == [h] + pr && |pr| >= 1
    requires rest == pr[..|pr| - 1] + tail
    ensures whole == px[..|px| - 1] + tail && px[|px| - 1] == pr[|pr| - 1]
  {
    assert px[..|px| - 1] == [h] + pr[..|pr| - 1];
  }

  /** Splitting after appending more text: the complete pieces of `x` stay as they are and
      only its last (incomplete) piece is re-split together with `y`. This is what lets a
      reader split a stream incrementally, carrying the last piece forward. */
  lemma {:induction false} SplitAppend(x: string, y: string, sep: string)
    requires |sep| > 0
    ensures var px := Split(x, sep);
      Split(x + y, sep) == px[..|px| - 1] + Split(px[|px| - 1] + y, sep)
    decreases |x|
  {
    var i := IndexOf(x, sep, 0);
    if i == -1 {
      SplitNone(x, sep);
    } else {
      var rest := x[i + |sep|..];
      IndexOfInPrefix(x, y, sep);
      SplitStep(x + y, sep, i);
      SplitStep(x, sep, i);
      SlicesOfAppend(x, y, i);
      SlicesOfAppend(x, y, i + |sep|);
      var pr := Split(rest, sep);
      SplitAppend(rest, y, sep);
      ConsBeforeLast(Split(x + y, sep), x[..i], Split(rest + y, sep), Split(x, sep), pr,
        Split(pr[|pr| - 1] + y, sep));
    }
  }

  /** The concatenation of a sequence of sequences. */
  function Flatten<T>(xss: seq<seq<T>>): (r: seq<T>)
    ensures |xss| == 0 ==> r == []
  {
    if |xss| == 0 then [] else xss[0] + Flatten(xss[1..])
  }

  lemma FlattenAppend<T>(xss: seq<seq<T>>, ys: seq<T>)
    ensures Flatten(xss + [ys]) == Flatten(xss) + ys
  {
    if |xss| > 0 {
      assert (xss + [ys])[1..] == xss[1..] + [ys];
      FlattenAppend(xss[1..], ys);
    }
  }

  lemma {:induction false} FlattenConcat<T>(xss: seq<seq<T>>, yss: seq<seq<T>>)
    ensures Flatten(xss + yss) == Flatten(xss) + Flatten(yss)
  {
    if |xss| == 0 {
      assert xss + yss == yss;
    } else {
      assert (xss + yss)[0] == xss[0];
      assert (xss + yss)[1..] == xss[1..] + yss;
      FlattenConcat(xss[1..], yss);
    }
  }

  lemma JoinAppend(parts: seq<string>, p: string, sep: string)
    requires |parts| >= 1
    ensures Join(parts + [p], sep) == Join(parts, sep) + sep + p
  {
    if |parts| > 1 {
      assert (parts + [p])[1..] == parts[1..] + [p];
      JoinAppend(parts[1..], p, sep);
    }
  }

  /** Joining two non-empty lists of pieces one after the other. */
  lemma {:induction false} JoinConcat(a: seq<string>, b: seq<string>, sep: string)
    requires |a| >= 1 && |b| >= 1
    ensures Join(a + b, sep) == Join(a, sep) + sep + Join(b, sep)
  {
    if |a| == 1 {
      JoinCons(a[0], b, sep);
      assert a + b == [a[0]] + b;
    } else {
      assert (a + b)[0] == a[0];
      assert (a + b)[1..] == a[1..] + b;
      JoinConcat(a[1..], b, sep);
    }
  }

  /** Where the `i`-th piece starts in `Join(parts, sep)`: after each earlier piece and its
      separator. */
  function JoinOffset(parts: seq<string>, sep: string, i: nat): nat
    requires i <= |parts|
  {
    if i == 0 then 0 else |parts[0]| + |sep| + JoinOffset(parts[1..], sep, i - 1)
  }

  /** The layout of a join: piece `i` sits at its offset, followed by the separator unless it
      is the last piece, which ends the string. */
  lemma {:induction false} JoinLayout(parts: seq<string>, sep: string, i: nat)
    requires i < |parts|
    ensures OccursAt(Join(parts, sep), parts[i], JoinOffset(parts, sep, i))
    ensures i + 1 < |parts| ==> OccursAt(Join(parts, sep), sep, JoinOffset(parts, sep, i) + |parts[i]|)
    ensures i + 1 == |parts| ==> |Join(parts, sep)| == JoinOffset(parts, sep, i) + |parts[i]|
  {
    var s := Join(parts, sep);
    if |parts| > 1 {
      var rest := Join(parts[1..], sep);
      assert s == parts[0] + sep + rest;
      if i == 0 {
        assert s[..|parts[0]|] == parts[0];
        assert s[|parts[0]|..|parts[0]| + |sep|] == sep;
      } else {
        JoinLayout(parts[1..], sep, i - 1);
        var o := JoinOffset(parts[1..], sep, i - 1);
        OccursInSuffix(parts[0] + sep, rest, parts[i], o);
        if i + 1 < |parts| {
          OccursInSuffix(parts[0] + sep, rest, sep, o + |parts[i]|);
        }
      }
    } else {
      assert s[0..|parts[0]|] == s;
    }
  }

  // ---------------------------------------------------------------------------
  // decimal numbers

  function DigitChar(d: nat): char
    requires d < 10
  {
    ['0', '1', '2', '3', '4', '5', '6', '7', '8', '9'][d]
  }

  function DigitValue(c: char): nat
    requires IsDigit(c)
  {
    (c as int - '0' as int) as nat
  }

  lemma DigitRoundTrip(d: nat)
    requires d < 10
    ensures IsDigit(DigitChar(d)) && DigitValue(DigitChar(d)) == d
  {
  }

  /** The decimal rendering of `n` (what a template literal or `String(n)` gives). */
  function NatToString(n: nat): (r: string)
    ensures |r| >= 1
    ensures forall i :: 0 <= i < |r| ==> IsDigit(r[i])
    ensures n >= 10 <==> |r| >= 2
  {
    if n < 10 then [DigitChar(n)] else NatToString(n / 10) + [DigitChar(n % 10)]
  }

  /** Different numbers have different decimal renderings. */
  lemma {:induction false} NatToStringInjective(a: nat, b: nat)
    requires NatToString(a) == NatToString(b)
    ensures a == b
  {
    var s := NatToString(a);
    DigitRoundTrip(a % 10);
    DigitRoundTrip(b % 10);
    if a < 10 {
      assert b < 10;
      assert DigitValue(s[0]) == a && DigitValue(s[0]) == b;
    } else {
      assert b >= 10;
      var pa, pb := NatToString(a / 10), NatToString(b / 10);
      assert s == pa + [DigitChar(a % 10)] && s == pb + [DigitChar(b % 10)];
      assert |pa| == |pb| && pa == s[..|s| - 1] && pb == s[..|s| - 1];
      assert DigitValue(s[|s| - 1]) == a % 10 && DigitValue(s[|s| - 1]) == b % 10;
      NatToStringInjective(a / 10, b / 10);
    }
  }

  /** The value of a string of decimal digits (`parseInt` on such a string). */
  function DigitsValue(s: string): (v: nat)
    requires forall i :: 0 <= i < |s| ==> IsDigit(s[i])
  {
    if |s| == 0 then 0 else 10 * DigitsValue(s[..|s| - 1]) + DigitValue(s[|s| - 1])
  }

  /** Reading back the decimal rendering of a number gives the number. */
  lemma {:induction false} DigitsValueOfNatToString(n: nat)
    ensures DigitsValue(NatToString(n)) == n
  {
    var r := NatToString(n);
    DigitRoundTrip(n % 10);
    if n >= 10 {
      assert r[..|r| - 1] == NatToString(n / 10);
      DigitsValueOfNatToString(n / 10);
    }
  }

  /** ASCII lower-casing, which is what a case-insensitive match of ASCII letters compares. */
  function ToLowerAscii(c: char): char {
    if 'A' <= c <= 'Z' then (c as int + 32) as char else c
  }

  /** `s` starts with `prefix` ignoring the case of ASCII letters. */
  predicate StartsWithIgnoreCase(s: string, prefix: string) {
    |prefix| <= |s| && forall i :: 0 <= i < |prefix| ==> ToLowerAscii(s[i]) == ToLowerAscii(prefix[i])
  }

  lemma StartsWithIgnoreCaseAppend(a: string, b: string, prefix: string)
    requires StartsWithIgnoreCase(a, prefix)
    ensures StartsWithIgnoreCase(a + b, prefix)
  {
    assert forall i :: 0 <= i < |prefix| ==> (a + b)[i] == a[i];
  }

  /** Four pieces, the last one empty, joined. */
  lemma JoinFourLastEmpty(a: string, b: string, c: string, sep: string)
    ensures Join([a, b, c, ""], sep) == a + sep + b + sep + c + sep
  {
    assert [a, b, c, ""][1..] == [b, c, ""];
    assert [b, c, ""][1..] == [c, ""];
    assert [c, ""][1..] == [""];
    assert Join([c, ""], sep) == c + sep;
    assert Join([b, c, ""], sep) == b + sep + (c + sep);
    assert Join([a, b, c, ""], sep) == a + sep + (b + sep + (c + sep));
  }
}

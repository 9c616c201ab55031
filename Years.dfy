/** The two year expressions the system matches against file names, queries and answers:
    `\b(19|20)\d{2}\b` (a year of the 1900s or 2000s) and `\b(19[7-9]\d|20[0-1]\d)\b`
    (a year from 1970 to 2019). Both match exactly four digits between two word
    boundaries, so a match is a standalone four-digit token. */
module Years {
  import opened Strings
  import opened Options

  datatype YearPattern =
    | Century   // \b(19|20)\d{2}\b
    | EvalRange // \b(19[7-9]\d|20[0-1]\d)\b

  /** Four digits at `i` with a word boundary before and after them. */
  predicate TokenAt(s: string, i: int) {
    0 <= i && i + 4 <= |s|
    && IsDigit(s[i]) && IsDigit(s[i + 1]) && IsDigit(s[i + 2]) && IsDigit(s[i + 3])
    && (i == 0 || !IsWordChar(s[i - 1]))
    && (i + 4 == |s| || !IsWordChar(s[i + 4]))
  }

  /** The regular expression matches at `i`: a token whose leading digits are those the
      pattern's alternatives allow. */
  predicate MatchAt(p: YearPattern, s: string, i: int) {
    TokenAt(s, i) &&
    match p
    case Century => (s[i] == '1' && s[i + 1] == '9') || (s[i] == '2' && s[i + 1] == '0')
    case EvalRange =>
      (s[i] == '1' && s[i + 1] == '9' && '7' <= s[i + 2] <= '9')
      || (s[i] == '2' && s[i + 1] == '0' && '0' <= s[i + 2] <= '1')
  }

  /** The number a token spells (`parseInt` of the match). */
  function TokenValue(s: string, i: int): nat
    requires TokenAt(s, i)
  {
    1000 * DigitValue(s[i]) + 100 * DigitValue(s[i + 1]) + 10 * DigitValue(s[i + 2]) + DigitValue(s[i + 3])
  }

  /** What the patterns mean as numbers: `Century` accepts exactly the tokens 1900-2099,
      `EvalRange` exactly 1970-2019. */
  lemma MatchAtRange(p: YearPattern, s: string, i: int)
    requires TokenAt(s, i)
    ensures MatchAt(p, s, i) <==>
      if p == Century then 1900 <= TokenValue(s, i) <= 2099
      else 1970 <= TokenValue(s, i) <= 2019
  {
  }

  /** Matches never overlap: a token cannot start inside another one, because the digit
      before it is a word character. */
  lemma NoMatchInside(p: YearPattern, s: string, i: int, j: int)
    requires MatchAt(p, s, i) && i < j < i + 4
    ensures !MatchAt(p, s, j)
  {
    assert IsWordChar(s[j - 1]);
  }

  /** The leftmost match at or after `from` (what `s.match(re)` finds, or `re.test(s)`
      detects, when `from` is 0). */
  function FirstMatch(p: YearPattern, s: string, from: nat): (r: Option<nat>)
    decreases |s| - from
    ensures r.Some? ==>
      from <= r.value && MatchAt(p, s, r.value) &&
      (forall j :: from <= j < r.value ==> !MatchAt(p, s, j))
    ensures r.None? ==> forall j :: from <= j < |s| ==> !MatchAt(p, s, j)
  {
    if from + 4 > |s| then None
    else if MatchAt(p, s, from) then Some(from)
    else FirstMatch(p, s, from + 1)
  }

  /** The positions a global match (`s.match(re_g)`) visits: the leftmost match, then the
      search resumes after its four characters. */
  function MatchAll(p: YearPattern, s: string, from: nat): (r: seq<nat>)
    decreases |s| - from
    ensures forall k :: 0 <= k < |r| ==> from <= r[k] && MatchAt(p, s, r[k])
  {
    match FirstMatch(p, s, from)
    case None => []
    case Some(i) => [i] + MatchAll(p, s, i + 4)
  }

  /** Resuming after each match loses nothing: every match at or after `from` is found. */
  lemma {:induction false} MatchAllComplete(p: YearPattern, s: string, from: nat, j: int)
    requires from <= j && MatchAt(p, s, j)
    ensures j in MatchAll(p, s, from)
    decreases |s| - from
  {
    var i := FirstMatch(p, s, from).value;
    if j != i {
      assert i < j;
      if j < i + 4 {
        NoMatchInside(p, s, i, j);
      }
      MatchAllComplete(p, s, i + 4, j);
    }
  }

  /** The matched year strings of a global match, in order (`s.match(re_g) ?? []`). */
  function YearStrings(p: YearPattern, s: string): (r: seq<string>)
    ensures forall k :: 0 <= k < |r| ==> |r[k]| == 4
  {
    var ms := MatchAll(p, s, 0);
    seq(|ms|, k requires 0 <= k < |ms| => s[ms[k]..ms[k] + 4])
  }

  /** Every matched year string is the text of a match ... */
  lemma YearStringsSound(p: YearPattern, s: string, k: int)
    requires 0 <= k < |YearStrings(p, s)|
    ensures exists j :: MatchAt(p, s, j) && s[j..j + 4] == YearStrings(p, s)[k]
  {
    var ms := MatchAll(p, s, 0);
    assert MatchAt(p, s, ms[k]);
  }

  /** ... and the text of every match is among the matched year strings. */
  lemma YearStringsComplete(p: YearPattern, s: string, j: int)
    requires MatchAt(p, s, j)
    ensures s[j..j + 4] in YearStrings(p, s)
  {
    var ms := MatchAll(p, s, 0);
    MatchAllComplete(p, s, 0, j);
    var k :| 0 <= k < |ms| && ms[k] == j;
    assert YearStrings(p, s)[k] == s[j..j + 4];
  }

  /** The first year-like token of `s` as written (`match[0]`), if any. */
  function FirstYearString(s: string): (r: Option<string>)
    ensures r.Some? <==> exists j :: MatchAt(Century, s, j)
    ensures r.Some? ==> |r.value| == 4
  {
    match FirstMatch(Century, s, 0)
    case None => None
    case Some(i) => Some(s[i..i + 4])
  }

  /** `extractYear(fileName)` / `extractYearFromQuery(query)`: the value of the leftmost
      standalone four-digit token from 1900 to 2099, or `null`. */
  function ExtractYear(s: string): (r: Option<nat>)
    ensures r.Some? ==> 1900 <= r.value <= 2099
    ensures r.Some? <==> exists j :: MatchAt(Century, s, j)
  {
    match FirstMatch(Century, s, 0)
    case None => None
    case Some(i) => MatchAtRange(Century, s, i); Some(TokenValue(s, i))
  }

  /** The year found is the one of the leftmost token: no earlier position holds a year. */
  lemma ExtractYearLeftmost(s: string, i: int)
    requires MatchAt(Century, s, i)
    requires forall j :: 0 <= j < i ==> !MatchAt(Century, s, j)
    ensures ExtractYear(s) == Some(TokenValue(s, i))
  {
    var r := FirstMatch(Century, s, 0);
    assert r.Some?;
    if r.value < i {
    } else if r.value > i {
    }
  }

  /** A year at the start of a file name is found. */
  lemma ExtractYearLeadingName()
    ensures ExtractYear("1992 Annual Letter.pdf") == Some(1992)
  {
    assert MatchAt(Century, "1992 Annual Letter.pdf", 0);
  }

  /** A year glued to a word by an underscore is not a standalone token: `_` is a word
      character, so there is no word boundary before the digits. */
  lemma ExtractYearUnderscore()
    ensures ExtractYear("letter_1992.pdf") == None
  {
    var b := "letter_1992.pdf";
    forall j | 0 <= j < |b| ensures !MatchAt(Century, b, j) {
      if j == 7 { assert IsWordChar(b[6]); }
    }
  }

  /** A token outside 1900-2099 is skipped in favour of a later one. */
  lemma ExtractYearSkipsOtherCenturies()
    ensures ExtractYear("Letters 1850 and 2003") == Some(2003)
  {
    var d := "Letters 1850 and 2003";
    assert MatchAt(Century, d, 17);
    forall j | 0 <= j < 17 ensures !MatchAt(Century, d, j) {
      if 8 < j < 12 { assert IsWordChar(d[j - 1]); }
    }
    ExtractYearLeftmost(d, 17);
  }
}

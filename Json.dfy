/** Parsed JSON values as the system's TypeScript code sees them, JavaScript truthiness and
    property access on them, `String(v)` for the values a client appends to a message, and
    `JSON.stringify` / `JSON.parse` on the flat string-valued objects the streaming servers
    send. */
module Json {
  import opened Strings
  import opened Options

  /** A parsed JSON value. Numbers are integers here (see README). An object keeps its
      members in source order; duplicate keys are possible in the text. */
  datatype Json =
    | JNull
    | JBool(b: bool)
    | JNum(n: int)
    | JStr(s: string)
    | JArr(items: seq<Json>)
    | JObj(fields: seq<(string, Json)>)

  /** JavaScript truthiness: `null`, `false`, `0` and `""` are falsy, everything else
      (including empty arrays and objects) is truthy. */
  predicate Truthy(v: Json) {
    match v
    case JNull => false
    case JBool(b) => b
    case JNum(n) => n != 0
    case JStr(s) => s != ""
    case _ => true
  }

  /** Truthiness of a property read that may give `undefined` (`None`). */
  predicate TruthyOpt(o: Option<Json>) {
    o.Some? && Truthy(o.value)
  }

  /** The value `JSON.parse` keeps for `key` among `fields`: the last member with that key. */
  function LastValue(fields: seq<(string, Json)>, key: string): (r: Option<Json>)
    ensures r.Some? ==>
      exists i :: 0 <= i < |fields| && fields[i] == (key, r.value) &&
        (forall j :: i < j < |fields| ==> fields[j].0 != key)
    ensures r.None? ==> forall i :: 0 <= i < |fields| ==> fields[i].0 != key
  {
    if |fields| == 0 then None
    else if fields[|fields| - 1].0 == key then Some(fields[|fields| - 1].1)
    else
      var r := LastValue(fields[..|fields| - 1], key);
      assert forall i :: 0 <= i < |fields| - 1 ==> fields[..|fields| - 1][i] == fields[i];
      r
  }

  /** `v[key]` on a value that is not `null`: a member of an object, `undefined` on
      anything else (the only properties the code reads are its own payload keys). */
  function Get(v: Json, key: string): Option<Json> {
    if v.JObj? then LastValue(v.fields, key) else None
  }

  // ---------------------------------------------------------------------------
  // String(v)

  /** `String(v)` for a parsed value: what `text + v` appends. Elements of an array are
      converted the same way and joined with ","; `null` inside an array becomes "". */
  function ToJsString(v: Json): string
    decreases v
  {
    match v
    case JNull => "null"
    case JBool(b) => if b then "true" else "false"
    case JNum(n) => IntToString(n)
    case JStr(s) => s
    case JArr(items) =>
      Join(seq(|items|, i requires 0 <= i < |items| =>
        if items[i].JNull? then "" else ToJsString(items[i])), ",")
    case JObj(_) => "[object Object]"
  }

  function IntToString(n: int): (r: string)
    ensures |r| >= 1
  {
    if n < 0 then "-" + NatToString(-n) else NatToString(n)
  }

  // ---------------------------------------------------------------------------
  // JSON.stringify of strings and flat objects

  /** No control characters (in particular no line break). */
  predicate Printable(t: string) {
    forall i :: 0 <= i < |t| ==> t[i] as int >= 0x20
  }

  lemma PrintableAppend(a: string, b: string)
    requires Printable(a) && Printable(b)
    ensures Printable(a + b)
  {
  }

  function HexDigit(d: nat): char
    requires d < 16
  {
    "0123456789abcdef"[d]
  }

  /** The hexadecimal digit value of `c`, either case. */
  function HexValue(c: char): (r: Option<nat>)
    ensures r.Some? ==> r.value < 16
  {
    if '0' <= c <= '9' then Some(c as int - '0' as int)
    else if 'a' <= c <= 'f' then Some(c as int - 'a' as int + 10)
    else if 'A' <= c <= 'F' then Some(c as int - 'A' as int + 10)
    else None
  }

  /** How `JSON.stringify` writes one character inside a string literal: the quote and the
      backslash escaped, the five short control escapes, `\u00XX` for the other control
      characters, every other character as itself. */
  function EscapeChar(c: char): (r: string)
    ensures |r| >= 1 && Printable(r)
  {
    if c == '"' then "\\\""
    else if c == '\\' then "\\\\"
    else if c == '\U{8}' then "\\b"
    else if c == '\U{C}' then "\\f"
    else if c == '\n' then "\\n"
    else if c == '\r' then "\\r"
    else if c == '\t' then "\\t"
    else if (c as int) < 0x20 then "\\u00" + [HexDigit(c as int / 16), HexDigit(c as int % 16)]
    else [c]
  }

  /** The inside of the string literal `JSON.stringify(s)` (without the two quotes). */
  function QuoteBody(s: string): (r: string)
    ensures Printable(r)
  {
    if |s| == 0 then ""
    else
      var r := EscapeChar(s[0]) + QuoteBody(s[1..]);
      PrintableAppend(EscapeChar(s[0]), QuoteBody(s[1..]));
      r
  }

  /** `JSON.stringify(s)` for a string. */
  function Quote(s: string): string {
    "\"" + (QuoteBody(s) + "\"")
  }

  /** The members of `JSON.stringify` of an object whose values are all strings, followed
      by `tail` (the closing brace). */
  function Members(fields: seq<(string, string)>, tail: string): string {
    if |fields| == 0 then tail
    else Member(fields[0].0, fields[0].1, if |fields| == 1 then tail else "," + Members(fields[1..], tail))
  }

  /** One `"key":"value"` member followed by `after`. */
  function Member(k: string, v: string, after: string): string {
    "\"" + (QuoteBody(k) + ("\"" + (":" + ("\"" + (QuoteBody(v) + ("\"" + after))))))
  }

  /** `JSON.stringify` of an object whose values are all strings, such as `{delta: answer}`. */
  function StringifyFlat(fields: seq<(string, string)>): string {
    "{" + Members(fields, "}")
  }

  /** The parsed value of such an object. */
  function FlatToJson(fields: seq<(string, string)>): (v: Json)
    ensures v.JObj? && |v.fields| == |fields|
  {
    JObj(seq(|fields|, i requires 0 <= i < |fields| => (fields[i].0, JStr(fields[i].1))))
  }

  /** The serialised object has no control characters, so it never contains a line break;
      it starts with `{` and ends with `}`, so trimming leaves it as it is. */
  lemma StringifyFlatShape(fields: seq<(string, string)>)
    ensures var t := StringifyFlat(fields); Printable(t) && t[0] == '{' && t[|t| - 1] == '}'
  {
    MembersPrintable(fields, "}");
    PrintableAppend("{", Members(fields, "}"));
    MembersEnd(fields, "}");
  }

  lemma {:induction false} MembersPrintable(fields: seq<(string, string)>, tail: string)
    requires Printable(tail)
    ensures Printable(Members(fields, tail))
  {
    if |fields| > 0 {
      var (k, v) := fields[0];
      var after := if |fields| == 1 then tail else "," + Members(fields[1..], tail);
      if |fields| > 1 {
        MembersPrintable(fields[1..], tail);
        PrintableAppend(",", Members(fields[1..], tail));
      }
      PrintableAppend("\"", after);
      PrintableAppend(QuoteBody(v), "\"" + after);
      PrintableAppend("\"", QuoteBody(v) + ("\"" + after));
      PrintableAppend(":", "\"" + (QuoteBody(v) + ("\"" + after)));
      PrintableAppend("\"", ":" + ("\"" + (QuoteBody(v) + ("\"" + after))));
      PrintableAppend(QuoteBody(k), "\"" + (":" + ("\"" + (QuoteBody(v) + ("\"" + after)))));
      PrintableAppend("\"", QuoteBody(k) + ("\"" + (":" + ("\"" + (QuoteBody(v) + ("\"" + after))))));
    }
  }

  /** The members end with their tail. */
  lemma {:induction false} MembersEnd(fields: seq<(string, string)>, tail: string)
    requires |tail| > 0
    ensures var t := Members(fields, tail); |t| > 0 && t[|t| - 1] == tail[|tail| - 1]
  {
    if |fields| > 1 {
      var rest := Members(fields[1..], tail);
      MembersEnd(fields[1..], tail);
      assert Members(fields, tail) == Member(fields[0].0, fields[0].1, "," + rest);
    }
  }

  // ---------------------------------------------------------------------------
  // JSON.parse of strings and flat objects

  /** One escape sequence after a backslash: the character it stands for and how many
      characters it takes. `\u` escapes that name a surrogate are refused here. */
  function Unescape(u: string): Option<(char, nat)> {
    if |u| == 0 then None
    else if u[0] == '"' then Some(('"', 1))
    else if u[0] == '\\' then Some(('\\', 1))
    else if u[0] == '/' then Some(('/', 1))
    else if u[0] == 'b' then Some(('\U{8}', 1))
    else if u[0] == 'f' then Some(('\U{C}', 1))
    else if u[0] == 'n' then Some(('\n', 1))
    else if u[0] == 'r' then Some(('\r', 1))
    else if u[0] == 't' then Some(('\t', 1))
    else if u[0] == 'u' && |u| >= 5 then
      match (HexValue(u[1]), HexValue(u[2]), HexValue(u[3]), HexValue(u[4]))
      case (Some(a), Some(b), Some(c), Some(d)) =>
        var code := ((a * 16 + b) * 16 + c) * 16 + d;
        if 0xD800 <= code < 0xE000 then None else Some((code as char, 5))
      case _ => None
    else None
  }

  /** Reads the rest of a string literal whose opening quote has been consumed: the decoded
      string and the text after the closing quote. */
  function ReadString(t: string): (r: Option<(string, string)>)
    decreases |t|
  {
    if |t| == 0 then None
    else if t[0] == '"' then Some(("", t[1..]))
    else if t[0] == '\\' then
      match Unescape(t[1..])
      case None => None
      case Some((c, n)) => Prepend(c, ReadString(t[1 + n..]))
    else if (t[0] as int) < 0x20 then None
    else Prepend(t[0], ReadString(t[1..]))
  }

  function Prepend(c: char, r: Option<(string, string)>): Option<(string, string)> {
    if r.None? then None else Some(([c] + r.value.0, r.value.1))
  }

  lemma HexRoundTrip(d: nat)
    requires d < 16
    ensures HexValue(HexDigit(d)) == Some(d)
  {
  }

  /** A control character written as `\u00XX` reads back as itself. */
  lemma ControlEscapeRead(c: char, more: string)
    requires (c as int) < 0x20
    ensures var hi, lo := c as int / 16, c as int % 16;
      ReadString("\\u00" + [HexDigit(hi), HexDigit(lo)] + more) == Prepend(c, ReadString(more))
  {
    var hi, lo := c as int / 16, c as int % 16;
    var t := "\\u00" + [HexDigit(hi), HexDigit(lo)] + more;
    HexRoundTrip(hi);
    HexRoundTrip(lo);
    assert t[1..][..5] == ['u', '0', '0', HexDigit(hi), HexDigit(lo)];
    assert Unescape(t[1..]) == Some((c, 5));
    assert t[6..] == more;
  }

  /** A two-character escape reads back as the character it stands for. */
  lemma ShortEscapeRead(c: char, e: string, more: string)
    requires |e| == 2 && e[0] == '\\' && Unescape(e[1..] + more) == Some((c, 1))
    ensures ReadString(e + more) == Prepend(c, ReadString(more))
  {
    var t := e + more;
    assert t[1..] == e[1..] + more;
    assert t[2..] == more;
  }

  lemma EscapeCharRead(c: char, more: string)
    ensures ReadString(EscapeChar(c) + more) == Prepend(c, ReadString(more))
  {
    var e := EscapeChar(c);
    if c == '"' || c == '\\' || c == '\U{8}' || c == '\U{C}' || c == '\n' || c == '\r' || c == '\t' {
      assert e[1..] + more == [e[1]] + more;
      ShortEscapeRead(c, e, more);
    } else if (c as int) < 0x20 {
      ControlEscapeRead(c, more);
    } else {
      assert (e + more)[1..] == more;
    }
  }

  /** `JSON.parse` reads back the string `JSON.stringify` wrote, and stops right after it. */
  lemma {:induction false} ReadQuoteBody(s: string, rest: string)
    ensures ReadString(QuoteBody(s) + ("\"" + rest)) == Some((s, rest))
  {
    if |s| == 0 {
      assert QuoteBody(s) + ("\"" + rest) == "\"" + rest;
    } else {
      var more := QuoteBody(s[1..]) + ("\"" + rest);
      assert QuoteBody(s) + ("\"" + rest) == EscapeChar(s[0]) + more;
      EscapeCharRead(s[0], more);
      ReadQuoteBody(s[1..], rest);
      assert [s[0]] + s[1..] == s;
    }
  }

  /** `JSON.parse` restricted to objects whose values are all strings, written without
      insignificant whitespace (the only JSON the streaming servers produce). */
  function ParseFlat(t: string): Option<seq<(string, string)>> {
    if |t| >= 2 && t[0] == '{' then
      if t[1..] == "}" then Some([]) else ParseMembers(t[1..])
    else None
  }

  /** Parses `"key":"value"` members separated by commas up to the closing brace, which
      must end the text. */
  function ParseMembers(t: string): Option<seq<(string, string)>>
    decreases |t|
  {
    if |t| == 0 || t[0] != '"' then None
    else match ReadString(t[1..])
      case None => None
      case Some((k, r1)) =>
        if |r1| < 2 || r1[0] != ':' || r1[1] != '"' then None
        else match ReadString(r1[2..])
          case None => None
          case Some((v, r2)) =>
            if r2 == "}" then Some([(k, v)])
            else if |r2| > 0 && r2[0] == ',' && |r2| < |t| then
              match ParseMembers(r2[1..])
              case None => None
              case Some(ms) => Some([(k, v)] + ms)
            else None
  }

  /** `JSON.parse(JSON.stringify(o))` gives back `o` for flat string objects. */
  lemma ParseStringifyFlat(fields: seq<(string, string)>)
    ensures ParseFlat(StringifyFlat(fields)) == Some(fields)
  {
    var t := StringifyFlat(fields);
    assert t[1..] == Members(fields, "}");
    if |fields| > 0 {
      ParseMembersOf(fields);
    }
  }

  /** One step of `ParseMembers` once the key and the value have been read. */
  lemma ParseMembersStep(t: string, k: string, r1: string, v: string, r2: string)
    requires |t| > 0 && t[0] == '"' && ReadString(t[1..]) == Some((k, r1))
    requires |r1| >= 2 && r1[0] == ':' && r1[1] == '"' && ReadString(r1[2..]) == Some((v, r2))
    requires |r2| < |t|
    ensures ParseMembers(t) ==
      if r2 == "}" then Some([(k, v)])
      else if |r2| > 0 && r2[0] == ',' then
        match ParseMembers(r2[1..])
        case None => None
        case Some(ms) => Some([(k, v)] + ms)
      else None
  {
  }

  /** Reading one member written by `Member`: the key, the value, and then either the end
      of the object or the members after the comma. */
  lemma ParseMember(k: string, v: string, after: string)
    requires after == "}" || (|after| > 0 && after[0] == ',')
    ensures var t := Member(k, v, after);
      ParseMembers(t) ==
        if after == "}" then Some([(k, v)])
        else match ParseMembers(after[1..])
          case None => None
          case Some(ms) => Some([(k, v)] + ms)
  {
    var w := QuoteBody(v) + ("\"" + after);
    var r1 := ":" + ("\"" + w);
    var t := Member(k, v, after);
    assert t[1..] == QuoteBody(k) + ("\"" + r1);
    ReadQuoteBody(k, r1);
    assert r1[2..] == w;
    ReadQuoteBody(v, after);
    ParseMembersStep(t, k, r1, v, after);
  }

  lemma {:induction false} ParseMembersOf(fields: seq<(string, string)>)
    requires |fields| >= 1
    ensures ParseMembers(Members(fields, "}")) == Some(fields)
  {
    var (k, v) := fields[0];
    if |fields| == 1 {
      assert Members(fields, "}") == Member(k, v, "}");
      ParseMember(k, v, "}");
      assert fields == [(k, v)];
    } else {
      var rest := Members(fields[1..], "}");
      assert Members(fields, "}") == Member(k, v, "," + rest);
      ParseMember(k, v, "," + rest);
      assert ("," + rest)[1..] == rest;
      ParseMembersOf(fields[1..]);
      assert [(k, v)] + fields[1..] == fields;
    }
  }
}

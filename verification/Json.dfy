/** The report writer's JSON strings and string arrays, against a reader for section 7 of RFC 8259. */
module Json {
  import opened Can
  import opened Hex
  import opened Seqs

  /** `{:04X}`. */
  function Hex4(n: nat): (r: string)
    requires n < 0x10000
    ensures |r| == 4
  {
    [HexDigit(n / 4096), HexDigit(n / 256 % 16), HexDigit(n / 16 % 16), HexDigit(n % 16)]
  }

  function ReadHex4(s: string): Option<nat>
    requires |s| >= 4
  {
    match (HexValue(s[0]), HexValue(s[1]), HexValue(s[2]), HexValue(s[3]))
    case (Some(a), Some(b), Some(c), Some(d)) => Some(4096 * a + 256 * b + 16 * c + d)
    case _ => None
  }

  lemma Hex4RoundTrip(n: nat, rest: string)
    requires n < 0x10000
    ensures ReadHex4(Hex4(n) + rest) == Some(n)
  {
    HexDigitRoundTrip(n / 4096);
    HexDigitRoundTrip(n / 256 % 16);
    HexDigitRoundTrip(n / 16 % 16);
    HexDigitRoundTrip(n % 16);
    assert n / 256 == n / 4096 * 16 + n / 256 % 16;
    assert n / 16 == n / 256 * 16 + n / 16 % 16;
  }

  // ----- writing

  predicate IsControl(c: char) {
    (c as int) < 0x20 || 0x7F <= (c as int) <= 0x9F
  }

  function Escape(c: char): string {
    if c == '"' then "\\\""
    else if c == '\\' then "\\\\"
    else if c == '\n' then "\\n"
    else if c == '\r' then "\\r"
    else if c == '\t' then "\\t"
    else if c == '\U{0008}' then "\\b"
    else if c == '\U{000C}' then "\\f"
    else if IsControl(c) then "\\u" + Hex4(c as int)
    else [c]
  }

  // As short as it can be: seven characters have an escape of their own, the other controls are written in hexadecimal,
  // and everything else stands for itself.
  lemma EscapeLength(c: char)
    ensures |Escape(c)| == if c as int in {0x22, 0x5C, 0x0A, 0x0D, 0x09, 0x08, 0x0C} then 2
                           else if c as int <= 0x1F || 0x7F <= c as int <= 0x9F then 6
                           else 1
  {
  }

  function Escaped(value: string): string {
    if value == [] then [] else Escape(value[0]) + Escaped(value[1..])
  }

  function JsonString(value: string): string {
    "\"" + Escaped(value) + "\""
  }

  function Tail(values: seq<string>): string {
    if values == [] then "]" else ", " + JsonString(values[0]) + Tail(values[1..])
  }

  function JsonArray(values: seq<string>): string {
    if values == [] then "[]" else "[" + JsonString(values[0]) + Tail(values[1..])
  }

  method PushEscaped(out: string, c: char) returns (r: string)
    ensures r == out + Escape(c)
  {
    if c == '"' {
      r := out + "\\\"";
    } else if c == '\\' {
      r := out + "\\\\";
    } else if c == '\n' {
      r := out + "\\n";
    } else if c == '\r' {
      r := out + "\\r";
    } else if c == '\t' {
      r := out + "\\t";
    } else if c == '\U{0008}' {
      r := out + "\\b";
    } else if c == '\U{000C}' {
      r := out + "\\f";
    } else if IsControl(c) {
      r := out + ("\\u" + Hex4(c as int));
    } else {
      r := out + [c];
    }
  }

  method PushJsonString(out: string, value: string) returns (r: string)
    ensures r == out + JsonString(value)
  {
    r := out + "\"";
    assert value[0..] == value;
    for k := 0 to |value|
      invariant out + "\"" + Escaped(value) == r + Escaped(value[k..])
    {
      NextEscape(r, value, k);
      r := PushEscaped(r, value[k]);
    }
    Closes(out, value, r);
    r := r + "\"";
  }

  lemma NextEscape(before: string, value: string, k: nat)
    requires k < |value|
    ensures before + Escaped(value[k..]) == before + Escape(value[k]) + Escaped(value[k + 1..])
  {
    assert value[k..][1..] == value[k + 1..];
    var e, t := Escape(value[k]), Escaped(value[k + 1..]);
    assert before + (e + t) == before + e + t;
  }

  lemma Closes(out: string, value: string, r: string)
    requires out + "\"" + Escaped(value) == r + Escaped(value[|value|..])
    ensures r + "\"" == out + JsonString(value)
  {
    assert value[|value|..] == [] && r + [] == r;
    Regroup(out, "\"", Escaped(value), "\"");
  }

  method PushJsonStringArray(out: string, values: seq<string>) returns (r: string)
    ensures r == out + JsonArray(values)
  {
    r := out + "[";
    for k := 0 to |values|
      invariant k == 0 ==> r == out + "["
      invariant 0 < k ==> out + JsonArray(values) == r + Tail(values[k..])
    {
      ghost var before := r;
      if k != 0 {
        r := r + ", ";
      }
      r := PushJsonString(r, values[k]);
      NextElement(out, before, values, k);
    }
    r := r + "]";
    assert values[|values|..] == [];
  }

  lemma NextElement(out: string, before: string, values: seq<string>, k: nat)
    requires k < |values|
    ensures k == 0 ==> out + JsonArray(values) == out + "[" + JsonString(values[0]) + Tail(values[1..])
    ensures k > 0 ==> before + Tail(values[k..]) == before + ", " + JsonString(values[k]) + Tail(values[k + 1..])
  {
    if k > 0 {
      assert values[k..][1..] == values[k + 1..];
      var e, t := JsonString(values[k]), Tail(values[k + 1..]);
      assert before + (", " + e + t) == before + ", " + e + t;
    } else {
      var e, t := JsonString(values[0]), Tail(values[1..]);
      assert out + ("[" + e + t) == out + "[" + e + t;
    }
  }

  // ----- reading

  /** The string a reader makes of `s`, which follows an opening quote, and what is left after the closing one. */
  function ReadChars(s: string): (r: Option<(string, string)>)
    ensures r.Some? ==> |r.value.1| < |s|
    decreases |s|, 1
  {
    if s == [] then None
    else if s[0] == '"' then Some(([], s[1..]))
    else if s[0] == '\\' then
      if |s| < 2 then None
      else if s[1] == 'u' then ReadUnicode(s)
      else match Unescape(s[1])
           case None => None
           case Some(c) => Prepend(c, ReadChars(s[2..]))
    else if (s[0] as int) < 0x20 then None
    else Prepend(s[0], ReadChars(s[1..]))
  }

  function Prepend(c: char, r: Option<(string, string)>): Option<(string, string)> {
    match r
    case None => None
    case Some((text, rest)) => Some(([c] + text, rest))
  }

  function Unescape(c: char): Option<char> {
    match c
    case '"' => Some('"')
    case '\\' => Some('\\')
    case '/' => Some('/')
    case 'b' => Some('\U{0008}')
    case 'f' => Some('\U{000C}')
    case 'n' => Some('\n')
    case 'r' => Some('\r')
    case 't' => Some('\t')
    case _ => None
  }

  /** A `\uXXXX` escape, or the two that make up a surrogate pair. */
  function ReadUnicode(s: string): (r: Option<(string, string)>)
    requires |s| >= 2
    ensures r.Some? ==> |r.value.1| < |s|
    decreases |s|, 0
  {
    if |s| < 6 then None
    else match ReadHex4(s[2..])
         case None => None
         case Some(hi) =>
           if !(0xD800 <= hi < 0xE000) then Prepend(CodePoint(hi), ReadChars(s[6..]))
           else if hi >= 0xDC00 || |s| < 12 || s[6] != '\\' || s[7] != 'u' then None
           else match ReadHex4(s[8..])
                case None => None
                case Some(lo) =>
                  if !(0xDC00 <= lo < 0xE000) then None
                  else Prepend(CodePoint(0x10000 + (hi - 0xD800) * 0x400 + (lo - 0xDC00)), ReadChars(s[12..]))
  }

  function CodePoint(n: nat): char {
    if n < 0xD800 || 0xE000 <= n < 0x110000 then n as char else '?'
  }

  function ReadString(s: string): (r: Option<(string, string)>)
    ensures r.Some? ==> |r.value.1| < |s|
  {
    if s == [] || s[0] != '"' then None else ReadChars(s[1..])
  }

  function SkipSpace(s: string): (r: string)
    ensures |r| <= |s|
  {
    if s != [] && s[0] in {' ', '\t', '\n', '\r'} then SkipSpace(s[1..]) else s
  }

  /** The elements after the first: separators and strings up to the closing bracket. */
  function ReadRest(s: string): Option<(seq<string>, string)>
    decreases |s|
  {
    var t := SkipSpace(s);
    if t == [] then None
    else if t[0] == ']' then Some(([], t[1..]))
    else if t[0] != ',' then None
    else match ReadString(SkipSpace(t[1..]))
         case None => None
         case Some((v, after)) =>
           match ReadRest(after)
           case None => None
           case Some((vs, rest)) => Some(([v] + vs, rest))
  }

  function ReadArray(s: string): Option<(seq<string>, string)> {
    if s == [] || s[0] != '[' then None
    else
      var t := SkipSpace(s[1..]);
      if t != [] && t[0] == ']' then Some(([], t[1..]))
      else match ReadString(t)
           case None => None
           case Some((v, after)) =>
             match ReadRest(after)
             case None => None
             case Some((vs, rest)) => Some(([v] + vs, rest))
  }

  // ----- the round trip

  lemma EscapeIsRead(c: char, rest: string)
    ensures ReadChars(Escape(c) + rest) == Prepend(c, ReadChars(rest))
  {
    var e := Escape(c);
    if |e| == 6 {
      UnicodeEscapeIsRead(c, rest);
    } else if |e| == 2 {
      ShortEscapeIsRead(e[1], c, rest);
    } else {
      assert ([c] + rest)[1..] == rest;
    }
  }

  lemma ShortEscapeIsRead(e: char, c: char, rest: string)
    requires Unescape(e) == Some(c) && e != 'u'
    ensures ReadChars(['\\', e] + rest) == Prepend(c, ReadChars(rest))
  {
    assert (['\\', e] + rest)[2..] == rest;
  }

  lemma UnicodeEscapeIsRead(c: char, rest: string)
    requires (c as int) < 0xD800
    ensures ReadChars("\\u" + Hex4(c as int) + rest) == Prepend(c, ReadChars(rest))
  {
    var h := Hex4(c as int);
    var s := "\\u" + h + rest;
    assert s[2..] == h + rest && s[6..] == rest;
    Hex4RoundTrip(c as int, rest);
    assert ReadUnicode(s) == Prepend(CodePoint(c as int), ReadChars(rest));
  }

  lemma {:induction false} EscapedIsRead(value: string, rest: string)
    ensures ReadChars(Escaped(value) + "\"" + rest) == Some((value, rest))
    decreases |value|
  {
    if value == [] {
      assert Escaped(value) + "\"" + rest == "\"" + rest;
      assert ("\"" + rest)[1..] == rest;
    } else {
      var more := Escaped(value[1..]) + "\"" + rest;
      assert Escaped(value) + "\"" + rest == Escape(value[0]) + more;
      EscapeIsRead(value[0], more);
      EscapedIsRead(value[1..], rest);
      assert [value[0]] + value[1..] == value;
    }
  }

  // MAIN RESULT. Every string, whatever it contains, is read back exactly, and the reader stops exactly at
  // the closing quote whatever text follows.
  lemma StringIsReadBack(value: string, rest: string)
    ensures ReadString(JsonString(value) + rest) == Some((value, rest))
  {
    EscapedIsRead(value, rest);
    assert (JsonString(value) + rest)[1..] == Escaped(value) + "\"" + rest;
  }

  lemma {:induction false} TailIsRead(values: seq<string>, rest: string)
    ensures ReadRest(Tail(values) + rest) == Some((values, rest))
    decreases |values|
  {
    var s := Tail(values) + rest;
    if values == [] {
      assert s == "]" + rest && s[1..] == rest;
    } else {
      var after := Tail(values[1..]) + rest;
      assert s == ", " + JsonString(values[0]) + after;
      ReadsPastSeparator(s, values[0], after);
      TailIsRead(values[1..], rest);
      assert [values[0]] + values[1..] == values;
    }
  }

  lemma ReadsPastSeparator(s: string, v: string, after: string)
    requires s == ", " + JsonString(v) + after
    ensures SkipSpace(s) == s && s[0] == ',' && ReadString(SkipSpace(s[1..])) == Some((v, after))
  {
    var u := JsonString(v) + after;
    assert s[1..] == " " + u && s[1..][1..] == u && u[0] == '"';
    assert SkipSpace(u) == u;
    StringIsReadBack(v, after);
  }

  // MAIN RESULT. Every list of strings is read back exactly, up to its closing bracket.
  lemma ArrayIsReadBack(values: seq<string>, rest: string)
    ensures ReadArray(JsonArray(values) + rest) == Some((values, rest))
  {
    var s := JsonArray(values) + rest;
    if values == [] {
      assert s[0] == '[' && s[1..] == "]" + rest && s[1..][1..] == rest;
    } else {
      var after := Tail(values[1..]) + rest;
      assert s == "[" + JsonString(values[0]) + after;
      ReadsFirst(s, values[0], after);
      TailIsRead(values[1..], rest);
      assert [values[0]] + values[1..] == values;
    }
  }

  lemma ReadsFirst(s: string, v: string, after: string)
    requires s == "[" + JsonString(v) + after
    ensures s[0] == '[' && SkipSpace(s[1..]) == s[1..] && s[1] == '"' && ReadString(s[1..]) == Some((v, after))
  {
    assert s[1..] == JsonString(v) + after;
    StringIsReadBack(v, after);
  }
}

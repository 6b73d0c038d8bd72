/** Hex fixture files: rows of hex digits, optionally named, with comments and free spacing. */
module HexFixtures {
  import opened Can
  import opened Hex
  import opened Scan

  datatype HexResult = Bytes(bytes: seq<byte>) | InvalidCharacter(c: char) | OddDigits

  datatype FixtureResult = Parsed(result: HexResult) | NamedParsed(name: string, result: HexResult) | MissingName
    | EmptyFixture

  // ----- a hex stream

  predicate Spacing(c: char) {
    IsAsciiSpace(c) || c == '_'
  }

  /** The characters that matter. */
  function Kept(s: string): string {
    if s == [] then []
    else if Spacing(s[0]) then Kept(s[1..])
    else [s[0]] + Kept(s[1..])
  }

  function Pairs(digits: string): seq<byte>
    requires |digits| % 2 == 0 && forall i :: 0 <= i < |digits| ==> HexValue(digits[i]).Some?
  {
    if digits == [] then []
    else [16 * HexValue(digits[0]).value + HexValue(digits[1]).value] + Pairs(digits[2..])
  }

  /** The first character that is no hex digit. */
  function FirstBad(digits: string): (r: Option<char>)
    ensures r.None? ==> forall i :: 0 <= i < |digits| ==> HexValue(digits[i]).Some?
  {
    if digits == [] then None
    else if HexValue(digits[0]).None? then Some(digits[0])
    else
      var r := FirstBad(digits[1..]);
      assert forall i :: 1 <= i < |digits| ==> digits[i] == digits[1..][i - 1];
      r
  }

  function DigitsToBytes(digits: string): HexResult {
    match FirstBad(digits)
    case Some(c) => InvalidCharacter(c)
    case None => if |digits| % 2 != 0 then OddDigits else Bytes(Pairs(digits))
  }

  // Spacing is the five ASCII blanks and the underscore.
  lemma SpacingIs(c: char)
    ensures Spacing(c) <==> c as int in {0x20, 0x09, 0x0A, 0x0C, 0x0D, 0x5F}
  {
  }

  lemma {:induction false} PairsAt(digits: string, i: nat)
    requires |digits| % 2 == 0 && forall i :: 0 <= i < |digits| ==> HexValue(digits[i]).Some?
    requires 2 * i < |digits|
    ensures |Pairs(digits)| == |digits| / 2
    ensures Pairs(digits)[i] == 16 * HexValue(digits[2 * i]).value + HexValue(digits[2 * i + 1]).value
    decreases |digits|
  {
    if i > 0 {
      PairsAt(digits[2..], i - 1);
    } else if |digits| > 2 {
      PairsAt(digits[2..], 0);
    }
  }

  ghost predicate SpelledBy(bytes: seq<byte>, digits: string) {
    && |digits| == 2 * |bytes|
    && forall i :: 0 <= i < |bytes| ==>
         HexValue(digits[2 * i]) == Some(bytes[i] / 16) && HexValue(digits[2 * i + 1]) == Some(bytes[i] % 16)
  }

  lemma SpelledIsDigits(bytes: seq<byte>, digits: string)
    requires SpelledBy(bytes, digits)
    ensures forall j :: 0 <= j < |digits| ==> HexValue(digits[j]).Some?
  {
    forall j | 0 <= j < |digits|
      ensures HexValue(digits[j]).Some?
    {
      assert j == 2 * (j / 2) + j % 2;
      assert HexValue(digits[2 * (j / 2)]).Some? && HexValue(digits[2 * (j / 2) + 1]).Some?;
    }
  }

  lemma ByteOf(hi: nat, lo: nat, b: byte)
    requires hi < 16 && lo < 16
    ensures b == 16 * hi + lo <==> hi == b / 16 && lo == b % 16
  {
  }

  lemma PairsAreSpelled(digits: string, bytes: seq<byte>)
    requires |digits| % 2 == 0 && forall i :: 0 <= i < |digits| ==> HexValue(digits[i]).Some?
    ensures Pairs(digits) == bytes <==> SpelledBy(bytes, digits)
  {
    assert digits == [] ==> Pairs(digits) == [];
    if digits != [] {
      PairsAt(digits, 0);
    }
    if |digits| == 2 * |bytes| {
      forall i | 0 <= i < |bytes|
        ensures Pairs(digits)[i] == bytes[i] <==>
                HexValue(digits[2 * i]) == Some(bytes[i] / 16) && HexValue(digits[2 * i + 1]) == Some(bytes[i] % 16)
      {
        PairsAt(digits, i);
        ByteOf(HexValue(digits[2 * i]).value, HexValue(digits[2 * i + 1]).value, bytes[i]);
      }
    }
  }

  // Two digits make a byte, the high one first.
  lemma DigitsReadIff(digits: string, bytes: seq<byte>)
    ensures DigitsToBytes(digits) == Bytes(bytes) <==> SpelledBy(bytes, digits)
  {
    if SpelledBy(bytes, digits) {
      SpelledIsDigits(bytes, digits);
      NoneBad(digits);
    }
    if FirstBad(digits).None? && |digits| % 2 == 0 {
      PairsAreSpelled(digits, bytes);
    }
  }

  // Otherwise the first character that is no digit is to blame, and if there is none, the odd one out.
  lemma {:induction false} FirstBadIsToBlame(digits: string, k: nat)
    requires k <= |digits| && (forall i :: 0 <= i < k ==> HexValue(digits[i]).Some?)
    requires k < |digits| ==> HexValue(digits[k]).None?
    ensures k < |digits| ==> DigitsToBytes(digits) == InvalidCharacter(digits[k])
    ensures k == |digits| && k % 2 != 0 ==> DigitsToBytes(digits) == OddDigits
  {
    if k < |digits| {
      FirstBadAt(digits[..k], digits[k], digits[k + 1..]);
      assert digits == digits[..k] + [digits[k]] + digits[k + 1..];
    } else {
      NoneBad(digits);
    }
  }

  lemma KeptStep(hex: string, k: nat, compact: string)
    requires k < |hex|
    ensures compact + Kept(hex[k..]) == (if Spacing(hex[k]) then compact else compact + [hex[k]]) + Kept(hex[k + 1..])
  {
    assert hex[k..][1..] == hex[k + 1..];
    var rest := Kept(hex[k + 1..]);
    assert compact + ([hex[k]] + rest) == compact + [hex[k]] + rest;
  }

  /** First loop of the parser: drop spacing, stop at the first character that is no digit. */
  method Squeeze(hex: string) returns (compact: string, bad: Option<char>)
    ensures bad == FirstBad(Kept(hex))
    ensures bad.None? ==> compact == Kept(hex)
  {
    compact, bad := [], None;
    assert hex[0..] == hex;
    for k := 0 to |hex|
      invariant Kept(hex) == compact + Kept(hex[k..])
      invariant forall i :: 0 <= i < |compact| ==> HexValue(compact[i]).Some?
    {
      KeptStep(hex, k, compact);
      if !Spacing(hex[k]) {
        if HexValue(hex[k]).None? {
          FirstBadAt(compact, hex[k], Kept(hex[k + 1..]));
          return compact, Some(hex[k]);
        }
        compact := compact + [hex[k]];
      }
    }
    assert compact + [] == compact;
    NoneBad(compact);
  }

  /** Second loop of the parser: two digits make a byte. */
  method PairUp(digits: string) returns (bytes: seq<byte>)
    requires |digits| % 2 == 0 && forall i :: 0 <= i < |digits| ==> HexValue(digits[i]).Some?
    ensures bytes == Pairs(digits)
  {
    bytes := [];
    var i := 0;
    assert digits[0..] == digits;
    while i < |digits|
      invariant 0 <= i <= |digits| && i % 2 == 0
      invariant Pairs(digits) == bytes + Pairs(digits[i..])
    {
      var b: byte := 16 * HexValue(digits[i]).value + HexValue(digits[i + 1]).value;
      PairsUnfold(digits[i..], b);
      assert digits[i..][2..] == digits[i + 2..];
      assert bytes + ([b] + Pairs(digits[i + 2..])) == bytes + [b] + Pairs(digits[i + 2..]);
      bytes := bytes + [b];
      i := i + 2;
    }
  }

  lemma PairsUnfold(digits: string, b: byte)
    requires |digits| >= 2 && |digits| % 2 == 0 && forall i :: 0 <= i < |digits| ==> HexValue(digits[i]).Some?
    requires b == 16 * HexValue(digits[0]).value + HexValue(digits[1]).value
    ensures Pairs(digits) == [b] + Pairs(digits[2..])
  {
  }

  // The parser sees nothing but the kept characters.
  method ParseHexBytes(hex: string) returns (r: HexResult)
    ensures r == DigitsToBytes(Kept(hex))
  {
    var compact, bad := Squeeze(hex);
    if bad.Some? {
      return InvalidCharacter(bad.value);
    }
    if |compact| % 2 != 0 {
      return OddDigits;
    }
    var bytes := PairUp(compact);
    r := Bytes(bytes);
  }

  lemma {:induction false} FirstBadAt(good: string, bad: char, rest: string)
    requires (forall i :: 0 <= i < |good| ==> HexValue(good[i]).Some?) && HexValue(bad).None?
    ensures FirstBad(good + [bad] + rest) == Some(bad)
    decreases |good|
  {
    if good != [] {
      assert (good + [bad] + rest)[1..] == good[1..] + [bad] + rest;
      FirstBadAt(good[1..], bad, rest);
    }
  }

  lemma {:induction false} NoneBad(digits: string)
    requires forall i :: 0 <= i < |digits| ==> HexValue(digits[i]).Some?
    ensures FirstBad(digits) == None
  {
    if digits != [] {
      NoneBad(digits[1..]);
    }
  }

  // ----- a fixture file

  /** A row without its comment and surrounding white space. */
  function Content(line: string): string {
    Trim(Before(line, '#'))
  }

  predicate IsNamed(line: string) {
    '=' in Content(line)
  }

  function RowName(line: string): string {
    Trim(Before(Content(line), '='))
  }

  function RowHex(line: string): string
    requires IsNamed(line)
  {
    Trim(After(Content(line), '='))
  }

  function FirstNamed(lines: seq<string>, name: Option<string>): (r: Option<string>)
    ensures r.Some? ==> IsNamed(r.value)
  {
    if lines == [] then None
    else if IsNamed(lines[0]) && (name.None? || RowName(lines[0]) == name.value) then Some(lines[0])
    else FirstNamed(lines[1..], name)
  }

  /** The plain rows run together. */
  function PlainHex(lines: seq<string>): string {
    if lines == [] then []
    else (if IsNamed(lines[0]) then [] else Content(lines[0])) + PlainHex(lines[1..])
  }

  function FromRow(row: string): FixtureResult
    requires IsNamed(row)
  {
    NamedParsed(RowName(row), DigitsToBytes(Kept(RowHex(row))))
  }

  function Fixture(lines: seq<string>, name: Option<string>): FixtureResult {
    var plain := PlainHex(lines);
    if name.None? && plain != [] then Parsed(DigitsToBytes(Kept(plain)))
    else match FirstNamed(lines, name)
         case Some(row) => FromRow(row)
         case None => if name.Some? then MissingName else EmptyFixture
  }

  /** What the loop knows after `k` rows, none of them the one asked for. */
  ghost predicate RowsRead(lines: seq<string>, name: Option<string>, k: nat, plain: string,
                           firstNamed: Option<string>) {
    && k <= |lines|
    && (firstNamed.Some? ==> IsNamed(firstNamed.value))
    && (name.None? ==>
          && PlainHex(lines) == plain + PlainHex(lines[k..])
          && FirstNamed(lines, name) == if firstNamed.Some? then firstNamed else FirstNamed(lines[k..], name))
    && (name.Some? ==> FirstNamed(lines, name) == FirstNamed(lines[k..], name))
  }

  lemma RowStep(lines: seq<string>, name: Option<string>, k: nat, plain: string, firstNamed: Option<string>)
    requires k < |lines| && RowsRead(lines, name, k, plain, firstNamed)
    ensures !IsNamed(lines[k]) ==>
              RowsRead(lines, name, k + 1, if name.None? then plain + Content(lines[k]) else plain, firstNamed)
    ensures IsNamed(lines[k]) ==>
              if name == Some(RowName(lines[k])) then Fixture(lines, name) == FromRow(lines[k])
              else RowsRead(lines, name, k + 1, plain, if firstNamed.None? then Some(lines[k]) else firstNamed)
  {
    PlainStep(lines, k, plain);
    NamedStep(lines, name, k);
  }

  lemma PlainStep(lines: seq<string>, k: nat, plain: string)
    requires k < |lines|
    ensures plain + PlainHex(lines[k..])
            == (if IsNamed(lines[k]) then plain else plain + Content(lines[k])) + PlainHex(lines[k + 1..])
  {
    assert lines[k..][1..] == lines[k + 1..];
    var row, rest := if IsNamed(lines[k]) then [] else Content(lines[k]), PlainHex(lines[k + 1..]);
    assert PlainHex(lines[k..]) == row + rest;
    assert plain + (row + rest) == (plain + row) + rest;
    assert plain + [] == plain;
  }

  lemma NamedStep(lines: seq<string>, name: Option<string>, k: nat)
    requires k < |lines|
    ensures FirstNamed(lines[k..], name) ==
            if IsNamed(lines[k]) && (name.None? || name.value == RowName(lines[k])) then Some(lines[k])
            else FirstNamed(lines[k + 1..], name)
  {
    assert lines[k..][1..] == lines[k + 1..];
  }

  lemma RowsBegin(lines: seq<string>, name: Option<string>)
    ensures RowsRead(lines, name, 0, [], None)
  {
    assert lines[0..] == lines && [] + PlainHex(lines) == PlainHex(lines);
  }

  lemma RowsEnd(lines: seq<string>, name: Option<string>, plain: string, firstNamed: Option<string>)
    requires RowsRead(lines, name, |lines|, plain, firstNamed)
    ensures Fixture(lines, name) ==
            if name.Some? then MissingName
            else if plain != [] then Parsed(DigitsToBytes(Kept(plain)))
            else if firstNamed.Some? then FromRow(firstNamed.value)
            else EmptyFixture
  {
    assert lines[|lines|..] == [] && plain + [] == plain;
  }

  method ParseHexFixture(text: string, name: Option<string>) returns (r: FixtureResult)
    ensures r == Fixture(Lines(text), name)
  {
    var lines := Lines(text);
    var firstNamed: Option<string> := None;
    var plain: string := [];
    RowsBegin(lines, name);
    for k := 0 to |lines|
      invariant RowsRead(lines, name, k, plain, firstNamed)
    {
      RowStep(lines, name, k, plain, firstNamed);
      var line := Content(lines[k]);
      if line == [] {
        continue;
      }
      if '=' in line {
        var rowName := Trim(Before(line, '='));
        if name == Some(rowName) {
          var hex := ParseHexBytes(Trim(After(line, '=')));
          return NamedParsed(rowName, hex);
        }
        if firstNamed.None? {
          firstNamed := Some(lines[k]);
        }
      } else if name.None? {
        plain := plain + line;
      }
    }
    RowsEnd(lines, name, plain, firstNamed);
    if name.Some? {
      return MissingName;
    }
    if plain != [] {
      var hex := ParseHexBytes(plain);
      return Parsed(hex);
    }
    if firstNamed.Some? {
      var hex := ParseHexBytes(RowHex(firstNamed.value));
      return NamedParsed(RowName(firstNamed.value), hex);
    }
    r := EmptyFixture;
  }

  // ----- only the digits count

  lemma {:induction false} KeptAppend(a: string, b: string)
    ensures Kept(a + b) == Kept(a) + Kept(b)
  {
    if a == [] {
      assert a + b == b;
    } else {
      assert (a + b)[1..] == a[1..] + b;
      KeptAppend(a[1..], b);
    }
  }

  /** The kept characters of a file of plain rows: comments, spacing and line breaks left out. */
  function Significant(lines: seq<string>): string {
    if lines == [] then [] else Kept(Content(lines[0])) + Significant(lines[1..])
  }

  // Trimming a row drops no kept character as long as its white space is the ASCII kind; other white space
  // is accepted around a row and rejected inside it.
  lemma TrimKeepsDigits(s: string)
    requires forall i :: 0 <= i < |s| && IsSpace(s[i]) ==> IsAsciiSpace(s[i])
    ensures Kept(Trim(s)) == Kept(s)
  {
    TrimLeftKeepsDigits(s);
    TrimRightKeepsDigits(TrimLeft(s));
  }

  lemma {:induction false} TrimLeftKeepsDigits(s: string)
    requires forall i :: 0 <= i < |s| && IsSpace(s[i]) ==> IsAsciiSpace(s[i])
    ensures Kept(TrimLeft(s)) == Kept(s)
    ensures forall i :: 0 <= i < |TrimLeft(s)| && IsSpace(TrimLeft(s)[i]) ==> IsAsciiSpace(TrimLeft(s)[i])
  {
    if s != [] && IsSpace(s[0]) {
      assert forall i :: 0 <= i < |s[1..]| ==> s[1..][i] == s[i + 1];
      TrimLeftKeepsDigits(s[1..]);
    }
  }

  lemma {:induction false} TrimRightKeepsDigits(s: string)
    requires forall i :: 0 <= i < |s| && IsSpace(s[i]) ==> IsAsciiSpace(s[i])
    ensures Kept(TrimRight(s)) == Kept(s)
  {
    if s != [] && IsSpace(s[|s| - 1]) {
      var t := s[..|s| - 1];
      TrimRightKeepsDigits(t);
      assert s == t + [s[|s| - 1]];
      KeptAppend(t, [s[|s| - 1]]);
    }
  }

  predicate AllPlain(lines: seq<string>) {
    forall i :: 0 <= i < |lines| ==> !IsNamed(lines[i])
  }

  predicate AllBlank(lines: seq<string>) {
    forall i :: 0 <= i < |lines| ==> Content(lines[i]) == []
  }

  lemma {:induction false} PlainIsSignificant(lines: seq<string>)
    requires AllPlain(lines)
    ensures Kept(PlainHex(lines)) == Significant(lines)
    ensures PlainHex(lines) == [] <==> AllBlank(lines)
    ensures FirstNamed(lines, None) == None
  {
    if lines != [] {
      assert forall i :: 0 <= i < |lines[1..]| ==> lines[1..][i] == lines[i + 1];
      PlainIsSignificant(lines[1..]);
      KeptAppend(Content(lines[0]), PlainHex(lines[1..]));
    }
  }

  // MAIN RESULT. A file of plain rows parses to what its digit sequence says, however the digits are spaced
  // or broken into lines; the one exception is a file with nothing at all on any row.
  lemma OnlyDigitsCount(text: string)
    requires AllPlain(Lines(text))
    ensures Fixture(Lines(text), None) ==
            if AllBlank(Lines(text)) then EmptyFixture else Parsed(DigitsToBytes(Significant(Lines(text))))
  {
    PlainIsSignificant(Lines(text));
  }

  // ----- from the raw text

  /** The text without its comments, each of which runs from a `#` to the end of its line. */
  function Uncomment(text: string): string
    decreases |text|
  {
    if text == [] then []
    else if text[0] != '#' then [text[0]] + Uncomment(text[1..])
    else if '\n' in text then Uncomment(After(text, '\n'))
    else []
  }

  predicate AsciiSpaced(s: string) {
    forall c :: c in s && IsSpace(c) ==> IsAsciiSpace(c)
  }

  lemma {:induction false} CutAtNewline(text: string)
    requires '\n' in text
    ensures text == Before(text, '\n') + "\n" + After(text, '\n') && '\n' !in Before(text, '\n')
  {
    if text[0] != '\n' {
      CutAtNewline(text[1..]);
      assert text == [text[0]] + text[1..];
    }
  }

  lemma {:induction false} AfterLine(line: string, rest: string)
    requires '\n' !in line
    ensures '\n' in line + "\n" + rest && After(line + "\n" + rest, '\n') == rest
  {
    var s := line + "\n" + rest;
    assert s[|line|] == '\n';
    if line == [] {
      assert s[1..] == rest;
    } else {
      assert s[1..] == line[1..] + "\n" + rest;
      AfterLine(line[1..], rest);
    }
  }

  lemma {:induction false} UncommentLine(line: string, rest: string)
    requires '\n' !in line
    ensures Kept(Uncomment(line + "\n" + rest)) == Kept(Before(line, '#')) + Kept(Uncomment(rest))
    ensures Kept(Uncomment(line)) == Kept(Before(line, '#'))
  {
    var s := line + "\n" + rest;
    if line == [] {
      assert s[1..] == rest;
    } else if line[0] == '#' {
      AfterLine(line, rest);
    } else {
      assert s[1..] == line[1..] + "\n" + rest;
      UncommentLine(line[1..], rest);
    }
  }

  lemma {:induction false} ReturnDoesNotMatter(s: string)
    ensures Kept(Before(s + "\r", '#')) == Kept(Before(s, '#'))
  {
    if s != [] {
      assert (s + "\r")[1..] == s[1..] + "\r";
      ReturnDoesNotMatter(s[1..]);
    }
  }

  lemma {:induction false} BeforeIsPart(s: string, c: char)
    ensures forall x :: x in Before(s, c) ==> x in s
  {
    if s != [] && s[0] != c {
      BeforeIsPart(s[1..], c);
    }
  }

  // What a row contributes can be read off the line as it stands.
  lemma RowAsItStands(line: string)
    requires AsciiSpaced(line)
    ensures Kept(Content(StripReturn(line))) == Kept(Before(line, '#'))
  {
    var bare := StripReturn(line);
    BeforeIsPart(bare, '#');
    TrimKeepsDigits(Before(bare, '#'));
    if bare != line {
      assert line == bare + "\r";
      ReturnDoesNotMatter(bare);
    }
  }

  lemma {:induction false} SignificantIsRaw(text: string)
    requires AsciiSpaced(text)
    ensures Significant(Lines(text)) == Kept(Uncomment(text))
    decreases |text|
  {
    if text != [] {
      if '\n' in text {
        var line, rest := Before(text, '\n'), After(text, '\n');
        CutAtNewline(text);
        RowAsItStands(line);
        SignificantIsRaw(rest);
        UncommentLine(line, rest);
        assert Lines(text)[1..] == Lines(rest);
      } else {
        BeforeIsPart(text, '#');
        TrimKeepsDigits(Before(text, '#'));
        UncommentLine(text, []);
        assert [text][1..] == [];
      }
    }
  }

  // MAIN RESULT. With ASCII white space the result can be read off the raw text: leave out the comments and
  // then everything that is spacing, wherever it stands.
  lemma RawDigitsCount(text: string)
    requires AllPlain(Lines(text)) && AsciiSpaced(text)
    ensures Fixture(Lines(text), None) ==
            if AllBlank(Lines(text)) then EmptyFixture else Parsed(DigitsToBytes(Kept(Uncomment(text))))
  {
    OnlyDigitsCount(text);
    SignificantIsRaw(text);
  }

  // Two such files give the same result exactly when they are both empty or have the same outcome on
  // their digits; in particular equal digits give equal results unless one file alone is empty.
  lemma SameDigitsSameResult(a: string, b: string)
    requires AllPlain(Lines(a)) && AllPlain(Lines(b)) && Significant(Lines(a)) == Significant(Lines(b))
    ensures Fixture(Lines(a), None) == Fixture(Lines(b), None) <==> (AllBlank(Lines(a)) <==> AllBlank(Lines(b)))
  {
    OnlyDigitsCount(a);
    OnlyDigitsCount(b);
  }

  // The exception is real: an underscore alone is an empty byte string, while an empty file is an error.
  lemma UnderscoreIsNotEmpty()
    ensures Significant(Lines("_")) == Significant(Lines(""))
    ensures Fixture(Lines("_"), None) == Parsed(Bytes([])) && Fixture(Lines(""), None) == EmptyFixture
  {
    assert Lines("_") == ["_"];
    assert Before("_", '#') == "_" by { assert "_"[1..] == []; }
    assert Trim("_") == "_";
    assert PlainHex(["_"]) == "_" by { assert ["_"][1..] == []; }
    assert Kept("_") == [] by { assert "_"[1..] == []; }
  }

  // MAIN RESULT. With a name given, the first row of that name alone decides: nothing before it and
  // nothing after it matters.
  lemma {:induction false} FirstRowDecides(before: seq<string>, row: string, after: seq<string>, name: string)
    requires forall i :: 0 <= i < |before| ==> !(IsNamed(before[i]) && RowName(before[i]) == name)
    requires IsNamed(row) && RowName(row) == name
    ensures Fixture(before + [row] + after, Some(name)) == NamedParsed(name, DigitsToBytes(Kept(RowHex(row))))
    decreases |before|
  {
    var lines := before + [row] + after;
    if before != [] {
      assert lines[1..] == before[1..] + [row] + after;
      FirstRowDecides(before[1..], row, after, name);
    }
  }
}

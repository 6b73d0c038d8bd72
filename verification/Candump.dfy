/** Reading frames from `candump` text, in the compact and in the bracketed form. */
module Candump {
  import opened Can
  import opened Hex
  import opened Scan

  const CAN_SFF_MASK: nat := 0x7FF
  const CAN_EFF_MASK: nat := 0x1FFF_FFFF

  datatype CapturedFrame = CapturedFrame(rawId: nat, data: seq<byte>, extended: bool)

  predicate ValidFrame(f: CapturedFrame) {
    |f.data| <= 8 && f.rawId <= if f.extended then CAN_EFF_MASK else CAN_SFF_MASK
  }

  // ----- numbers

  /** Digits to a number, most significant first. */
  function Number(digits: string, acc: nat, radix: nat): Option<nat> {
    if digits == [] then Some(acc)
    else match HexValue(digits[0])
         case None => None
         case Some(d) => if d >= radix then None else Number(digits[1..], radix * acc + d, radix)
  }

  /** `from_str_radix` and `parse` for an unsigned type: an optional `+`, at least one digit, no overflow. */
  function Unsigned(s: string, radix: nat, max: nat): Option<nat> {
    var digits := if |s| > 1 && s[0] == '+' then s[1..] else s;
    if digits == [] then None
    else match Number(digits, 0, radix)
         case None => None
         case Some(n) => if n > max then None else Some(n)
  }

  const USIZE_MAX: nat := 0xFFFF_FFFF_FFFF_FFFF

  // ----- the parser

  /** Standard or extended, from the number of id digits; other lengths and ids out of range are refused. */
  function Format(idHex: string, rawId: nat): Option<bool> {
    if 1 <= |idHex| <= 3 && rawId <= CAN_SFF_MASK then Some(false)
    else if |idHex| == 8 && rawId <= CAN_EFF_MASK then Some(true)
    else None
  }

  function PayloadBytes(hex: string): Option<seq<byte>> {
    if hex == [] then Some([])
    else if |hex| == 1 then None
    else match (Unsigned(hex[..2], 16, 255), PayloadBytes(hex[2..]))
         case (Some(b), Some(rest)) => Some([b] + rest)
         case _ => None
  }

  function TokenBytes(tokens: seq<string>): Option<seq<byte>> {
    if tokens == [] then Some([])
    else if |tokens[0]| != 2 then None
    else match (Unsigned(tokens[0], 16, 255), TokenBytes(tokens[1..]))
         case (Some(b), Some(rest)) => Some([b] + rest)
         case _ => None
  }

  function FirstWithHash(tokens: seq<string>): (r: Option<string>)
    ensures r.Some? ==> '#' in r.value
  {
    if tokens == [] then None
    else if '#' in tokens[0] then Some(tokens[0])
    else FirstWithHash(tokens[1..])
  }

  function ParseHashToken(token: string): Option<CapturedFrame>
    requires '#' in token
  {
    var idHex, payload := Before(token, '#'), After(token, '#');
    if idHex == [] || '#' in payload then None
    else match (Unsigned(idHex, 16, U32_MAX), PayloadBytes(payload))
         case (Some(rawId), Some(data)) =>
           if |data| > 8 then None
           else (match Format(idHex, rawId) case None => None case Some(x) => Some(CapturedFrame(rawId, data, x)))
         case _ => None
  }

  function ParseHashLine(tokens: seq<string>): Option<CapturedFrame> {
    match FirstWithHash(tokens)
    case None => None
    case Some(token) => ParseHashToken(token)
  }

  predicate IsTimestamp(token: string) {
    |token| > 2 && token[0] == '(' && token[|token| - 1] == ')'
  }

  predicate IsBracketed(token: string) {
    |token| >= 2 && token[0] == '[' && token[|token| - 1] == ']'
  }

  function ParseBracketedLine(tokens: seq<string>): Option<CapturedFrame> {
    ParseParts(if tokens != [] && IsTimestamp(tokens[0]) then tokens[1..] else tokens)
  }

  /** Interface, id, length and bytes. */
  function ParseParts(parts: seq<string>): Option<CapturedFrame> {
    if |parts| < 3 || !IsBracketed(parts[2]) then None
    else
      var idHex, dlcToken := parts[1], parts[2];
      match (Unsigned(dlcToken[1..|dlcToken| - 1], 10, USIZE_MAX), Unsigned(idHex, 16, U32_MAX), TokenBytes(parts[3..]))
      case (Some(dlc), Some(rawId), Some(data)) =>
        if dlc > 8 || |data| != dlc then None
        else (match Format(idHex, rawId) case None => None case Some(x) => Some(CapturedFrame(rawId, data, x)))
      case _ => None
  }

  function ParseTokens(tokens: seq<string>): Option<CapturedFrame> {
    match ParseHashLine(tokens)
    case Some(f) => Some(f)
    case None => ParseBracketedLine(tokens)
  }

  function Parse(line: string): Option<CapturedFrame> {
    ParseTokens(Tokens(line))
  }

  // ----- the loops of the parser

  method ParseHexPayload(hex: string) returns (r: Option<seq<byte>>)
    ensures r == PayloadBytes(hex)
  {
    if |hex| % 2 != 0 {
      OddPayloadFails(hex);
      return None;
    }
    var out: seq<byte> := [];
    var i := 0;
    assert hex[0..] == hex && forall rest: seq<byte> :: out + rest == rest;
    while i < |hex|
      invariant 0 <= i <= |hex| && i % 2 == 0
      invariant PayloadBytes(hex) ==
                match PayloadBytes(hex[i..]) case None => None case Some(rest) => Some(out + rest)
    {
      assert hex[i..][..2] == hex[i..i + 2] && hex[i..][2..] == hex[i + 2..];
      var b := Unsigned(hex[i..i + 2], 16, 255);
      if b.None? {
        return None;
      }
      assert forall rest: seq<byte> :: out + ([b.value] + rest) == out + [b.value] + rest;
      out := out + [b.value];
      i := i + 2;
    }
    assert out + [] == out;
    r := Some(out);
  }

  lemma {:induction false} OddPayloadFails(hex: string)
    requires |hex| % 2 != 0
    ensures PayloadBytes(hex) == None
  {
    if |hex| > 1 {
      OddPayloadFails(hex[2..]);
    }
  }

  method ParseDataTokens(tokens: seq<string>) returns (r: Option<seq<byte>>)
    ensures r == TokenBytes(tokens)
  {
    var data: seq<byte> := [];
    assert tokens[0..] == tokens && forall rest: seq<byte> :: data + rest == rest;
    for k := 0 to |tokens|
      invariant TokenBytes(tokens) ==
                match TokenBytes(tokens[k..]) case None => None case Some(rest) => Some(data + rest)
    {
      assert tokens[k..][1..] == tokens[k + 1..];
      if |tokens[k]| != 2 {
        return None;
      }
      var b := Unsigned(tokens[k], 16, 255);
      if b.None? {
        return None;
      }
      assert forall rest: seq<byte> :: data + ([b.value] + rest) == data + [b.value] + rest;
      data := data + [b.value];
    }
    assert data + [] == data;
    r := Some(data);
  }

  // ----- printing

  /** `n` in `width` upper-case hex digits. */
  function HexNumber(n: nat, width: nat): (r: string)
    ensures |r| == width
    decreases width
  {
    if width == 0 then [] else HexNumber(n / 16, width - 1) + [HexDigit(n % 16)]
  }

  function HexBytes(data: seq<byte>): string {
    if data == [] then [] else HexByte(data[0]) + HexBytes(data[1..])
  }

  method WriteHexBytes(data: seq<byte>) returns (out: string)
    ensures out == HexBytes(data)
  {
    out := [];
    assert data[0..] == data;
    for k := 0 to |data|
      invariant HexBytes(data) == out + HexBytes(data[k..])
    {
      NextHexByte(out, data, k);
      out := out + HexByte(data[k]);
    }
    assert data[|data|..] == [] && out + [] == out;
  }

  lemma NextHexByte(out: string, data: seq<byte>, k: nat)
    requires k < |data|
    ensures out + HexBytes(data[k..]) == out + HexByte(data[k]) + HexBytes(data[k + 1..])
  {
    assert data[k..][1..] == data[k + 1..];
    var h, rest := HexByte(data[k]), HexBytes(data[k + 1..]);
    assert out + (h + rest) == out + h + rest;
  }

  function IdText(f: CapturedFrame): string {
    HexNumber(f.rawId, if f.extended then 8 else 3)
  }

  /** `18FEE680#0102`. */
  function CompactToken(f: CapturedFrame): string {
    IdText(f) + "#" + HexBytes(f.data)
  }

  function ByteTokens(data: seq<byte>): (r: seq<string>)
    ensures |r| == |data|
  {
    seq(|data|, i requires 0 <= i < |data| => HexByte(data[i]))
  }

  /** `18FEE680 [2] 01 02`. */
  function BracketedTokens(f: CapturedFrame): seq<string>
    requires |f.data| <= 8
  {
    [IdText(f), "[" + [HexDigit(|f.data|)] + "]"] + ByteTokens(f.data)
  }

  // ----- reading back what was printed

  predicate AllHex(s: string) {
    forall i :: 0 <= i < |s| ==> HexValue(s[i]).Some?
  }

  function Pow16(width: nat): nat {
    if width == 0 then 1 else 16 * Pow16(width - 1)
  }

  lemma {:induction false} NumberAppends(a: string, b: string, acc: nat, radix: nat)
    ensures Number(a + b, acc, radix) ==
            match Number(a, acc, radix) case None => None case Some(n) => Number(b, n, radix)
    decreases |a|
  {
    if a == [] {
      assert a + b == b;
    } else {
      assert (a + b)[1..] == a[1..] + b;
      var d := HexValue(a[0]);
      if d.Some? && d.value < radix {
        NumberAppends(a[1..], b, radix * acc + d.value, radix);
      }
    }
  }

  lemma {:induction false} HexNumberReads(n: nat, width: nat)
    requires n < Pow16(width)
    ensures Number(HexNumber(n, width), 0, 16) == Some(n) && AllHex(HexNumber(n, width))
    decreases width
  {
    if width > 0 {
      HexNumberReads(n / 16, width - 1);
      HexDigitRoundTrip(n % 16);
      NumberAppends(HexNumber(n / 16, width - 1), [HexDigit(n % 16)], 0, 16);
      assert [HexDigit(n % 16)][1..] == [];
      assert Number([], 16 * (n / 16) + n % 16, 16) == Some(n);
    }
  }

  lemma UnsignedReads(digits: string, radix: nat, max: nat, n: nat)
    requires digits != [] && HexValue(digits[0]).Some? && Number(digits, 0, radix) == Some(n) && n <= max
    ensures Unsigned(digits, radix, max) == Some(n)
  {
  }

  lemma IdReads(f: CapturedFrame)
    requires ValidFrame(f)
    ensures var id := IdText(f);
            Unsigned(id, 16, U32_MAX) == Some(f.rawId) && Format(id, f.rawId) == Some(f.extended) && AllHex(id)
  {
    assert Pow16(2) == 0x100;
    assert Pow16(3) == 0x1000;
    assert Pow16(4) == 0x1_0000;
    assert Pow16(6) == 0x100_0000;
    assert Pow16(8) == 0x1_0000_0000;
    HexNumberReads(f.rawId, if f.extended then 8 else 3);
    UnsignedReads(IdText(f), 16, U32_MAX, f.rawId);
  }

  lemma ByteReads(b: byte)
    ensures Unsigned(HexByte(b), 16, 255) == Some(b) && AllHex(HexByte(b))
  {
    HexDigitRoundTrip(b / 16);
    HexDigitRoundTrip(b % 16);
    var s := HexByte(b);
    assert s[1..] == [s[1]] && s[1..][1..] == [];
    assert Number(s, 0, 16) == Number(s[1..], b / 16, 16) == Number([], 16 * (b / 16) + b % 16, 16);
  }

  lemma {:induction false} PayloadReads(data: seq<byte>)
    ensures PayloadBytes(HexBytes(data)) == Some(data) && AllHex(HexBytes(data))
  {
    if data != [] {
      var h, t := HexByte(data[0]), HexBytes(data[1..]);
      ByteReads(data[0]);
      PayloadReads(data[1..]);
      assert (h + t)[..2] == h && (h + t)[2..] == t;
      assert [data[0]] + data[1..] == data;
    }
  }

  lemma {:induction false} TokensRead(data: seq<byte>)
    ensures TokenBytes(ByteTokens(data)) == Some(data)
  {
    if data != [] {
      ByteReads(data[0]);
      TokensRead(data[1..]);
      assert ByteTokens(data)[1..] == ByteTokens(data[1..]);
      assert [data[0]] + data[1..] == data;
    }
  }

  lemma {:induction false} SplitsAtHash(a: string, b: string)
    requires '#' !in a
    ensures '#' in a + "#" + b && Before(a + "#" + b, '#') == a && After(a + "#" + b, '#') == b
  {
    var s := a + "#" + b;
    assert s[|a|] == '#';
    if a == [] {
      assert s[1..] == b;
    } else {
      assert s[1..] == a[1..] + "#" + b;
      SplitsAtHash(a[1..], b);
    }
  }

  lemma CompactTokenReads(f: CapturedFrame)
    requires ValidFrame(f)
    ensures '#' in CompactToken(f) && ParseHashToken(CompactToken(f)) == Some(f)
  {
    IdReads(f);
    PayloadReads(f.data);
    SplitsAtHash(IdText(f), HexBytes(f.data));
  }

  lemma {:induction false} HashIsFound(before: seq<string>, token: string, after: seq<string>)
    requires '#' in token && forall i :: 0 <= i < |before| ==> '#' !in before[i]
    ensures FirstWithHash(before + [token] + after) == Some(token)
    decreases |before|
  {
    var ts := before + [token] + after;
    if before != [] {
      assert ts[1..] == before[1..] + [token] + after;
      HashIsFound(before[1..], token, after);
    }
  }

  lemma {:induction false} NoHashFound(tokens: seq<string>)
    requires forall i :: 0 <= i < |tokens| ==> '#' !in tokens[i]
    ensures FirstWithHash(tokens) == None
  {
    if tokens != [] {
      NoHashFound(tokens[1..]);
    }
  }

  // MAIN RESULT. A frame in the compact form is read back exactly, whatever timestamp and interface stand
  // before it and whatever follows.
  lemma CompactIsReadBack(line: string, before: seq<string>, f: CapturedFrame, after: seq<string>)
    requires ValidFrame(f) && Tokens(line) == before + [CompactToken(f)] + after
    requires forall i :: 0 <= i < |before| ==> '#' !in before[i]
    ensures Parse(line) == Some(f)
  {
    CompactTokenReads(f);
    HashIsFound(before, CompactToken(f), after);
  }

  lemma DlcReads(n: nat)
    requires n <= 8
    ensures var t := "[" + [HexDigit(n)] + "]";
            IsBracketed(t) && Unsigned(t[1..|t| - 1], 10, USIZE_MAX) == Some(n) && '#' !in t
  {
    var t := "[" + [HexDigit(n)] + "]";
    assert t[1..|t| - 1] == [HexDigit(n)];
    HexDigitRoundTrip(n);
    assert [HexDigit(n)][1..] == [];
    assert Number([HexDigit(n)], 0, 10) == Number([], n, 10) == Some(n);
  }

  // MAIN RESULT. A frame in the bracketed form is read back exactly, with or without a timestamp.
  lemma BracketedIsReadBack(line: string, stamp: seq<string>, iface: string, f: CapturedFrame)
    requires ValidFrame(f) && Tokens(line) == stamp + [iface] + BracketedTokens(f)
    requires stamp == [] || (|stamp| == 1 && IsTimestamp(stamp[0]) && '#' !in stamp[0])
    requires '#' !in iface && (stamp == [] ==> !IsTimestamp(iface))
    ensures Parse(line) == Some(f)
  {
    var tokens := Tokens(line);
    var parts := [iface] + BracketedTokens(f);
    assert stamp != [] ==> tokens[1..] == parts;
    assert stamp == [] ==> tokens == parts;
    NoHashInBrackets(stamp, iface, f);
    assert tokens == stamp + ([iface] + BracketedTokens(f));
    NoHashFound(tokens);
    PartsRead(iface, f);
  }

  lemma NoHashInBrackets(stamp: seq<string>, iface: string, f: CapturedFrame)
    requires ValidFrame(f) && '#' !in iface && forall i :: 0 <= i < |stamp| ==> '#' !in stamp[i]
    ensures var tokens := stamp + ([iface] + BracketedTokens(f));
            forall i :: 0 <= i < |tokens| ==> '#' !in tokens[i]
  {
    IdReads(f);
    DlcReads(|f.data|);
    var parts := [iface] + BracketedTokens(f);
    forall k | 0 <= k < |parts|
      ensures '#' !in parts[k]
    {
      if k >= 3 {
        assert parts[k] == HexByte(f.data[k - 3]);
        ByteReads(f.data[k - 3]);
      }
    }
  }

  // The parts from the interface name on.
  lemma PartsRead(iface: string, f: CapturedFrame)
    requires ValidFrame(f)
    ensures ParseParts([iface] + BracketedTokens(f)) == Some(f)
  {
    IdReads(f);
    DlcReads(|f.data|);
    TokensRead(f.data);
    var parts := [iface] + BracketedTokens(f);
    assert parts[3..] == ByteTokens(f.data);
  }

  function CompactLine(stamp: string, iface: string, f: CapturedFrame): string {
    JoinWords([stamp, iface, CompactToken(f)])
  }

  function BracketedLine(stamp: string, iface: string, f: CapturedFrame): string
    requires |f.data| <= 8
  {
    JoinWords([stamp, iface] + BracketedTokens(f))
  }

  lemma HexIsWord(s: string)
    requires s != [] && AllHex(s)
    ensures IsWord(s)
  {
  }

  // MAIN RESULT. The two forms of one capture line say the same.
  lemma FormsAgree(stamp: string, iface: string, f: CapturedFrame)
    requires ValidFrame(f) && IsWord(stamp) && IsTimestamp(stamp) && '#' !in stamp && IsWord(iface) && '#' !in iface
    ensures Parse(CompactLine(stamp, iface, f)) == Parse(BracketedLine(stamp, iface, f)) == Some(f)
  {
    IdReads(f);
    PayloadReads(f.data);
    HexIsWord(IdText(f));
    assert IsWord(CompactToken(f));
    JoinedWordsAreTokens([stamp, iface, CompactToken(f)]);
    assert [stamp, iface, CompactToken(f)] == [stamp, iface] + [CompactToken(f)] + [];
    CompactIsReadBack(CompactLine(stamp, iface, f), [stamp, iface], f, []);
    BracketedWords(stamp, iface, f);
    JoinedWordsAreTokens([stamp, iface] + BracketedTokens(f));
    assert [stamp, iface] + BracketedTokens(f) == [stamp] + [iface] + BracketedTokens(f);
    BracketedIsReadBack(BracketedLine(stamp, iface, f), [stamp], iface, f);
  }

  lemma BracketedWords(stamp: string, iface: string, f: CapturedFrame)
    requires ValidFrame(f) && IsWord(stamp) && IsWord(iface)
    ensures var ws := [stamp, iface] + BracketedTokens(f); forall i :: 0 <= i < |ws| ==> IsWord(ws[i])
  {
    var ws := [stamp, iface] + BracketedTokens(f);
    forall i | 0 <= i < |ws|
      ensures IsWord(ws[i])
    {
      if i >= 4 {
        assert ws[i] == HexByte(f.data[i - 4]);
        ByteReads(f.data[i - 4]);
        HexIsWord(ws[i]);
      } else if i == 2 {
        IdReads(f);
        HexIsWord(IdText(f));
      }
    }
  }

  // Whatever a line contains, a frame read from it has at most eight data bytes and an id
  // within the mask of its format.
  lemma AcceptedFramesAreValid(line: string)
    ensures Parse(line).Some? ==> ValidFrame(Parse(line).value)
  {
  }
}

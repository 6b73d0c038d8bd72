/** ISO 11783 diagnostic text fields: one Latin-1 byte per character, fields separated by `*`. */
module TextFields {
  import opened Can

  datatype TextResult = Encoded(bytes: seq<byte>) | Reserved | NotPrintable

  predicate Printable(code: int) {
    0x20 <= code <= 0x7E || 0xA0 <= code <= 0xFF
  }

  function DecodeByte(b: byte): Option<char> {
    if Printable(b) then Some(b as char) else None
  }

  predicate IsReserved(c: char, forbidden: seq<char>) {
    c == '*' || c in forbidden
  }

  /** What each method computes: character by character, stopping at the first offender. */
  function Decode(raw: seq<byte>): Option<string> {
    if raw == [] then Some([])
    else match DecodeByte(raw[0])
         case None => None
         case Some(c) => (match Decode(raw[1..]) case None => None case Some(rest) => Some([c] + rest))
  }

  function Encode(value: string, forbidden: seq<char>): TextResult {
    if value == [] then Encoded([])
    else if IsReserved(value[0], forbidden) then Reserved
    else if !Printable(value[0] as int) then NotPrintable
    else match Encode(value[1..], forbidden)
         case Encoded(rest) => Encoded([value[0] as int] + rest)
         case failure => failure
  }

  method DecodeField(raw: seq<byte>) returns (r: Option<string>)
    ensures r == Decode(raw)
  {
    var out: string := [];
    assert raw[0..] == raw && forall rest: string :: out + rest == rest;
    for k := 0 to |raw|
      invariant Decode(raw) == match Decode(raw[k..]) case None => None case Some(rest) => Some(out + rest)
    {
      assert raw[k..][1..] == raw[k + 1..];
      var c := DecodeByte(raw[k]);
      if c.None? {
        return None;
      }
      assert forall rest: string :: out + ([c.value] + rest) == (out + [c.value]) + rest;
      out := out + [c.value];
    }
    assert out + [] == out;
    r := Some(out);
  }

  method EncodeField(value: string, forbidden: seq<char>) returns (r: TextResult)
    ensures r == Encode(value, forbidden)
  {
    var out: seq<byte> := [];
    assert value[0..] == value && forall rest: seq<byte> :: out + rest == rest;
    for k := 0 to |value|
      invariant Encode(value, forbidden) ==
                match Encode(value[k..], forbidden) case Encoded(rest) => Encoded(out + rest) case failure => failure
    {
      assert value[k..][1..] == value[k + 1..];
      var c := value[k];
      if IsReserved(c, forbidden) {
        return Reserved;
      }
      var code := c as int;
      if !Printable(code) {
        return NotPrintable;
      }
      assert forall rest: seq<byte> :: out + ([code] + rest) == (out + [code]) + rest;
      out := out + [code];
    }
    assert out + [] == out;
    r := Encoded(out);
  }

  // MAIN RESULT. Encoding and decoding are inverse to each other on exactly the texts and bytes without
  // reserved characters: a field encodes to given bytes if and only if those bytes decode to it and
  // nothing in it is reserved.
  lemma {:induction false} EncodeIffDecode(value: string, forbidden: seq<char>, bytes: seq<byte>)
    ensures Encode(value, forbidden) == Encoded(bytes) <==>
            Decode(bytes) == Some(value) && forall i :: 0 <= i < |value| ==> !IsReserved(value[i], forbidden)
    decreases |value|
  {
    if value != [] && bytes != [] {
      EncodeIffDecode(value[1..], forbidden, bytes[1..]);
      assert forall i :: 1 <= i < |value| ==> value[i] == value[1..][i - 1];
      assert value == [value[0]] + value[1..] && bytes == [bytes[0]] + bytes[1..];
    }
  }

  /** A character that a field may hold: printable Latin-1, not the separator, not one the caller rules out. */
  predicate Allowed(c: char, forbidden: seq<char>) {
    c != '*' && c !in forbidden && (0x20 <= c as int <= 0x7E || 0xA0 <= c as int <= 0xFF)
  }

  // A field encodes exactly if every character is allowed, and then to their codes.
  lemma {:induction false} EncodedIff(value: string, forbidden: seq<char>, bytes: seq<byte>)
    ensures Encode(value, forbidden) == Encoded(bytes) <==>
            && |bytes| == |value|
            && forall i :: 0 <= i < |value| ==> Allowed(value[i], forbidden) && bytes[i] == value[i] as int
    decreases |value|
  {
    if value != [] && bytes != [] {
      EncodedIff(value[1..], forbidden, bytes[1..]);
      assert forall i :: 1 <= i < |value| ==> value[i] == value[1..][i - 1];
      assert forall i :: 1 <= i < |bytes| ==> bytes[i] == bytes[1..][i - 1];
      assert bytes == [bytes[0]] + bytes[1..];
    }
  }

  // If one is not, the first such character says why.
  lemma {:induction false} FirstOffenderDecides(value: string, forbidden: seq<char>, k: nat)
    requires k < |value| && !Allowed(value[k], forbidden) && forall i :: 0 <= i < k ==> Allowed(value[i], forbidden)
    ensures Encode(value, forbidden) == if value[k] == '*' || value[k] in forbidden then Reserved else NotPrintable
    decreases k
  {
    if k > 0 {
      FirstOffenderDecides(value[1..], forbidden, k - 1);
    }
  }

  lemma {:induction false} DecodedIff(raw: seq<byte>, value: string)
    ensures Decode(raw) == Some(value) <==>
            && |value| == |raw|
            && forall i :: 0 <= i < |raw| ==>
                 (0x20 <= raw[i] <= 0x7E || 0xA0 <= raw[i] <= 0xFF) && value[i] as int == raw[i]
    decreases |raw|
  {
    if raw != [] && value != [] {
      DecodedIff(raw[1..], value[1..]);
      assert forall i :: 1 <= i < |value| ==> value[i] == value[1..][i - 1];
      assert forall i :: 1 <= i < |raw| ==> raw[i] == raw[1..][i - 1];
      assert value == [value[0]] + value[1..];
    }
  }

  lemma {:induction false} EncodedFacts(value: string, forbidden: seq<char>, bytes: seq<byte>)
    requires Encode(value, forbidden) == Encoded(bytes)
    ensures |bytes| == |value| && 0x2A !in bytes
  {
    if value != [] {
      EncodedFacts(value[1..], forbidden, bytes[1..]);
    }
  }

  // ----- lists of fields

  /** Fields joined with a `*` (0x2A) after each. */
  function Join(fields: seq<seq<byte>>): seq<byte> {
    if fields == [] then [] else fields[0] + [0x2A] + Join(fields[1..])
  }

  /** Split at every `*`; bytes after the last one are not a field. */
  function Split(raw: seq<byte>, current: seq<byte>): seq<seq<byte>> {
    if raw == [] then []
    else if raw[0] == 0x2A then [current] + Split(raw[1..], [])
    else Split(raw[1..], current + [raw[0]])
  }

  lemma {:induction false} SplitField(f: seq<byte>, rest: seq<byte>, current: seq<byte>)
    requires 0x2A !in f
    ensures Split(f + [0x2A] + rest, current) == [current + f] + Split(rest, [])
    decreases |f|
  {
    var raw := f + [0x2A] + rest;
    if f == [] {
      assert raw[1..] == rest && current + f == current;
    } else {
      assert raw[1..] == f[1..] + [0x2A] + rest;
      SplitField(f[1..], rest, current + [f[0]]);
      assert current + [f[0]] + f[1..] == current + f;
    }
  }

  // MAIN RESULT. A list of encoded fields, each terminated by `*`, splits back into exactly those fields.
  lemma {:induction false} JoinSplits(values: seq<string>, forbidden: seq<char>, fields: seq<seq<byte>>)
    requires |values| == |fields|
    requires forall i :: 0 <= i < |fields| ==> Encode(values[i], forbidden) == Encoded(fields[i])
    ensures Split(Join(fields), []) == fields
    decreases |fields|
  {
    if fields != [] {
      EncodedFacts(values[0], forbidden, fields[0]);
      SplitField(fields[0], Join(fields[1..]), []);
      JoinSplits(values[1..], forbidden, fields[1..]);
      assert [] + fields[0] == fields[0];
    }
  }
}

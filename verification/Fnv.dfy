/** The 64-bit FNV-1a evidence hash, over raw bytes and over serialised trace commands. */
module Fnv {
  import opened Can

  const OFFSET: nat := 0xCBF2_9CE4_8422_2325
  const PRIME: nat := 0x0000_0100_0000_01B3
  const TWO64: nat := 0x1_0000_0000_0000_0000

  type Word = n: nat | n < TWO64

  /** Exclusive or of the low `width` bits. */
  function Xor(a: nat, b: nat, width: nat): nat {
    if width == 0 then 0 else (if a % 2 == b % 2 then 0 else 1) + 2 * Xor(a / 2, b / 2, width - 1)
  }

  function Pow2(width: nat): nat {
    if width == 0 then 1 else 2 * Pow2(width - 1)
  }

  lemma {:induction false} XorBounded(a: nat, b: nat, width: nat)
    ensures Xor(a, b, width) < Pow2(width)
  {
    if width > 0 {
      XorBounded(a / 2, b / 2, width - 1);
    }
  }

  lemma {:induction false} XorUndoes(a: nat, b: nat, width: nat)
    requires b < Pow2(width)
    ensures Xor(a, Xor(a, b, width), width) == b
    decreases width
  {
    if width > 0 {
      XorUndoes(a / 2, b / 2, width - 1);
      var x := Xor(a, b, width);
      assert x / 2 == Xor(a / 2, b / 2, width - 1);
    }
  }

  lemma {:induction false} XorCommutes(a: nat, b: nat, width: nat)
    ensures Xor(a, b, width) == Xor(b, a, width)
    decreases width
  {
    if width > 0 {
      XorCommutes(a / 2, b / 2, width - 1);
    }
  }

  lemma Pow2Of64()
    ensures Pow2(64) == TWO64
  {
    assert Pow2(8) == 0x100;
    Pow2Adds(8, 8);
    Pow2Adds(16, 16);
    Pow2Adds(32, 32);
  }

  lemma {:induction false} Pow2Adds(a: nat, b: nat)
    ensures Pow2(a + b) == Pow2(a) * Pow2(b)
  {
    if a > 0 {
      Pow2Adds(a - 1, b);
    }
  }

  /** Exclusive or of a hash state and a byte. */
  function XorIn(hash: Word, b: byte): Word {
    XorBounded(hash, b, 64);
    Pow2Of64();
    Xor(hash, b, 64)
  }

  /** Multiplication by the FNV prime, wrapping at 64 bits. */
  function TimesPrime(x: Word): Word {
    x * PRIME % TWO64
  }

  function Mix(hash: Word, b: byte): Word {
    TimesPrime(XorIn(hash, b))
  }

  function Fold(hash: Word, bytes: seq<byte>): Word
    decreases |bytes|
  {
    if bytes == [] then hash else Fold(Mix(hash, bytes[0]), bytes[1..])
  }

  function Fnv1a64(bytes: seq<byte>): Word {
    Fold(OFFSET, bytes)
  }

  // ----- one byte at a time

  lemma {:induction false} FoldAppends(h: Word, bytes: seq<byte>, b: byte)
    ensures Fold(h, bytes + [b]) == Mix(Fold(h, bytes), b)
    decreases |bytes|
  {
    if bytes == [] {
      assert (bytes + [b])[1..] == [];
    } else {
      assert (bytes + [b])[1..] == bytes[1..] + [b];
      FoldAppends(Mix(h, bytes[0]), bytes[1..], b);
    }
  }

  lemma {:induction false} XorWithZero(a: nat, width: nat)
    requires a < Pow2(width)
    ensures Xor(a, 0, width) == a
    decreases width
  {
    if width > 0 {
      XorWithZero(a / 2, width - 1);
    }
  }

  // The bits above those of `b` stay as they are.
  lemma {:induction false} XorLow(a: nat, b: nat, low: nat, high: nat)
    requires b < Pow2(low) && a < Pow2(low + high)
    ensures Pow2(low) > 0
    ensures Xor(a, b, low + high) == a - a % Pow2(low) + Xor(a % Pow2(low), b, low)
    decreases low
  {
    if low == 0 {
      XorWithZero(a, high);
    } else {
      XorLow(a / 2, b / 2, low - 1, high);
      var p := Pow2(low - 1);
      HalfRemainder(a, p);
    }
  }

  lemma HalfRemainder(a: nat, p: nat)
    requires p > 0
    ensures a % (2 * p) == 2 * (a / 2 % p) + a % 2
  {
    var q, r := a / 2 / p, a / 2 % p;
    assert a == 2 * (q * p + r) + a % 2;
    assert a == q * (2 * p) + (2 * r + a % 2);
    Remainder(a, 2 * p, q, 2 * r + a % 2);
  }

  lemma MultipleIsFar(d: int, m: nat)
    ensures (d >= 1 ==> d * m >= m) && (d <= -1 ==> d * m <= -1 * m)
  {
  }

  lemma Remainder(a: nat, m: nat, q: nat, r: nat)
    requires a == q * m + r && r < m
    ensures a % m == r
  {
    var d := q - a / m;
    assert d * m == a % m - r;
    MultipleIsFar(d, m);
  }

  function Bit(n: nat, i: nat): nat {
    if i == 0 then n % 2 else Bit(n / 2, i - 1)
  }

  /** Exclusive or of two bytes, bit by bit. */
  ghost predicate IsXor(x: byte, a: byte, b: byte) {
    forall i: nat :: i < 8 ==> Bit(x, i) == if Bit(a, i) == Bit(b, i) then 0 else 1
  }

  lemma Halved(low: nat, rest: nat)
    requires low < 2
    ensures (low + 2 * rest) % 2 == low && (low + 2 * rest) / 2 == rest
  {
  }

  lemma {:induction false} XorBit(a: nat, b: nat, width: nat, i: nat)
    requires i < width
    ensures Bit(Xor(a, b, width), i) == if Bit(a, i) == Bit(b, i) then 0 else 1
    decreases width
  {
    Halved(if a % 2 == b % 2 then 0 else 1, Xor(a / 2, b / 2, width - 1));
    if i > 0 {
      XorBit(a / 2, b / 2, width - 1, i - 1);
    }
  }

  lemma {:induction false} BitsDetermine(x: nat, y: nat, width: nat)
    requires x < Pow2(width) && y < Pow2(width) && forall i: nat :: i < width ==> Bit(x, i) == Bit(y, i)
    ensures x == y
    decreases width
  {
    if width > 0 {
      forall i: nat | i < width - 1
        ensures Bit(x / 2, i) == Bit(y / 2, i)
      {
        assert Bit(x, i + 1) == Bit(y, i + 1);
      }
      BitsDetermine(x / 2, y / 2, width - 1);
      assert Bit(x, 0) == Bit(y, 0);
    }
  }

  lemma XorOfBytes(x: byte, a: byte, b: byte)
    ensures IsXor(x, a, b) <==> x == Xor(a, b, 8)
  {
    forall i: nat | i < 8
      ensures Bit(Xor(a, b, 8), i) == if Bit(a, i) == Bit(b, i) then 0 else 1
    {
      XorBit(a, b, 8, i);
    }
    if IsXor(x, a, b) {
      XorBounded(a, b, 8);
      assert Pow2(8) == 256;
      BitsDetermine(x, Xor(a, b, 8), 8);
    }
  }

  lemma XorInLow(h: Word, b: byte)
    ensures XorIn(h, b) == h - h % 256 + Xor(h % 256, b, 8)
  {
    Pow2Of64();
    assert Pow2(8) == 256;
    XorLow(h, b, 8, 56);
  }

  lemma AppendedXor(bytes: seq<byte>, b: byte)
    ensures var h := Fnv1a64(bytes);
            Fnv1a64(bytes + [b]) == (h - h % 256 + Xor(h % 256, b, 8)) * 0x100_0000_01B3 % 0x1_0000_0000_0000_0000
  {
    FoldAppends(OFFSET, bytes, b);
    XorInLow(Fnv1a64(bytes), b);
  }

  // MAIN RESULT. A byte is first combined with the low byte of the hash, and the whole is then multiplied by the prime.
  lemma AppendedByte(bytes: seq<byte>, b: byte, x: byte)
    requires IsXor(x, Fnv1a64(bytes) % 256, b)
    ensures var h := Fnv1a64(bytes);
            Fnv1a64(bytes + [b]) == (h - h % 256 + x) * 0x100_0000_01B3 % 0x1_0000_0000_0000_0000
  {
    AppendedXor(bytes, b);
    XorOfBytes(x, Fnv1a64(bytes) % 256, b);
  }

  lemma ProductLowByte(m: nat, x: byte)
    ensures (256 * m + x) * 0x100_0000_01B3 % 0x1_0000_0000_0000_0000 % 256 == 179 * x as int % 256
  {
    var y := (256 * m + x) * 0x100_0000_01B3;
    var q, r := y / 0x1_0000_0000_0000_0000, y % 0x1_0000_0000_0000_0000;
    var s := r / 256;
    assert y == (q * 0x100_0000_0000_0000 + s) * 256 + r % 256;
    Remainder(y, 256, q * 0x100_0000_0000_0000 + s, r % 256);
    var z := 179 * x as int;
    assert y == (m * 0x100_0000_01B3 + 0x1_0000_0001 * x as int + z / 256) * 256 + z % 256;
    Remainder(y, 256, m * 0x100_0000_01B3 + 0x1_0000_0001 * x as int + z / 256, z % 256);
  }

  lemma OddFactor(x: byte)
    ensures 179 * x as int % 256 == 0 <==> x == 0
  {
    var k := 179 * x as int / 256;
    if 179 * x as int % 256 == 0 {
      assert x as int == 256 * (123 * k - 86 * x as int);
    }
  }

  // In particular the hash ends in a zero byte exactly when the last byte repeated the low byte of the hash before it.
  lemma OwnLowByte(bytes: seq<byte>, b: byte)
    ensures Fnv1a64(bytes + [b]) % 256 == 0 <==> b == Fnv1a64(bytes) % 256
  {
    var h := Fnv1a64(bytes);
    var a: byte := h % 256;
    XorBounded(a, b, 8);
    assert Pow2(8) == 256;
    var x: byte := Xor(a, b, 8);
    AppendedXor(bytes, b);
    assert h - h % 256 == 256 * (h / 256);
    ProductLowByte(h / 256, x);
    OddFactor(x);
    XorIsZero(a, b);
  }

  lemma XorIsZero(a: byte, b: byte)
    ensures Xor(a, b, 8) == 0 <==> a == b
  {
    XorOfBytes(0, a, b);
    forall i: nat | i < 8
      ensures Bit(0, i) == 0
    {
      ZeroBits(i);
    }
    if Xor(a, b, 8) == 0 {
      assert Pow2(8) == 256;
      BitsDetermine(a, b, 8);
    }
  }

  lemma {:induction false} ZeroBits(i: nat)
    ensures Bit(0, i) == 0
  {
    if i > 0 {
      ZeroBits(i - 1);
    }
  }

  lemma HashOfNothing(text: seq<byte>)
    requires |text| == 0
    ensures Fnv1a64(text) == 0xCBF2_9CE4_8422_2325
  {
  }

  lemma HashOfOneByte(text: seq<byte>, x: byte)
    requires |text| == 1 && Xor(0x25, text[0], 8) == x
    ensures Fnv1a64(text) == (0xCBF2_9CE4_8422_2300 + x) * 0x100_0000_01B3 % 0x1_0000_0000_0000_0000
  {
    assert text == text[..0] + [text[0]];
    HashAfterNothing(text[..0], text[0], x, text);
  }

  lemma HashAfterNothing(none: seq<byte>, b: byte, x: byte, text: seq<byte>)
    requires |none| == 0 && text == none + [b] && Xor(0x25, b, 8) == x
    ensures Fnv1a64(text) == (0xCBF2_9CE4_8422_2300 + x) * 0x100_0000_01B3 % 0x1_0000_0000_0000_0000
  {
    HashOfNothing(none);
    AppendedTo(none, b, 0xCBF2_9CE4_8422_2325, 0x25, x);
  }

  lemma AppendedTo(bytes: seq<byte>, b: byte, h: Word, low: byte, x: byte)
    requires Fnv1a64(bytes) == h && h % 256 == low && Xor(low, b, 8) == x
    ensures Fnv1a64(bytes + [b]) == (h - low + x) * 0x100_0000_01B3 % 0x1_0000_0000_0000_0000
  {
    AppendedXor(bytes, b);
  }

  lemma ProductForA(hash: Word)
    requires hash == (0xCBF2_9CE4_8422_2300 + 0x44) * 0x100_0000_01B3 % 0x1_0000_0000_0000_0000
    ensures hash == 0xAF63_DC4C_8601_EC8C
  {
  }

  lemma LowByteForA(b: byte)
    requires b == 0x61
    ensures Xor(0x25, b, 8) == 0x44
  {
    assert Xor(0x02, 0x06, 4) == 0x04;
    assert Xor(0x04, 0x0C, 5) == 0x08;
    assert Xor(0x09, 0x18, 6) == 0x11;
    assert Xor(0x12, 0x30, 7) == 0x22;
    assert Xor(0x25, 0x61, 8) == 0x44;
  }

  // A published vector: "a".
  lemma HashOfA(text: seq<byte>)
    requires |text| == 1 && text[0] == 0x61
    ensures Fnv1a64(text) == 0xAF63_DC4C_8601_EC8C
  {
    LowByteForA(text[0]);
    HashOfOneByte(text, 0x44);
    ProductForA(Fnv1a64(text));
  }

  // ----- one step is injective in the state and in the byte

  // The prime is odd, so it has an inverse among products modulo 2^64 and multiplying by it loses nothing.
  lemma TimesPrimeInjective(x: Word, y: Word)
    requires TimesPrime(x) == TimesPrime(y)
    ensures x == y
  {
    var inverse := 0xCE96_5057_AFF6_957B;
    var k := PRIME * inverse / TWO64;
    assert PRIME * inverse == k * TWO64 + 1;
    var t := x * PRIME / TWO64 - y * PRIME / TWO64;
    assert (x - y) * PRIME == t * TWO64;
    assert (x - y) * (k * TWO64 + 1) == t * inverse * TWO64;
    assert x - y == TWO64 * (t * inverse - k * (x - y));
  }

  lemma MixInjectiveInHash(h: Word, h': Word, b: byte)
    requires h != h'
    ensures Mix(h, b) != Mix(h', b)
  {
    if Mix(h, b) == Mix(h', b) {
      TimesPrimeInjective(XorIn(h, b), XorIn(h', b));
      Pow2Of64();
      XorCommutes(h, b, 64);
      XorCommutes(h', b, 64);
      XorUndoes(b, h, 64);
      XorUndoes(b, h', 64);
    }
  }

  lemma MixInjectiveInByte(h: Word, b: byte, b': byte)
    requires b != b'
    ensures Mix(h, b) != Mix(h, b')
  {
    if Mix(h, b) == Mix(h, b') {
      TimesPrimeInjective(XorIn(h, b), XorIn(h, b'));
      Pow2Of64();
      XorUndoes(h, b, 64);
      XorUndoes(h, b', 64);
    }
  }

  lemma {:induction false} FoldInjectiveInHash(h: Word, h': Word, bytes: seq<byte>)
    requires h != h'
    ensures Fold(h, bytes) != Fold(h', bytes)
    decreases |bytes|
  {
    if bytes != [] {
      MixInjectiveInHash(h, h', bytes[0]);
      FoldInjectiveInHash(Mix(h, bytes[0]), Mix(h', bytes[0]), bytes[1..]);
    }
  }

  lemma {:induction false} FoldDetectsChange(h: Word, bytes: seq<byte>, i: nat, b: byte)
    requires i < |bytes| && bytes[i] != b
    ensures Fold(h, bytes) != Fold(h, bytes[i := b])
    decreases |bytes|
  {
    if i == 0 {
      assert bytes[0 := b][1..] == bytes[1..];
      MixInjectiveInByte(h, bytes[0], b);
      FoldInjectiveInHash(Mix(h, bytes[0]), Mix(h, b), bytes[1..]);
    } else {
      assert bytes[i := b][1..] == bytes[1..][i - 1 := b];
      FoldDetectsChange(Mix(h, bytes[0]), bytes[1..], i - 1, b);
    }
  }

  // MAIN RESULT. Changing any one byte of a buffer of any length changes its hash.
  lemma OneByteMatters(bytes: seq<byte>, i: nat, b: byte)
    requires i < |bytes| && bytes[i] != b
    ensures Fnv1a64(bytes) != Fnv1a64(bytes[i := b])
  {
    FoldDetectsChange(OFFSET, bytes, i, b);
  }

  // ----- traces

  datatype TraceCommand = TraceCommand(name: seq<byte>, payload: seq<byte>)

  function Record(c: TraceCommand): seq<byte> {
    c.name + [0] + c.payload + [0xFF]
  }

  function Serialise(cs: seq<TraceCommand>): seq<byte> {
    if cs == [] then [] else Record(cs[0]) + Serialise(cs[1..])
  }

  lemma {:induction false} SerialiseConcat(cs: seq<TraceCommand>, ds: seq<TraceCommand>)
    ensures Serialise(cs + ds) == Serialise(cs) + Serialise(ds)
  {
    if cs == [] {
      assert cs + ds == ds;
    } else {
      assert (cs + ds)[1..] == cs[1..] + ds;
      SerialiseConcat(cs[1..], ds);
    }
  }

  // Each command adds its name, a NUL, its payload and a 0xFF, in that order.
  lemma CommandAdds(cs: seq<TraceCommand>, name: seq<byte>, payload: seq<byte>)
    ensures Serialise(cs + [TraceCommand(name, payload)]) == Serialise(cs) + name + [0x00] + payload + [0xFF]
  {
    var c := TraceCommand(name, payload);
    SerialiseConcat(cs, [c]);
    assert [c][1..] == [] && Serialise([c]) == Record(c) + [];
    assert Serialise(cs) + (name + [0] + payload + [0xFF]) == Serialise(cs) + name + [0] + payload + [0xFF];
  }

  method Fnv1a64Trace(cs: seq<TraceCommand>) returns (hash: Word)
    ensures hash == Fnv1a64(Serialise(cs))
  {
    var bytes: seq<byte> := [];
    assert cs[0..] == cs && bytes + Serialise(cs) == Serialise(cs);
    for k := 0 to |cs|
      invariant Serialise(cs) == bytes + Serialise(cs[k..])
    {
      ghost var before := bytes;
      bytes := bytes + cs[k].name;
      bytes := bytes + [0];
      bytes := bytes + cs[k].payload;
      bytes := bytes + [0xFF];
      assert bytes == before + Record(cs[k]);
      NextRecord(before, cs, k);
    }
    hash := Fnv1a64(bytes);
    assert bytes + [] == bytes;
  }

  lemma NextRecord(before: seq<byte>, cs: seq<TraceCommand>, k: nat)
    requires k < |cs|
    ensures before + Serialise(cs[k..]) == before + Record(cs[k]) + Serialise(cs[k + 1..])
  {
    assert cs[k..][1..] == cs[k + 1..];
    var r := Serialise(cs[k + 1..]);
    assert before + (Record(cs[k]) + r) == before + Record(cs[k]) + r;
  }

  // Changing one payload byte changes one byte of the serialisation.
  lemma {:induction false} PayloadByteAt(cs: seq<TraceCommand>, c: nat, i: nat, b: byte) returns (at: nat)
    requires c < |cs| && i < |cs[c].payload|
    ensures at < |Serialise(cs)| && Serialise(cs)[at] == cs[c].payload[i]
    ensures Serialise(cs[c := cs[c].(payload := cs[c].payload[i := b])]) == Serialise(cs)[at := b]
    decreases |cs|
  {
    var changed := cs[c].(payload := cs[c].payload[i := b]);
    var cs' := cs[c := changed];
    if c == 0 {
      at := |cs[0].name| + 1 + i;
      assert cs'[1..] == cs[1..];
      assert Record(changed) == Record(cs[0])[at := b];
    } else {
      assert cs'[1..] == cs[1..][c - 1 := changed];
      at := PayloadByteAt(cs[1..], c - 1, i, b);
      at := |Record(cs[0])| + at;
    }
  }

  // MAIN RESULT. Changing any one payload byte of any command of a trace changes the trace hash.
  lemma OnePayloadByteMatters(cs: seq<TraceCommand>, c: nat, i: nat, b: byte)
    requires c < |cs| && i < |cs[c].payload| && cs[c].payload[i] != b
    ensures Fnv1a64(Serialise(cs)) != Fnv1a64(Serialise(cs[c := cs[c].(payload := cs[c].payload[i := b])]))
  {
    var at := PayloadByteAt(cs, c, i, b);
    OneByteMatters(Serialise(cs), at, b);
  }

  // ----- what the hash cannot tell apart

  /** Every command has a name that `name` allows; of `name` nothing at all is assumed. */
  ghost predicate Named(cs: seq<TraceCommand>, name: seq<byte> -> bool) {
    forall c :: c in cs ==> name(c.name)
  }

  /** A record end at `i`, and from there to `j` a name and its NUL. */
  ghost predicate SpellsAt(payload: seq<byte>, i: nat, j: nat, name: seq<byte> -> bool) {
    i < j < |payload| && payload[i] == 0xFF && payload[j] == 0 && name(payload[i + 1..j])
  }

  ghost predicate SpellsRecord(payload: seq<byte>, name: seq<byte> -> bool) {
    exists i: nat, j: nat :: SpellsAt(payload, i, j, name)
  }

  /** Another NUL of the record could end the name as well. */
  ghost predicate NameEndsAt(text: seq<byte>, z: nat, name: seq<byte> -> bool) {
    z < |text| - 1 && text[z] == 0 && name(text[..z])
  }

  ghost predicate NameIsUnclear(c: TraceCommand, name: seq<byte> -> bool) {
    exists z: nat :: z != |c.name| && NameEndsAt(Record(c), z, name)
  }

  ghost predicate Determined(cs: seq<TraceCommand>, name: seq<byte> -> bool) {
    forall ds: seq<TraceCommand> :: Named(ds, name) && Serialise(ds) == Serialise(cs) ==> ds == cs
  }

  // MAIN RESULT. Whatever counts as a name, non-empty text or any bytes at all: the hashed text determines the
  // trace if and only if the trace is empty, or is one command whose name can end at one NUL only and whose
  // payload does not spell out the end of a record and the name of another. Every longer trace shares its hash
  // with a shorter one.
  lemma TraceIsDeterminedIff(cs: seq<TraceCommand>, name: seq<byte> -> bool)
    requires Named(cs, name)
    ensures Determined(cs, name) <==>
            cs == [] || (|cs| == 1 && !SpellsRecord(cs[0].payload, name) && !NameIsUnclear(cs[0], name))
  {
    if |cs| >= 2 {
      var ds := Merged(cs, name);
      assert Named(ds, name) && Serialise(ds) == Serialise(cs) && ds != cs;
    } else if |cs| == 1 {
      var c := cs[0];
      assert cs == [c] && c in cs;
      if SpellsRecord(c.payload, name) {
        var ds := Torn(c, name);
        assert Named(ds, name) && Serialise(ds) == Serialise(cs) && ds != cs;
      } else if NameIsUnclear(c, name) {
        var ds := Recut(c, name);
        assert Named(ds, name) && Serialise(ds) == Serialise(cs) && ds != cs;
      } else {
        forall ds: seq<TraceCommand> | Named(ds, name) && Serialise(ds) == Serialise(cs)
          ensures ds == cs
        {
          OnlyReading(c, ds, name);
        }
      }
    }
  }

  lemma RecordTorn(name: seq<byte>, a: seq<byte>, w: seq<byte>, b: seq<byte>)
    ensures Record(TraceCommand(name, a + [0xFF] + w + [0] + b))
            == Record(TraceCommand(name, a)) + Record(TraceCommand(w, b))
  {
  }

  // The first two commands of a trace, run together into one.
  lemma Merged(cs: seq<TraceCommand>, name: seq<byte> -> bool) returns (ds: seq<TraceCommand>)
    requires |cs| >= 2 && Named(cs, name)
    ensures Named(ds, name) && Serialise(ds) == Serialise(cs) && |ds| == |cs| - 1
  {
    var x, y, rest := cs[0], cs[1], cs[2..];
    var both := TraceCommand(x.name, x.payload + [0xFF] + y.name + [0] + y.payload);
    ds := [both] + rest;
    assert ds[1..] == rest && cs[1..] == [y] + rest && cs[1..][1..] == rest;
    RecordTorn(x.name, x.payload, y.name, y.payload);
    assert Record(x) + (Record(y) + Serialise(rest)) == Record(x) + Record(y) + Serialise(rest);
    assert forall c :: c in ds ==> c == both || c in cs;
    assert x in cs;
  }

  // One command read as two.
  lemma Torn(c: TraceCommand, name: seq<byte> -> bool) returns (ds: seq<TraceCommand>)
    requires SpellsRecord(c.payload, name) && name(c.name)
    ensures Named(ds, name) && Serialise(ds) == Serialise([c]) && |ds| == 2
  {
    var p := c.payload;
    var i: nat, j: nat :| SpellsAt(p, i, j, name);
    var x, y := TraceCommand(c.name, p[..i]), TraceCommand(p[i + 1..j], p[j + 1..]);
    ds := [x, y];
    CutTwice(p, i, j);
    RecordTorn(c.name, p[..i], p[i + 1..j], p[j + 1..]);
    SerialiseShort(c, x, y);
  }

  lemma CutTwice(p: seq<byte>, i: nat, j: nat)
    requires i < j < |p|
    ensures p == p[..i] + [p[i]] + p[i + 1..j] + [p[j]] + p[j + 1..]
  {
  }

  lemma SerialiseShort(c: TraceCommand, x: TraceCommand, y: TraceCommand)
    ensures Serialise([c]) == Record(c) && Serialise([x, y]) == Record(x) + Record(y)
  {
    assert [c][1..] == [] && [x, y][1..] == [y] && [y][1..] == [];
    assert Record(c) + [] == Record(c) && Record(y) + [] == Record(y);
  }

  // One command with its name cut elsewhere.
  lemma Recut(c: TraceCommand, name: seq<byte> -> bool) returns (ds: seq<TraceCommand>)
    requires NameIsUnclear(c, name)
    ensures Named(ds, name) && Serialise(ds) == Serialise([c]) && |ds| == 1 && ds[0] != c
  {
    var t := Record(c);
    var z: nat :| z != |c.name| && NameEndsAt(t, z, name);
    var d := TraceCommand(t[..z], t[z + 1..|t| - 1]);
    ds := [d];
    assert t[|t| - 1] == 0xFF;
    assert Record(d) == t;
    assert ds[1..] == [] && [c][1..] == [];
  }

  lemma OnlyReading(c: TraceCommand, ds: seq<TraceCommand>, name: seq<byte> -> bool)
    requires Named(ds, name) && Serialise(ds) == Serialise([c])
    ensures ds == [c] || SpellsRecord(c.payload, name) || NameIsUnclear(c, name)
  {
    assert [c][1..] == [];
    assert Serialise([c]) == Record(c) + [] == Record(c);
    var d, rest := ds[0], ds[1..];
    assert d in ds;
    var t, z := Record(c), |d.name|;
    var q := d.payload + [0xFF] + Serialise(rest);
    assert t == d.name + [0] + q;
    if z != |c.name| {
      assert t[..z] == d.name;
      assert NameEndsAt(t, z, name);
    } else {
      SameName(c, d.name, q);
      if rest == [] {
        assert c.payload == (c.payload + [0xFF])[..|c.payload|] && d.payload == q[..|d.payload|];
        assert ds == [d];
      } else {
        SecondRecord(c.payload, d.payload, rest, name);
      }
    }
  }

  lemma SameName(c: TraceCommand, n: seq<byte>, q: seq<byte>)
    requires Record(c) == n + [0] + q && |n| == |c.name|
    ensures n == c.name && q == c.payload + [0xFF]
  {
    var t := Record(c);
    assert n == t[..|n|] && c.name == t[..|n|];
    assert q == t[|n| + 1..] && c.payload + [0xFF] == t[|n| + 1..];
  }

  lemma SecondRecord(p: seq<byte>, d: seq<byte>, rest: seq<TraceCommand>, name: seq<byte> -> bool)
    requires rest != [] && p + [0xFF] == d + [0xFF] + Serialise(rest) && name(rest[0].name)
    ensures SpellsRecord(p, name)
  {
    SerialiseHead(rest);
    Associates(d, [0xFF], Serialise(rest));
    Spelled(p + [0xFF], p, d, rest[0].name, Tail(rest), name);
  }

  lemma Spelled(s: seq<byte>, p: seq<byte>, d: seq<byte>, w: seq<byte>, tail: seq<byte>, name: seq<byte> -> bool)
    requires s == p + [0xFF] && s == d + ([0xFF] + (w + ([0] + tail))) && |tail| >= 1 && name(w)
    ensures SpellsRecord(p, name)
  {
    var i, j := |d|, |d| + 1 + |w|;
    assert SpellsAt(p, i, j, name) by {
      Laid(s, d, w, tail);
      Inside(p, s, i, j);
    }
  }

  /** The hashed text after the first name and its NUL. */
  function Tail(cs: seq<TraceCommand>): (t: seq<byte>)
    requires cs != []
    ensures |t| >= 1
  {
    cs[0].payload + [0xFF] + Serialise(cs[1..])
  }

  lemma SerialiseHead(cs: seq<TraceCommand>)
    requires cs != []
    ensures Serialise(cs) == cs[0].name + ([0] + Tail(cs))
  {
    var n, p, s := cs[0].name, cs[0].payload, Serialise(cs[1..]);
    assert n + [0] + p + [0xFF] + s == n + ([0] + (p + [0xFF] + s));
  }

  lemma Associates(a: seq<byte>, b: seq<byte>, c: seq<byte>)
    ensures a + b + c == a + (b + c)
  {
  }

  lemma Laid(s: seq<byte>, d: seq<byte>, w: seq<byte>, tail: seq<byte>)
    requires s == d + ([0xFF] + (w + ([0] + tail)))
    ensures var i, j := |d|, |d| + 1 + |w|;
            && |s| == j + 1 + |tail| && s[i] == 0xFF && s[j] == 0 && s[i + 1..j] == w
  {
  }

  lemma Inside(p: seq<byte>, s: seq<byte>, i: nat, j: nat)
    requires s == p + [0xFF] && i < j < |p|
    ensures p[i] == s[i] && p[j] == s[j] && p[i + 1..j] == s[i + 1..j]
  {
  }
}

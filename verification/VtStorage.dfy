/** The portable `VTP1` blob in which a stored Virtual Terminal object pool is kept. */
module VtStorage {
  import opened Can

  const HEADER_LEN: nat := 27
  const MAX_STORED_POOL_BYTES: nat := 16 * 1024 * 1024
  const MAGIC: seq<byte> := [0x56, 0x54, 0x50, 0x31]

  type u16 = n: nat | n < 0x1_0000
  type u32 = n: nat | n < 0x1_0000_0000
  type u64 = n: nat | n < 0x1_0000_0000_0000_0000

  /** `tag` is the text's UTF-8 bytes; every label the format accepts is plain ASCII. */
  datatype StoredPoolVersion = StoredPoolVersion(
    tag: seq<byte>,
    pool: seq<byte>,
    timestamp: u64,
    size: u32,
    version: u16,
    objectCount: byte)

  // ----- little-endian numbers

  function ToLe(n: nat, width: nat): (r: seq<byte>)
    ensures |r| == width
  {
    if width == 0 then [] else [n % 256] + ToLe(n / 256, width - 1)
  }

  function FromLe(bytes: seq<byte>): nat {
    if bytes == [] then 0 else bytes[0] as int + 256 * FromLe(bytes[1..])
  }

  function Pow256(width: nat): nat {
    if width == 0 then 1 else 256 * Pow256(width - 1)
  }

  lemma {:induction false} LeRoundTrip(n: nat, width: nat)
    requires n < Pow256(width)
    ensures FromLe(ToLe(n, width)) == n
    decreases width
  {
    if width > 0 {
      LeRoundTrip(n / 256, width - 1);
    }
  }

  lemma {:induction false} LeCanonical(bytes: seq<byte>)
    ensures FromLe(bytes) < Pow256(|bytes|) && ToLe(FromLe(bytes), |bytes|) == bytes
  {
    if bytes != [] {
      LeCanonical(bytes[1..]);
      assert FromLe(bytes) / 256 == FromLe(bytes[1..]) && FromLe(bytes) % 256 == bytes[0];
    }
  }

  lemma Pow256Values()
    ensures Pow256(2) == 0x1_0000 && Pow256(4) == 0x1_0000_0000 && Pow256(8) == 0x1_0000_0000_0000_0000
  {
    assert Pow256(3) == 0x100_0000;
    assert Pow256(5) == 0x100_0000_0000;
    assert Pow256(6) == 0x1_0000_0000_0000;
    assert Pow256(7) == 0x100_0000_0000_0000;
  }

  // ----- labels

  predicate LabelByte(b: byte) {
    // '!'..='~' without / \ : * ? " < > |
    0x21 <= b <= 0x7E && b !in {0x2F, 0x5C, 0x3A, 0x2A, 0x3F, 0x22, 0x3C, 0x3E, 0x7C}
  }

  predicate ValidClassicLabel(tag: seq<byte>) {
    && 1 <= |tag| <= 7
    && tag != [0x2E] && tag != [0x2E, 0x2E]
    && forall i :: 0 <= i < |tag| ==> LabelByte(tag[i])
  }

  function Zeros(n: nat): (r: seq<byte>)
    ensures |r| == n && forall i :: 0 <= i < n ==> r[i] == 0
  {
    seq<byte>(n, _ => 0)
  }

  /** Up to the first NUL; everything from there on must be NUL too. */
  function DecodeLabel(field: seq<byte>): Option<seq<byte>> {
    var n := FirstZero(field);
    if (exists i :: n <= i < |field| && field[i] != 0) || !ValidClassicLabel(field[..n]) then None
    else Some(field[..n])
  }

  function FirstZero(field: seq<byte>): (n: nat)
    ensures n <= |field| && (n < |field| ==> field[n] == 0) && forall i :: 0 <= i < n ==> field[i] != 0
  {
    if field == [] || field[0] == 0 then 0
    else
      var n := FirstZero(field[1..]);
      assert forall i :: 1 <= i < |field| ==> field[i] == field[1..][i - 1];
      n + 1
  }

  lemma LabelRoundTrip(tag: seq<byte>)
    requires ValidClassicLabel(tag)
    ensures DecodeLabel(tag + Zeros(8 - |tag|)) == Some(tag)
  {
    var field := tag + Zeros(8 - |tag|);
    assert forall i :: 0 <= i < |tag| ==> field[i] == tag[i] && LabelByte(tag[i]);
    assert field[|tag|] == 0;
    assert FirstZero(field) == |tag|;
    assert field[..|tag|] == tag;
  }

  lemma LabelCanonical(field: seq<byte>)
    requires |field| == 8 && DecodeLabel(field).Some?
    ensures var tag := DecodeLabel(field).value; ValidClassicLabel(tag) && field == tag + Zeros(8 - |tag|)
  {
  }

  // ----- the blob

  predicate Storable(v: StoredPoolVersion) {
    ValidClassicLabel(v.tag) && |v.pool| <= MAX_STORED_POOL_BYTES && |v.pool| == v.size
  }

  function Layout(v: StoredPoolVersion): (r: seq<byte>)
    requires Storable(v)
    ensures |r| == HEADER_LEN + |v.pool|
  {
    MAGIC + ToLe(v.timestamp, 8) + ToLe(v.size, 4) + ToLe(v.version, 2) + [v.objectCount]
    + (v.tag + Zeros(8 - |v.tag|)) + v.pool
  }

  function Encode(v: StoredPoolVersion): Option<seq<byte>> {
    if Storable(v) then Some(Layout(v)) else None
  }

  /** `to_storage_bytes`: append field by field, copying the label into a zeroed eight-byte buffer. */
  method ToStorageBytes(v: StoredPoolVersion) returns (r: Option<seq<byte>>)
    ensures r == Encode(v)
  {
    if !ValidClassicLabel(v.tag) || |v.pool| > MAX_STORED_POOL_BYTES || |v.pool| != v.size {
      return None;
    }
    var buf := MAGIC;
    buf := buf + ToLe(v.timestamp, 8);
    buf := buf + ToLe(v.size, 4);
    buf := buf + ToLe(v.version, 2);
    buf := buf + [v.objectCount];
    var tagBuf := new byte[8](_ => 0);
    for i := 0 to |v.tag|
      invariant forall k :: 0 <= k < 8 ==> tagBuf[k] == if k < i then v.tag[k] else 0
    {
      tagBuf[i] := v.tag[i];
    }
    assert tagBuf[..] == v.tag + Zeros(8 - |v.tag|);
    buf := buf + tagBuf[..];
    buf := buf + v.pool;
    r := Some(buf);
  }

  /** `from_storage_bytes`. */
  function Decode(bytes: seq<byte>): Option<StoredPoolVersion> {
    if |bytes| < HEADER_LEN || bytes[..4] != MAGIC then None
    else
      LeCanonical(bytes[4..12]);
      LeCanonical(bytes[12..16]);
      LeCanonical(bytes[16..18]);
      Pow256Values();
      var size := FromLe(bytes[12..16]);
      if size > MAX_STORED_POOL_BYTES || |bytes| != HEADER_LEN + size then None
      else match DecodeLabel(bytes[19..27])
           case None => None
           case Some(tag) =>
             Some(StoredPoolVersion(tag, bytes[27..], FromLe(bytes[4..12]), size, FromLe(bytes[16..18]), bytes[18]))
  }

  lemma LayoutFields(v: StoredPoolVersion)
    requires Storable(v)
    ensures var b := Layout(v);
            && b[..4] == MAGIC && b[4..12] == ToLe(v.timestamp, 8) && b[12..16] == ToLe(v.size, 4)
            && b[16..18] == ToLe(v.version, 2) && b[18] == v.objectCount
            && b[19..27] == v.tag + Zeros(8 - |v.tag|) && b[27..] == v.pool
  {
  }

  lemma FieldsRead(v: StoredPoolVersion, b: seq<byte>)
    requires Storable(v) && |b| == HEADER_LEN + |v.pool|
    requires b[..4] == MAGIC && b[4..12] == ToLe(v.timestamp, 8) && b[12..16] == ToLe(v.size, 4)
    requires b[16..18] == ToLe(v.version, 2) && b[18] == v.objectCount
    requires b[19..27] == v.tag + Zeros(8 - |v.tag|) && b[27..] == v.pool
    ensures Decode(b) == Some(v)
  {
    Pow256Values();
    LeRoundTrip(v.timestamp, 8);
    LeRoundTrip(v.size, 4);
    LeRoundTrip(v.version, 2);
    LabelRoundTrip(v.tag);
  }

  lemma EncodeThenDecode(v: StoredPoolVersion)
    requires Storable(v)
    ensures Decode(Layout(v)) == Some(v)
  {
    LayoutFields(v);
    FieldsRead(v, Layout(v));
  }

  lemma HeaderCut(bytes: seq<byte>)
    requires |bytes| >= HEADER_LEN
    ensures bytes == bytes[..4] + bytes[4..12] + bytes[12..16] + bytes[16..18] + [bytes[18]] + bytes[19..27]
            + bytes[27..]
  {
  }

  lemma DecodeThenEncode(bytes: seq<byte>, v: StoredPoolVersion)
    requires Decode(bytes) == Some(v)
    ensures Encode(v) == Some(bytes)
  {
    LeCanonical(bytes[4..12]);
    LeCanonical(bytes[12..16]);
    LeCanonical(bytes[16..18]);
    LabelCanonical(bytes[19..27]);
    HeaderCut(bytes);
  }

  // MAIN RESULT. The codec is a bijection between storable records and readable blobs.
  lemma CodecIsBijective(v: StoredPoolVersion, bytes: seq<byte>)
    ensures Encode(v) == Some(bytes) <==> Decode(bytes) == Some(v)
  {
    if Encode(v) == Some(bytes) {
      EncodeThenDecode(v);
    }
    if Decode(bytes) == Some(v) {
      DecodeThenEncode(bytes, v);
    }
  }

  // ----- the blob, byte by byte

  lemma TwoBytes(b: seq<byte>)
    requires |b| == 2
    ensures FromLe(b) == b[0] as int + 0x100 * (b[1] as int)
  {
    assert FromLe(b[1..]) == b[1] as int + 256 * FromLe(b[1..][1..]);
  }

  lemma FourBytes(b: seq<byte>)
    requires |b| == 4
    ensures FromLe(b)
         == b[0] as int + 0x100 * (b[1] as int) + 0x1_0000 * (b[2] as int) + 0x100_0000 * (b[3] as int)
  {
    assert b[1..][1..] == b[2..];
    assert FromLe(b[1..]) == b[1] as int + 256 * FromLe(b[2..]);
    TwoBytes(b[2..]);
  }

  lemma EightBytes(b: seq<byte>)
    requires |b| == 8
    ensures FromLe(b)
         == b[0] as int + 0x100 * (b[1] as int) + 0x1_0000 * (b[2] as int) + 0x100_0000 * (b[3] as int)
            + 0x1_0000_0000 * (b[4] as int) + 0x100_0000_0000 * (b[5] as int) + 0x1_0000_0000_0000 * (b[6] as int)
            + 0x100_0000_0000_0000 * (b[7] as int)
  {
    assert b[1..][1..] == b[2..] && b[2..][1..] == b[3..] && b[3..][1..] == b[4..];
    assert FromLe(b[1..]) == b[1] as int + 256 * FromLe(b[2..]);
    assert FromLe(b[2..]) == b[2] as int + 256 * FromLe(b[3..]);
    assert FromLe(b[3..]) == b[3] as int + 256 * FromLe(b[4..]);
    FourBytes(b[4..]);
  }

  /** One to seven visible characters, none of the nine a file name cannot hold, and not a directory's own name. */
  predicate IsLabelText(t: seq<byte>) {
    && 1 <= |t| <= 7
    && (forall i :: 0 <= i < |t| ==>
          0x21 <= t[i] <= 0x7E && t[i] != 0x2F && t[i] != 0x5C && t[i] != 0x3A && t[i] != 0x2A && t[i] != 0x3F
          && t[i] != 0x22 && t[i] != 0x3C && t[i] != 0x3E && t[i] != 0x7C)
    && !(|t| == 1 && t[0] == 0x2E) && !(|t| == 2 && t[0] == 0x2E && t[1] == 0x2E)
  }

  /** What the bytes of a blob that holds `v` are. */
  ghost predicate IsBlobOf(b: seq<byte>, v: StoredPoolVersion) {
    && |b| >= 27
    && b[0] == 0x56 && b[1] == 0x54 && b[2] == 0x50 && b[3] == 0x31
    && v.timestamp
       == b[4] as int + 0x100 * (b[5] as int) + 0x1_0000 * (b[6] as int) + 0x100_0000 * (b[7] as int)
          + 0x1_0000_0000 * (b[8] as int) + 0x100_0000_0000 * (b[9] as int) + 0x1_0000_0000_0000 * (b[10] as int)
          + 0x100_0000_0000_0000 * (b[11] as int)
    && v.size == b[12] as int + 0x100 * (b[13] as int) + 0x1_0000 * (b[14] as int) + 0x100_0000 * (b[15] as int)
    && v.size <= 16777216 && |b| == 27 + v.size
    && v.version == b[16] as int + 0x100 * (b[17] as int)
    && v.objectCount == b[18]
    && IsLabelText(v.tag)
    && (forall i :: 19 <= i < 27 ==> b[i] == if i < 19 + |v.tag| then v.tag[i - 19] else 0)
    && v.pool == b[27..]
  }

  lemma LabelIsText(t: seq<byte>)
    ensures ValidClassicLabel(t) <==> IsLabelText(t)
  {
  }

  lemma Numbers(b: seq<byte>)
    requires |b| >= 27
    ensures FromLe(b[4..12])
         == b[4] as int + 0x100 * (b[5] as int) + 0x1_0000 * (b[6] as int) + 0x100_0000 * (b[7] as int)
            + 0x1_0000_0000 * (b[8] as int) + 0x100_0000_0000 * (b[9] as int) + 0x1_0000_0000_0000 * (b[10] as int)
            + 0x100_0000_0000_0000 * (b[11] as int)
    ensures FromLe(b[12..16])
         == b[12] as int + 0x100 * (b[13] as int) + 0x1_0000 * (b[14] as int) + 0x100_0000 * (b[15] as int)
    ensures FromLe(b[16..18]) == b[16] as int + 0x100 * (b[17] as int)
  {
    EightBytes(b[4..12]);
    FourBytes(b[12..16]);
    TwoBytes(b[16..18]);
  }

  lemma LabelField(b: seq<byte>, tag: seq<byte>)
    requires |b| >= 27
    ensures DecodeLabel(b[19..27]) == Some(tag) <==>
            IsLabelText(tag) && forall i :: 19 <= i < 27 ==> b[i] == if i < 19 + |tag| then tag[i - 19] else 0
  {
    var field := b[19..27];
    LabelIsText(tag);
    if DecodeLabel(field) == Some(tag) {
      LabelCanonical(field);
      forall i | 19 <= i < 27
        ensures b[i] == if i < 19 + |tag| then tag[i - 19] else 0
      {
        assert b[i] == field[i - 19];
      }
    }
    if IsLabelText(tag) && forall i :: 19 <= i < 27 ==> b[i] == if i < 19 + |tag| then tag[i - 19] else 0 {
      assert field == tag + Zeros(8 - |tag|);
      LabelRoundTrip(tag);
    }
  }

  // MAIN RESULT. A blob is read as `v` exactly when its bytes are those of `v`, one by one.
  lemma ReadIffBlobOf(b: seq<byte>, v: StoredPoolVersion)
    ensures Decode(b) == Some(v) <==> IsBlobOf(b, v)
  {
    if |b| >= 27 {
      Numbers(b);
      LabelField(b, v.tag);
      assert b[..4] == MAGIC <==> b[0] == 0x56 && b[1] == 0x54 && b[2] == 0x50 && b[3] == 0x31;
    }
  }

  /** The label field: some text, then NULs to its end, so that byte 26 is always NUL. */
  ghost predicate HoldsLabel(b: seq<byte>, n: nat)
    requires |b| >= 27
  {
    n <= 7 && IsLabelText(b[19..19 + n]) && forall i :: 19 + n <= i < 27 ==> b[i] == 0
  }

  // MAIN RESULT. Which blobs are read at all.
  lemma ReadableIff(b: seq<byte>)
    ensures Decode(b).Some? <==>
            && |b| >= 27
            && b[0] == 0x56 && b[1] == 0x54 && b[2] == 0x50 && b[3] == 0x31
            && (exists n: nat :: HoldsLabel(b, n))
            && var size := b[12] as int + 0x100 * (b[13] as int) + 0x1_0000 * (b[14] as int)
                           + 0x100_0000 * (b[15] as int);
               size <= 16777216 && |b| == 27 + size
  {
    if |b| >= 27 {
      Numbers(b);
      assert b[..4] == MAGIC <==> b[0] == 0x56 && b[1] == 0x54 && b[2] == 0x50 && b[3] == 0x31;
      LabelThere(b);
    }
  }

  lemma LabelThere(b: seq<byte>)
    requires |b| >= 27
    ensures DecodeLabel(b[19..27]).Some? <==> exists n: nat :: HoldsLabel(b, n)
  {
    if DecodeLabel(b[19..27]).Some? {
      var tag := DecodeLabel(b[19..27]).value;
      LabelField(b, tag);
      assert b[19..19 + |tag|] == tag;
      assert HoldsLabel(b, |tag|);
    }
    if exists n: nat :: HoldsLabel(b, n) {
      var n: nat :| HoldsLabel(b, n);
      LabelField(b, b[19..19 + n]);
    }
  }

  // MAIN RESULT. Which records are stored, and as what bytes.
  lemma StoredIff(v: StoredPoolVersion, b: seq<byte>)
    ensures Encode(v) == Some(b) <==> IsBlobOf(b, v)
    ensures Encode(v).Some? <==> IsLabelText(v.tag) && |v.pool| <= 16777216 && |v.pool| == v.size
  {
    CodecIsBijective(v, b);
    ReadIffBlobOf(b, v);
    LabelIsText(v.tag);
  }

  // ----- refreshing the metadata

  /** `update_metadata_at`, field by field as the record is updated in place. */
  function UpdateMetadata(v: StoredPoolVersion, version: u16, timestamp: u64): StoredPoolVersion {
    v.(size := if |v.pool| < 0x1_0000_0000 then |v.pool| else 0xFFFF_FFFF,
       version := version,
       objectCount := if |v.pool| >= 2 then v.pool[0] else v.objectCount,
       timestamp := timestamp)
  }

  // A refresh leaves label and pool alone; the size is the pool's own, up to the largest 32-bit number, and the object
  // count is its first byte unless there are fewer than two.
  lemma RefreshedFields(v: StoredPoolVersion, version: u16, timestamp: u64)
    ensures var r := UpdateMetadata(v, version, timestamp);
            && r.tag == v.tag && r.pool == v.pool && r.version == version && r.timestamp == timestamp
            && (|v.pool| <= 4294967295 ==> r.size == |v.pool|) && (|v.pool| > 4294967295 ==> r.size == 4294967295)
            && (|v.pool| >= 2 ==> r.objectCount == v.pool[0]) && (|v.pool| < 2 ==> r.objectCount == v.objectCount)
  {
  }

  // After a refresh a record fails to store only for its label or for a pool over 16 MiB.
  lemma RefreshedIsStorableIff(v: StoredPoolVersion, version: u16, timestamp: u64)
    ensures Encode(UpdateMetadata(v, version, timestamp)).Some? <==>
            ValidClassicLabel(v.tag) && |v.pool| <= MAX_STORED_POOL_BYTES
  {
  }
}

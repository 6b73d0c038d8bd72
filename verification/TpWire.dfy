/** Wire format of the ISO 11783-3 transport protocol: connection management and data frames. */
module TpWire {
  import opened Can

  const PGN_TP_CM: nat := 0xEC00
  const PGN_TP_DT: nat := 0xEB00
  const MAX_PGN: nat := 0x3FFFF

  const RTS: byte := 0x10
  const CTS: byte := 0x11
  const EOMA: byte := 0x13
  const BAM: byte := 0x20
  const ABORT: byte := 0xFF

  const TP_MAX_DATA_LENGTH: nat := 1785
  const TP_MAX_PACKETS_PER_CTS: nat := 16

  const LOWEST_PRIORITY: nat := 7

  datatype AbortReason =
    | AlreadyInSession | ResourcesUnavailable | Timeout | ConnectionModeError
    | MaxRetransmitsExceeded | BadSequence | DuplicateSequence | UnexpectedDataSize
  {
    function Code(): byte {
      match this
      case AlreadyInSession => 1
      case ResourcesUnavailable => 2
      case Timeout => 3
      case ConnectionModeError => 4
      case MaxRetransmitsExceeded => 5
      case BadSequence => 7
      case DuplicateSequence => 8
      case UnexpectedDataSize => 9
    }
  }

  /** Number of data frames a payload of `total` bytes needs. */
  function Packets(total: nat): nat {
    (total + 6) / 7
  }

  predicate PayloadShape(total: nat, packets: nat) {
    8 < total <= TP_MAX_DATA_LENGTH && packets != 0 && packets == Packets(total)
  }

  predicate ValidSource(a: byte) {
    a != NULL_ADDRESS && a != BROADCAST_ADDRESS
  }

  predicate ValidDestination(a: byte) {
    a != NULL_ADDRESS
  }

  // ----- connection management frames

  function CmFrame(src: byte, dst: byte, b0: byte, b1: byte, b2: byte, b3: byte, b4: byte, pgn: nat): Frame {
    Frame(PGN_TP_CM, src, dst, LOWEST_PRIORITY,
          [b0, b1, b2, b3, b4, pgn % 256, pgn / 256 % 256, pgn / 65536 % 256], 8)
  }

  function MakeRts(pgn: nat, total: nat, src: byte, dst: byte, advertised: byte): Frame {
    CmFrame(src, dst, RTS, total % 256, total / 256 % 256, Packets(total) % 256, advertised, pgn)
  }

  function MakeBam(pgn: nat, total: nat, src: byte): Frame {
    CmFrame(src, BROADCAST_ADDRESS, BAM, total % 256, total / 256 % 256, Packets(total) % 256, 0xFF, pgn)
  }

  function MakeCts(src: byte, dst: byte, packets: byte, next: byte, pgn: nat): Frame {
    CmFrame(src, dst, CTS, packets, next, 0xFF, 0xFF, pgn)
  }

  function MakeEoma(src: byte, dst: byte, total: nat, packets: byte, pgn: nat): Frame {
    CmFrame(src, dst, EOMA, total % 256, total / 256 % 256, packets, 0xFF, pgn)
  }

  function MakeAbort(src: byte, dst: byte, pgn: nat, reason: AbortReason): Frame {
    CmFrame(src, dst, ABORT, reason.Code(), 0xFF, 0xFF, 0xFF, pgn)
  }

  /** The PGN being transferred, from the last three bytes of a connection management frame. */
  function CmPgn(d: Data8): nat {
    d[5] as int + 256 * (d[6] as int) + 65536 * (d[7] as int)
  }

  /** The 16-bit message size carried by RTS, BAM and EOMA. */
  function CmSize(d: Data8): nat {
    d[1] as int + 256 * (d[2] as int)
  }

  // Every header field survives the byte encoding.
  lemma HeaderRoundTrip(pgn: nat, total: nat, src: byte, dst: byte, b: byte)
    requires pgn <= MAX_PGN && total <= TP_MAX_DATA_LENGTH
    ensures CmPgn(MakeRts(pgn, total, src, dst, b).data) == pgn
    ensures CmSize(MakeRts(pgn, total, src, dst, b).data) == total
    ensures MakeRts(pgn, total, src, dst, b).data[3] == Packets(total)
    ensures CmPgn(MakeBam(pgn, total, src).data) == pgn
    ensures CmSize(MakeBam(pgn, total, src).data) == total
    ensures MakeBam(pgn, total, src).data[3] == Packets(total)
    ensures CmPgn(MakeEoma(src, dst, total, b, pgn).data) == pgn
    ensures CmSize(MakeEoma(src, dst, total, b, pgn).data) == total
    ensures CmPgn(MakeCts(src, dst, b, b, pgn).data) == pgn
  {
    CmCarries(src, dst, RTS, total % 256, total / 256 % 256, Packets(total) % 256, b, pgn);
    CmCarries(src, BROADCAST_ADDRESS, BAM, total % 256, total / 256 % 256, Packets(total) % 256, 0xFF, pgn);
    CmCarries(src, dst, EOMA, total % 256, total / 256 % 256, b, 0xFF, pgn);
    CmCarries(src, dst, CTS, b, b, 0xFF, 0xFF, pgn);
    SizeBytes(total);
  }

  lemma CmCarries(src: byte, dst: byte, control: byte, b1: byte, b2: byte, b3: byte, b4: byte, pgn: nat)
    requires pgn <= MAX_PGN
    ensures var d := CmFrame(src, dst, control, b1, b2, b3, b4, pgn).data;
            CmPgn(d) == pgn && CmSize(d) == b1 as int + 256 * (b2 as int) && d[3] == b3
  {
    PgnBytes(pgn);
  }

  lemma SizeBytes(total: nat)
    requires total <= TP_MAX_DATA_LENGTH
    ensures total % 256 + 256 * (total / 256 % 256) == total && Packets(total) % 256 == Packets(total)
  {
    assert total / 256 < 256;
  }

  lemma PgnBytes(pgn: nat)
    requires pgn <= MAX_PGN
    ensures pgn % 256 + 256 * (pgn / 256 % 256) + 65536 * (pgn / 65536 % 256) == pgn
  {
    assert pgn / 65536 < 256;
    assert pgn / 256 / 256 == pgn / 65536;
  }

  // ----- data frames

  /** Byte `i` of the padded payload stream. */
  function StreamByte(p: seq<byte>, i: nat): byte {
    if i < |p| then p[i] else 0xFF
  }

  /** Data frame `sequence`, carrying the seven stream bytes that start at `offset`. */
  function MakeDt(src: byte, dst: byte, sequence: byte, p: seq<byte>, offset: nat): Frame {
    var chunk := seq<byte>(7, j requires 0 <= j < 7 => StreamByte(p, offset + j));
    Frame(PGN_TP_DT, src, dst, LOWEST_PRIORITY, [sequence] + chunk, 8)
  }

  /** Storing the seven bytes of a data frame at `offset`, dropping whatever lies past the end. */
  function Ingest(data: seq<byte>, offset: nat, d: Data8): (r: seq<byte>)
    ensures |r| == |data|
  {
    seq<byte>(|data|, i requires 0 <= i < |data| => if offset <= i < offset + 7 then d[i - offset + 1] else data[i])
  }

  // Ingesting the data frame that continues a correct prefix gives a longer correct prefix.
  lemma IngestExtends(data: seq<byte>, p: seq<byte>, offset: nat, src: byte, dst: byte, sequence: byte)
    requires |data| == |p| && offset <= |p|
    requires data[..offset] == p[..offset]
    ensures var n := Min(offset + 7, |p|);
            Ingest(data, offset, MakeDt(src, dst, sequence, p, offset).data)[..n] == p[..n]
  {
    var n := Min(offset + 7, |p|);
    var d := MakeDt(src, dst, sequence, p, offset).data;
    var r := Ingest(data, offset, d);
    forall i | 0 <= i < n
      ensures r[i] == p[i]
    {
      if i < offset {
        assert data[..offset][i] == p[..offset][i];
      } else {
        assert d[i - offset + 1] == StreamByte(p, offset + (i - offset));
      }
    }
  }
}

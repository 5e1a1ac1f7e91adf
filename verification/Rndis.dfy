/** The REMOTE_NDIS_PACKET_MSG format (section 2.2.14 of MS-RNDIS) as rndis.c builds and parses it. */
module Rndis {
  import opened Bytes
  import opened Options

  const PACKET_MSG := 1
  const HEADER_SIZE := 44
  const RNDIS_BUF_SIZE := 32768

  /** The header that precedes a payload of n bytes. Both lengths are truncated to uint32_t. */
  function DataHeader(n: nat): (h: seq<byte>)
    ensures |h| == HEADER_SIZE
  {
    ToLe32(PACKET_MSG) + ToLe32(U32(HEADER_SIZE + n)) + ToLe32(36) + ToLe32(U32(n)) + Zeros(28)
  }

  function DataPacket(frame: seq<byte>): seq<byte> {
    DataHeader(|frame|) + frame
  }

  /** C's conversion of a size_t to int on a two's complement host. */
  function ToInt(x: nat): int {
    var w := U32(x);
    if w < TWO31 then w else w - TWO32
  }

  method WriteHeader(buf: array<byte>, total: nat, n: nat)
    requires buf.Length >= total == HEADER_SIZE + n
    modifies buf
    ensures buf[..] == Splice(old(buf[..]), 0, DataHeader(n))
  {
    hide Le32, ToLe32, Splice;
    ghost var start := buf[..];
    SpliceNothing(start);
    Put(buf, 0, Zeros(HEADER_SIZE));
    ghost var cleared, done := buf[..], [];
    SpliceNothing(cleared);
    done := Append(buf, cleared, done, 0, ToLe32(PACKET_MSG));
    done := Append(buf, cleared, done, 4, ToLe32(U32(total)));
    done := Append(buf, cleared, done, 8, ToLe32(36));
    done := Append(buf, cleared, done, 12, ToLe32(U32(n)));
    SpliceIntoZeros(start, HEADER_SIZE, done);
    assert done + Zeros(28) == DataHeader(n);
  }

  method BuildDataPacket(buf: array<byte>, eth: seq<byte>) returns (ret: int)
    modifies buf
    ensures buf.Length < |DataPacket(eth)| ==> ret == -1 && buf[..] == old(buf[..])
    ensures buf.Length >= |DataPacket(eth)| ==>
              && ret == ToInt(|DataPacket(eth)|)
              && buf[..] == Splice(old(buf[..]), 0, DataPacket(eth))
  {
    var total := HEADER_SIZE + |eth|;
    if buf.Length < total {
      return -1;
    }
    hide Le32, ToLe32, Splice, DataHeader;
    ghost var start := buf[..];
    WriteHeader(buf, total, |eth|);
    ghost var done := Append(buf, start, DataHeader(|eth|), HEADER_SIZE, eth);
    return ToInt(total);
  }

  datatype Slice = Rejected | Slice(start: nat, len: nat)

  function FieldAt(msg: seq<byte>, off: nat): (v: nat)
    requires off + 4 <= |msg|
    ensures v < TWO32
  {
    Le32(msg[off..off + 4])
  }

  /** rndis_parse_data_packet, told that there are len bytes from the first of h on. It reads only
      the first 16 of them. The sum 8 + data_offset is a uint32_t sum and may wrap; the comparison
      that follows is made in size_t and cannot. */
  function ParseAs(h: seq<byte>, len: nat): (r: Slice)
    requires |h| >= 16
    ensures r.Slice? ==> 0 < r.len && r.start + r.len <= len
  {
    if len < HEADER_SIZE then Rejected
    else if FieldAt(h, 0) != PACKET_MSG then Rejected
    else
      var offset, n := FieldAt(h, 8), FieldAt(h, 12);
      var start := U32(8 + offset);
      if n == 0 || start + n > len then Rejected else Slice(start, n)
  }

  /** The parser on the bytes of one message. */
  function ParseData(msg: seq<byte>): (r: Slice)
    ensures r.Slice? ==> 0 < r.len && r.start + r.len <= |msg|
  {
    if |msg| < HEADER_SIZE then Rejected else ParseAs(msg, |msg|)
  }

  /** What the format promises: the payload lies data_offset bytes after the data_offset field,
      wherever that is, and the message carries no payload when that is outside it. */
  function Payload(msg: seq<byte>): Option<seq<byte>> {
    if |msg| < HEADER_SIZE || FieldAt(msg, 0) != PACKET_MSG then None
    else
      var offset, len := FieldAt(msg, 8), FieldAt(msg, 12);
      if len == 0 || 8 + offset + len > |msg| then None
      else Some(msg[8 + offset..8 + offset + len])
  }

  /** The frame the parser hands out. */
  function Parsed(msg: seq<byte>): (r: Option<seq<byte>>)
    ensures r.Some? ==> r.value != []
  {
    match ParseData(msg)
    case Rejected => None
    case Slice(start, len) => Some(msg[start..start + len])
  }

  /** The header fields for which the 32-bit sum lands back inside the message. */
  predicate OffsetWraps(msg: seq<byte>) {
    && |msg| >= HEADER_SIZE
    && FieldAt(msg, 0) == PACKET_MSG
    && FieldAt(msg, 8) >= TWO32 - 8
    && 0 < FieldAt(msg, 12) <= |msg| - (FieldAt(msg, 8) + 8 - TWO32)
  }

  /** The parser meets the format on every message of less than 2^32 bytes except those whose
      payload offset wraps, and there it hands out a slice that begins inside the first 8 bytes. */
  lemma ParserMeetsFormat(msg: seq<byte>)
    requires |msg| < TWO32
    ensures Parsed(msg) == Payload(msg) <==> !OffsetWraps(msg)
    ensures OffsetWraps(msg) ==> ParseData(msg).Slice? && ParseData(msg).start < 8 && Payload(msg) == None
  {
    if |msg| >= HEADER_SIZE {
      var offset := FieldAt(msg, 8);
      if offset >= TWO32 - 8 {
        assert U32(8 + offset) == 8 + offset - TWO32;
      } else {
        assert U32(8 + offset) == 8 + offset;
      }
    }
  }

  /** Such a message, of 44 bytes, whose payload seems to be its own first byte. */
  lemma WrappingOffset()
    ensures exists msg: seq<byte> :: |msg| == HEADER_SIZE && OffsetWraps(msg) && Parsed(msg) == Some([1])
  {
    hide Le32, ToLe32;
    var msg := ToLe32(PACKET_MSG) + ToLe32(HEADER_SIZE) + ToLe32(TWO32 - 8) + ToLe32(1) + Zeros(28);
    assert msg[0..4] == ToLe32(PACKET_MSG) && msg[8..12] == ToLe32(TWO32 - 8) && msg[12..16] == ToLe32(1);
    assert U32(8 + FieldAt(msg, 8)) == 0;
    assert msg[0] == ToLe32(PACKET_MSG)[0] == 1 by { FirstByte(); }
    assert Parsed(msg) == Some(msg[0..1]) && msg[0..1] == [1];
  }

  lemma FirstByte()
    ensures ToLe32(PACKET_MSG)[0] == 1
  {
  }

  lemma DataHeaderFields(n: nat)
    ensures DataHeader(n)[0..4] == ToLe32(PACKET_MSG)
    ensures DataHeader(n)[4..8] == ToLe32(U32(HEADER_SIZE + n))
    ensures DataHeader(n)[8..12] == ToLe32(36)
    ensures DataHeader(n)[12..16] == ToLe32(U32(n))
  {
  }

  lemma DataPacketFields(frame: seq<byte>)
    ensures var p := DataPacket(frame);
      && FieldAt(p, 0) == PACKET_MSG
      && FieldAt(p, 4) == U32(HEADER_SIZE + |frame|)
      && FieldAt(p, 8) == 36
      && FieldAt(p, 12) == U32(|frame|)
  {
    DataHeaderFields(|frame|);
    var p, h := DataPacket(frame), DataHeader(|frame|);
    assert p[0..4] == h[0..4] && p[4..8] == h[4..8] && p[8..12] == h[8..12] && p[12..16] == h[12..16];
  }

  /** A built packet in bytes: type 1, length, payload 36 bytes behind the third field, its length,
      and nothing in the other seven fields. */
  lemma DataPacketBytes(frame: seq<byte>)
    requires 44 + |frame| < 0x100_0000
    ensures
      var n, m := |frame|, 44 + |frame|;
      DataPacket(frame) ==
      [1, 0, 0, 0] + [m % 256, m / 256 % 256, m / 65536, 0] + [36, 0, 0, 0] + [n % 256, n / 256 % 256, n / 65536, 0]
      + Zeros(28) + frame
  {
    LittleEndian(44 + |frame|);
    LittleEndian(|frame|);
    assert ToLe32(1) == [1, 0, 0, 0] && ToLe32(36) == [36, 0, 0, 0];
  }

  lemma LittleEndian(v: nat)
    requires v < 0x100_0000
    ensures ToLe32(v) == [v % 256, v / 256 % 256, v / 65536, 0]
  {
    assert v / 256 / 256 == v / 65536;
  }

  /** Parsing undoes building for every frame whose packet length fits the 32-bit length field,
      save the empty frame, which encodes but is never handed out. */
  lemma ParseUndoesBuild(frame: seq<byte>)
    requires HEADER_SIZE + |frame| < TWO32
    ensures Parsed(DataPacket(frame)) == if frame == [] then None else Some(frame)
  {
    DataPacketFields(frame);
    assert frame != [] ==> DataPacket(frame)[HEADER_SIZE..HEADER_SIZE + |frame|] == frame;
  }
}

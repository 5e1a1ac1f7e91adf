/** The DHCP requests that dhcp.c builds: Ethernet, IPv4 (section 3.1 of RFC 791), UDP and DHCP
    (section 2 of RFC 2131) headers, then options (section 9 of RFC 2132). */
module DhcpPackets {
  import opened Bytes
  import opened Frame
  import opened Arp
  import opened Checksum
  import opened DhcpOptions

  const IP_HDR := 20
  const UDP_HDR := 8
  const BOOTP_SIZE := 240
  const CLIENT_PORT := 68
  const SERVER_PORT := 67
  const MAGIC := 0x63825363
  const IPPROTO_UDP := 17
  const OPTIONS_AT := ETH_HDR + IP_HDR + UDP_HDR + BOOTP_SIZE
  const MIN_DHCP := 300 - ETH_HDR - IP_HDR - UDP_HDR

  function EthHeader(mac: Mac): (h: seq<byte>)
    ensures |h| == ETH_HDR
  {
    BROADCAST + mac + ToBe16(TYPE_IPV4)
  }

  function IpHeader(total: nat, sum: word): (h: seq<byte>)
    requires total < TWO16
    ensures |h| == IP_HDR
  {
    [0x45, 0] + ToBe16(total) + ([0, 0, 0, 0, 64, IPPROTO_UDP] + (ToBe16(sum) + ([0, 0, 0, 0] + Repeat(0xFF, 4))))
  }

  function UdpHeader(len: nat): (h: seq<byte>)
    requires len < TWO16
    ensures |h| == UDP_HDR
  {
    ToBe16(CLIENT_PORT) + ToBe16(SERVER_PORT) + (ToBe16(len) + [0, 0])
  }

  function Bootp(mac: Mac, xid: nat): (h: seq<byte>)
    requires xid < TWO32
    ensures |h| == BOOTP_SIZE
  {
    [1, 1, 6, 0] + ToBe32(xid) + Zeros(2) + ToBe16(0x8000) + Zeros(16) + mac + Zeros(202) + ToBe32(MAGIC)
  }

  /** The 16-bit words of a header in network byte order. */
  function Words(h: seq<byte>): (w: seq<word>)
    requires |h| % 2 == 0
    ensures |w| == |h| / 2
  {
    seq(|h| / 2, i requires 0 <= i < |h| / 2 => Be16(h[2 * i..2 * i + 2]))
  }

  function HeaderSum(total: nat): word
    requires total < TWO16
  {
    M - Fold(Sum(Words(IpHeader(total, 0))))
  }

  /** The length of the DHCP part, padded to the BOOTP minimum. */
  function DhcpLen(options: seq<byte>): nat {
    if BOOTP_SIZE + |options| < MIN_DHCP then MIN_DHCP else BOOTP_SIZE + |options|
  }

  predicate Fits(options: seq<byte>) {
    IP_HDR + UDP_HDR + DhcpLen(options) < TWO16
  }

  function Message(mac: Mac, xid: nat, options: seq<byte>): (f: seq<byte>)
    requires xid < TWO32 && Fits(options)
    ensures |f| == ETH_HDR + IP_HDR + UDP_HDR + DhcpLen(options)
  {
    var len := DhcpLen(options);
    var total := IP_HDR + UDP_HDR + len;
    EthHeader(mac) + IpHeader(total, HeaderSum(total)) + UdpHeader(UDP_HDR + len)
    + Bootp(mac, xid) + options + Zeros(len - BOOTP_SIZE - |options|)
  }

  const DISCOVER_OPTIONS: seq<byte> := [53, 1, 1] + [55, 3, 1, 3, 6] + [END]

  function RequestOptions(offered: Ip, server: Ip): (o: seq<byte>)
    ensures |o| == 21
  {
    [53, 1, 3] + ([50, 4] + offered) + ([54, 4] + server) + [55, 3, 1, 3, 6] + [END]
  }

  function Discover(mac: Mac, xid: nat): (f: seq<byte>)
    requires xid < TWO32
    ensures |f| == 300
  {
    Message(mac, xid, DISCOVER_OPTIONS)
  }

  function Request(mac: Mac, xid: nat, offered: Ip, server: Ip): (f: seq<byte>)
    requires xid < TWO32
    ensures |f| == 303
  {
    Message(mac, xid, RequestOptions(offered, server))
  }

  // ---- In place ----

  /** The buffer once it is cleared: zeros as far as every message needs them, and whatever was
      behind. */
  predicate Cleared(base: seq<byte>) {
    |base| >= 300 && forall i :: 0 <= i < 300 ==> base[i] == 0
  }

  lemma SkipZeros(base: seq<byte>, done: seq<byte>, k: nat)
    requires Cleared(base) && |done| + k <= 300
    ensures Splice(base, 0, done) == Splice(base, 0, done + Zeros(k))
  {
    assert base[..|done| + k] == base[..|done|] + Zeros(k);
    assert base[|done|..] == Zeros(k) + base[|done| + k..];
  }

  lemma Patch(s: seq<byte>, a: seq<byte>, was: seq<byte>, now: seq<byte>, b: seq<byte>)
    requires |was| == |now| && |a| + |was| + |b| <= |s|
    ensures Splice(Splice(s, 0, a + was + b), |a|, now) == Splice(s, 0, a + now + b)
  {
  }

  lemma SplicedAt(s: seq<byte>, a: seq<byte>, mid: seq<byte>, b: seq<byte>)
    requires |a| + |mid| + |b| <= |s|
    ensures Splice(s, 0, a + mid + b)[|a|..|a| + |mid|] == mid
  {
  }

  /** The header of a message whose lengths and checksum are still zero. */
  function Unsized(mac: Mac, xid: nat): (f: seq<byte>)
    requires xid < TWO32
    ensures |f| == OPTIONS_AT
  {
    EthHeader(mac) + IpHeader(0, 0) + UdpHeader(0) + Bootp(mac, xid)
  }

  /** Writes everything up to the options except lengths and checksum. */
  method WriteFixed(buf: array<byte>, ghost base: seq<byte>, mac: Mac, xid: nat)
    requires Cleared(base) && buf[..] == base && xid < TWO32
    modifies buf
    ensures buf[..] == Splice(base, 0, Unsized(mac, xid))
  {
    hide Splice, ToBe16, ToBe32;
    WriteEthAndIp(buf, base, mac);
    ghost var done := EthHeader(mac) + IpHeader(0, 0);
    done := Append(buf, base, done, 34, ToBe16(CLIENT_PORT));
    done := Append(buf, base, done, 36, ToBe16(SERVER_PORT));
    SkipZeros(base, done, 4);
    done := done + Zeros(4);
    assert done == EthHeader(mac) + IpHeader(0, 0) + UdpHeader(0) by { ZeroBe16(); }
    WriteBootp(buf, base, done, mac, xid);
  }

  lemma ZeroBe16()
    ensures ToBe16(0) == Zeros(2)
  {
  }

  method WriteEthAndIp(buf: array<byte>, ghost base: seq<byte>, mac: Mac)
    requires Cleared(base) && buf[..] == base
    modifies buf
    ensures buf[..] == Splice(base, 0, EthHeader(mac) + IpHeader(0, 0))
  {
    hide Splice, ToBe16;
    SpliceNothing(base);
    ghost var done := [];
    done := Append(buf, base, done, 0, BROADCAST);
    done := Append(buf, base, done, 6, mac);
    done := Append(buf, base, done, 12, ToBe16(TYPE_IPV4));
    assert done == EthHeader(mac);
    done := Append(buf, base, done, 14, [0x45]);
    SkipZeros(base, done, 7);
    done := done + Zeros(7);
    done := Append(buf, base, done, 22, [64]);
    done := Append(buf, base, done, 23, [IPPROTO_UDP]);
    SkipZeros(base, done, 6);
    done := done + Zeros(6);
    done := Append(buf, base, done, 30, Repeat(0xFF, 4));
    ZeroBe16();
    assert [0x45] + Zeros(7) + [64] + [IPPROTO_UDP] + Zeros(6) + Repeat(0xFF, 4) == IpHeader(0, 0);
    assert done == EthHeader(mac) + IpHeader(0, 0);
  }

  method WriteBootp(buf: array<byte>, ghost base: seq<byte>, ghost done0: seq<byte>, mac: Mac, xid: nat)
    requires Cleared(base) && |base| == buf.Length && xid < TWO32 && |done0| == 42
    requires buf[..] == Splice(base, 0, done0)
    modifies buf
    ensures buf[..] == Splice(base, 0, done0 + Bootp(mac, xid))
  {
    hide Splice, ToBe16, ToBe32;
    ghost var done := done0;
    done := Append(buf, base, done, 42, [1, 1, 6]);
    SkipZeros(base, done, 1);
    done := done + Zeros(1);
    done := Append(buf, base, done, 46, ToBe32(xid));
    SkipZeros(base, done, 2);
    done := done + Zeros(2);
    done := Append(buf, base, done, 52, ToBe16(0x8000));
    SkipZeros(base, done, 16);
    done := done + Zeros(16);
    done := Append(buf, base, done, 70, mac);
    SkipZeros(base, done, 202);
    done := done + Zeros(202);
    done := Append(buf, base, done, 278, ToBe32(MAGIC));
    assert done == done0 + ([1, 1, 6] + Zeros(1) + ToBe32(xid) + Zeros(2) + ToBe16(0x8000) + Zeros(16)
                            + mac + Zeros(202) + ToBe32(MAGIC));
    assert [1, 1, 6] + Zeros(1) == [1, 1, 6, 0];
  }

  /** Fills in the lengths and the checksum once the options are written. */
  method Finish(buf: array<byte>, ghost base: seq<byte>, mac: Mac, xid: nat, ghost options: seq<byte>, n: nat)
      returns (ret: int)
    requires xid < TWO32 && Fits(options) && n == BOOTP_SIZE + |options|
    requires Cleared(base) && |base| == buf.Length >= |Message(mac, xid, options)|
    requires buf[..] == Splice(base, 0, Unsized(mac, xid) + options)
    modifies buf
    ensures buf[..] == Splice(base, 0, Message(mac, xid, options))
    ensures ret == |Message(mac, xid, options)|
  {
    hide Splice, ToBe16, ToBe32, Be16, Sum, Fold;
    var dhcpLen := n;
    if dhcpLen < MIN_DHCP {
      dhcpLen := MIN_DHCP;
    }
    ghost var rest := options + Zeros(dhcpLen - n);
    if dhcpLen > n {
      SkipZeros(base, Unsized(mac, xid) + options, dhcpLen - n);
    } else {
      assert Unsized(mac, xid) + options + Zeros(0) == Unsized(mac, xid) + options;
    }
    ghost var eth, boot := EthHeader(mac), Bootp(mac, xid);
    var udpLen, total := UDP_HDR + dhcpLen, IP_HDR + UDP_HDR + dhcpLen;

    ghost var before := eth + IpHeader(0, 0) + (ToBe16(CLIENT_PORT) + ToBe16(SERVER_PORT));
    ZeroBe16();
    assert Unsized(mac, xid) + options + Zeros(dhcpLen - n) == before + ToBe16(0) + ([0, 0] + boot + rest);
    Patch(base, before, ToBe16(0), ToBe16(udpLen), [0, 0] + boot + rest);
    Put(buf, 38, ToBe16(udpLen));

    ghost var after := UdpHeader(udpLen) + boot + rest;
    assert before + ToBe16(udpLen) + ([0, 0] + boot + rest) == eth + IpHeader(0, 0) + after;
    WriteIpLength(buf, base, eth, total, after);
    WriteIpSum(buf, base, eth, total, after);
    assert eth + IpHeader(total, HeaderSum(total)) + after == Message(mac, xid, options);
    return ETH_HDR + IP_HDR + UDP_HDR + dhcpLen;
  }

  method WriteIpLength(buf: array<byte>, ghost base: seq<byte>, ghost eth: seq<byte>, total: nat,
      ghost after: seq<byte>)
    requires |eth| == ETH_HDR && total < TWO16 && ETH_HDR + IP_HDR + |after| <= buf.Length == |base|
    requires buf[..] == Splice(base, 0, eth + IpHeader(0, 0) + after)
    modifies buf
    ensures buf[..] == Splice(base, 0, eth + IpHeader(total, 0) + after)
  {
    hide Splice, ToBe16;
    ghost var tail := [0, 0, 0, 0, 64, IPPROTO_UDP] + (ToBe16(0) + ([0, 0, 0, 0] + Repeat(0xFF, 4)));
    Patch(base, eth + [0x45, 0], ToBe16(0), ToBe16(total), tail + after);
    assert eth + [0x45, 0] + ToBe16(0) + (tail + after) == eth + IpHeader(0, 0) + after;
    Put(buf, 16, ToBe16(total));
    assert eth + [0x45, 0] + ToBe16(total) + (tail + after) == eth + IpHeader(total, 0) + after;
  }

  method WriteIpSum(buf: array<byte>, ghost base: seq<byte>, ghost eth: seq<byte>, total: nat, ghost after: seq<byte>)
    requires |eth| == ETH_HDR && total < TWO16 && ETH_HDR + IP_HDR + |after| <= buf.Length == |base|
    requires buf[..] == Splice(base, 0, eth + IpHeader(total, 0) + after)
    modifies buf
    ensures buf[..] == Splice(base, 0, eth + IpHeader(total, HeaderSum(total)) + after)
  {
    hide Splice, ToBe16, Be16, Sum, Fold;
    SplicedAt(base, eth, IpHeader(total, 0), after);
    assert buf[ETH_HDR..ETH_HDR + IP_HDR] == buf[..][ETH_HDR..ETH_HDR + IP_HDR];
    var check := HeaderChecksum(Words(buf[ETH_HDR..ETH_HDR + IP_HDR]));
    ghost var head := [0x45, 0] + ToBe16(total) + [0, 0, 0, 0, 64, IPPROTO_UDP];
    ghost var tail := [0, 0, 0, 0] + Repeat(0xFF, 4);
    Patch(base, eth + head, ToBe16(0), ToBe16(check), tail + after);
    assert eth + head + ToBe16(0) + (tail + after) == eth + IpHeader(total, 0) + after;
    Put(buf, 24, ToBe16(check));
    assert eth + head + ToBe16(check) + (tail + after) == eth + IpHeader(total, check) + after;
  }

  method BuildDiscover(buf: array<byte>, mac: Mac, xid: nat) returns (ret: int)
    requires xid < TWO32
    modifies buf
    ensures buf.Length < 300 ==> ret == -1 && buf[..] == old(buf[..])
    ensures buf.Length >= 300 ==>
              ret == 300 && buf[..] == Splice(Zeros(buf.Length), 0, Discover(mac, xid))
  {
    hide Splice, Unsized, Message;
    if buf.Length < 300 {
      return -1;
    }
    ghost var was, base := buf[..], Zeros(buf.Length);
    Put(buf, 0, Zeros(buf.Length));
    SpliceAll(was, base);
    WriteFixed(buf, base, mac, xid);
    ghost var done := Unsized(mac, xid);
    done := Append(buf, base, done, 282, [53, 1, 1]);
    done := Append(buf, base, done, 285, [55, 3, 1, 3, 6]);
    done := Append(buf, base, done, 290, [END]);
    assert done == Unsized(mac, xid) + DISCOVER_OPTIONS;
    ret := Finish(buf, base, mac, xid, DISCOVER_OPTIONS, BOOTP_SIZE + 9);
  }

  lemma SpliceAll(s: seq<byte>, bytes: seq<byte>)
    requires |s| == |bytes|
    ensures Splice(s, 0, bytes) == bytes
  {
  }

  /** dhcp_build_request on a buffer of size bytes, of which mem is the memory from its first byte
      on. The guard admits sizes of 300 to 302 bytes, and then the 303 bytes of the request go
      beyond the buffer; all that is asked is that this memory be there. */
  method BuildRequest(mem: array<byte>, size: nat, mac: Mac, xid: nat, offered: Ip, server: Ip) returns (ret: int)
    requires xid < TWO32
    requires size <= mem.Length && (size >= 300 ==> mem.Length >= 303)
    modifies mem
    ensures size < 300 ==> ret == -1 && mem[..] == old(mem[..])
    ensures size >= 300 ==>
              ret == 303 && mem[..] == Requested(old(mem[..]), size, Request(mac, xid, offered, server))
  {
    hide Splice, Unsized, Message;
    if size < 300 {
      return -1;
    }
    ghost var was := mem[..];
    Put(mem, 0, Zeros(size));
    ghost var base := mem[..];
    ZerosClear(was, size);
    WriteFixed(mem, base, mac, xid);
    ghost var done := Unsized(mac, xid);
    done := Append(mem, base, done, 282, [53, 1, 3]);
    done := Append(mem, base, done, 285, [50, 4]);
    done := Append(mem, base, done, 287, offered);
    done := Append(mem, base, done, 291, [54, 4]);
    done := Append(mem, base, done, 293, server);
    done := Append(mem, base, done, 297, [55, 3, 1, 3, 6]);
    done := Append(mem, base, done, 302, [END]);
    assert done == Unsized(mac, xid) + RequestOptions(offered, server);
    ret := Finish(mem, base, mac, xid, RequestOptions(offered, server), BOOTP_SIZE + 21);
  }

  /** Memory after size bytes of it were cleared and then a request written to its front. */
  function Requested(mem: seq<byte>, size: nat, request: seq<byte>): (r: seq<byte>)
    requires size <= |mem| && |request| <= |mem|
    ensures |r| == |mem|
  {
    Splice(Splice(mem, 0, Zeros(size)), 0, request)
  }

  lemma ZerosClear(mem: seq<byte>, size: nat)
    requires 300 <= size <= |mem|
    ensures Cleared(Splice(mem, 0, Zeros(size)))
  {
  }

  /** A request leaves what lies behind the buffer alone, whatever that is, if and only if the
      buffer has the 303 bytes that the guard does not ask for. */
  lemma RequestStaysInside(size: nat, mac: Mac, xid: nat, offered: Ip, server: Ip)
    requires 300 <= size && xid < TWO32
    ensures
      var request := Request(mac, xid, offered, server);
      (forall mem: seq<byte> :: |mem| >= size && |mem| >= 303 ==> Requested(mem, size, request)[size..] == mem[size..])
      <==> size >= 303
  {
    hide Message;
    var request := Request(mac, xid, offered, server);
    if size < 303 {
      MessageConsistent(mac, xid, RequestOptions(offered, server));
      assert request[OPTIONS_AT..] == RequestOptions(offered, server);
      assert request[302] == RequestOptions(offered, server)[20] == END;
      var mem := Zeros(303);
      var after := Requested(mem, size, request);
      assert after[302] == END && after[size..][302 - size] == after[302] && mem[size..][302 - size] == 0;
    }
  }

  // ---- What the frames say ----

  lemma IpSumZeroed(total: nat)
    requires total < TWO16
    ensures Words(IpHeader(total, 0))[5] == 0
    ensures Words(IpHeader(total, HeaderSum(total))) == Words(IpHeader(total, 0))[5 := HeaderSum(total)]
  {
    hide ToBe16, Be16, HeaderSum;
    var sum := HeaderSum(total);
    var h, z := IpHeader(total, sum), IpHeader(total, 0);
    forall i | 0 <= i < 10 && i != 5
      ensures h[2 * i..2 * i + 2] == z[2 * i..2 * i + 2]
    {
      assert h[2 * i] == z[2 * i] && h[2 * i + 1] == z[2 * i + 1];
    }
    assert z[10..12] == ToBe16(0) && h[10..12] == ToBe16(sum);
  }

  /** Every built message is consistent with itself: both length fields measure what follows
      them, the header checksum verifies, and the transaction is the one asked for. */
  lemma MessageConsistent(mac: Mac, xid: nat, options: seq<byte>)
    requires xid < TWO32 && Fits(options)
    ensures
      var f := Message(mac, xid, options);
      && |f| == ETH_HDR + Be16(f[16..18]) == ETH_HDR + IP_HDR + Be16(f[38..40])
      && Verifies(Words(f[14..34]))
      && SourceMac(f) == f[70..76] == mac
      && f[46..50] == ToBe32(xid)
      && f[OPTIONS_AT..OPTIONS_AT + |options|] == options
  {
    hide ToBe16, ToBe32, Be16, Fold, Sum, Words, HeaderSum;
    var len := DhcpLen(options);
    var total := IP_HDR + UDP_HDR + len;
    var f, ip := Message(mac, xid, options), IpHeader(total, HeaderSum(total));
    var udp, boot := UdpHeader(UDP_HDR + len), Bootp(mac, xid);
    assert f[14..34] == ip && f[34..42] == udp && f[42..OPTIONS_AT] == boot;
    assert f[16..18] == ip[2..4] == ToBe16(total);
    assert f[38..40] == udp[4..6] == ToBe16(UDP_HDR + len);
    assert f[70..76] == boot[28..34] == mac && f[46..50] == boot[4..8] == ToBe32(xid);
    IpHeaderVerifies(total);
  }

  /** Everything in front of the options that is the same in every message, in bytes: a broadcast
      IPv4 frame from no address to all, by UDP from port 68 to port 67 without a checksum, holding
      a BOOTP request with the broadcast flag, the hardware address and the cookie. */
  lemma MessageBytes(mac: Mac, xid: nat, options: seq<byte>)
    requires xid < TWO32 && Fits(options)
    ensures
      var f := Message(mac, xid, options);
      && f[0..6] == f[30..34] + [0xFF, 0xFF] == [0xFF, 0xFF, 0xFF, 0xFF, 0xFF, 0xFF]
      && f[6..12] == mac && f[12..16] == [8, 0, 0x45, 0]
      && f[18..24] == [0, 0, 0, 0, 64, 17] && f[26..30] == [0, 0, 0, 0]
      && f[34..38] == [0, 68, 0, 67] && f[40..42] == [0, 0]
      && f[42..46] == [1, 1, 6, 0] && f[50..54] == [0, 0, 0x80, 0]
      && f[54..70] == Zeros(16) && f[70..76] == mac && f[76..278] == Zeros(202)
      && f[278..282] == [0x63, 0x82, 0x53, 0x63]
      && f[282 + |options|..] == Zeros(if |options| < 18 then 18 - |options| else 0)
  {
    hide Be16, Fold, Sum, Words, HeaderSum, ToBe16, ToBe32;
    var len := DhcpLen(options);
    var total := IP_HDR + UDP_HDR + len;
    var f, ip := Message(mac, xid, options), IpHeader(total, HeaderSum(total));
    var eth, udp, boot := EthHeader(mac), UdpHeader(UDP_HDR + len), Bootp(mac, xid);
    assert f[0..14] == eth && f[14..34] == ip && f[34..42] == udp && f[42..282] == boot;
    hide Message, EthHeader, IpHeader, UdpHeader, Bootp;
    HeaderBytes(mac, xid, total, HeaderSum(total), UDP_HDR + len);
    assert f[0..6] == eth[0..6] && f[6..12] == eth[6..12] && f[12..16] == eth[12..14] + ip[0..2];
    assert f[18..24] == ip[4..10] && f[26..30] == ip[12..16] && f[30..34] == ip[16..20];
    assert f[34..38] == udp[0..4] && f[40..42] == udp[6..8];
    assert f[42..46] == boot[0..4] && f[50..54] == boot[8..12] && f[54..70] == boot[12..28];
    assert f[70..76] == boot[28..34] && f[76..278] == boot[34..236] && f[278..282] == boot[236..240];
  }

  lemma HeaderBytes(mac: Mac, xid: nat, total: nat, sum: word, len: nat)
    requires xid < TWO32 && total < TWO16 && len < TWO16
    ensures
      var eth := EthHeader(mac);
      eth[0..6] == [0xFF, 0xFF, 0xFF, 0xFF, 0xFF, 0xFF] && eth[6..12] == mac && eth[12..14] == [8, 0]
    ensures
      var ip := IpHeader(total, sum);
      && ip[0..2] == [0x45, 0] && ip[4..10] == [0, 0, 0, 0, 64, 17] && ip[12..16] == [0, 0, 0, 0]
      && ip[16..20] == [0xFF, 0xFF, 0xFF, 0xFF]
    ensures UdpHeader(len)[0..4] == [0, 68, 0, 67] && UdpHeader(len)[6..8] == [0, 0]
    ensures
      var boot := Bootp(mac, xid);
      && boot[0..4] == [1, 1, 6, 0] && boot[8..12] == [0, 0, 0x80, 0] && boot[12..28] == Zeros(16)
      && boot[28..34] == mac && boot[34..236] == Zeros(202) && boot[236..240] == [0x63, 0x82, 0x53, 0x63]
  {
    FixedWords();
    hide ToBe16, ToBe32;
  }

  lemma FixedWords()
    ensures ToBe16(68) == [0, 68] && ToBe16(67) == [0, 67] && ToBe16(0x0800) == [8, 0] && ToBe16(0x8000) == [0x80, 0]
    ensures ToBe32(0x63825363) == [0x63, 0x82, 0x53, 0x63]
  {
  }

  /** The options of both messages in bytes. */
  lemma OptionBytes(mac: Mac, xid: nat, offered: Ip, server: Ip)
    requires xid < TWO32
    ensures Discover(mac, xid)[282..] == [53, 1, 1, 55, 3, 1, 3, 6, 255] + Zeros(9)
    ensures Request(mac, xid, offered, server)[282..] ==
            [53, 1, 3, 50, 4] + offered + [54, 4] + server + [55, 3, 1, 3, 6, 255]
  {
    hide Message;
    MessageConsistent(mac, xid, DISCOVER_OPTIONS);
    MessageBytes(mac, xid, DISCOVER_OPTIONS);
    MessageConsistent(mac, xid, RequestOptions(offered, server));
    var d, r := Discover(mac, xid), Request(mac, xid, offered, server);
    assert d[282..] == d[282..291] + d[291..];
    assert r[282..] == RequestOptions(offered, server);
  }

  lemma IpHeaderVerifies(total: nat)
    requires total < TWO16
    ensures Verifies(Words(IpHeader(total, HeaderSum(total))))
  {
    hide Fold, Sum, Words, IpHeader, Verifies;
    IpSumZeroed(total);
    ChecksumVerifies(Words(IpHeader(total, 0)), 5);
  }

  function OptionsAsked(offered: Ip, server: Ip): seq<Opt> {
    [Opt(53, [3]), Opt(50, offered), Opt(54, server), Opt(55, [1, 3, 6])]
  }

  /** A server that scans the options of a built request finds the message type, the address
      asked for and exactly the server it is meant for. */
  lemma RequestOptionsRead(mac: Mac, xid: nat, offered: Ip, server: Ip, other: Ip)
    requires xid < TWO32
    ensures
      var area := Request(mac, xid, offered, server)[OPTIONS_AT..];
      && Decode(area) == OptionsAsked(offered, server)
      && ScanInside(area, true)
      && NoteAll(Seen(area), Scanned(0, other)) == Scanned(3, server)
  {
    hide Message, NoteAll, Decode, Overrun;
    var area := RequestOptions(offered, server);
    MessageConsistent(mac, xid, area);
    assert Request(mac, xid, offered, server)[OPTIONS_AT..] == area;
    RequestDecoded(offered, server);
    assert Seen(area) == OptionsAsked(offered, server);
    RequestNoted(offered, server, other);
  }

  lemma RequestDecoded(offered: Ip, server: Ip)
    ensures Decode(RequestOptions(offered, server)) == OptionsAsked(offered, server)
    ensures Overrun(RequestOptions(offered, server)) == []
  {
    hide Decode, Overrun;
    var a, b, c, d, e: seq<byte> := [53, 1, 3], [50, 4] + offered, [54, 4] + server, [55, 3, 1, 3, 6], [END];
    assert RequestOptions(offered, server) == a + (b + (c + (d + e)));
    assert b[2..] == offered && c[2..] == server;
    DecodeAfter(a, b + (c + (d + e)));
    DecodeAfter(b, c + (d + e));
    DecodeAfter(c, d + e);
    DecodeAfter(d, e);
    DecodeEnd(e);
  }

  lemma RequestNoted(offered: Ip, server: Ip, other: Ip)
    ensures NoteAll(OptionsAsked(offered, server), Scanned(0, other)) == Scanned(3, server)
  {
    hide NoteAll;
    var sc := Scanned(3, server);
    assert server[..4] == server;
    NoteFirst(Opt(55, [1, 3, 6]), [], sc);
    NoteFirst(Opt(54, server), [Opt(55, [1, 3, 6])], Scanned(3, other));
    NoteFirst(Opt(50, offered), [Opt(54, server), Opt(55, [1, 3, 6])], Scanned(3, other));
    NoteFirst(Opt(53, [3]), [Opt(50, offered), Opt(54, server), Opt(55, [1, 3, 6])], Scanned(0, other));
    NoteNone(sc);
  }

  lemma NoteFirst(o: Opt, rest: seq<Opt>, sc: Scanned)
    ensures NoteAll([o] + rest, sc) == NoteAll(rest, Note(sc, o))
    ensures forall opts :: opts == [o] + rest ==> NoteAll(opts, sc) == NoteAll(rest, Note(sc, o))
  {
    assert ([o] + rest)[1..] == rest;
  }

  lemma NoteNone(sc: Scanned)
    ensures NoteAll([], sc) == sc
  {
  }

  /** The options of a discover name its type and no server. */
  lemma DiscoverOptionsRead(mac: Mac, xid: nat, other: Ip)
    requires xid < TWO32
    ensures
      var area := Discover(mac, xid)[OPTIONS_AT..];
      && Decode(area) == [Opt(53, [1]), Opt(55, [1, 3, 6])]
      && ScanInside(area, true)
      && NoteAll(Seen(area), Scanned(0, other)) == Scanned(1, other)
  {
    hide Message, NoteAll, Decode, Overrun;
    MessageConsistent(mac, xid, DISCOVER_OPTIONS);
    var area := Discover(mac, xid)[OPTIONS_AT..];
    assert area[..9] == DISCOVER_OPTIONS;
    DiscoverDecoded(area);
    NoteFirst(Opt(55, [1, 3, 6]), [], Scanned(1, other));
    NoteFirst(Opt(53, [1]), [Opt(55, [1, 3, 6])], Scanned(0, other));
    NoteNone(Scanned(1, other));
  }

  lemma DiscoverDecoded(area: seq<byte>)
    requires |area| >= 9 && area[..9] == DISCOVER_OPTIONS
    ensures Decode(area) == [Opt(53, [1]), Opt(55, [1, 3, 6])] && Overrun(area) == []
  {
    hide Decode, Overrun;
    var a: seq<byte>, b: seq<byte> := [53, 1, 1], [55, 3, 1, 3, 6];
    var rest := [END] + area[9..];
    assert area == area[..9] + area[9..] == a + (b + rest);
    assert a[2..] == [1] && b[2..] == [1, 3, 6];
    DecodeAfter(a, b + rest);
    DecodeAfter(b, rest);
    DecodeEnd(rest);
  }

}

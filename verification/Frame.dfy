/** frame.c: conversion between utun packets, [4-byte address family][IP packet], and Ethernet
    frames, [14-byte header][IP packet]. */
module Frame {
  import opened Bytes
  import opened Options

  type Mac = m: seq<byte> | |m| == 6 witness [0, 0, 0, 0, 0, 0]

  const BROADCAST: Mac := [0xFF, 0xFF, 0xFF, 0xFF, 0xFF, 0xFF]

  const ETH_HDR := 14
  const ETH_BUF_SIZE := 2048
  const UTUN_BUF_SIZE := ETH_BUF_SIZE + 256

  const AF_INET := 2
  const AF_INET6 := 30

  const TYPE_IPV4 := 0x0800
  const TYPE_IPV6 := 0x86DD
  const TYPE_ARP := 0x0806

  function EtherType(frame: seq<byte>): (t: nat)
    requires |frame| >= ETH_HDR
    ensures t < TWO16
  {
    Be16(frame[12..14])
  }

  function SourceMac(frame: seq<byte>): Mac
    requires |frame| >= ETH_HDR
  {
    frame[6..12]
  }

  /** The ethertype for a utun packet: from the address family, or else from the version nibble. */
  function TypeFor(utun: seq<byte>): (t: Option<nat>)
    requires |utun| >= 5
    ensures t.Some? ==> t.value == TYPE_IPV4 || t.value == TYPE_IPV6
  {
    var af := Be32(utun[..4]);
    if af == AF_INET then Some(TYPE_IPV4)
    else if af == AF_INET6 then Some(TYPE_IPV6)
    else
      match utun[4] / 16
      case 4 => Some(TYPE_IPV4)
      case 6 => Some(TYPE_IPV6)
      case _ => None
  }

  predicate RoomForEth(utun: seq<byte>, capacity: nat) {
    |utun| >= 5 && ETH_HDR + |utun| - 4 <= capacity
  }

  function ToEth(utun: seq<byte>, capacity: nat, src: Mac, gateway: Mac): (r: Option<seq<byte>>) {
    if !RoomForEth(utun, capacity) || TypeFor(utun) == None then None
    else Some(gateway + src + ToBe16(TypeFor(utun).value) + utun[4..])
  }

  function FamilyFor(etherType: nat): (af: Option<nat>)
    ensures af.Some? ==> af.value < TWO32
  {
    if etherType == TYPE_IPV4 then Some(AF_INET)
    else if etherType == TYPE_IPV6 then Some(AF_INET6)
    else None
  }

  function ToUtun(frame: seq<byte>, capacity: nat): (r: Option<seq<byte>>) {
    if |frame| < ETH_HDR || 4 + |frame| - ETH_HDR > capacity || FamilyFor(EtherType(frame)) == None then None
    else Some(ToBe32(FamilyFor(EtherType(frame)).value) + frame[ETH_HDR..])
  }

  /** frame_ip_to_eth. A packet of unknown version is refused after both addresses were written. */
  method IpToEth(utun: seq<byte>, buf: array<byte>, src: Mac, gateway: Mac) returns (ret: int)
    modifies buf
    ensures
      match ToEth(utun, buf.Length, src, gateway)
      case Some(frame) => ret == |frame| && buf[..] == Splice(old(buf[..]), 0, frame)
      case None =>
        && ret == -1
        && buf[..] == (if RoomForEth(utun, buf.Length) then Splice(old(buf[..]), 0, gateway + src) else old(buf[..]))
  {
    hide Be32, ToBe16, Splice;
    if |utun| < 5 {
      return -1;
    }
    var af := Be32(utun[..4]);
    var total := ETH_HDR + |utun| - 4;
    if total > buf.Length {
      return -1;
    }
    ghost var base, done := buf[..], [];
    assert buf[..] == Splice(base, 0, done) by { SpliceNothing(base); }
    done := Append(buf, base, done, 0, gateway);
    done := Append(buf, base, done, 6, src);
    var etherType := TYPE_IPV4;
    if af == AF_INET {
    } else if af == AF_INET6 {
      etherType := TYPE_IPV6;
    } else {
      var ver := utun[4] / 16;
      if ver == 6 {
        etherType := TYPE_IPV6;
      } else if ver != 4 {
        assert done == gateway + src;
        return -1;
      }
    }
    done := Append(buf, base, done, 12, ToBe16(etherType));
    done := Append(buf, base, done, ETH_HDR, utun[4..]);
    assert done == gateway + src + ToBe16(etherType) + utun[4..];
    return total;
  }

  /** frame_eth_to_utun. A refused frame leaves the buffer alone. */
  method EthToUtun(frame: seq<byte>, buf: array<byte>) returns (ret: int)
    modifies buf
    ensures
      match ToUtun(frame, buf.Length)
      case Some(utun) => ret == |utun| && buf[..] == Splice(old(buf[..]), 0, utun)
      case None => ret == -1 && buf[..] == old(buf[..])
  {
    hide Be16, ToBe32, Splice;
    if |frame| < ETH_HDR {
      return -1;
    }
    var ipLen := |frame| - ETH_HDR;
    var total := 4 + ipLen;
    if total > buf.Length {
      return -1;
    }
    var etherType := EtherType(frame);
    var af;
    if etherType == TYPE_IPV4 {
      af := AF_INET;
    } else if etherType == TYPE_IPV6 {
      af := AF_INET6;
    } else {
      return -1;
    }
    ghost var base, done := buf[..], [];
    assert buf[..] == Splice(base, 0, done) by { SpliceNothing(base); }
    done := Append(buf, base, done, 0, ToBe32(af));
    done := Append(buf, base, done, 4, frame[ETH_HDR..]);
    assert done == ToBe32(af) + frame[ETH_HDR..];
    return total;
  }

  /** The packet that comes back for a packet that went out: the same IP packet, under the same
      address family if that was AF_INET or AF_INET6, else under the one its version names. */
  function Normalised(utun: seq<byte>): (r: seq<byte>)
    requires |utun| >= 5 && TypeFor(utun).Some?
    ensures |r| == |utun|
    ensures r[4..] == utun[4..]
  {
    var af := Be32(utun[..4]);
    if af == AF_INET || af == AF_INET6 then utun
    else ToBe32(if utun[4] / 16 == 4 then AF_INET else AF_INET6) + utun[4..]
  }

  lemma EthFields(utun: seq<byte>, capacity: nat, src: Mac, gateway: Mac)
    requires ToEth(utun, capacity, src, gateway).Some?
    ensures
      var frame := ToEth(utun, capacity, src, gateway).value;
      && |frame| == ETH_HDR + |utun| - 4 <= capacity
      && EtherType(frame) == TypeFor(utun).value
      && frame[..6] == gateway && SourceMac(frame) == src
      && frame[ETH_HDR..] == utun[4..]
  {
    var frame := ToEth(utun, capacity, src, gateway).value;
    assert frame[12..14] == ToBe16(TypeFor(utun).value);
  }

  /** Which packets go out, and as what, in bytes. */
  lemma GoesOutAs(utun: seq<byte>, capacity: nat, src: Mac, gateway: Mac)
    ensures ToEth(utun, capacity, src, gateway).Some? <==>
            && 5 <= |utun| <= capacity - 10
            && (utun[..4] == [0, 0, 0, 2] || utun[..4] == [0, 0, 0, 30] || utun[4] / 16 == 4 || utun[4] / 16 == 6)
    ensures
      match ToEth(utun, capacity, src, gateway)
      case None => true
      case Some(frame) =>
        var v4 := utun[..4] == [0, 0, 0, 2] || (utun[..4] != [0, 0, 0, 30] && utun[4] / 16 == 4);
        frame == gateway + src + (if v4 then [8, 0] else [0x86, 0xDD]) + utun[4..]
  {
    if |utun| >= 5 {
      FamilyBytes(utun[..4]);
    }
  }

  lemma FamilyBytes(s: seq<byte>)
    requires |s| == 4
    ensures Be32(s) == 2 <==> s == [0, 0, 0, 2]
    ensures Be32(s) == 30 <==> s == [0, 0, 0, 30]
  {
    assert ToBe32(Be32(s)) == s;
  }

  /** Which frames come in, and as what. */
  lemma ComesInAs(frame: seq<byte>, capacity: nat)
    ensures ToUtun(frame, capacity).Some? <==>
            14 <= |frame| <= capacity + 10 && (frame[12..14] == [8, 0] || frame[12..14] == [0x86, 0xDD])
    ensures
      match ToUtun(frame, capacity)
      case None => true
      case Some(utun) => utun == (if frame[12..14] == [8, 0] then [0, 0, 0, 2] else [0, 0, 0, 30]) + frame[14..]
  {
    if |frame| >= 14 {
      EtherTypeBytes(frame);
    }
  }

  /** Out and back: the IP packet survives byte for byte. */
  lemma EthUndone(utun: seq<byte>, src: Mac, gateway: Mac)
    requires ToEth(utun, ETH_BUF_SIZE, src, gateway).Some?
    ensures ToUtun(ToEth(utun, ETH_BUF_SIZE, src, gateway).value, UTUN_BUF_SIZE) == Some(Normalised(utun))
  {
    hide ToBe32, Be32, Be16, ToBe16;
    var frame := ToEth(utun, ETH_BUF_SIZE, src, gateway).value;
    EthFields(utun, ETH_BUF_SIZE, src, gateway);
    assert ToBe32(Be32(utun[..4])) == utun[..4];
    assert utun == utun[..4] + utun[4..];
  }

  /** Back and out: a convertible frame is rebuilt exactly when it carries at least one byte. */
  lemma UtunUndone(frame: seq<byte>, capacity: nat)
    requires ToUtun(frame, capacity).Some?
    ensures ToEth(ToUtun(frame, capacity).value, |frame|, SourceMac(frame), frame[..6]) == Some(frame)
       <==> |frame| > ETH_HDR
  {
    hide Be16;
    var utun := ToUtun(frame, capacity).value;
    assert utun[..4] == ToBe32(FamilyFor(EtherType(frame)).value);
    if |frame| > ETH_HDR {
      assert utun[4..] == frame[ETH_HDR..];
      FamilyRoundTrip(FamilyFor(EtherType(frame)).value);
      EtherTypeBytes(frame);
      assert frame == frame[..6] + frame[6..12] + frame[12..14] + frame[ETH_HDR..];
    }
  }

  lemma FamilyRoundTrip(af: nat)
    requires af < TWO16
    ensures Be32(ToBe32(af)) == af
  {
  }

  lemma EtherTypeBytes(frame: seq<byte>)
    requires |frame| >= ETH_HDR
    ensures ToBe16(EtherType(frame)) == frame[12..14]
  {
    var hi: int, lo: int := frame[12], frame[13];
    assert (0x100 * hi + lo) / 0x100 == hi;
  }
}

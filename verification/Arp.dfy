/** arp.c: the reply to an ARP request for our own address. An IP address is kept as the four
    bytes it has in memory, which is how the code copies and compares it. */
module Arp {
  import opened Bytes
  import opened Options
  import opened Frame

  type Ip = a: seq<byte> | |a| == 4 witness [0, 0, 0, 0]

  const ARP_SIZE := 28
  const OP_REQUEST := 1
  const OP_REPLY := 2

  function Opcode(frame: seq<byte>): nat
    requires |frame| >= ETH_HDR + ARP_SIZE
  {
    Be16(frame[20..22])
  }

  function SenderMac(frame: seq<byte>): Mac
    requires |frame| >= ETH_HDR + ARP_SIZE
  {
    frame[22..28]
  }

  function SenderIp(frame: seq<byte>): Ip
    requires |frame| >= ETH_HDR + ARP_SIZE
  {
    frame[28..32]
  }

  function TargetMac(frame: seq<byte>): Mac
    requires |frame| >= ETH_HDR + ARP_SIZE
  {
    frame[32..38]
  }

  function TargetIp(frame: seq<byte>): Ip
    requires |frame| >= ETH_HDR + ARP_SIZE
  {
    frame[38..42]
  }

  predicate IsArp(frame: seq<byte>) {
    |frame| >= ETH_HDR && EtherType(frame) == TYPE_ARP
  }

  /** A request that asks who has ip. */
  predicate AsksFor(frame: seq<byte>, ip: Ip) {
    |frame| >= ETH_HDR + ARP_SIZE && IsArp(frame) && Opcode(frame) == OP_REQUEST && TargetIp(frame) == ip
  }

  function Reply(ourMac: Mac, ourIp: Ip, theirMac: Mac, theirIp: Ip): (r: seq<byte>)
    ensures |r| == ETH_HDR + ARP_SIZE
  {
    theirMac + ourMac + ToBe16(TYPE_ARP)
    + ToBe16(1) + ToBe16(TYPE_IPV4) + [6, 4] + ToBe16(OP_REPLY)
    + ourMac + ourIp + theirMac + theirIp
  }

  function Answer(frame: seq<byte>, capacity: nat, ourMac: Mac, ourIp: Ip): Option<seq<byte>> {
    if AsksFor(frame, ourIp) && ETH_HDR + ARP_SIZE <= capacity
    then Some(Reply(ourMac, ourIp, SenderMac(frame), SenderIp(frame)))
    else None
  }

  method BuildReply(buf: array<byte>, ourMac: Mac, ourIp: Ip, theirMac: Mac, theirIp: Ip) returns (ret: int)
    modifies buf
    ensures buf.Length < ETH_HDR + ARP_SIZE ==> ret == -1 && buf[..] == old(buf[..])
    ensures buf.Length >= ETH_HDR + ARP_SIZE ==>
              ret == ETH_HDR + ARP_SIZE
              && buf[..] == Splice(old(buf[..]), 0, Reply(ourMac, ourIp, theirMac, theirIp))
  {
    hide ToBe16, Splice;
    if buf.Length < ETH_HDR + ARP_SIZE {
      return -1;
    }
    ghost var start := buf[..];
    SpliceNothing(start);
    Put(buf, 0, Zeros(ETH_HDR + ARP_SIZE));
    ghost var cleared, done := buf[..], [];
    SpliceNothing(cleared);
    done := Append(buf, cleared, done, 0, theirMac);
    done := Append(buf, cleared, done, 6, ourMac);
    done := Append(buf, cleared, done, 12, ToBe16(TYPE_ARP));
    done := Append(buf, cleared, done, 14, ToBe16(1));
    done := Append(buf, cleared, done, 16, ToBe16(TYPE_IPV4));
    done := Append(buf, cleared, done, 18, [6]);
    done := Append(buf, cleared, done, 19, [4]);
    done := Append(buf, cleared, done, 20, ToBe16(OP_REPLY));
    done := Append(buf, cleared, done, 22, ourMac);
    done := Append(buf, cleared, done, 28, ourIp);
    done := Append(buf, cleared, done, 32, theirMac);
    done := Append(buf, cleared, done, 38, theirIp);
    SpliceIntoZeros(start, ETH_HDR + ARP_SIZE, done);
    assert done + Zeros(0) == Reply(ourMac, ourIp, theirMac, theirIp);
    return ETH_HDR + ARP_SIZE;
  }

  /** arp_handle_request: 0 when the frame is not for us. */
  method HandleRequest(frame: seq<byte>, buf: array<byte>, ourMac: Mac, ourIp: Ip) returns (ret: int)
    modifies buf
    ensures AsksFor(frame, ourIp) && buf.Length < ETH_HDR + ARP_SIZE ==> ret == -1
    ensures !AsksFor(frame, ourIp) ==> ret == 0
    ensures
      match Answer(frame, buf.Length, ourMac, ourIp)
      case Some(reply) => ret == |reply| && buf[..] == Splice(old(buf[..]), 0, reply)
      case None => ret <= 0 && buf[..] == old(buf[..])
  {
    if |frame| < ETH_HDR + ARP_SIZE {
      return 0;
    }
    if EtherType(frame) != TYPE_ARP {
      return 0;
    }
    if Opcode(frame) == OP_REQUEST && TargetIp(frame) == ourIp {
      ret := BuildReply(buf, ourMac, ourIp, SenderMac(frame), SenderIp(frame));
      return ret;
    }
    return 0;
  }

  /** What is answered, and with what, in bytes. */
  lemma AnswerExact(frame: seq<byte>, capacity: nat, ourMac: Mac, ourIp: Ip)
    ensures Answer(frame, capacity, ourMac, ourIp) ==
            if && |frame| >= 42 && frame[12..14] == [8, 6] && frame[20..22] == [0, 1] && frame[38..42] == ourIp
               && capacity >= 42
            then
              Some(frame[22..28] + ourMac + [8, 6, 0, 1, 8, 0, 6, 4, 0, 2]
                   + ourMac + ourIp + frame[22..28] + frame[28..32])
            else None
  {
    if |frame| >= 42 {
      EtherTypeBytes(frame);
      OpcodeBytes(frame[20..22]);
      var theirMac, theirIp := frame[22..28], frame[28..32];
      assert ToBe16(0x0806) == [8, 6] && ToBe16(1) == [0, 1] && ToBe16(0x0800) == [8, 0] && ToBe16(2) == [0, 2];
      assert Reply(ourMac, ourIp, theirMac, theirIp)
          == theirMac + ourMac + [8, 6, 0, 1, 8, 0, 6, 4, 0, 2] + ourMac + ourIp + theirMac + theirIp;
    }
  }

  lemma OpcodeBytes(s: seq<byte>)
    requires |s| == 2
    ensures Be16(s) == 1 <==> s == [0, 1]
  {
  }

  /** Every answer goes back to the asker's addresses, claims the address asked for, and is
      itself an ARP frame that no host answers. */
  lemma AnswerIsAReply(frame: seq<byte>, capacity: nat, ourMac: Mac, ourIp: Ip, otherMac: Mac, otherIp: Ip)
    requires Answer(frame, capacity, ourMac, ourIp).Some?
    ensures
      var reply := Answer(frame, capacity, ourMac, ourIp).value;
      && IsArp(reply) && Opcode(reply) == OP_REPLY
      && reply[..6] == TargetMac(reply) == SenderMac(frame) && TargetIp(reply) == SenderIp(frame)
      && SourceMac(reply) == SenderMac(reply) == ourMac && SenderIp(reply) == TargetIp(frame)
      && Answer(reply, capacity, otherMac, otherIp) == None
  {
    hide Be16, ToBe16;
    var theirMac, theirIp := SenderMac(frame), SenderIp(frame);
    var reply := Reply(ourMac, ourIp, theirMac, theirIp);
    assert reply[..6] == theirMac && reply[6..12] == ourMac && reply[12..14] == ToBe16(TYPE_ARP);
    assert reply[20..22] == ToBe16(OP_REPLY) && reply[22..28] == ourMac && reply[28..32] == ourIp;
    assert reply[32..38] == theirMac && reply[38..42] == theirIp;
  }
}

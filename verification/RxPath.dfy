/** process_rx_frame: what happens to each Ethernet frame that arrives over USB. */
module RxPath {
  import opened Bytes
  import opened Frame
  import opened Rndis
  import Arp

  /** The part of the bridge context that received frames change, with what has been handed to
      utun_write and to libusb (ARP replies) so far. */
  datatype State = State(
    gwMac: Mac,
    learned: bool,
    rxPkts: nat,
    rxBytes: nat,
    written: seq<seq<byte>>,
    replies: seq<seq<byte>>)

  const INITIAL := State(BROADCAST, false, 0, 0, [], [])

  datatype Path = ToArp | ToTun(utun: seq<byte>) | Dropped

  function PathOf(frame: seq<byte>): Path {
    if Arp.IsArp(frame) then ToArp
    else
      match ToUtun(frame, UTUN_BUF_SIZE)
      case Some(utun) => ToTun(utun)
      case None => Dropped
  }

  /** A frame that names a usable gateway address. */
  predicate Teaches(frame: seq<byte>) {
    |frame| >= ETH_HDR && frame[6] != 0xFF
  }

  /** One frame. canSend says whether the buffer, the transfer and the submission of an ARP
      reply were all to be had. */
  function Step(s: State, frame: seq<byte>, mac: Mac, ip: Arp.Ip, canSend: bool): State {
    var s1 := if !s.learned && Teaches(frame) then s.(gwMac := SourceMac(frame), learned := true) else s;
    match PathOf(frame)
    case ToArp =>
      (match Arp.Answer(frame, ETH_BUF_SIZE, mac, ip)
       case Some(reply) => if canSend then s1.(replies := s1.replies + [DataPacket(reply)]) else s1
       case None => s1)
    case ToTun(utun) =>
      s1.(rxPkts := U64(s1.rxPkts + 1), rxBytes := U64(s1.rxBytes + |frame|), written := s1.written + [utun])
    case Dropped => s1
  }

  class BridgeRx {
    const mac: Mac
    const ourIp: Arp.Ip
    var gwMac: Mac
    var gwMacLearned: bool
    var rxPkts: nat
    var rxBytes: nat
    ghost var written: seq<seq<byte>>
    ghost var replies: seq<seq<byte>>

    ghost function Contents(): State
      reads this
    {
      State(gwMac, gwMacLearned, rxPkts, rxBytes, written, replies)
    }

    constructor (mac: Mac, ourIp: Arp.Ip)
      ensures this.mac == mac && this.ourIp == ourIp && Contents() == INITIAL
    {
      this.mac, this.ourIp := mac, ourIp;
      gwMac, gwMacLearned := BROADCAST, false;
      rxPkts, rxBytes := 0, 0;
      written, replies := [], [];
    }

    method ProcessRxFrame(frame: seq<byte>, canSend: bool)
      modifies this
      ensures Contents() == Step(old(Contents()), frame, mac, ourIp, canSend)
    {
      hide Be16, ToUtun, Arp.Answer;
      if !gwMacLearned && |frame| >= ETH_HDR {
        if frame[6] != 0xFF {
          gwMac := frame[6..12];
          gwMacLearned := true;
        }
      }
      if |frame| >= ETH_HDR {
        if EtherType(frame) == TYPE_ARP {
          AnswerArp(frame, canSend);
          return;
        }
      }
      Inject(frame);
    }

    /** The ARP branch: an answer is wrapped into its own transfer. */
    method AnswerArp(frame: seq<byte>, canSend: bool)
      modifies this`replies
      ensures replies ==
        match Arp.Answer(frame, ETH_BUF_SIZE, mac, ourIp)
        case Some(reply) => if canSend then old(replies) + [DataPacket(reply)] else old(replies)
        case None => old(replies)
    {
      hide Splice;
      var abuf := new byte[ETH_BUF_SIZE];
      ghost var abuf0 := abuf[..];
      var arpLen := Arp.HandleRequest(frame, abuf, mac, ourIp);
      if arpLen > 0 && canSend {
        var txbuf := new byte[RNDIS_BUF_SIZE];
        ghost var txbuf0 := txbuf[..];
        var reply := abuf[..arpLen];
        SplicePrefix(abuf0, Arp.Answer(frame, ETH_BUF_SIZE, mac, ourIp).value);
        var rlen := BuildDataPacket(txbuf, reply);
        SplicePrefix(txbuf0, DataPacket(reply));
        replies := replies + [txbuf[..rlen]];
      }
    }

    /** The utun branch, which counts what it converts. */
    method Inject(frame: seq<byte>)
      modifies this`written, this`rxPkts, this`rxBytes
      ensures
        match ToUtun(frame, UTUN_BUF_SIZE)
        case Some(utun) =>
          && written == old(written) + [utun]
          && rxPkts == U64(old(rxPkts) + 1) && rxBytes == U64(old(rxBytes) + |frame|)
        case None => written == old(written) && rxPkts == old(rxPkts) && rxBytes == old(rxBytes)
    {
      var tbuf := new byte[UTUN_BUF_SIZE];
      ghost var tbuf0 := tbuf[..];
      var tlen := EthToUtun(frame, tbuf);
      if tlen > 0 {
        SplicePrefix(tbuf0, ToUtun(frame, UTUN_BUF_SIZE).value);
        written := written + [tbuf[..tlen]];
        rxPkts := U64(rxPkts + 1);
        rxBytes := U64(rxBytes + |frame|);
      }
    }
  }

  // ---- Whole runs ----

  datatype Arrival = Arrival(frame: seq<byte>, canSend: bool)

  function RunFrom(s: State, arrivals: seq<Arrival>, mac: Mac, ip: Arp.Ip): State {
    if arrivals == [] then s
    else
      var last := arrivals[|arrivals| - 1];
      Step(RunFrom(s, arrivals[..|arrivals| - 1], mac, ip), last.frame, mac, ip, last.canSend)
  }

  function Run(arrivals: seq<Arrival>, mac: Mac, ip: Arp.Ip): State {
    RunFrom(INITIAL, arrivals, mac, ip)
  }

  /** Frames that are converted for utun, with what they become. */
  function Converted(arrivals: seq<Arrival>): (r: seq<(seq<byte>, seq<byte>)>) {
    if arrivals == [] then []
    else
      var before, frame := Converted(arrivals[..|arrivals| - 1]), arrivals[|arrivals| - 1].frame;
      match PathOf(frame)
      case ToTun(utun) => before + [(frame, utun)]
      case _ => before
  }

  function TotalLength(frames: seq<(seq<byte>, seq<byte>)>): nat {
    if frames == [] then 0 else TotalLength(frames[..|frames| - 1]) + |frames[|frames| - 1].0|
  }

  lemma U64Zero()
    ensures U64(0) == 0
  {
  }

  /** Over every run the packet and byte counters count exactly the converted frames (in the
      width of the counters), and utun receives exactly their conversions in order. */
  lemma {:induction false} CountersCountConversions(arrivals: seq<Arrival>, mac: Mac, ip: Arp.Ip)
    ensures
      var s, c := Run(arrivals, mac, ip), Converted(arrivals);
      && s.rxPkts == U64(|c|)
      && s.rxBytes == U64(TotalLength(c))
      && s.written == seq(|c|, i requires 0 <= i < |c| => c[i].1)
  {
    hide ToUtun, U64, Teaches, Arp.Answer, Arp.IsArp, PathOf;
    U64Zero();
    if arrivals != [] {
      var n := |arrivals| - 1;
      CountersCountConversions(arrivals[..n], mac, ip);
      var before := Converted(arrivals[..n]);
      if PathOf(arrivals[n].frame).ToTun? {
        var now := Converted(arrivals);
        assert now[..|now| - 1] == before;
        U64Add(|before|, 1);
        U64Add(TotalLength(before), |arrivals[n].frame|);
      }
    }
  }

  /** The gateway address is broadcast until some frame teaches another, and from the first such
      frame on it is that frame's source address, whatever arrives later. */
  lemma {:induction false} GatewayLearnedOnce(arrivals: seq<Arrival>, mac: Mac, ip: Arp.Ip)
    ensures
      var s := Run(arrivals, mac, ip);
      && (!s.learned ==>
            && s.gwMac == [0xFF, 0xFF, 0xFF, 0xFF, 0xFF, 0xFF]
            && forall a :: a in arrivals ==> |a.frame| < 14 || a.frame[6] == 0xFF)
      && (s.learned ==> exists k ::
              && 0 <= k < |arrivals|
              && |arrivals[k].frame| >= 14 && arrivals[k].frame[6] != 0xFF && s.gwMac == arrivals[k].frame[6..12]
              && forall j :: 0 <= j < k ==> |arrivals[j].frame| < 14 || arrivals[j].frame[6] == 0xFF)
  {
    hide PathOf, Arp.Answer;
    if arrivals != [] {
      var n := |arrivals| - 1;
      var earlier := arrivals[..n];
      GatewayLearnedOnce(earlier, mac, ip);
      var before := Run(earlier, mac, ip);
      if before.learned {
        var k :| 0 <= k < n
                 && |earlier[k].frame| >= 14 && earlier[k].frame[6] != 0xFF && before.gwMac == earlier[k].frame[6..12]
                 && forall j :: 0 <= j < k ==> |earlier[j].frame| < 14 || earlier[j].frame[6] == 0xFF;
        assert arrivals[k] == earlier[k] && forall j :: 0 <= j < k ==> arrivals[j] == earlier[j];
      } else {
        assert forall a :: a in arrivals ==> a in earlier || a == arrivals[n];
        assert forall j :: 0 <= j < n ==> arrivals[j] in earlier;
        assert Teaches(arrivals[n].frame) ==> Run(arrivals, mac, ip).gwMac == SourceMac(arrivals[n].frame);
      }
    }
  }

  /** What one frame does, in bytes: the gateway is learned from the first source that does not
      start with 0xFF, an ARP request for us is answered in a packet of its own, an IP frame is
      written to utun and counted. */
  lemma StepExact(s: State, frame: seq<byte>, mac: Mac, ip: Arp.Ip, canSend: bool)
    ensures
      var t := Step(s, frame, mac, ip, canSend);
      var learns := !s.learned && |frame| >= 14 && frame[6] != 0xFF;
      && t.learned == (s.learned || learns) && t.gwMac == (if learns then frame[6..12] else s.gwMac)
      && t.replies == s.replies + (
           if |frame| >= 42 && frame[12..14] == [8, 6] && frame[20..22] == [0, 1] && frame[38..42] == ip && canSend
           then [DataPacket(Arp.Answer(frame, 42, mac, ip).value)] else [])
      && var injected := 14 <= |frame| <= 2314 && (frame[12..14] == [8, 0] || frame[12..14] == [0x86, 0xDD]);
         && t.written == s.written + (if injected then [ToUtun(frame, 2304).value] else [])
         && t.rxPkts == (if injected then (s.rxPkts + 1) % 0x1_0000_0000_0000_0000 else s.rxPkts)
         && t.rxBytes == (if injected then (s.rxBytes + |frame|) % 0x1_0000_0000_0000_0000 else s.rxBytes)
  {
    Arp.AnswerExact(frame, ETH_BUF_SIZE, mac, ip);
    Arp.AnswerExact(frame, 42, mac, ip);
    ComesInAs(frame, UTUN_BUF_SIZE);
    if |frame| >= 14 {
      EtherTypeBytes(frame);
    }
    hide Arp.Answer, ToUtun, DataPacket, Be16;
  }

  /** A frame leaves exactly one trace, or none: an ARP frame is never written to utun, a
      converted frame is never answered, and a dropped one changes no more than the gateway. */
  lemma OnePath(s: State, frame: seq<byte>, mac: Mac, ip: Arp.Ip, canSend: bool)
    ensures
      var t := Step(s, frame, mac, ip, canSend);
      && (t.written != s.written ==> t.replies == s.replies && !Arp.IsArp(frame))
      && (t.written != s.written <==> ToUtun(frame, UTUN_BUF_SIZE).Some?)
      && (t.replies != s.replies <==> Arp.AsksFor(frame, ip) && canSend)
      && (t.written == s.written ==> t.rxPkts == s.rxPkts && t.rxBytes == s.rxBytes)
  {
    hide Be16, Be32, ToBe32, ToBe16;
    assert forall w: seq<byte> {:trigger s.written + [w]} :: |s.written + [w]| != |s.written|;
    assert forall w: seq<byte> {:trigger s.replies + [w]} :: |s.replies + [w]| != |s.replies|;
  }
}

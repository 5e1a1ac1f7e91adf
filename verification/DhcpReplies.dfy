/** How dhcp_discover reads what it receives: one frame, the option scans, and the two walks over
    a received buffer. */
module DhcpReplies {
  import opened Bytes
  import opened Options
  import opened Frame
  import opened Arp
  import opened Rndis
  import opened Unwrap
  import opened DhcpOptions
  import opened DhcpPackets

  const XID := 0x12345678
  const OFFER := 2
  const ACK := 5

  const NO_ADDRESS: Ip := [0, 0, 0, 0]

  // ---- Reading one frame ----

  function HeaderWords(frame: seq<byte>): nat
    requires |frame| >= OPTIONS_AT
  {
    frame[14] % 16
  }

  /** Where the options start, given the length the IP header claims. */
  function OptionsStart(frame: seq<byte>): (n: nat)
    requires |frame| >= OPTIONS_AT
    ensures 262 <= n <= 322
  {
    ETH_HDR + 4 * HeaderWords(frame) + UDP_HDR + BOOTP_SIZE
  }

  /** A frame whose DHCP part is looked at: long enough, IPv4, UDP, to the client port. */
  predicate ForClient(frame: seq<byte>) {
    && |frame| >= OPTIONS_AT
    && EtherType(frame) == TYPE_IPV4
    && frame[23] == IPPROTO_UDP
    && var udp := ETH_HDR + 4 * HeaderWords(frame);
       Be16(frame[udp + 2..udp + 4]) == CLIENT_PORT
  }

  datatype Reply = Reply(yiaddr: Ip, options: seq<byte>)

  /** The DHCP message in a frame, when it carries the cookie and our transaction. */
  function ReplyIn(frame: seq<byte>): Option<Reply> {
    if !ForClient(frame) || OptionsStart(frame) > |frame| then None
    else
      var opts := OptionsStart(frame);
      var dhcp := opts - BOOTP_SIZE;
      if Be32(frame[dhcp + 236..opts]) == MAGIC && Be32(frame[dhcp + 4..dhcp + 8]) == XID
      then Some(Reply(frame[dhcp + 16..dhcp + 20], frame[opts..]))
      else None
  }

  /** The hypotheses on a frame that is looked at: the IP header length it claims leaves the DHCP
      part inside it, and the scanner stays inside its option area. */
  predicate FrameOk(frame: seq<byte>, msgType: nat) {
    && (ForClient(frame) ==> OptionsStart(frame) <= |frame|)
    && (ReplyIn(frame).Some? ==> ScanInside(ReplyIn(frame).value.options, msgType == OFFER))
  }

  /** How far into a frame a loop looks. The first four tests stay in front of the options; the
      cookie is the last thing in front of where the claimed header length puts them; and the
      scanner looks at the options of a message for our transaction. */
  function FrameReach(frame: seq<byte>, msgType: nat): nat {
    if |frame| < OPTIONS_AT then 0
    else if EtherType(frame) != TYPE_IPV4 then 14
    else if frame[23] != IPPROTO_UDP then 24
    else if !ForClient(frame) then ETH_HDR + 4 * HeaderWords(frame) + 4
    else
      match ReplyIn(frame)
      case None => OptionsStart(frame)
      case Some(reply) => OptionsStart(frame) + Reach(reply.options, msgType == OFFER)
  }

  /** A loop stays inside the frame if and only if the hypotheses hold. */
  lemma FrameOkExact(frame: seq<byte>, msgType: nat)
    ensures FrameReach(frame, msgType) <= |frame| <==> FrameOk(frame, msgType)
  {
    hide Be16, Be32, Reach, ScanInside;
    if ReplyIn(frame).Some? {
      ScanInsideExact(ReplyIn(frame).value.options, msgType == OFFER);
    }
  }

  /** The message of a frame, when it is of the given type. */
  function TypedReply(frame: seq<byte>, msgType: nat): Option<Reply> {
    if ReplyIn(frame).Some? && TypeIn(ReplyIn(frame).value.options) == msgType then ReplyIn(frame) else None
  }

  /** The server a frame names, or the one noted before it. */
  function ServerAfter(frame: seq<byte>, server: Ip): Ip {
    match ReplyIn(frame)
    case Some(reply) => NoteAll(Seen(reply.options), Scanned(0, server)).server
    case None => server
  }

  // ---- Frames as a server builds them ----

  /** What a server may put around the fields that matter. The IP header has words 32-bit words. */
  datatype Envelope = Envelope(
    macs: seq<byte>,
    words: nat,
    ipFront: seq<byte>,
    ipBack: seq<byte>,
    udpFront: seq<byte>,
    udpBack: seq<byte>,
    op: seq<byte>,
    middle: seq<byte>,
    chaddr: seq<byte>)

  predicate EnvelopeOk(e: Envelope) {
    && |e.macs| == 12 && 5 <= e.words <= 15 && |e.ipFront| == 8 && |e.ipBack| == 4 * e.words - 10
    && |e.udpFront| == 2 && |e.udpBack| == 4 && |e.op| == 4 && |e.middle| == 8 && |e.chaddr| == 216
  }

  function ServerIp(e: Envelope): (h: seq<byte>)
    requires EnvelopeOk(e)
    ensures |h| == 4 * e.words
  {
    [0x40 + e.words] + e.ipFront + [IPPROTO_UDP] + e.ipBack
  }

  function ServerUdp(e: Envelope): (h: seq<byte>)
    requires EnvelopeOk(e)
    ensures |h| == UDP_HDR
  {
    e.udpFront + ToBe16(CLIENT_PORT) + e.udpBack
  }

  function ServerBootp(e: Envelope, yiaddr: Ip): (h: seq<byte>)
    requires EnvelopeOk(e)
    ensures |h| == BOOTP_SIZE
  {
    e.op + ToBe32(XID) + e.middle + yiaddr + e.chaddr + ToBe32(MAGIC)
  }

  function ServerFrame(e: Envelope, yiaddr: Ip, options: seq<byte>): (f: seq<byte>)
    requires EnvelopeOk(e)
    ensures |f| == 262 + 4 * e.words + |options|
  {
    e.macs + ToBe16(TYPE_IPV4) + ServerIp(e) + ServerUdp(e) + ServerBootp(e, yiaddr) + options
  }

  /** Every message that a server builds for our transaction is taken as just that message,
      whatever its addresses, its IP header length and its options. */
  lemma ServerFrameTaken(e: Envelope, yiaddr: Ip, options: seq<byte>)
    requires EnvelopeOk(e)
    ensures var f := ServerFrame(e, yiaddr, options);
      && ForClient(f) && OptionsStart(f) <= |f|
      && ReplyIn(f) == Some(Reply(yiaddr, options))
  {
    hide ToBe16, ToBe32, Be16, Be32;
    var f, ip, udp, boot := ServerFrame(e, yiaddr, options), ServerIp(e), ServerUdp(e), ServerBootp(e, yiaddr);
    var u := ETH_HDR + 4 * e.words;
    assert f[12..14] == ToBe16(TYPE_IPV4);
    assert f[14] == ip[0] == 0x40 + e.words && f[23] == ip[9] == IPPROTO_UDP;
    assert HeaderWords(f) == e.words;
    assert f[u + 2..u + 4] == udp[2..4] == ToBe16(CLIENT_PORT);
    assert f[u + 8 + 236..u + 248] == boot[236..240] == ToBe32(MAGIC);
    assert f[u + 8 + 4..u + 8 + 8] == boot[4..8] == ToBe32(XID);
    assert f[u + 8 + 16..u + 8 + 20] == boot[16..20] == yiaddr;
    assert f[u + 248..] == options;
    Constants();
  }

  /** A frame that passes the tests although its IP header length puts the DHCP part beyond its
      end: 282 bytes, of which the cookie would be the last of 322. */
  lemma HeaderTooLong()
    ensures exists f: seq<byte> :: |f| == OPTIONS_AT && ForClient(f) && OptionsStart(f) == |f| + 40
  {
    hide ToBe16, ToBe32, Be16, Be32;
    var e := Envelope(Zeros(12), 15, Zeros(8), Zeros(50), Zeros(2), Zeros(4), Zeros(4), Zeros(8), Zeros(216));
    var all := ServerFrame(e, NO_ADDRESS, []);
    ServerFrameTaken(e, NO_ADDRESS, []);
    var f := all[..OPTIONS_AT];
    assert f[12..14] == all[12..14] && f[14] == all[14] && f[23] == all[23];
    assert HeaderWords(all) == 15 by { assert all[14] == ServerIp(e)[0]; }
    assert f[76..78] == all[76..78];
    assert ForClient(f) && OptionsStart(f) == |f| + 40;
  }

  /** Which frames are taken for a message of ours, and what is taken from them, in bytes. */
  lemma ReplyExact(frame: seq<byte>)
    ensures ReplyIn(frame) ==
            if |frame| < 282 then None
            else
              var udp: nat := 14 + 4 * (frame[14] % 16);
              if && frame[12..14] == [8, 0] && frame[23] == 17 && frame[udp + 2..udp + 4] == [0, 68]
                 && udp + 248 <= |frame| && frame[udp + 244..udp + 248] == [0x63, 0x82, 0x53, 0x63]
                 && frame[udp + 12..udp + 16] == [0x12, 0x34, 0x56, 0x78]
              then Some(Reply(frame[udp + 24..udp + 28], frame[udp + 248..]))
              else None
  {
    hide Be16, Be32, ToBe16, ToBe32;
    if |frame| >= 282 {
      var udp: nat := 14 + 4 * (frame[14] % 16);
      TypeBytes(frame[12..14]);
      TypeBytes(frame[udp + 2..udp + 4]);
      if udp + 248 <= |frame| {
        CookieBytes(frame[udp + 244..udp + 248]);
        CookieBytes(frame[udp + 12..udp + 16]);
      }
    }
  }

  lemma TypeBytes(s: seq<byte>)
    requires |s| == 2
    ensures Be16(s) == 0x0800 <==> s == [8, 0]
    ensures Be16(s) == 68 <==> s == [0, 68]
  {
  }

  lemma CookieBytes(s: seq<byte>)
    requires |s| == 4
    ensures Be32(s) == 0x63825363 <==> s == [0x63, 0x82, 0x53, 0x63]
    ensures Be32(s) == 0x12345678 <==> s == [0x12, 0x34, 0x56, 0x78]
  {
    assert ToBe32(Be32(s)) == s;
  }

  lemma Constants()
    ensures Be32(ToBe32(MAGIC)) == MAGIC && Be32(ToBe32(XID)) == XID
  {
  }

  /** With its options encoded, it is an offer or an acknowledgement just as its last option 53
      says. */
  lemma EncodedMessageTyped(e: Envelope, yiaddr: Ip, items: seq<Padded>, pads: nat, tail: seq<byte>, k: nat)
    requires EnvelopeOk(e) && AllEncodable(items) && LastOf(MSG_TYPE, 1, OptsOf(items), k)
    ensures
      var area := Area(items, pads, tail);
      var f, msgType := ServerFrame(e, yiaddr, area), OptsOf(items)[k].value[0];
      && TypedReply(f, msgType) == Some(Reply(yiaddr, area))
      && (forall t :: t != msgType ==> TypedReply(f, t) == None)
      && FrameOk(f, OFFER) && FrameOk(f, ACK)
  {
    hide Seen, Overrun, NoteAll, LastOf, Area, ServerFrame;
    ServerFrameTaken(e, yiaddr, Area(items, pads, tail));
    DecodeUndoesEncode(items, pads, tail);
    ScanTakesLastType(OptsOf(items), Scanned(0, Zeros(4)), k);
  }

  // ---- Waiting for the offer and for the acknowledgement ----

  /** The first message of a type in a list of frames. */
  function FirstReply(frames: seq<seq<byte>>, msgType: nat): (r: Option<Reply>) {
    if frames == [] then None
    else if TypedReply(frames[0], msgType).Some? then TypedReply(frames[0], msgType)
    else FirstReply(frames[1..], msgType)
  }

  /** Every frame up to and including the first message of the type meets the hypotheses. */
  predicate LookedAtOk(frames: seq<seq<byte>>, msgType: nat) {
    frames == []
    || (FrameOk(frames[0], msgType) && (TypedReply(frames[0], msgType).Some? || LookedAtOk(frames[1..], msgType)))
  }

  /** The hypotheses on a buffer in which a message of the type is looked for. The sum that the
      walk tests at its end matters only if it comes there. */
  predicate BufferOk(data: seq<byte>, msgType: nat) {
    && |data| < TWO31
    && LookedAtOk(Frames(data), msgType)
    && (FirstReply(Frames(data), msgType) == None ==> SumFits(data, Consumed(data)))
  }

  /** What is known while waiting for an offer. */
  datatype Wait = Wait(server: Ip, offer: Option<Reply>)

  /** Frames are looked at in order until one is an offer. */
  function AwaitOffer(frames: seq<seq<byte>>, w: Wait): (r: Wait) {
    if frames == [] || w.offer.Some? then w
    else AwaitOffer(frames[1..], Wait(ServerAfter(frames[0], w.server), TypedReply(frames[0], OFFER)))
  }

  lemma {:induction false} AwaitOfferConcat(a: seq<seq<byte>>, b: seq<seq<byte>>, w: Wait)
    ensures AwaitOffer(a + b, w) == AwaitOffer(b, AwaitOffer(a, w))
  {
    hide TypedReply, ServerAfter;
    if a == [] || w.offer.Some? {
      assert a == [] ==> a + b == b;
    } else {
      assert (a + b)[0] == a[0] && (a + b)[1..] == a[1..] + b;
      AwaitOfferConcat(a[1..], b, Wait(ServerAfter(a[0], w.server), TypedReply(a[0], OFFER)));
    }
  }

  lemma {:induction false} FirstReplyConcat(a: seq<seq<byte>>, b: seq<seq<byte>>, msgType: nat)
    ensures FirstReply(a + b, msgType) ==
            if FirstReply(a, msgType).Some? then FirstReply(a, msgType) else FirstReply(b, msgType)
  {
    hide TypedReply;
    if a == [] {
      assert a + b == b;
    } else {
      assert (a + b)[0] == a[0] && (a + b)[1..] == a[1..] + b;
      FirstReplyConcat(a[1..], b, msgType);
    }
  }

  lemma {:induction false} AwaitOfferFirst(frames: seq<seq<byte>>, w: Wait)
    requires w.offer == None
    ensures AwaitOffer(frames, w).offer == FirstReply(frames, OFFER)
  {
    hide TypedReply, ServerAfter;
    if frames != [] {
      var next := Wait(ServerAfter(frames[0], w.server), TypedReply(frames[0], OFFER));
      if next.offer.Some? {
        AwaitOfferDone(frames[1..], next);
      } else {
        AwaitOfferFirst(frames[1..], next);
      }
    }
  }

  lemma AwaitOfferDone(frames: seq<seq<byte>>, w: Wait)
    requires w.offer.Some?
    ensures AwaitOffer(frames, w) == w
  {
  }

  lemma AwaitOfferShort(frame: seq<byte>, w: Wait)
    requires w.offer == None
    ensures AwaitOffer([], w) == w
    ensures AwaitOffer([frame], w) == Wait(ServerAfter(frame, w.server), TypedReply(frame, OFFER))
  {
    hide TypedReply, ServerAfter;
    assert [frame][1..] == [];
  }

  lemma FirstReplyShort(frame: seq<byte>, msgType: nat)
    ensures FirstReply([], msgType) == None
    ensures FirstReply([frame], msgType) == TypedReply(frame, msgType)
  {
    hide TypedReply;
    assert [frame][1..] == [];
  }

  // ---- The tests on one frame ----

  /** The offer loop. */
  method LookForOffer(frame: seq<byte>, w: Wait) returns (r: Wait)
    requires FrameOk(frame, OFFER) && w.offer == None
    ensures r == Wait(ServerAfter(frame, w.server), TypedReply(frame, OFFER))
  {
    hide Be16, Be32, ScanInside, Seen, NoteAll;
    r := w;
    if |frame| >= OPTIONS_AT {
      if EtherType(frame) == TYPE_IPV4 {
        if frame[23] == IPPROTO_UDP {
          var udp := ETH_HDR + 4 * HeaderWords(frame);
          if Be16(frame[udp + 2..udp + 4]) == CLIENT_PORT {
            var dhcp := udp + 8;
            var opts := dhcp + BOOTP_SIZE;
            if Be32(frame[dhcp + 236..opts]) == MAGIC && Be32(frame[dhcp + 4..dhcp + 8]) == XID {
              var sc, _ := ScanOptions(frame[opts..], w.server);
              NotesIndependent(Seen(frame[opts..]), 0, w.server, Zeros(4));
              r := r.(server := sc.server);
              if sc.msgType == OFFER {
                r := r.(offer := Some(Reply(frame[dhcp + 16..dhcp + 20], frame[opts..])));
              }
            }
          }
        }
      }
    }
  }

  /** The acknowledgement loop. */
  method LookForAck(frame: seq<byte>) returns (r: Option<Reply>)
    requires FrameOk(frame, ACK)
    ensures r == TypedReply(frame, ACK)
  {
    hide Be16, Be32, ScanInside, TypeIn;
    r := None;
    if |frame| >= OPTIONS_AT {
      if EtherType(frame) == TYPE_IPV4 {
        if frame[23] == IPPROTO_UDP {
          var udp := ETH_HDR + 4 * HeaderWords(frame);
          if Be16(frame[udp + 2..udp + 4]) == CLIENT_PORT {
            var dhcp := udp + 8;
            var opts := dhcp + BOOTP_SIZE;
            if Be32(frame[dhcp + 236..opts]) == MAGIC && Be32(frame[dhcp + 4..dhcp + 8]) == XID {
              var msgType, _ := ScanType(frame[opts..]);
              if msgType == ACK {
                r := Some(Reply(frame[dhcp + 16..dhcp + 20], frame[opts..]));
              }
            }
          }
        }
      }
    }
  }

  // ---- The walks ----

  /** A walk that stands at an offset has looked at the frames before it in vain. */
  predicate Walking(data: seq<byte>, offset: nat, msgType: nat) {
    && offset <= |data| < TWO31
    && Consumed(data) == offset + Consumed(data[offset..])
    && FirstReply(Frames(data), msgType) == FirstReply(Frames(data[offset..]), msgType)
    && LookedAtOk(Frames(data[offset..]), msgType)
    && (FirstReply(Frames(data), msgType) == None ==> SumFits(data, Consumed(data)))
  }

  lemma WalkStarts(data: seq<byte>, msgType: nat)
    requires BufferOk(data, msgType)
    ensures Walking(data, 0, msgType) && data[0..] == data
  {
    hide Frames, Consumed, SumFits, LookedAtOk, FirstReply;
    assert data[0..] == data;
  }

  /** One round of a walk: the message at the offset delivers at most one frame, which meets the
      hypotheses; and if that is not what the walk looks for, it goes on. */
  lemma WalkRound(data: seq<byte>, offset: nat, msgType: nat)
    requires Walking(data, offset, msgType) && Continues(data, offset)
    ensures |data[offset..]| >= 8 && offset + MsgLen(data[offset..]) <= |data|
    ensures U32(offset + MsgLen(data[offset..])) == offset + MsgLen(data[offset..])
    ensures
      var next := offset + MsgLen(data[offset..]);
      var delivered := Delivered(data[offset..next]);
      && Frames(data[offset..]) == delivered + Frames(data[next..])
      && LookedAtOk(delivered, msgType)
      && (FirstReply(delivered, msgType) == None ==> Walking(data, next, msgType))
  {
    hide U32, Frames, Consumed, Delivered, Whole, SumFits, LookedAtOk, FirstReply, MsgLen, Continues;
    WholeOrFitsHere(data, offset, msgType);
    WalkOn(data, offset);
    var next := offset + MsgLen(data[offset..]);
    DeliveredShort(data[offset..next]);
    FirstReplyConcat(Delivered(data[offset..next]), Frames(data[next..]), msgType);
    LookedAtSplit(Delivered(data[offset..next]), Frames(data[next..]), msgType);
  }

  lemma ContinuesLong(data: seq<byte>, offset: nat)
    requires |data| < TWO31 && offset <= |data| && Continues(data, offset)
    ensures offset + 8 <= |data|
  {
  }

  lemma WholeOrFitsHere(data: seq<byte>, offset: nat, msgType: nat)
    requires Walking(data, offset, msgType) && Continues(data, offset)
    ensures offset + 8 <= |data|
    ensures Whole(data[offset..]) || SumFits(data, offset)
  {
    hide Le32, Whole, SumFits, LookedAtOk, TypedReply, Continues, Delivered;
    ContinuesLong(data, offset);
  }

  lemma DeliveredShort(msg: seq<byte>)
    ensures |Delivered(msg)| <= 1
  {
  }

  lemma LookedAtSplit(a: seq<seq<byte>>, b: seq<seq<byte>>, msgType: nat)
    requires |a| <= 1 && LookedAtOk(a + b, msgType)
    ensures LookedAtOk(a, msgType)
    ensures FirstReply(a, msgType) == None ==> LookedAtOk(b, msgType)
  {
    hide FrameOk, TypedReply;
    if a == [] {
      assert a + b == b;
    } else {
      assert (a + b)[0] == a[0] && (a + b)[1..] == b && a[1..] == [];
      assert LookedAtOk([], msgType);
      assert FirstReply([], msgType) == None;
    }
  }

  lemma WalkStops(data: seq<byte>, offset: nat)
    requires |data| < TWO31 && offset <= |data| && !Continues(data, offset)
    ensures Frames(data[offset..]) == []
  {
    WalkEnds(data, offset);
  }

  /** The message walk of the offer loop over one received buffer: the boundaries are those of
      the receive path, and it leaves at the first offer. */
  method WalkForOffer(data: seq<byte>, w: Wait) returns (r: Wait)
    requires BufferOk(data, OFFER) && w.offer == None
    ensures r == AwaitOffer(Frames(data), w)
  {
    hide Le32, Frames, FrameOk, TypedReply, ServerAfter, AwaitOffer, Walking, BufferOk, FirstReply;
    r := w;
    var offset := 0;
    assert offset <= |data| < TWO31 && data[offset..] == data by { WalkStarts(data, OFFER); WalkSized(data, 0, OFFER); }
    WalkStarts(data, OFFER);
    while U32(offset + 8) <= |data|
      invariant offset <= |data| && Walking(data, offset, OFFER)
      invariant r.offer == None
      invariant AwaitOffer(Frames(data), w) == AwaitOffer(Frames(data[offset..]), r)
      decreases |data| - offset
    {
      var msgLen := FieldAt(data[offset..], 4);
      if msgLen == 0 || U32(offset + msgLen) > |data| {
        break;
      }
      WalkRound(data, offset, OFFER);
      var msg := data[offset..offset + msgLen];
      ghost var later := Frames(data[offset + msgLen..]);
      AwaitOfferConcat(Delivered(msg), later, r);
      AwaitOfferFirst(Delivered(msg), r);
      var slice := ParseData(msg);
      if slice.Slice? {
        var frame := msg[slice.start..slice.start + slice.len];
        assert Delivered(msg) == [frame];
        AwaitOfferShort(frame, r);
        r := LookForOffer(frame, r);
      } else {
        AwaitOfferShort([], r);
      }
      if r.offer.Some? {
        AwaitOfferDone(later, r);
        return;
      }
      offset := offset + msgLen;
    }
    WalkStops(data, offset);
    AwaitOfferShort([], r);
  }

  lemma WalkSized(data: seq<byte>, offset: nat, msgType: nat)
    requires Walking(data, offset, msgType)
    ensures offset <= |data| < TWO31
  {
  }

  /** The message walk of the acknowledgement loop. */
  method WalkForAck(data: seq<byte>) returns (r: Option<Reply>)
    requires BufferOk(data, ACK)
    ensures r == FirstReply(Frames(data), ACK)
  {
    hide Le32, Frames, FrameOk, TypedReply, Walking, BufferOk, FirstReply;
    var offset := 0;
    assert offset <= |data| < TWO31 && data[offset..] == data by { WalkStarts(data, ACK); WalkSized(data, 0, ACK); }
    WalkStarts(data, ACK);
    while U32(offset + 8) <= |data|
      invariant offset <= |data| && Walking(data, offset, ACK)
      invariant FirstReply(Frames(data), ACK) == FirstReply(Frames(data[offset..]), ACK)
      decreases |data| - offset
    {
      var msgLen := FieldAt(data[offset..], 4);
      if msgLen == 0 || U32(offset + msgLen) > |data| {
        break;
      }
      WalkRound(data, offset, ACK);
      var msg := data[offset..offset + msgLen];
      FirstReplyConcat(Delivered(msg), Frames(data[offset + msgLen..]), ACK);
      var slice := ParseData(msg);
      if slice.Slice? {
        var frame := msg[slice.start..slice.start + slice.len];
        assert Delivered(msg) == [frame];
        FirstReplyShort(frame, ACK);
        r := LookForAck(frame);
        if r.Some? {
          return;
        }
      } else {
        FirstReplyShort([], ACK);
      }
      offset := offset + msgLen;
    }
    WalkStops(data, offset);
    FirstReplyShort([], ACK);
    r := None;
  }
}

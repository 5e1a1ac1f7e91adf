/** dhcp_discover: the exchange discover, offer, request, acknowledge over the raw bulk link. */
module DhcpClient {
  import opened Bytes
  import opened Options
  import opened Frame
  import opened Arp
  import opened Rndis
  import opened Unwrap
  import opened DhcpOptions
  import opened DhcpPackets
  import opened DhcpReplies

  const ATTEMPTS := 50

  const DEFAULT_GATEWAY: Ip := [192, 168, 42, 129]
  const DEFAULT_NETMASK: Ip := [255, 255, 255, 0]
  const DEFAULT_DNS1: Ip := [8, 8, 8, 8]
  const DEFAULT_DNS2: Ip := [8, 8, 4, 4]

  // ---- The link ----

  /** The link as one exchange meets it: whether each send succeeds and what each receive would
      return. A receive that fails or times out returns no bytes. */
  datatype Link = Link(discoverSent: bool, requestSent: bool, received: seq<seq<byte>>)

  predicate Enough(link: Link) {
    |link.received| == 2 * ATTEMPTS
  }

  /** The frames of a list of received buffers. */
  function AllFrames(bufs: seq<seq<byte>>): seq<seq<byte>> {
    if bufs == [] then [] else AllFrames(bufs[..|bufs| - 1]) + Frames(bufs[|bufs| - 1])
  }

  function WaitAfter(link: Link, n: nat): Wait
    requires n <= |link.received|
  {
    AwaitOffer(AllFrames(link.received[..n]), Wait(NO_ADDRESS, None))
  }

  predicate NoOfferAt(link: Link, n: nat)
    requires Enough(link)
  {
    n <= ATTEMPTS && WaitAfter(link, n).offer == None
  }

  /** The n-th receive brought the first offer, and w is what was known then. */
  predicate OfferAt(link: Link, n: nat, w: Wait)
    requires Enough(link)
  {
    1 <= n <= ATTEMPTS && NoOfferAt(link, n - 1) && WaitAfter(link, n) == w && w.offer.Some?
  }

  function AckBetween(link: Link, n: nat, m: nat): Option<Reply>
    requires n <= m <= |link.received|
  {
    FirstReply(AllFrames(link.received[n..m]), ACK)
  }

  predicate NoAckAt(link: Link, n: nat, m: nat)
    requires Enough(link)
  {
    n <= m <= n + ATTEMPTS <= 2 * ATTEMPTS && AckBetween(link, n, m) == None
  }

  /** Of the receives after the n-th, the m-th brought the first acknowledgement. */
  predicate AckAt(link: Link, n: nat, m: nat, ack: Reply)
    requires Enough(link)
  {
    n < m <= n + ATTEMPTS <= 2 * ATTEMPTS && NoAckAt(link, n, m - 1) && AckBetween(link, n, m) == Some(ack)
  }

  /** The offer that ends the first phase leads to a request that is sent. */
  predicate Asks(link: Link, n: nat, w: Wait)
    requires Enough(link)
  {
    link.discoverSent && link.requestSent && OfferAt(link, n, w) && w.offer.value.yiaddr != NO_ADDRESS
  }

  /** The hypotheses on the link: those on the buffers that the two phases come to, while nothing
      was found before. What later receives would return does not matter. */
  ghost predicate LinkOk(link: Link) {
    && Enough(link)
    && (link.discoverSent ==> forall n: nat :: NoOfferAt(link, n) && n < ATTEMPTS ==> BufferOk(link.received[n], OFFER))
    && (forall n: nat, w, m: nat :: Asks(link, n, w) && NoAckAt(link, n, m) && m < n + ATTEMPTS ==>
          BufferOk(link.received[m], ACK))
  }

  // ---- The exchange ----

  datatype Lease = Lease(ip: Ip, gateway: Ip, netmask: Ip, dns1: Ip, dns2: Ip)

  datatype Event = Sent(bytes: seq<byte>) | Received

  function OrDefault(addr: Ip, default: Ip): Ip {
    if addr == NO_ADDRESS then default else addr
  }

  /** The settings gathered from an offer and then from an acknowledgement. */
  function Gathered(offer: Reply, ack: Reply): Settings {
    ApplyAll(Decode(ack.options), ApplyAll(Decode(offer.options), NO_SETTINGS))
  }

  function LeaseFrom(ip: Ip, st: Settings): Lease {
    Lease(ip, OrDefault(st.gateway, DEFAULT_GATEWAY), OrDefault(st.netmask, DEFAULT_NETMASK),
      OrDefault(st.dns1, DEFAULT_DNS1), OrDefault(st.dns2, DEFAULT_DNS2))
  }

  function Receives(n: nat): (t: seq<Event>)
    ensures |t| == n
  {
    seq(n, _ => Received)
  }

  function Asked(mac: Mac, n: nat): seq<Event> {
    [Sent(DataPacket(Discover(mac, XID)))] + Receives(n)
  }

  function Accepted(mac: Mac, n: nat, w: Wait): seq<Event>
    requires w.offer.Some?
  {
    Asked(mac, n) + [Sent(DataPacket(Request(mac, XID, w.offer.value.yiaddr, w.server)))]
  }

  /** The trace and the lease of a successful exchange. */
  predicate Completed(link: Link, mac: Mac, lease: Lease, trace: seq<Event>, n: nat, m: nat, w: Wait, ack: Reply)
    requires Enough(link)
  {
    && Asks(link, n, w) && AckAt(link, n, m, ack)
    && trace == Accepted(mac, n, w) + Receives(m - n)
    && lease == LeaseFrom(ack.yiaddr, Gathered(w.offer.value, ack))
  }

  /** The ways an exchange fails, with the trace of each. */
  predicate Refused(link: Link, mac: Mac, trace: seq<Event>, n: nat, w: Wait)
    requires Enough(link)
  {
    || (!link.discoverSent && trace == [])
    || (link.discoverSent && NoOfferAt(link, ATTEMPTS) && trace == Asked(mac, ATTEMPTS))
    || (link.discoverSent && OfferAt(link, n, w) && trace == Asked(mac, n)
        && (w.offer.value.yiaddr == NO_ADDRESS || !link.requestSent))
    || (Asks(link, n, w) && NoAckAt(link, n, n + ATTEMPTS) && trace == Accepted(mac, n, w) + Receives(ATTEMPTS))
  }

  lemma NextOfferBuffer(link: Link, n: nat)
    requires n < |link.received|
    ensures WaitAfter(link, n + 1) == AwaitOffer(Frames(link.received[n]), WaitAfter(link, n))
  {
    hide Frames, AwaitOffer;
    var bufs := link.received;
    assert bufs[..n + 1][..n] == bufs[..n];
    AwaitOfferConcat(AllFrames(bufs[..n]), Frames(bufs[n]), Wait(NO_ADDRESS, None));
  }

  lemma NextAckBuffer(link: Link, n: nat, m: nat)
    requires n <= m < |link.received|
    ensures AckBetween(link, n, m + 1) ==
            if AckBetween(link, n, m).Some? then AckBetween(link, n, m) else FirstReply(Frames(link.received[m]), ACK)
  {
    hide Frames, FirstReply;
    var bufs := link.received;
    assert bufs[n..m + 1][..m - n] == bufs[n..m];
    FirstReplyConcat(AllFrames(bufs[n..m]), Frames(bufs[m]), ACK);
  }

  lemma NothingReceived(link: Link, n: nat)
    requires n <= |link.received|
    ensures WaitAfter(link, 0) == Wait(NO_ADDRESS, None) && AckBetween(link, n, n) == None
  {
    assert link.received[..0] == [] && link.received[n..n] == [];
  }

  /** The receives of the offer phase. */
  method OfferPhase(link: Link) returns (n: nat, w: Wait)
    requires LinkOk(link) && link.discoverSent
    ensures w.offer.Some? ==> OfferAt(link, n, w)
    ensures w.offer == None ==> n == ATTEMPTS && NoOfferAt(link, n)
  {
    hide BufferOk, AwaitOffer, WaitAfter;
    n := 0;
    w := Wait(NO_ADDRESS, None);
    NothingReceived(link, 0);
    while n < ATTEMPTS
      invariant n <= ATTEMPTS
      invariant w.offer == None && w == WaitAfter(link, n)
    {
      assert NoOfferAt(link, n);
      NextOfferBuffer(link, n);
      w := WalkForOffer(link.received[n], w);
      n := n + 1;
      if w.offer.Some? {
        return;
      }
    }
  }

  /** The receives of the acknowledgement phase. */
  method AckPhase(link: Link, n: nat, ghost w: Wait) returns (m: nat, ack: Option<Reply>)
    requires LinkOk(link) && Asks(link, n, w)
    ensures ack.Some? ==> AckAt(link, n, m, ack.value)
    ensures ack == None ==> m == n + ATTEMPTS && NoAckAt(link, n, m)
  {
    hide BufferOk, FirstReply, AckBetween, WaitAfter;
    m := n;
    NothingReceived(link, n);
    while m < n + ATTEMPTS
      invariant n <= m <= n + ATTEMPTS
      invariant NoAckAt(link, n, m)
    {
      NextAckBuffer(link, n, m);
      ack := WalkForAck(link.received[m]);
      m := m + 1;
      if ack.Some? {
        return;
      }
    }
    ack := None;
  }

  method SendDiscover(ethBuf: array<byte>, rndisBuf: array<byte>, mac: Mac) returns (sent: seq<byte>)
    requires ethBuf != rndisBuf && ethBuf.Length == ETH_BUF_SIZE && rndisBuf.Length == RNDIS_BUF_SIZE
    modifies ethBuf, rndisBuf
    ensures sent == DataPacket(Discover(mac, XID))
  {
    hide Splice;
    var len := BuildDiscover(ethBuf, mac, XID);
    SplicePrefix(Zeros(ETH_BUF_SIZE), Discover(mac, XID));
    sent := Wrap(ethBuf[..len], rndisBuf);
  }

  method SendRequest(ethBuf: array<byte>, rndisBuf: array<byte>, mac: Mac, offered: Ip, server: Ip)
      returns (sent: seq<byte>)
    requires ethBuf != rndisBuf && ethBuf.Length == ETH_BUF_SIZE && rndisBuf.Length == RNDIS_BUF_SIZE
    modifies ethBuf, rndisBuf
    ensures sent == DataPacket(Request(mac, XID, offered, server))
  {
    hide Splice;
    ghost var before := Splice(ethBuf[..], 0, Zeros(ETH_BUF_SIZE));
    var len := BuildRequest(ethBuf, ETH_BUF_SIZE, mac, XID, offered, server);
    SplicePrefix(before, Request(mac, XID, offered, server));
    sent := Wrap(ethBuf[..len], rndisBuf);
  }

  method Wrap(frame: seq<byte>, rndisBuf: array<byte>) returns (sent: seq<byte>)
    requires |frame| <= ETH_BUF_SIZE && rndisBuf.Length == RNDIS_BUF_SIZE
    modifies rndisBuf
    ensures sent == DataPacket(frame)
  {
    hide Splice;
    ghost var before := rndisBuf[..];
    var len := BuildDataPacket(rndisBuf, frame);
    SplicePrefix(before, DataPacket(frame));
    sent := rndisBuf[..len];
  }

  /** dhcp_discover. Addresses stand for the dotted strings that inet_ntoa makes of them. */
  method RunExchange(link: Link, mac: Mac) returns (lease: Option<Lease>, trace: seq<Event>)
    requires LinkOk(link)
    ensures lease.Some? ==> exists n, m, w, ack :: Completed(link, mac, lease.value, trace, n, m, w, ack)
    ensures lease == None ==> exists n, w :: Refused(link, mac, trace, n, w)
  {
    hide Discover, Request, DataPacket, Splice, WaitAfter, AckBetween, ApplyAll, Decode, BufferOk;
    var ethBuf, rndisBuf := new byte[ETH_BUF_SIZE], new byte[RNDIS_BUF_SIZE];
    trace := [];
    lease := None;
    ghost var none := Wait(NO_ADDRESS, None);

    var sent := SendDiscover(ethBuf, rndisBuf, mac);
    if !link.discoverSent {
      assert Refused(link, mac, trace, 0, none);
      return;
    }
    trace := [Sent(sent)];

    var n, w := OfferPhase(link);
    trace := trace + Receives(n);
    if w.offer == None || w.offer.value.yiaddr == NO_ADDRESS {
      assert Refused(link, mac, trace, n, w);
      return;
    }
    var st, _ := ParseOptions(w.offer.value.options, NO_SETTINGS);

    sent := SendRequest(ethBuf, rndisBuf, mac, w.offer.value.yiaddr, w.server);
    if !link.requestSent {
      assert Refused(link, mac, trace, n, w);
      return;
    }
    trace := trace + [Sent(sent)];

    var m, ack := AckPhase(link, n, w);
    trace := trace + Receives(m - n);
    if ack == None {
      assert Refused(link, mac, trace, n, w);
      return;
    }
    var final, _ := ParseOptions(ack.value.options, st);
    lease := Some(LeaseFrom(ack.value.yiaddr, final));
    assert Completed(link, mac, lease.value, trace, n, m, w, ack.value);
  }

  // ---- One outcome ----

  /** An offer once taken stays the one taken. */
  lemma {:induction false} OfferStays(link: Link, n: nat, n': nat)
    requires n <= n' <= |link.received| && WaitAfter(link, n).offer.Some?
    ensures WaitAfter(link, n') == WaitAfter(link, n)
    decreases n'
  {
    hide WaitAfter, AwaitOffer;
    if n < n' {
      OfferStays(link, n, n' - 1);
      NextOfferBuffer(link, n' - 1);
      AwaitOfferDone(Frames(link.received[n' - 1]), WaitAfter(link, n));
    }
  }

  lemma {:induction false} AckStays(link: Link, n: nat, m: nat, m': nat)
    requires n <= m <= m' <= |link.received| && AckBetween(link, n, m).Some?
    ensures AckBetween(link, n, m') == AckBetween(link, n, m)
    decreases m'
  {
    hide AckBetween, FirstReply;
    if m < m' {
      AckStays(link, n, m, m' - 1);
      NextAckBuffer(link, n, m' - 1);
    }
  }

  /** The first offer comes at one receive only, and if there is one no count of receives up to
      the last is without it. */
  lemma OfferAtOnce(link: Link, n: nat, w: Wait, n': nat, w': Wait)
    requires Enough(link) && OfferAt(link, n, w)
    ensures !NoOfferAt(link, ATTEMPTS)
    ensures OfferAt(link, n', w') ==> n' == n && w' == w
  {
    hide WaitAfter;
    OfferStays(link, n, ATTEMPTS);
    if OfferAt(link, n', w') {
      if n < n' {
        OfferStays(link, n, n' - 1);
      } else if n' < n {
        OfferStays(link, n', n - 1);
      }
    }
  }

  lemma AckAtOnce(link: Link, n: nat, m: nat, ack: Reply, m': nat, ack': Reply)
    requires Enough(link) && AckAt(link, n, m, ack)
    ensures !NoAckAt(link, n, n + ATTEMPTS)
    ensures AckAt(link, n, m', ack') ==> m' == m && ack' == ack
  {
    hide AckBetween;
    AckStays(link, n, m, n + ATTEMPTS);
    if AckAt(link, n, m', ack') {
      if m < m' {
        AckStays(link, n, m, m' - 1);
      } else if m' < m {
        AckStays(link, n, m', m - 1);
      }
    }
  }

  /** What the link does decides the outcome: when an exchange can complete it cannot also fail,
      and it can complete with one lease and one trace only. */
  lemma CompletedIsExact(link: Link, mac: Mac, lease: Lease, trace: seq<Event>, n: nat, m: nat, w: Wait, ack: Reply)
    requires Enough(link) && Completed(link, mac, lease, trace, n, m, w, ack)
    ensures forall t, n', w' :: !Refused(link, mac, t, n', w')
    ensures forall l, t, n', m', w', ack' :: Completed(link, mac, l, t, n', m', w', ack') ==> l == lease && t == trace
  {
    hide OfferAt, AckAt, NoOfferAt, NoAckAt, Accepted, Asked, LeaseFrom, Gathered;
    forall t, n', w' ensures !Refused(link, mac, t, n', w') {
      OfferAtOnce(link, n, w, n', w');
      AckAtOnce(link, n, m, ack, m, ack);
    }
    forall l, t, n', m', w', ack' | Completed(link, mac, l, t, n', m', w', ack')
      ensures l == lease && t == trace
    {
      OfferAtOnce(link, n, w, n', w');
      AckAtOnce(link, n, m, ack, m', ack');
    }
  }

  // ---- Provenance ----

  function ServerAfterAll(frames: seq<seq<byte>>, server: Ip): Ip {
    if frames == [] then server else ServerAfterAll(frames[1..], ServerAfter(frames[0], server))
  }

  /** frames[k] is the first message of its type, and it is this one. */
  predicate FirstOfType(frames: seq<seq<byte>>, msgType: nat, k: nat, reply: Reply) {
    && k < |frames|
    && TypedReply(frames[k], msgType) == Some(reply)
    && forall j :: 0 <= j < k ==> TypedReply(frames[j], msgType) == None
  }

  /** The offer taken is the first offer for our transaction, and the server is the last one
      named by any of our messages up to and including it. */
  lemma {:induction false} OfferTakenIsFirst(frames: seq<seq<byte>>, w: Wait) returns (k: nat)
    requires w.offer == None && AwaitOffer(frames, w).offer.Some?
    ensures FirstOfType(frames, OFFER, k, AwaitOffer(frames, w).offer.value)
    ensures AwaitOffer(frames, w).server == ServerAfterAll(frames[..k + 1], w.server)
  {
    hide TypedReply, ServerAfter;
    var next := Wait(ServerAfter(frames[0], w.server), TypedReply(frames[0], OFFER));
    if next.offer.Some? {
      k := 0;
      AwaitOfferDone(frames[1..], next);
      assert frames[..1][1..] == [];
    } else {
      var k' := OfferTakenIsFirst(frames[1..], next);
      k := k' + 1;
      assert frames[..k + 1][0] == frames[0] && frames[..k + 1][1..] == frames[1..][..k' + 1];
      assert forall j :: 0 < j < k ==> frames[j] == frames[1..][j - 1];
    }
  }

  lemma {:induction false} ReplyTakenIsFirst(frames: seq<seq<byte>>, msgType: nat) returns (k: nat)
    requires FirstReply(frames, msgType).Some?
    ensures FirstOfType(frames, msgType, k, FirstReply(frames, msgType).value)
  {
    hide TypedReply;
    if TypedReply(frames[0], msgType).Some? {
      k := 0;
    } else {
      var k' := ReplyTakenIsFirst(frames[1..], msgType);
      k := k' + 1;
      assert forall j :: 0 < j < k ==> frames[j] == frames[1..][j - 1];
    }
  }

  /** w holds the first offer among the frames, and the server named last up to it. */
  ghost predicate FirstOfferIn(frames: seq<seq<byte>>, w: Wait) {
    w.offer.Some?
    && exists k ::
       FirstOfType(frames, OFFER, k, w.offer.value) && w.server == ServerAfterAll(frames[..k + 1], NO_ADDRESS)
  }

  ghost predicate FirstAckIn(frames: seq<seq<byte>>, ack: Reply) {
    exists k :: FirstOfType(frames, ACK, k, ack)
  }

  lemma OfferIsFirst(frames: seq<seq<byte>>)
    requires AwaitOffer(frames, Wait(NO_ADDRESS, None)).offer.Some?
    ensures FirstOfferIn(frames, AwaitOffer(frames, Wait(NO_ADDRESS, None)))
  {
    hide AwaitOffer;
    var k := OfferTakenIsFirst(frames, Wait(NO_ADDRESS, None));
  }

  lemma AckIsFirst(frames: seq<seq<byte>>)
    requires FirstReply(frames, ACK).Some?
    ensures FirstAckIn(frames, FirstReply(frames, ACK).value)
  {
    hide FirstReply;
    var k := ReplyTakenIsFirst(frames, ACK);
  }

  /** A lease is only ever granted on the trace discover, receives up to the first offer for our
      transaction, request for the address of that offer, receives up to the first
      acknowledgement; the address leased is the acknowledgement's. */
  lemma LeaseProvenance(link: Link, mac: Mac, lease: Lease, trace: seq<Event>, n: nat, m: nat, w: Wait, ack: Reply)
    requires Enough(link) && Completed(link, mac, lease, trace, n, m, w, ack)
    ensures |trace| == m + 2 <= 102 && n < m
    ensures trace[0] == Sent(DataPacket(Discover(mac, 0x12345678)))
    ensures trace[n + 1] == Sent(DataPacket(Request(mac, 0x12345678, w.offer.value.yiaddr, w.server)))
    ensures forall i :: 0 < i < |trace| && i != n + 1 ==> trace[i] == Received
    ensures lease.ip == ack.yiaddr && w.offer.value.yiaddr != [0, 0, 0, 0]
    ensures FirstOfferIn(AllFrames(link.received[..n]), w)
    ensures FirstAckIn(AllFrames(link.received[n..m]), ack)
  {
    hide Gathered, FirstReply, AwaitOffer, AllFrames, DataPacket, Discover, Request, FirstOfferIn, FirstAckIn;
    OfferIsFirst(AllFrames(link.received[..n]));
    AckIsFirst(AllFrames(link.received[n..m]));
  }

  /** A failed exchange has sent nothing if the discover could not be sent; otherwise the discover
      and, after an offer of an address, at most the request; and it has given up after 50 receives
      in vain, or at an offer that leads nowhere. */
  lemma FailureTrace(link: Link, mac: Mac, trace: seq<Event>, n: nat, w: Wait)
    requires Enough(link) && Refused(link, mac, trace, n, w)
    ensures trace == [] <==> !link.discoverSent
    ensures link.discoverSent ==> trace[0] == Sent(DataPacket(Discover(mac, 0x12345678)))
    ensures link.discoverSent && NoOfferAt(link, 50) ==>
              |trace| == 51 && forall i :: 0 < i < 51 ==> trace[i] == Received
    ensures link.discoverSent && OfferAt(link, n, w) && (w.offer.value.yiaddr == [0, 0, 0, 0] || !link.requestSent) ==>
              |trace| == n + 1 && forall i :: 0 < i < n + 1 ==> trace[i] == Received
    ensures Asks(link, n, w) ==>
              && |trace| == n + 52
              && trace[n + 1] == Sent(DataPacket(Request(mac, 0x12345678, w.offer.value.yiaddr, w.server)))
              && forall i :: 0 < i < |trace| && i != n + 1 ==> trace[i] == Received
  {
    hide WaitAfter, AckBetween, DataPacket, Discover, Request;
    if OfferAt(link, n, w) {
      OfferAtOnce(link, n, w, n, w);
    }
  }

  // ---- Which server is asked ----

  /** The message has an option 54 that holds an address. */
  ghost predicate NamesServer(reply: Reply) {
    exists k :: LastOf(SERVER_ID, 4, Seen(reply.options), k)
  }

  lemma {:induction false} LastOrNone(code: byte, least: nat, opts: seq<Opt>)
    ensures NoneOf(code, least, opts) || exists k :: LastOf(code, least, opts, k)
  {
    if opts != [] {
      LastOrNone(code, least, opts[1..]);
      if k: nat :| LastOf(code, least, opts[1..], k) {
        assert opts[k + 1 + 1..] == opts[1..][k + 1..];
        assert LastOf(code, least, opts, k + 1);
      } else if opts[0].code == code && |opts[0].value| >= least {
        assert LastOf(code, least, opts, 0);
      }
    }
  }

  /** A message that names a server makes it the one to ask, by its last option 54; any other
      leaves the one noted before. */
  lemma ServerOfMessage(frame: seq<byte>, before: Ip, k: nat)
    requires ReplyIn(frame).Some?
    ensures
      var reply := ReplyIn(frame).value;
      && (LastOf(SERVER_ID, 4, Seen(reply.options), k) ==>
            ServerAfter(frame, before) == Seen(reply.options)[k].value[..4])
      && (!NamesServer(reply) ==> ServerAfter(frame, before) == before)
  {
    hide Seen, NoteAll, LastOf, NoneOf, ReplyIn;
    var opts := Seen(ReplyIn(frame).value.options);
    LastOrNone(SERVER_ID, 4, opts);
    ScanUntouched(opts, Scanned(0, before));
    if LastOf(SERVER_ID, 4, opts, k) {
      ScanTakesLastServer(opts, Scanned(0, before), k);
    }
  }

  lemma {:induction false} ServerSnoc(frames: seq<seq<byte>>, frame: seq<byte>, server: Ip)
    ensures ServerAfterAll(frames + [frame], server) == ServerAfter(frame, ServerAfterAll(frames, server))
  {
    hide ServerAfter;
    if frames == [] {
      assert frames + [frame] == [frame] && [frame][1..] == [];
    } else {
      assert (frames + [frame])[1..] == frames[1..] + [frame];
      ServerSnoc(frames[1..], frame, ServerAfter(frames[0], server));
    }
  }

  const SOME_ENVELOPE := Envelope(Zeros(12), 5, Zeros(8), Zeros(10), Zeros(2), Zeros(4), Zeros(4), Zeros(8), Zeros(216))

  /** A negative acknowledgement for our transaction from another server. */
  function Nak(server: Ip): seq<byte> {
    ServerFrame(SOME_ENVELOPE, NO_ADDRESS, Area(NakOptions(server), 0, []))
  }

  function NakOptions(server: Ip): (items: seq<Padded>)
    ensures AllEncodable(items)
  {
    [Padded(0, Opt(MSG_TYPE, [6])), Padded(0, Opt(SERVER_ID, server))]
  }

  lemma NakNotes(server: Ip, before: Ip)
    ensures TypedReply(Nak(server), OFFER) == None && FrameOk(Nak(server), OFFER)
    ensures ServerAfter(Nak(server), before) == server
  {
    hide Seen, Overrun, ReplyIn, NoteAll, Area;
    var items := NakOptions(server);
    var area := Area(items, 0, []);
    NakLast(server);
    EncodedMessageTyped(SOME_ENVELOPE, NO_ADDRESS, items, 0, [], 0);
    ServerFrameTaken(SOME_ENVELOPE, NO_ADDRESS, area);
    DecodeUndoesEncode(items, 0, []);
    ScanTakesLastServer(OptsOf(items), Scanned(0, before), 1);
  }

  lemma NakLast(server: Ip)
    ensures LastOf(MSG_TYPE, 1, OptsOf(NakOptions(server)), 0)
    ensures LastOf(SERVER_ID, 4, OptsOf(NakOptions(server)), 1)
    ensures OptsOf(NakOptions(server))[0].value == [6] && OptsOf(NakOptions(server))[1].value[..4] == server
  {
    var items := NakOptions(server);
    var a, b := Opt(MSG_TYPE, [6]), Opt(SERVER_ID, server);
    assert items[1..] == [Padded(0, b)] && items[1..][1..] == [];
    assert OptsOf(items) == [a, b];
    assert [a, b][1..] == [b] && [a, b][2..] == [];
  }

  /** Frames that the offer loop can look at in vain. */
  ghost predicate History(frames: seq<seq<byte>>) {
    LookedAtOk(frames, OFFER) && FirstReply(frames, OFFER) == None
  }

  lemma NakIsHistory(server: Ip)
    ensures History([Nak(server)]) && History([])
  {
    hide FrameOk, TypedReply;
    NakNotes(server, NO_ADDRESS);
    FirstReplyShort(Nak(server), OFFER);
    assert [Nak(server)][1..] == [];
    assert LookedAtOk([], OFFER);
  }

  /** The request names the server of the offer whatever was received before it if and only if
      the offer itself names one. */
  lemma ServerAskedExact(frame: seq<byte>)
    requires TypedReply(frame, OFFER).Some?
    ensures NamesServer(ReplyIn(frame).value) <==>
            forall h, h' :: History(h) && History(h') ==>
              ServerAfterAll(h + [frame], NO_ADDRESS) == ServerAfterAll(h' + [frame], NO_ADDRESS)
  {
    hide NamesServer, ServerAfter, History, ServerAfterAll, LastOf, TypedReply, ReplyIn, Nak, AwaitOffer;
    TypedIsReply(frame, OFFER);
    var reply := ReplyIn(frame).value;
    if NamesServer(reply) {
      var k := NamedAt(reply);
      forall h, h' | History(h) && History(h')
        ensures ServerAfterAll(h + [frame], NO_ADDRESS) == ServerAfterAll(h' + [frame], NO_ADDRESS)
      {
        ServerSnoc(h, frame, NO_ADDRESS);
        ServerSnoc(h', frame, NO_ADDRESS);
        ServerOfMessage(frame, ServerAfterAll(h, NO_ADDRESS), k);
        ServerOfMessage(frame, ServerAfterAll(h', NO_ADDRESS), k);
      }
    } else {
      OtherServerAsked(frame, DEFAULT_GATEWAY);
      OtherServerAsked(frame, DEFAULT_NETMASK);
      NakIsHistory(DEFAULT_GATEWAY);
      NakIsHistory(DEFAULT_NETMASK);
      assert [Nak(DEFAULT_GATEWAY), frame] == [Nak(DEFAULT_GATEWAY)] + [frame];
      assert [Nak(DEFAULT_NETMASK), frame] == [Nak(DEFAULT_NETMASK)] + [frame];
    }
  }

  lemma NamedAt(reply: Reply) returns (k: nat)
    requires NamesServer(reply)
    ensures LastOf(SERVER_ID, 4, Seen(reply.options), k)
  {
    k :| LastOf(SERVER_ID, 4, Seen(reply.options), k);
  }

  /** Two frames on which it does not: a refusal from any server, then an offer that names none.
      The offer is accepted from the server that refused. */
  lemma OtherServerAsked(frame: seq<byte>, other: Ip)
    requires TypedReply(frame, OFFER).Some? && !NamesServer(ReplyIn(frame).value)
    ensures AwaitOffer([Nak(other), frame], Wait(NO_ADDRESS, None)) == Wait(other, ReplyIn(frame))
    ensures ServerAfterAll([Nak(other), frame], NO_ADDRESS) == other
  {
    hide NamesServer, ServerAfter, LastOf, TypedReply, ReplyIn, Nak, FrameOk;
    TypedIsReply(frame, OFFER);
    NakNotes(other, NO_ADDRESS);
    ServerOfMessage(frame, other, 0);
    var frames: seq<seq<byte>> := [Nak(other), frame];
    assert frames[1..] == [frame] && frames[1..][1..] == [];
    AwaitOfferShort(frame, Wait(other, None));
    assert frames == [Nak(other)] + [frame] && [Nak(other)] == [] + [Nak(other)];
    ServerSnoc([], Nak(other), NO_ADDRESS);
    ServerSnoc([Nak(other)], frame, NO_ADDRESS);
  }

  // ---- The other fields ----

  lemma {:induction false} ApplyConcat(a: seq<Opt>, b: seq<Opt>, st: Settings)
    ensures ApplyAll(a + b, st) == ApplyAll(b, ApplyAll(a, st))
  {
    if a == [] {
      assert a + b == b;
    } else {
      assert (a + b)[0] == a[0] && (a + b)[1..] == a[1..] + b;
      ApplyConcat(a[1..], b, Apply(st, a[0]));
    }
  }

  function FieldOf(lease: Lease, f: Field): Ip {
    match f
    case Gateway => lease.gateway
    case Netmask => lease.netmask
    case Dns1 => lease.dns1
    case Dns2 => lease.dns2
  }

  function DefaultOf(f: Field): Ip {
    match f
    case Gateway => [192, 168, 42, 129]
    case Netmask => [255, 255, 255, 0]
    case Dns1 => [8, 8, 8, 8]
    case Dns2 => [8, 8, 4, 4]
  }

  /** Every other field of the lease is what the last option that sets it says, over the options
      of the offer followed by those of the acknowledgement, or the default if that is zero. */
  lemma LeaseFieldIsLastOption(ip: Ip, offer: Reply, ack: Reply, f: Field, k: nat)
    requires LastSetter(f, Decode(offer.options) + Decode(ack.options), k)
    ensures
      var said := SetTo(f, (Decode(offer.options) + Decode(ack.options))[k]);
      FieldOf(LeaseFrom(ip, Gathered(offer, ack)), f) == if said == [0, 0, 0, 0] then DefaultOf(f) else said
  {
    hide ApplyAll, Decode;
    ApplyConcat(Decode(offer.options), Decode(ack.options), NO_SETTINGS);
    LastWriterWins(Decode(offer.options) + Decode(ack.options), NO_SETTINGS, f, k);
  }

  /** And the default if no option sets it. */
  lemma LeaseFieldDefault(ip: Ip, offer: Reply, ack: Reply, f: Field)
    requires forall o :: o in Decode(offer.options) + Decode(ack.options) ==> !Sets(f, o)
    ensures FieldOf(LeaseFrom(ip, Gathered(offer, ack)), f) == DefaultOf(f)
  {
    hide ApplyAll, Decode;
    var opts := Decode(offer.options) + Decode(ack.options);
    ApplyConcat(Decode(offer.options), Decode(ack.options), NO_SETTINGS);
    assert forall j :: 0 <= j < |opts| ==> opts[j] in opts;
    UntouchedUnlessSet(opts, NO_SETTINGS, f);
  }

  // ---- A server that answers ----

  lemma PacketFrames(frame: seq<byte>)
    requires frame != [] && |frame| < TWO31 - HEADER_SIZE
    ensures Frames(DataPacket(frame)) == [frame]
    ensures |DataPacket(frame)| < TWO31 && SumFits(DataPacket(frame), Consumed(DataPacket(frame)))
  {
    var items := [Data(frame)];
    assert items[1..] == [];
    assert Encode(items) + [] == DataPacket(frame) == Encode(items);
    UnwrapUndoesWrap(items, []);
    WellFormedSumFits(items);
    assert FramesOf(items) == [frame];
  }

  /** The two answers that a server sends in time. */
  predicate Answered(link: Link, offer: seq<byte>, ack: seq<byte>) {
    && link.discoverSent && link.requestSent && Enough(link)
    && link.received[0] == DataPacket(offer) && link.received[1] == DataPacket(ack)
    && 0 < |offer| < TWO31 - HEADER_SIZE && 0 < |ack| < TWO31 - HEADER_SIZE
  }

  /** Against a server that answers the discover with an offer and the request with an
      acknowledgement, the exchange completes: with the acknowledgement's address, after two
      receives, whatever further receives would return. */
  lemma AnsweredExchangeCompletes(link: Link, mac: Mac, offer: seq<byte>, ack: seq<byte>)
    requires Answered(link, offer, ack)
    requires TypedReply(offer, OFFER).Some? && FrameOk(offer, OFFER) && ReplyIn(offer).value.yiaddr != NO_ADDRESS
    requires TypedReply(ack, ACK).Some? && FrameOk(ack, ACK)
    ensures LinkOk(link)
    ensures
      var r, a, w := ReplyIn(offer).value, ReplyIn(ack).value, WaitAfter(link, 1);
      && w == Wait(ServerAfter(offer, NO_ADDRESS), Some(r))
      && Completed(link, mac, LeaseFrom(a.yiaddr, Gathered(r, a)), Accepted(mac, 1, w) + Receives(1), 1, 2, w, a)
  {
    hide Frames, FrameOk, TypedReply, ReplyIn, ServerAfter, Gathered, LeaseFrom, AckBetween, WaitAfter;
    hide DataPacket, SumFits, Consumed;
    PacketFrames(offer);
    PacketFrames(ack);
    NothingReceived(link, 1);
    NextOfferBuffer(link, 0);
    NextAckBuffer(link, 1, 1);
    AwaitOfferShort(offer, Wait(NO_ADDRESS, None));
    FirstReplyShort(ack, ACK);
    TypedIsReply(offer, OFFER);
    TypedIsReply(ack, ACK);
    var w := WaitAfter(link, 1);
    assert NoOfferAt(link, 0) && OfferAt(link, 1, w) && NoAckAt(link, 1, 1);
    AnsweredLinkOk(link, offer, ack, w);
  }

  lemma TypedIsReply(frame: seq<byte>, msgType: nat)
    requires TypedReply(frame, msgType).Some?
    ensures TypedReply(frame, msgType) == ReplyIn(frame)
  {
  }

  /** Only the first two receives are looked at. */
  lemma AnsweredLinkOk(link: Link, offer: seq<byte>, ack: seq<byte>, w: Wait)
    requires Answered(link, offer, ack) && OfferAt(link, 1, w) && AckBetween(link, 1, 2).Some?
    requires TypedReply(offer, OFFER).Some? && FrameOk(offer, OFFER)
    requires TypedReply(ack, ACK).Some? && FrameOk(ack, ACK)
    ensures LinkOk(link)
  {
    hide Frames, FrameOk, TypedReply, AckBetween, WaitAfter, DataPacket, SumFits, Consumed;
    PacketFrames(offer);
    PacketFrames(ack);
    FirstReplyShort(offer, OFFER);
    FirstReplyShort(ack, ACK);
    assert BufferOk(link.received[0], OFFER) && BufferOk(link.received[1], ACK);
    forall n: nat | NoOfferAt(link, n) && n < ATTEMPTS
      ensures BufferOk(link.received[n], OFFER)
    {
      if n > 0 {
        OfferStays(link, 1, n);
      }
    }
    forall n: nat, v, m: nat | Asks(link, n, v) && NoAckAt(link, n, m) && m < n + ATTEMPTS
      ensures BufferOk(link.received[m], ACK)
    {
      OfferAtOnce(link, 1, w, n, v);
      if m > 1 {
        AckStays(link, 1, 2, m);
      }
    }
  }

  /** What a server puts into an offer or an acknowledgement. */
  datatype Served = Served(envelope: Envelope, yiaddr: Ip, items: seq<Padded>, pads: nat, tail: seq<byte>)

  /** The last option 53 gives the type. */
  predicate TypedAt(opts: seq<Opt>, msgType: byte, k: nat) {
    LastOf(MSG_TYPE, 1, opts, k) && opts[k].value[0] == msgType
  }

  ghost predicate ServedOk(v: Served, msgType: byte) {
    && EnvelopeOk(v.envelope) && AllEncodable(v.items)
    && (exists k: nat :: TypedAt(OptsOf(v.items), msgType, k))
    && |ServedFrame(v)| < TWO31 - HEADER_SIZE
  }

  function ServedFrame(v: Served): seq<byte>
    requires EnvelopeOk(v.envelope) && AllEncodable(v.items)
  {
    ServerFrame(v.envelope, v.yiaddr, Area(v.items, v.pads, v.tail))
  }

  lemma ServedTaken(v: Served, msgType: byte)
    requires ServedOk(v, msgType)
    ensures TypedReply(ServedFrame(v), msgType) == Some(Reply(v.yiaddr, Area(v.items, v.pads, v.tail)))
    ensures ReplyIn(ServedFrame(v)) == Some(Reply(v.yiaddr, Area(v.items, v.pads, v.tail)))
    ensures FrameOk(ServedFrame(v), OFFER) && FrameOk(ServedFrame(v), ACK)
    ensures Decode(Area(v.items, v.pads, v.tail)) == OptsOf(v.items)
  {
    hide ReplyIn, TypedReply, FrameOk, Decode, ServerFrame, Area;
    var k: nat :| TypedAt(OptsOf(v.items), msgType, k);
    EncodedMessageTyped(v.envelope, v.yiaddr, v.items, v.pads, v.tail, k);
    ServerFrameTaken(v.envelope, v.yiaddr, Area(v.items, v.pads, v.tail));
    DecodeUndoesEncode(v.items, v.pads, v.tail);
  }

  /** The field is what the option at k says, unless that is no address. */
  predicate Says(lease: Lease, opts: seq<Opt>, f: Field, k: nat)
    requires LastSetter(f, opts, k)
  {
    FieldOf(lease, f) == if SetTo(f, opts[k]) == [0, 0, 0, 0] then DefaultOf(f) else SetTo(f, opts[k])
  }

  /** The lease holds what the options say: of each field what the last option that sets it says,
      and the default if none does. */
  ghost predicate HoldsOptions(lease: Lease, opts: seq<Opt>) {
    && (forall f, k: nat :: LastSetter(f, opts, k) ==> Says(lease, opts, f, k))
    && (forall f :: NeverSet(f, opts) ==> FieldOf(lease, f) == DefaultOf(f))
  }

  predicate NeverSet(f: Field, opts: seq<Opt>) {
    forall j :: 0 <= j < |opts| ==> !Sets(f, opts[j])
  }

  lemma LeaseHoldsOptions(ip: Ip, opts: seq<Opt>)
    ensures HoldsOptions(LeaseFrom(ip, ApplyAll(opts, NO_SETTINGS)), opts)
  {
    hide ApplyAll;
    var lease := LeaseFrom(ip, ApplyAll(opts, NO_SETTINGS));
    forall f, k: nat | LastSetter(f, opts, k)
      ensures Says(lease, opts, f, k)
    {
      LastWriterWins(opts, NO_SETTINGS, f, k);
    }
    forall f | NeverSet(f, opts)
      ensures FieldOf(lease, f) == DefaultOf(f)
    {
      UntouchedUnlessSet(opts, NO_SETTINGS, f);
    }
  }

  /** The whole exchange against a server: whatever addresses it offers and whatever options it
      encodes, with an offer (type 2) of a real address and an acknowledgement (type 5), the
      exchange completes with the acknowledged address and the settings of the server's options,
      offer first. */
  lemma ServerLeases(link: Link, mac: Mac, offer: Served, ack: Served)
    requires ServedOk(offer, 2) && ServedOk(ack, 5) && offer.yiaddr != [0, 0, 0, 0]
    requires Answered(link, ServedFrame(offer), ServedFrame(ack))
    ensures LinkOk(link)
    ensures exists lease, trace, w, reply ::
      && Completed(link, mac, lease, trace, 1, 2, w, reply)
      && lease.ip == ack.yiaddr && HoldsOptions(lease, OptsOf(offer.items) + OptsOf(ack.items))
  {
    hide LinkOk, Completed, ApplyAll, Decode, ReplyIn, TypedReply, FrameOk, ServedFrame, OptsOf, Area, WaitAfter;
    hide HoldsOptions;
    ServedTaken(offer, OFFER);
    ServedTaken(ack, ACK);
    AnsweredExchangeCompletes(link, mac, ServedFrame(offer), ServedFrame(ack));
    var opts := OptsOf(offer.items) + OptsOf(ack.items);
    ApplyConcat(OptsOf(offer.items), OptsOf(ack.items), NO_SETTINGS);
    LeaseHoldsOptions(ack.yiaddr, opts);
    var w := WaitAfter(link, 1);
    var lease := LeaseFrom(ack.yiaddr, ApplyAll(opts, NO_SETTINGS));
    assert Completed(link, mac, lease, Accepted(mac, 1, w) + Receives(1), 1, 2, w, ReplyIn(ServedFrame(ack)).value);
  }
}

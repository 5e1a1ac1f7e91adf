/** rndis_drv_unwrap_data: the walk over a bulk buffer that may hold several RNDIS messages. */
module Unwrap {
  import opened Bytes
  import opened Options
  import opened Rndis
  import opened FiniteSets

  function MsgLen(s: seq<byte>): (n: nat)
    requires |s| >= 8
    ensures n < TWO32
  {
    FieldAt(s, 4)
  }

  /** s begins with a message that lies wholly inside it. */
  predicate Whole(s: seq<byte>) {
    |s| >= 8 && 0 < MsgLen(s) <= |s|
  }

  function Delivered(msg: seq<byte>): (frames: seq<seq<byte>>)
    ensures forall f :: f in frames ==> f != []
  {
    match Parsed(msg)
    case None => []
    case Some(frame) => [frame]
  }

  /** The frames a buffer carries: those of its whole messages, up to the first position at
      which no whole message begins. Stated over unbounded integers. */
  function Frames(s: seq<byte>): seq<seq<byte>> {
    if Whole(s) then Delivered(s[..MsgLen(s)]) + Frames(s[MsgLen(s)..]) else []
  }

  /** The number of bytes in those messages. */
  function Consumed(s: seq<byte>): (n: nat)
    ensures n <= |s|
  {
    if Whole(s) then MsgLen(s) + Consumed(s[MsgLen(s)..]) else 0
  }

  /** The hypothesis of the walk: wherever it tests offset + msg_len the 32-bit sum does not wrap.
      Only the length field at which the walk stops can break it. */
  predicate SumFits(data: seq<byte>, offset: nat) {
    offset + 8 <= |data| ==> offset + MsgLen(data[offset..]) < TWO32
  }

  /** The loop's two tests in the arithmetic of the code. */
  predicate Continues(data: seq<byte>, offset: nat)
    requires |data| < TWO31 && offset <= |data|
  {
    && U32(offset + 8) <= |data|
    && MsgLen(data[offset..]) != 0
    && U32(offset + MsgLen(data[offset..])) <= |data|
  }

  /** Where the sum fits, the code's tests say exactly that a whole message is there. Where it
      wraps, they always let the loop go on, to an offset before the current one. */
  lemma TestsMeetMeaning(data: seq<byte>, offset: nat)
    requires |data| < TWO31 && offset <= |data|
    ensures SumFits(data, offset) ==> (Continues(data, offset) <==> Whole(data[offset..]))
    ensures !SumFits(data, offset) ==>
              && Continues(data, offset)
              && !Whole(data[offset..])
              && U32(offset + MsgLen(data[offset..])) < offset
  {
    if offset + 8 <= |data| {
      var sum := offset + MsgLen(data[offset..]);
      if sum >= TWO32 {
        assert U32(sum) == sum - TWO32;
      }
    }
  }

  /** rndis_drv_unwrap_data on a received buffer of less than 2^31 bytes (actual_length is an
      int). The frames on_frame is called with are collected in order. */
  method UnwrapData(data: seq<byte>) returns (frames: seq<seq<byte>>)
    requires |data| < TWO31
    requires SumFits(data, Consumed(data))
    ensures frames == Frames(data)
  {
    hide Le32, Frames, Consumed, Whole;
    frames := [];
    var offset := 0;
    assert data[offset..] == data;
    while U32(offset + 8) <= |data|
      invariant offset <= |data|
      invariant Frames(data) == frames + Frames(data[offset..])
      invariant Consumed(data) == offset + Consumed(data[offset..])
      decreases |data| - offset
    {
      var msgLen := FieldAt(data[offset..], 4);
      if msgLen == 0 || U32(offset + msgLen) > |data| {
        break;
      }
      WholeOrFits(data, offset);
      WalkOn(data, offset);
      var msg := data[offset..offset + msgLen];
      var slice := ParseData(msg);
      if slice.Slice? {
        frames := frames + [msg[slice.start..slice.start + slice.len]];
      }
      offset := offset + msgLen;
    }
    WalkEnds(data, offset);
  }

  lemma WalkEnds(data: seq<byte>, offset: nat)
    requires |data| < TWO31 && offset <= |data|
    requires !Continues(data, offset)
    ensures Frames(data[offset..]) == []
    ensures Consumed(data[offset..]) == 0
  {
    TestsMeetMeaning(data, offset);
  }

  lemma NotAtEnd(s: seq<byte>)
    ensures !Whole(s) ==> Consumed(s) == 0
  {
  }

  lemma FirstMessage(s: seq<byte>)
    requires Whole(s)
    ensures |s| >= 8 && MsgLen(s) <= |s|
    ensures Frames(s) == Delivered(s[..MsgLen(s)]) + Frames(s[MsgLen(s)..])
    ensures Consumed(s) == MsgLen(s) + Consumed(s[MsgLen(s)..])
  {
    hide Le32, Delivered;
  }

  /** One more round of the loop, at an offset where the sum does not wrap or a message is there. */
  lemma WalkOn(data: seq<byte>, offset: nat)
    requires |data| < TWO31 && offset + 8 <= |data|
    requires Continues(data, offset)
    requires Whole(data[offset..]) || SumFits(data, offset)
    ensures offset + MsgLen(data[offset..]) <= |data|
    ensures U32(offset + MsgLen(data[offset..])) == offset + MsgLen(data[offset..])
    ensures
      var next := offset + MsgLen(data[offset..]);
      && Frames(data[offset..]) == Delivered(data[offset..next]) + Frames(data[next..])
      && Consumed(data[offset..]) == next - offset + Consumed(data[next..])
  {
    hide MsgLen, Frames, Consumed, Delivered, Whole, SumFits, Continues;
    TestsMeetMeaning(data, offset);
    FirstMessage(data[offset..]);
    SliceOfRest(data, offset, MsgLen(data[offset..]));
  }

  /** The hypothesis matters only at the end of the last whole message. */
  lemma WholeOrFits(data: seq<byte>, offset: nat)
    requires offset <= |data|
    requires SumFits(data, Consumed(data)) && Consumed(data) == offset + Consumed(data[offset..])
    ensures Whole(data[offset..]) || SumFits(data, offset)
  {
    hide Frames, Consumed, Whole, SumFits;
    NotAtEnd(data[offset..]);
  }

  lemma SliceOfRest(data: seq<byte>, offset: nat, n: nat)
    requires offset + n <= |data|
    ensures data[offset..][..n] == data[offset..offset + n]
    ensures data[offset..][n..] == data[offset + n..]
  {
  }

  lemma {:induction false} NoMessageAfter(s: seq<byte>)
    ensures !Whole(s[Consumed(s)..])
  {
    if Whole(s) {
      var n := MsgLen(s);
      NoMessageAfter(s[n..]);
      assert s[n..][Consumed(s[n..])..] == s[Consumed(s)..];
    }
  }

  // ---- What happens when the sum wraps ----

  /** The offset after k rounds of the loop in the arithmetic of the code, if it is still running. */
  function After(data: seq<byte>, k: nat): (r: Option<nat>)
    requires |data| < TWO31
    ensures r.Some? ==> r.value <= |data|
  {
    if k == 0 then Some(0)
    else
      match After(data, k - 1)
      case None => None
      case Some(offset) =>
        if Continues(data, offset) then Some(U32(offset + MsgLen(data[offset..]))) else None
  }

  /** The walk stands on its way to the end of the last whole message. */
  predicate OnWay(data: seq<byte>, offset: nat) {
    offset <= |data| && offset + Consumed(data[offset..]) == Consumed(data)
  }

  /** From anywhere on the way the walk comes to its end, */
  lemma {:induction false} ArrivesAtEnd(data: seq<byte>, k: nat, offset: nat) returns (k': nat)
    requires |data| < TWO31 && After(data, k) == Some(offset) && OnWay(data, offset)
    ensures After(data, k') == Some(Consumed(data))
    decreases |data| - offset
  {
    hide MsgLen, Consumed, Whole, Frames, Delivered;
    if Whole(data[offset..]) {
      OneRound(data, offset);
      k' := ArrivesAtEnd(data, k + 1, offset + MsgLen(data[offset..]));
    } else {
      NotAtEnd(data[offset..]);
      k' := k;
    }
  }

  lemma OneRound(data: seq<byte>, offset: nat)
    requires |data| < TWO31 && OnWay(data, offset) && Whole(data[offset..])
    ensures |data[offset..]| >= 8 && MsgLen(data[offset..]) > 0 && Continues(data, offset)
    ensures
      var next := offset + MsgLen(data[offset..]);
      U32(next) == next && OnWay(data, next)
  {
    TestsMeetMeaning(data, offset);
    hide MsgLen, Consumed, Frames, Delivered;
    FirstMessage(data[offset..]);
    WalkOn(data, offset);
  }

  /** The walk of the code comes to the end of the last whole message and stops there if and only
      if the sum that it tests there does not wrap. */
  lemma StopsWhereMessagesEnd(data: seq<byte>)
    requires |data| < TWO31
    ensures (exists k: nat :: After(data, k) == Some(Consumed(data)) && After(data, k + 1) == None)
       <==> SumFits(data, Consumed(data))
  {
    hide MsgLen, Consumed, Whole, SumFits, Continues;
    NoMessageAfter(data);
    TestsMeetMeaning(data, Consumed(data));
    assert data[0..] == data;
    var k := ArrivesAtEnd(data, 0, 0);
    assert After(data, k + 1) == None <==> !Continues(data, Consumed(data));
  }

  // ---- When the walk ends ----

  lemma {:induction false} StaysEnded(data: seq<byte>, k: nat, k': nat)
    requires |data| < TWO31 && k <= k' && After(data, k) == None
    ensures After(data, k') == None
  {
    if k < k' {
      StaysEnded(data, k, k' - 1);
    }
  }

  /** A walk that comes to an offset twice goes on as before. */
  lemma {:induction false} GoesOnAsBefore(data: seq<byte>, i: nat, j: nat, k: nat)
    requires |data| < TWO31 && i < j && After(data, i) == After(data, j)
    ensures After(data, i + k) == After(data, j + k)
  {
    hide Continues, MsgLen, U32;
    if k > 0 {
      assert After(data, i + k - 1) == After(data, j + k - 1) by { GoesOnAsBefore(data, i, j, k - 1); }
    }
  }

  lemma {:induction false} RepeatNeverEnds(data: seq<byte>, i: nat, j: nat, k: nat)
    requires |data| < TWO31 && i < j && After(data, i) == After(data, j) && After(data, j).Some?
    ensures After(data, k).Some?
  {
    hide After;
    if k <= j {
      if After(data, k) == None {
        StaysEnded(data, k, j);
      }
    } else {
      RepeatNeverEnds(data, i, j, k - (j - i));
      GoesOnAsBefore(data, i, j, k - j);
    }
  }

  /** On any buffer the walk of the code ends if and only if it ends within two rounds more than
      there are bytes; otherwise it never does. */
  lemma EndsSoonOrNever(data: seq<byte>)
    requires |data| < TWO31
    ensures (exists k: nat :: After(data, k) == None) <==> After(data, |data| + 2) == None
  {
    hide Continues, MsgLen, After;
    var n := |data| + 2;
    if After(data, n).Some? {
      forall k: nat | k <= n ensures After(data, k).Some? {
        if After(data, k) == None {
          StaysEnded(data, k, n);
        }
      }
      var offsets := seq(n, k requires 0 <= k < n => After(data, k).value);
      var i, j := Pigeonhole(offsets, |data| + 1);
      assert offsets[i] == After(data, i).value && offsets[j] == After(data, j).value;
      forall k: nat ensures After(data, k).Some? {
        RepeatNeverEnds(data, i, j, k);
      }
    }
  }

  // ---- How far the walk looks ----

  /** How far from an offset the loop and the parser look, or hand out bytes. */
  function Extent(mem: seq<byte>, offset: nat): nat
    requires offset + 16 <= |mem|
  {
    var msgLen := MsgLen(mem[offset..]);
    if msgLen < HEADER_SIZE || FieldAt(mem[offset..], 0) != PACKET_MSG then 8
    else
      match ParseAs(mem[offset..], msgLen)
      case Rejected => 16
      case Slice(start, len) => if start + len < 16 then 16 else start + len
  }

  /** The n received bytes, of the memory that begins with them. */
  predicate Received(mem: seq<byte>, n: nat) {
    n < TWO31 && n + 8 <= |mem|
  }

  /** The round that begins at the offset stays inside the received bytes. */
  predicate RoundInside(mem: seq<byte>, n: nat, offset: nat)
    requires Received(mem, n)
  {
    offset <= n && Continues(mem[..n], offset) ==> offset + Extent(mem, offset) <= n
  }

  ghost predicate WalkInside(mem: seq<byte>, n: nat)
    requires Received(mem, n)
  {
    forall k: nat, o: nat :: After(mem[..n], k) == Some(o) ==> RoundInside(mem, n, o)
  }

  /** So it is with every round whose sum wraps. */
  ghost predicate WrapsInside(mem: seq<byte>, n: nat)
    requires Received(mem, n)
  {
    forall k: nat, o: nat :: After(mem[..n], k) == Some(o) && !SumFits(mem[..n], o) ==> o + Extent(mem, o) <= n
  }

  lemma FitsInside(mem: seq<byte>, n: nat, offset: nat)
    requires Received(mem, n) && offset <= n && SumFits(mem[..n], offset)
    ensures RoundInside(mem, n, offset)
  {
    hide Le32;
    var data := mem[..n];
    TestsMeetMeaning(data, offset);
    if Continues(data, offset) {
      assert data[offset..][4..8] == data[offset + 4..offset + 8] == mem[offset..][4..8];
    }
  }

  lemma {:induction false} StaysOnWay(data: seq<byte>, k: nat)
    requires |data| < TWO31 && SumFits(data, Consumed(data)) && After(data, k).Some?
    ensures OnWay(data, After(data, k).value)
  {
    hide MsgLen, Consumed, Whole, SumFits, Continues;
    if k == 0 {
      assert data[0..] == data;
    } else {
      StaysOnWay(data, k - 1);
      var o := After(data, k - 1).value;
      WholeOrFits(data, o);
      TestsMeetMeaning(data, o);
      OneRound(data, o);
    }
  }

  /** Every slice that the walk hands out, and every byte that it reads, lies inside the received
      bytes, whatever lies behind them, if and only if this holds of the rounds whose sum wraps.
      There is no such round if the sum fits at the last message end; if it does not, that end is
      one, and the code does not compare its header with the received length. */
  lemma WalkInsideExact(mem: seq<byte>, n: nat)
    requires Received(mem, n)
    ensures
      var data := mem[..n];
      && (WalkInside(mem, n) <==> WrapsInside(mem, n))
      && (SumFits(data, Consumed(data)) ==> WalkInside(mem, n))
      && (!SumFits(data, Consumed(data)) && Consumed(data) + Extent(mem, Consumed(data)) > n ==> !WalkInside(mem, n))
  {
    hide MsgLen, Consumed, Whole, Extent, Continues;
    var data := mem[..n];
    forall k: nat, o: nat | After(data, k) == Some(o)
      ensures RoundInside(mem, n, o) <==> SumFits(data, o) || o + Extent(mem, o) <= n
      ensures SumFits(data, Consumed(data)) ==> RoundInside(mem, n, o)
    {
      RoundInsideExact(mem, n, o);
      if SumFits(data, Consumed(data)) {
        StaysOnWay(data, k);
        WholeOrFits(data, o);
        TestsMeetMeaning(data, o);
      }
    }
    assert data[0..] == data;
    var k := ArrivesAtEnd(data, 0, 0);
    if SumFits(data, Consumed(data)) {
      assert WalkInside(mem, n);
    }
    if WalkInside(mem, n) {
      assert RoundInside(mem, n, Consumed(data));
      assert WrapsInside(mem, n);
    } else {
      assert !WrapsInside(mem, n);
    }
  }

  lemma RoundInsideExact(mem: seq<byte>, n: nat, offset: nat)
    requires Received(mem, n) && offset <= n
    ensures RoundInside(mem, n, offset) <==> SumFits(mem[..n], offset) || offset + Extent(mem, offset) <= n
  {
    hide Extent, Continues;
    TestsMeetMeaning(mem[..n], offset);
    if SumFits(mem[..n], offset) {
      FitsInside(mem, n, offset);
    }
  }

  /** A buffer of 24 bytes of which the walk hands out bytes 52 to 1052. */
  lemma HandsOutBeyond()
    ensures exists data: seq<byte> ::
      |data| == 24 && After(data, 1) == Some(8)
      && forall mem: seq<byte> :: |mem| >= 32 && data <= mem ==> !RoundInside(mem, 24, 8) && Extent(mem, 8) == 1044
  {
    var data := BeyondInput();
    assert |data| == 24 && After(data, 1) == Some(8) by { BeyondFields(); }
    forall mem: seq<byte> | |mem| >= 32 && data <= mem
      ensures !RoundInside(mem, 24, 8) && Extent(mem, 8) == 1044
    {
      BeyondExtent(mem);
    }
  }

  function BeyondInput(): (data: seq<byte>)
    ensures |data| == 24
  {
    ToLe32(0) + ToLe32(8) + ToLe32(PACKET_MSG) + ToLe32(TWO32 - 8) + ToLe32(36) + ToLe32(1000)
  }

  lemma BeyondFields()
    ensures After(BeyondInput(), 0) == Some(0) && After(BeyondInput(), 1) == Some(8) && Continues(BeyondInput(), 8)
  {
    hide Le32, ToLe32;
    var data := BeyondInput();
    assert data[0..] == data && data[4..8] == ToLe32(8) && data[8..][4..8] == data[12..16] == ToLe32(TWO32 - 8);
    assert U32(8 + (TWO32 - 8)) == 0;
    assert Continues(data, 0) && MsgLen(data[0..]) == 8;
    assert After(data, 0) == Some(0);
  }

  lemma BeyondExtent(mem: seq<byte>)
    requires |mem| >= 32 && BeyondInput() <= mem
    ensures !RoundInside(mem, 24, 8) && Extent(mem, 8) == 1044
  {
    hide Le32, ToLe32;
    BeyondFields();
    var data, h := BeyondInput(), mem[8..];
    assert mem[..24] == data;
    assert h[0..4] == data[8..12] == ToLe32(PACKET_MSG) && h[4..8] == data[12..16] == ToLe32(TWO32 - 8);
    assert h[8..12] == data[16..20] == ToLe32(36) && h[12..16] == data[20..24] == ToLe32(1000);
  }

  /** A whole number of whole messages precedes the offset. */
  predicate IsBoundary(s: seq<byte>, offset: nat)
    decreases offset
  {
    offset == 0 || (Whole(s) && MsgLen(s) <= offset && IsBoundary(s[MsgLen(s)..], offset - MsgLen(s)))
  }

  lemma {:induction false} BoundaryOnWay(s: seq<byte>, offset: nat)
    requires IsBoundary(s, offset)
    ensures OnWay(s, offset)
    decreases offset
  {
    hide Le32;
    if offset > 0 {
      var n := MsgLen(s);
      BoundaryOnWay(s[n..], offset - n);
      assert s[n..][offset - n..] == s[offset..];
    } else {
      assert s[0..] == s;
    }
  }

  /** The walk goes back from the end of the last whole message to an offset from which it will
      come there again. */
  predicate GoesInCircles(data: seq<byte>) {
    var end := Consumed(data);
    && |data| < TWO31 && !SumFits(data, end)
    && var back := U32(end + MsgLen(data[end..]));
       back <= |data| && back + Consumed(data[back..]) == end
  }

  /** Such a walk is still running after any number of rounds. */
  lemma {:induction false} CircleNeverEnds(data: seq<byte>, k: nat)
    requires GoesInCircles(data)
    ensures After(data, k).Some?
    ensures var o := After(data, k).value; o + Consumed(data[o..]) == Consumed(data)
  {
    hide MsgLen, Consumed, Whole, Frames, Delivered;
    if k == 0 {
      assert data[0..] == data;
    } else {
      CircleNeverEnds(data, k - 1);
      var o := After(data, k - 1).value;
      NotAtEnd(data[o..]);
      TestsMeetMeaning(data, o);
      if Whole(data[o..]) {
        FirstMessage(data[o..]);
        WalkOn(data, o);
      }
    }
  }

  /** In particular when the wrapped offset is the start of the buffer or of any of its messages. */
  lemma WrapToBoundaryNeverEnds(data: seq<byte>, k: nat)
    requires |data| < TWO31 && !SumFits(data, Consumed(data))
    requires IsBoundary(data, U32(Consumed(data) + MsgLen(data[Consumed(data)..])))
    ensures After(data, k).Some?
  {
    hide Consumed;
    BoundaryOnWay(data, U32(Consumed(data) + MsgLen(data[Consumed(data)..])));
    CircleNeverEnds(data, k);
  }

  /** And there is such a buffer, of 16 bytes. */
  lemma EndlessWalk()
    ensures exists data: seq<byte> :: |data| == 16 && forall k: nat :: After(data, k).Some?
  {
    var head := ToLe32(0) + ToLe32(8);
    var tail := ToLe32(0) + ToLe32(TWO32 - 8);
    var data := head + tail;
    assert head[4..8] == ToLe32(8) && data[4..8] == head[4..8];
    assert tail[4..8] == ToLe32(TWO32 - 8) && data[8..] == tail;
    assert Consumed(tail) == 0;
    assert Consumed(data) == 8;
    forall k: nat ensures After(data, k).Some? {
      WrapToBoundaryNeverEnds(data, k);
    }
  }

  // ---- Composition ----

  lemma WholeExtends(a: seq<byte>, b: seq<byte>)
    requires Whole(a)
    ensures Whole(a + b) && MsgLen(a + b) == MsgLen(a)
    ensures (a + b)[..MsgLen(a)] == a[..MsgLen(a)]
    ensures (a + b)[MsgLen(a)..] == a[MsgLen(a)..] + b
  {
    assert (a + b)[4..8] == a[4..8];
  }

  /** Walking is compositional after any buffer that the walk consumes to its last byte. */
  lemma {:induction false} FramesConcat(a: seq<byte>, b: seq<byte>)
    requires Consumed(a) == |a|
    ensures Frames(a + b) == Frames(a) + Frames(b)
    ensures Consumed(a + b) == |a| + Consumed(b)
  {
    if a == [] {
      assert a + b == b;
    } else {
      WholeExtends(a, b);
      FramesConcat(a[MsgLen(a)..], b);
    }
  }

  // ---- Well-formed streams ----

  datatype Item = Data(frame: seq<byte>) | Other(msg: seq<byte>)

  /** A data message of any frame that fits the length field, or any message of another type
      whose length field is its length. */
  predicate ItemOk(it: Item) {
    match it
    case Data(frame) => HEADER_SIZE + |frame| < TWO32
    case Other(msg) => |msg| >= 8 && MsgLen(msg) == |msg| && FieldAt(msg, 0) != PACKET_MSG
  }

  predicate ItemsOk(items: seq<Item>) {
    forall it :: it in items ==> ItemOk(it)
  }

  function EncodeItem(it: Item): seq<byte> {
    match it
    case Data(frame) => DataPacket(frame)
    case Other(msg) => msg
  }

  function Encode(items: seq<Item>): seq<byte> {
    if items == [] then [] else EncodeItem(items[0]) + Encode(items[1..])
  }

  /** The non-empty frames of a list of messages, in order. */
  function FramesOf(items: seq<Item>): seq<seq<byte>> {
    if items == [] then []
    else (if items[0].Data? && items[0].frame != [] then [items[0].frame] else []) + FramesOf(items[1..])
  }

  lemma ItemIsWhole(it: Item)
    requires ItemOk(it)
    ensures var e := EncodeItem(it);
      && |e| >= 8 && Whole(e) && MsgLen(e) == |e|
      && Delivered(e) == (if it.Data? && it.frame != [] then [it.frame] else [])
  {
    match it
    case Data(frame) =>
      DataPacketFields(frame);
      ParseUndoesBuild(frame);
    case Other(msg) =>
  }

  lemma ItemWalk(it: Item, rest: seq<byte>)
    requires ItemOk(it)
    ensures var s := EncodeItem(it) + rest;
      && Frames(s) == (if it.Data? && it.frame != [] then [it.frame] else []) + Frames(rest)
      && Consumed(s) == |EncodeItem(it)| + Consumed(rest)
  {
    var e := EncodeItem(it);
    ItemIsWhole(it);
    WholeExtends(e, rest);
    assert e[..|e|] == e && e[|e|..] + rest == rest;
  }

  lemma {:induction false} WalkEncoded(items: seq<Item>, tail: seq<byte>)
    requires ItemsOk(items)
    requires !Whole(tail)
    ensures Frames(Encode(items) + tail) == FramesOf(items)
    ensures Consumed(Encode(items) + tail) == |Encode(items)|
  {
    if items == [] {
      assert Encode(items) + tail == tail;
    } else {
      WalkEncoded(items[1..], tail);
      ItemWalk(items[0], Encode(items[1..]) + tail);
      assert Encode(items) + tail == EncodeItem(items[0]) + (Encode(items[1..]) + tail);
    }
  }

  /** Round trip: walking an encoded stream, followed by any tail at which no whole message
      begins, delivers exactly the non-empty frames that were encoded, in order. The hypothesis of
      the walk holds unless the tail is long enough for a length field and that field wraps the
      sum. */
  lemma UnwrapUndoesWrap(items: seq<Item>, tail: seq<byte>)
    requires ItemsOk(items)
    requires !Whole(tail)
    ensures
      var stream := Encode(items) + tail;
      && Frames(stream) == FramesOf(items)
      && Consumed(stream) == |Encode(items)|
      && (|stream| < TWO31 ==>
            (SumFits(stream, Consumed(stream)) <==> |tail| < 8 || |Encode(items)| + MsgLen(tail) < TWO32))
  {
    hide Frames, Consumed, MsgLen, Whole, Encode, FramesOf, ItemsOk;
    WalkEncoded(items, tail);
    assert (Encode(items) + tail)[|Encode(items)|..] == tail;
  }

  /** The number of leading messages that lie whole within the first k bytes. */
  function Fitting(items: seq<Item>, k: nat): (n: nat)
    ensures n <= |items|
  {
    if items == [] || |EncodeItem(items[0])| > k then 0
    else 1 + Fitting(items[1..], k - |EncodeItem(items[0])|)
  }

  /** Fitting counts the largest prefix of messages whose encoding fits in k bytes. */
  lemma {:induction false} FittingIsLargest(items: seq<Item>, k: nat)
    requires ItemsOk(items)
    ensures |Encode(items[..Fitting(items, k)])| <= k
    ensures forall n :: Fitting(items, k) < n <= |items| ==> |Encode(items[..n])| > k
  {
    if items != [] {
      var e := EncodeItem(items[0]);
      var fits := Fitting(items, k);
      forall n | 0 < n <= |items|
        ensures |Encode(items[..n])| == |e| + |Encode(items[1..][..n - 1])|
      {
        assert items[..n][1..] == items[1..][..n - 1];
      }
      if |e| <= k {
        FittingIsLargest(items[1..], k - |e|);
      }
    }
  }

  lemma {:induction false} WalkCut(items: seq<Item>, k: nat)
    requires ItemsOk(items)
    requires k <= |Encode(items)|
    ensures Frames(Encode(items)[..k]) == FramesOf(items[..Fitting(items, k)])
    ensures Consumed(Encode(items)[..k]) == |Encode(items[..Fitting(items, k)])|
  {
    hide Le32, EncodeItem, Frames, Consumed, Whole, Encode, FramesOf, ItemOk;
    if items == [] {
      NothingEncoded();
    } else {
      var it, e, rest := items[0], EncodeItem(items[0]), Encode(items[1..]);
      EncodeCons(items);
      if |e| <= k {
        WalkCut(items[1..], k - |e|);
        ItemWalk(it, rest[..k - |e|]);
        assert (e + rest)[..k] == e + rest[..k - |e|];
        PrefixOfCons(items, Fitting(items, k));
      } else {
        assert (e + rest)[..k] == e[..k];
        ItemCut(it, k);
        assert items[..0] == [];
        NothingEncoded();
      }
    }
  }

  lemma EncodeCons(items: seq<Item>)
    requires items != []
    ensures Encode(items) == EncodeItem(items[0]) + Encode(items[1..])
  {
  }

  lemma NothingEncoded()
    ensures Encode([]) == [] && FramesOf([]) == []
    ensures Frames([]) == [] && Consumed([]) == 0
  {
  }

  lemma {:induction false} CutFits(items: seq<Item>, k: nat)
    requires ItemsOk(items)
    requires |Encode(items[..Fitting(items, k)])| + 8 <= k <= |Encode(items)|
    ensures
      var e := |Encode(items[..Fitting(items, k)])|;
      e + MsgLen(Encode(items)[e..k]) <= |Encode(items)|
  {
    hide MsgLen, EncodeItem, ItemOk;
    if items != [] {
      var it, e, rest := items[0], EncodeItem(items[0]), Encode(items[1..]);
      if |e| <= k {
        PrefixOfCons(items, Fitting(items, k));
        CutFits(items[1..], k - |e|);
        var f := |Encode(items[1..][..Fitting(items[1..], k - |e|)])|;
        assert (e + rest)[|e| + f..k] == rest[f..k - |e|];
      } else {
        assert items[..0] == [];
        assert (e + rest)[0..k] == e[..k];
        CutItemLength(it, k);
      }
    }
  }

  lemma CutItemLength(it: Item, k: nat)
    requires ItemOk(it) && 8 <= k <= |EncodeItem(it)|
    ensures MsgLen(EncodeItem(it)[..k]) == |EncodeItem(it)|
  {
    hide Le32;
    var e := EncodeItem(it);
    ItemIsWhole(it);
    assert e[..k][4..8] == e[4..8];
  }

  /** Cutting a well-formed stream anywhere delivers exactly the frames of the messages that
      remain whole: no partial frame, and nothing after the cut. The hypothesis of the walk holds
      for every cut. */
  lemma UnwrapTruncated(items: seq<Item>, k: nat)
    requires ItemsOk(items)
    requires k <= |Encode(items)|
    ensures
      var cut := Encode(items)[..k];
      && Frames(cut) == FramesOf(items[..Fitting(items, k)])
      && Consumed(cut) == |Encode(items[..Fitting(items, k)])|
      && (|Encode(items)| < TWO31 ==> SumFits(cut, Consumed(cut)))
  {
    hide Frames, Consumed, MsgLen, Whole, Encode, FramesOf, ItemsOk, Fitting;
    WalkCut(items, k);
    var e := |Encode(items[..Fitting(items, k)])|;
    if e + 8 <= k {
      CutFits(items, k);
      assert Encode(items)[..k][e..] == Encode(items)[e..k];
    }
  }

  lemma ItemCut(it: Item, k: nat)
    requires ItemOk(it) && k < |EncodeItem(it)|
    ensures Frames(EncodeItem(it)[..k]) == [] && Consumed(EncodeItem(it)[..k]) == 0
  {
    hide Le32;
    var e := EncodeItem(it);
    ItemIsWhole(it);
    if k >= 8 {
      assert e[..k][4..8] == e[4..8];
    }
  }

  lemma PrefixOfCons(items: seq<Item>, n: nat)
    requires 0 < n <= |items|
    ensures Encode(items[..n]) == EncodeItem(items[0]) + Encode(items[1..][..n - 1])
    ensures FramesOf(items[..n]) ==
            (if items[0].Data? && items[0].frame != [] then [items[0].frame] else []) + FramesOf(items[1..][..n - 1])
  {
    hide EncodeItem;
    assert items[..n][0] == items[0] && items[..n][1..] == items[1..][..n - 1];
  }

  /** A well-formed stream shorter than 2^31 bytes meets the hypothesis of the walk. */
  lemma WellFormedSumFits(items: seq<Item>)
    requires ItemsOk(items)
    requires |Encode(items)| < TWO31
    ensures SumFits(Encode(items), Consumed(Encode(items)))
  {
    UnwrapUndoesWrap(items, []);
    assert Encode(items) + [] == Encode(items);
  }
}

/** The two directions of the bridge put together: utun packets that are sent over USB and come
    back in one bulk buffer are written to utun again. */
module Tunnel {
  import opened Bytes
  import opened Options
  import opened Frame
  import opened Unwrap
  import Arp
  import RxPath

  /** A packet on its way out, with what gw_mac is when its turn comes. */
  datatype Packet = Packet(utun: seq<byte>, gateway: Mac)

  /** The frame made for it. */
  function Outgoing(p: Packet, src: Mac): Option<seq<byte>> {
    ToEth(p.utun, ETH_BUF_SIZE, src, p.gateway)
  }

  /** The messages of one bulk buffer that carries every packet the converter accepts. */
  function Batch(packets: seq<Packet>, src: Mac): seq<Item> {
    if packets == [] then []
    else
      (match Outgoing(packets[0], src)
       case Some(frame) => [Data(frame)]
       case None => []) + Batch(packets[1..], src)
  }

  /** What utun should see: the accepted packets, in order, with a known address family. Which
      gateway they went to does not matter. */
  function Expected(packets: seq<Packet>): seq<seq<byte>> {
    if packets == [] then []
    else
      var utun := packets[0].utun;
      (if 5 <= |utun| <= 2038 && TypeFor(utun).Some? then [Normalised(utun)] else [])
      + Expected(packets[1..])
  }

  /** What process_rx_frame writes to utun for a list of frames. */
  function WrittenFor(frames: seq<seq<byte>>): seq<seq<byte>> {
    if frames == [] then []
    else
      (match RxPath.PathOf(frames[0])
       case ToTun(utun) => [utun]
       case _ => []) + WrittenFor(frames[1..])
  }

  lemma OutgoingComesBack(p: Packet, src: Mac)
    requires Outgoing(p, src).Some?
    ensures
      var frame := Outgoing(p, src).value;
      && ItemOk(Data(frame)) && frame != []
      && RxPath.PathOf(frame) == RxPath.ToTun(Normalised(p.utun))
  {
    EthFields(p.utun, ETH_BUF_SIZE, src, p.gateway);
    EthUndone(p.utun, src, p.gateway);
  }

  lemma {:induction false} BatchFrames(packets: seq<Packet>, src: Mac)
    ensures ItemsOk(Batch(packets, src))
    ensures WrittenFor(FramesOf(Batch(packets, src))) == Expected(packets)
  {
    hide ItemOk, RxPath.PathOf, Normalised, TypeFor;
    if packets != [] {
      var rest := Batch(packets[1..], src);
      BatchFrames(packets[1..], src);
      var out := Outgoing(packets[0], src);
      if out.Some? {
        OutgoingComesBack(packets[0], src);
        var items := [Data(out.value)] + rest;
        assert items == Batch(packets, src) && items[1..] == rest;
        assert FramesOf(items) == [out.value] + FramesOf(rest);
        assert ([out.value] + FramesOf(rest))[1..] == FramesOf(rest);
      } else {
        assert Batch(packets, src) == rest;
      }
    }
  }

  /** The tunnel carries traffic unchanged: for every sequence of utun packets, and whatever
      gateway address each of them meets, converting the acceptable ones, wrapping them, batching
      them into one buffer of less than 2^31 bytes, unwrapping it and converting back yields the
      same IP packets in the same order. */
  lemma TunnelPreservesTraffic(packets: seq<Packet>, src: Mac)
    requires |Encode(Batch(packets, src))| < TWO31
    ensures
      var bulk := Encode(Batch(packets, src));
      SumFits(bulk, Consumed(bulk)) && WrittenFor(Frames(bulk)) == Expected(packets)
  {
    var items := Batch(packets, src);
    BatchFrames(packets, src);
    UnwrapUndoesWrap(items, []);
    assert Encode(items) + [] == Encode(items);
    WellFormedSumFits(items);
  }

  /** The frames of a buffer as they come to process_rx_frame, with what each finds when it wants
      to send. */
  function Arrivals(frames: seq<seq<byte>>, canSend: seq<bool>): (a: seq<RxPath.Arrival>)
    requires |frames| <= |canSend|
    ensures |a| == |frames|
  {
    seq(|frames|, i requires 0 <= i < |frames| => RxPath.Arrival(frames[i], canSend[i]))
  }

  /** The completed branch of rx_complete: unwrap one bulk buffer, handling each frame. */
  method ReceiveBulk(rx: RxPath.BridgeRx, data: seq<byte>, canSend: seq<bool>)
    requires |data| < TWO31
    requires SumFits(data, Consumed(data))
    requires |Frames(data)| <= |canSend|
    modifies rx
    ensures rx.Contents() == RxPath.RunFrom(old(rx.Contents()), Arrivals(Frames(data), canSend), rx.mac, rx.ourIp)
    ensures rx.written == old(rx.written) + WrittenFor(Frames(data))
  {
    hide RxPath.Step, Frames, Consumed, WrittenFor;
    var frames := UnwrapData(data);
    ghost var s0, all := rx.Contents(), Arrivals(frames, canSend);
    for i := 0 to |frames|
      invariant rx.Contents() == RxPath.RunFrom(s0, all[..i], rx.mac, rx.ourIp)
    {
      rx.ProcessRxFrame(frames[i], canSend[i]);
      assert all[..i + 1][..i] == all[..i];
    }
    assert all[..|frames|] == all;
    WritesFrames(s0, frames, canSend, rx.mac, rx.ourIp);
  }

  /** Whatever else arrives, utun is written what the frames convert to. */
  lemma {:induction false} WritesFrames(
      s: RxPath.State, frames: seq<seq<byte>>, canSend: seq<bool>, mac: Mac, ip: Arp.Ip)
    requires |frames| <= |canSend|
    ensures RxPath.RunFrom(s, Arrivals(frames, canSend), mac, ip).written == s.written + WrittenFor(frames)
  {
    hide RxPath.PathOf, Arp.Answer;
    if frames != [] {
      var n := |frames| - 1;
      WritesFrames(s, frames[..n], canSend, mac, ip);
      assert Arrivals(frames, canSend)[..n] == Arrivals(frames[..n], canSend);
      WrittenSnoc(frames[..n], frames[n]);
      assert frames == frames[..n] + [frames[n]];
    }
  }

  lemma {:induction false} WrittenSnoc(frames: seq<seq<byte>>, frame: seq<byte>)
    ensures WrittenFor(frames + [frame]) == WrittenFor(frames) + WrittenFor([frame])
  {
    hide RxPath.PathOf;
    if frames == [] {
      assert frames + [frame] == [frame];
    } else {
      WrittenSnoc(frames[1..], frame);
      assert (frames + [frame])[1..] == frames[1..] + [frame];
    }
  }
}

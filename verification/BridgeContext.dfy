/** The counters and the TX pool of bridge_ctx, and the pieces of main.c that read and write them,
    each tied to the step of the transition system that it is. The ghost field holds the whole
    state; the flags, the mutex and the RX pool are only there. */
module BridgeContext {
  import opened Bytes
  import opened Rndis
  import opened Options
  import opened Bridge
  import opened BridgeInvariant

  class BridgeCtx {
    const inUse: array<bool>       // tx_pool[i].in_use
    const buffer: array<seq<byte>> // the packet at the front of tx_pool[i].buf
    const length: array<nat>       // the length tx_pool[i].xfer was filled with
    var activeTx: int
    var activeRx: int
    var txPkts: nat
    var txBytes: nat
    ghost var state: State

    /** The fields are those of the state, and the state satisfies the invariant. */
    ghost predicate Valid()
      reads this, inUse, buffer, length
    {
      Inv(state) && Agrees(state)
    }

    ghost predicate Agrees(s: State)
      reads this, inUse, buffer, length
    {
      && s.txp.inUse == inUse[..] && s.txp.buffer == buffer[..] && s.txp.length == length[..]
      && s.rxp.active == activeRx
      && s.txp.active == activeTx && s.txp.pkts == txPkts && s.txp.bytes == txBytes
    }

    constructor (n: nat, m: nat)
      ensures Valid() && fresh(inUse) && fresh(buffer) && fresh(length) && state == Start(n, m)
    {
      inUse := new bool[n](_ => false);
      buffer := new seq<byte>[n](_ => []);
      length := new nat[n](_ => 0);
      activeTx, activeRx, txPkts, txBytes := 0, 0, 0, 0;
      state := Start(n, m);
      new;
      StartOk(n, m);
      assert inUse[..] == seq(n, _ => false);
      assert buffer[..] == seq(n, _ => []);
      assert length[..] == seq(n, _ => 0);
    }

    /** Records that the fields have just gone through the step a. */
    ghost method Took(a: Action)
      requires Inv(state) && Enabled(state, a) && Agrees(Next(state, a))
      modifies this`state
      ensures Valid() && state == Next(old(state), a)
    {
      StepKeeps(state, a);
      state := Next(state, a);
    }

    /** The scan of tun_to_usb under the mutex: the first free slot is taken, if there is one. */
    method TakeFreeSlot() returns (slot: Option<nat>)
      requires Valid() && state.tx.Reserving? && state.tx.slotAt == Scan
      modifies this`state, inUse
      ensures Valid() && state == Next(old(state), Tx(true, []))
      ensures slot.Some? <==> state.tx.Sending?
      ensures slot.Some? ==> state.tx.slot == slot.value
    {
      hide Inv;
      slot := None;
      ghost var was := inUse[..];
      var i := 0;
      while i < inUse.Length && slot == None
        invariant 0 <= i <= inUse.Length && state == old(state)
        invariant forall j :: 0 <= j < i ==> was[j] || slot == Some(j)
        invariant slot == None ==> inUse[..] == was
        invariant slot.Some? ==> slot.value < |was| && FirstFree(was) == slot && inUse[..] == was[slot.value := true]
      {
        if !inUse[i] {
          inUse[i] := true;
          slot := Some(i);
        }
        i := i + 1;
      }
      Took(Tx(true, []));
    }

    /** The slot of a frame that could not be wrapped or submitted is given back. */
    method ReleaseSlot(slot: nat)
      requires Valid() && state.tx == FailClear(slot)
      modifies this`state, inUse
      ensures Valid() && state == Next(old(state), Tx(true, []))
    {
      hide MutexOk, SlotsOk, TxCountOk, RxOk, RxCountOk, StatsOk, FreedOk, QuietOk, StopOk;
      inUse[slot] := false;
      Took(Tx(true, []));
    }

    /** atomic_fetch_add(&active_tx, 1), after a successful submission. */
    method AddActive()
      requires Valid() && state.tx.Counting? && state.tx.countAt == Add
      modifies this`state, this`activeTx
      ensures Valid() && state == Next(old(state), Tx(true, []))
    {
      hide MutexOk, SlotsOk, TxCountOk, RxOk, RxCountOk, StatsOk, FreedOk, QuietOk, StopOk;
      activeTx := activeTx + 1;
      Took(Tx(true, []));
    }

    /** The two statistics, each an atomic addition of its own. */
    method AddPacket()
      requires Valid() && state.tx.Counting? && state.tx.countAt == CountPkt
      modifies this`state, this`txPkts
      ensures Valid() && state == Next(old(state), Tx(true, []))
    {
      hide MutexOk, SlotsOk, TxCountOk, RxOk, RxCountOk, StatsOk, FreedOk, QuietOk, StopOk;
      txPkts := U64(txPkts + 1);
      Took(Tx(true, []));
    }

    method AddBytes(frame: seq<byte>)
      requires Valid() && state.tx == Counting(CountBytes, frame)
      modifies this`state, this`txBytes
      ensures Valid() && state == Next(old(state), Tx(true, []))
    {
      hide MutexOk, SlotsOk, TxCountOk, RxOk, RxCountOk, StatsOk, FreedOk, QuietOk, StopOk;
      txBytes := U64(txBytes + |frame|);
      Took(Tx(true, []));
    }

    /** tx_complete under the mutex gives the slot back, */
    method ClearSlot(slot: nat)
      requires Valid() && state.cb == OnTx(slot, TxClear)
      modifies this`state, inUse
      ensures Valid() && state == Next(old(state), Action.Cb(true))
    {
      hide MutexOk, SlotsOk, TxCountOk, RxOk, RxCountOk, StatsOk, FreedOk, QuietOk, StopOk;
      inUse[slot] := false;
      Took(Action.Cb(true));
    }

    /** and then subtracts the transfer. The TX thread may add to the counter in between. */
    method SubActive(slot: nat)
      requires Valid() && state.cb == OnTx(slot, TxSub)
      modifies this`state, this`activeTx
      ensures Valid() && state == Next(old(state), Action.Cb(true))
    {
      hide MutexOk, SlotsOk, TxCountOk, RxOk, RxCountOk, StatsOk, FreedOk, QuietOk, StopOk;
      activeTx := activeTx - 1;
      Took(Action.Cb(true));
    }

    /** active_rx after the first submission of a transfer, and at the end of rx_complete. */
    method AddActiveRx()
      requires Valid() && state.rx.AddRx?
      modifies this`state, this`activeRx
      ensures Valid() && state == Next(old(state), Rx(true))
    {
      hide MutexOk, SlotsOk, TxCountOk, RxOk, RxCountOk, StatsOk, FreedOk, QuietOk, StopOk;
      activeRx := activeRx + 1;
      Took(Rx(true));
    }

    method SubActiveRx()
      requires Valid() && state.cb.OnRx? && state.cb.rxStage == RxSub
      modifies this`state, this`activeRx
      ensures Valid() && state == Next(old(state), Action.Cb(true))
    {
      hide MutexOk, SlotsOk, TxCountOk, RxOk, RxCountOk, StatsOk, FreedOk, QuietOk, StopOk;
      activeRx := activeRx - 1;
      Took(Action.Cb(true));
    }

    /** The slot is reserved or in flight. */
    ghost predicate Busy(slot: nat)
      reads this
    {
      Reserved(state.tx, slot) || InFlight(state.txp, state.cb, slot)
    }

    /** One round of the cancel loop of usb_to_tun over the TX pool, under the mutex: it cancels
        the transfer of a slot exactly if the slot is reserved or in flight. */
    method CancelSlot(slot: nat) returns (cancel: bool)
      requires Valid() && state.rx == CancelTx(slot) && slot < inUse.Length
      modifies this`state
      ensures Valid() && state == Next(old(state), Rx(true))
      ensures state == AskedUpTo(old(state), state.txp.asked, slot + 1)
      ensures state.txp.asked == old(state).txp.asked + if cancel then {slot} else {}
      ensures cancel <==> Busy(slot)
    {
      hide MutexOk, TxCountOk, RxOk, RxCountOk, StatsOk, FreedOk, QuietOk, StopOk;
      cancel := inUse[slot];
      assert state.txp.inUse[slot] == inUse[slot];
      Took(Rx(true));
    }

    /** The state after the rounds for the slots below n. */
    ghost function AskedUpTo(s: State, asked: set<nat>, n: nat): State {
      s.(rx := CancelTx(n), txp := s.txp.(asked := asked))
    }

    /** The whole loop, when no other thread steps in between. */
    method CancelTxTransfers() returns (cancelled: seq<nat>)
      requires Valid() && state.rx == CancelTx(0)
      modifies this`state
      ensures Valid() && state == AskedUpTo(old(state), state.txp.asked, inUse.Length)
      ensures forall i: nat :: i in state.txp.asked <==> i in old(state).txp.asked || i in cancelled
      ensures forall i: nat :: i in cancelled <==> i < inUse.Length && Busy(i)
    {
      hide Inv, Reserved;
      cancelled := [];
      for i := 0 to inUse.Length
        invariant Valid() && state == AskedUpTo(old(state), state.txp.asked, i)
        invariant forall j: nat :: j in state.txp.asked <==> j in old(state).txp.asked || j in cancelled
        invariant forall j: nat :: j in cancelled <==> j < i && Busy(j)
      {
        var cancel := CancelSlot(i);
        if cancel {
          cancelled := cancelled + [i];
        }
      }
    }

    /** wrap_frame into the slot's buffer, and libusb_fill_bulk_transfer. */
    method WrapInto(slot: nat, frame: seq<byte>)
      requires Valid() && state.tx == Sending(Wrap, slot, frame)
      modifies this`state, buffer
      ensures Valid() && state == Next(old(state), Tx(true, []))
    {
      hide MutexOk, SlotsOk, TxCountOk, RxOk, RxCountOk, StatsOk, FreedOk, QuietOk, StopOk, DataPacket;
      buffer[slot] := DataPacket(frame);
      Took(Tx(true, []));
    }

    method FillTransfer(slot: nat, frame: seq<byte>)
      requires Valid() && state.tx == Sending(Fill, slot, frame)
      modifies this`state, length
      ensures Valid() && state == Next(old(state), Tx(true, []))
    {
      hide MutexOk, SlotsOk, TxCountOk, RxOk, RxCountOk, StatsOk, FreedOk, QuietOk, StopOk, DataPacket;
      length[slot] := |DataPacket(frame)|;
      Took(Tx(true, []));
    }
  }
}

/** The invariant of the bridge holds in every state of every interleaving. */
module BridgeInvariant {
  import opened Bytes
  import opened Bridge

  lemma StartOk(n: nat, m: nat)
    ensures Inv(Start(n, m))
  {
  }

  // ---- The TX thread ----

  /** Slots depend on the TX thread only through the slot it holds. */
  lemma SlotsFrame(p: TxPool, p': TxPool, tx: TxPc, tx': TxPc, cb: Cb)
    requires SlotsOk(p, tx, cb)
    requires p'.inUse == p.inUse && p'.fly == p.fly
    requires forall i :: Reserved(tx, i) <==> Reserved(tx', i)
    ensures SlotsOk(p', tx', cb)
  {
  }

  /** Locking, unlocking or neither. */
  predicate LockMove(m: Owner, m': Owner, me: Owner, owned: bool, owns: bool) {
    || (m' == m && owned == owns)
    || (m == NoOne && m' == me && owns)
    || (m == me && m' == NoOne && !owns)
  }

  /** A step of the TX thread that moves on, and at most locks or unlocks. */
  lemma TxMoves(s: State, mutex: Owner, tx: TxPc)
    requires Inv(s) && s.tx != TX_DONE && !s.tx.Counting? && !tx.Counting?
    requires forall i :: Reserved(s.tx, i) <==> Reserved(tx, i)
    requires LockMove(s.ctl.mutex, mutex, TxThread, TxOwns(s.tx), TxOwns(tx))
    requires SlotsExist(s.txp, tx, s.cb)
    ensures Inv(s.(ctl := s.ctl.(mutex := mutex), tx := tx))
  {
    hide U64, SumOf, SlotsOk, RxOk, RxCountOk, FreedOk, SlotsExist, TxOwns, RxOwns, CbOwns, Reserved;
    SlotsFrame(s.txp, s.txp, s.tx, tx, s.cb);
  }

  lemma OuterKeeps(s: State, ok: bool, frame: seq<byte>)
    requires Inv(s) && Enabled(s, Tx(ok, frame)) && s.tx.Outer?
    ensures Inv(OuterNext(s, ok, frame))
  {
    hide MutexOk, SlotsOk, TxCountOk, RxOk, RxCountOk, StatsOk, FreedOk, QuietOk, StopOk;
    TxMoves(s, s.ctl.mutex, OuterNext(s, ok, frame).tx);
  }

  lemma ReserveKeeps(s: State)
    requires Inv(s) && Enabled(s, Tx(true, [])) && s.tx.Reserving?
    ensures Inv(ReserveNext(s))
  {
    hide SlotsOk, TxCountOk, RxOk, RxCountOk, StatsOk, FreedOk, QuietOk, StopOk, FirstFree;
    var t := ReserveNext(s);
    if t.tx.Sending? {
      ScanKeeps(s);
    } else {
      TxMoves(s, t.ctl.mutex, t.tx);
    }
  }

  /** A slot seen free under the mutex is not in flight: no callback is half way through it. */
  lemma TakeSlot(p: TxPool, tx: TxPc, cb: Cb, i: nat)
    requires SlotsOk(p, tx, cb) && tx.Reserving? && i < |p.inUse| && !p.inUse[i] && !CbOwns(cb)
    ensures SlotsOk(p.(inUse := p.inUse[i := true]), Sending(UnlockSlot, i, tx.frame), cb)
  {
  }

  lemma ScanKeeps(s: State)
    requires Inv(s) && s.tx.Reserving? && s.tx.slotAt == Scan && FirstFree(s.txp.inUse).Some?
    ensures Inv(ReserveNext(s))
  {
    hide U64, SumOf, FreedOk, RxOk, RxCountOk, SlotsOk, RxOwns, CbOwns;
    TakeSlot(s.txp, s.tx, s.cb, FirstFree(s.txp.inUse).value);
  }

  lemma SendKeeps(s: State, ok: bool)
    requires Inv(s) && s.tx.Sending?
    ensures Inv(SendNext(s, ok))
  {
    hide SlotsOk, TxCountOk, RxOk, RxCountOk, StatsOk, FreedOk, QuietOk, StopOk;
    var t := SendNext(s, ok);
    if s.tx.sendAt == Fill || (s.tx.sendAt == Wrap && ok) {
      FillKeeps(s);
    } else if t.tx.Counting? {
      SubmitKeeps(s);
    } else {
      TxMoves(s, t.ctl.mutex, t.tx);
    }
  }

  lemma FillKeeps(s: State)
    requires Inv(s) && s.tx.Sending? && (s.tx.sendAt == Wrap || s.tx.sendAt == Fill)
    ensures Inv(SendNext(s, true))
  {
    hide U64, SumOf, FreedOk, RxOk, RxCountOk, SlotsOk, RxOwns, CbOwns;
    var t := SendNext(s, true);
    SlotsFrame(s.txp, t.txp, s.tx, t.tx, s.cb);
  }

  /** A submitted slot passes from the TX thread to libusb. */
  lemma HandOver(p: TxPool, tx: TxPc, cb: Cb)
    requires SlotsOk(p, tx, cb) && tx.Sending? && tx.slot < |p.inUse| == |p.handed|
    ensures
      var i, f := tx.slot, tx.frame;
      SlotsOk(p.(fly := p.fly + {i}, handed := p.handed[i := f], submitted := p.submitted + [f]), Counting(Add, f), cb)
    ensures tx.slot !in p.fly
  {
  }

  lemma SubmitKeeps(s: State)
    requires Inv(s) && s.tx.Sending? && s.tx.sendAt == Submit
    ensures Inv(SendNext(s, true))
  {
    hide U64, SumOf, FreedOk, RxOk, RxCountOk, SlotsOk, RxOwns, CbOwns;
    HandOver(s.txp, s.tx, s.cb);
    SumSnoc(s.txp.submitted, s.tx.frame);
  }

  lemma SumSnoc(frames: seq<seq<byte>>, f: seq<byte>)
    ensures SumOf(frames + [f]) == SumOf(frames) + |f|
  {
    assert (frames + [f])[..|frames|] == frames;
  }

  lemma StatsKeep(s: State)
    requires Sane(s) && s.tx.Counting? && StatsOk(s.txp.pkts, s.txp.bytes, s.txp.submitted, s.tx)
    ensures var t := CountNext(s); StatsOk(t.txp.pkts, t.txp.bytes, t.txp.submitted, t.tx)
  {
    hide U64;
    var sent := s.txp.submitted;
    U64Add(|sent| - 1, 1);
    assert SumOf(sent) == SumOf(sent[..|sent| - 1]) + |s.tx.sent|;
    U64Add(SumOf(sent) - |s.tx.sent|, |s.tx.sent|);
  }

  lemma CountKeeps(s: State)
    requires Inv(s) && s.tx.Counting?
    ensures Inv(CountNext(s))
  {
    hide U64, SumOf, FreedOk, RxOk, RxCountOk, SlotsOk, StatsOk, RxOwns, CbOwns;
    var t := CountNext(s);
    SlotsFrame(s.txp, t.txp, s.tx, t.tx, s.cb);
    StatsKeep(s);
  }

  lemma GiveBack(p: TxPool, cb: Cb, i: nat)
    requires SlotsOk(p, FailClear(i), cb) && i < |p.inUse|
    ensures SlotsOk(p.(inUse := p.inUse[i := false]), FailUnlock, cb)
  {
  }

  lemma FailKeeps(s: State)
    requires Inv(s) && Enabled(s, Tx(true, [])) && (s.tx.FailLock? || s.tx.FailClear? || s.tx.FailUnlock?)
    ensures Inv(TxNext(s, true, []))
  {
    hide U64, SumOf, FreedOk, RxOk, RxCountOk, SlotsOk, RxOwns, CbOwns;
    var t := TxNext(s, true, []);
    if s.tx.FailClear? {
      GiveBack(s.txp, s.cb, s.tx.back);
    } else {
      TxMoves(s, t.ctl.mutex, t.tx);
    }
  }

  lemma TxKeeps(s: State, ok: bool, frame: seq<byte>)
    requires Inv(s) && Enabled(s, Tx(ok, frame))
    ensures Inv(TxNext(s, ok, frame))
  {
    hide MutexOk, SlotsOk, TxCountOk, RxOk, RxCountOk, StatsOk, FreedOk, QuietOk, StopOk, OuterNext;
    hide ReserveNext, SendNext, CountNext;
    match s.tx
    case Outer(_) => OuterKeeps(s, ok, frame);
    case Reserving(_, _) => ReserveKeeps(s);
    case Sending(_, _, _) => SendKeeps(s, ok);
    case Counting(_, _) => CountKeeps(s);
    case _ => FailKeeps(s);
  }

  // ---- The RX thread and the main thread ----

  /** A step of the RX thread that moves on outside startup and draining, may clear a flag, and
      at most locks or unlocks. */
  lemma RxMoves(s: State, ctl: Control, rx: RxPc)
    requires Inv(s) && !InStartup(s.rx) && !InStartup(rx) && rx != DrainTx
    requires !s.rx.FreeRx? && s.rx != RxDone && !rx.FreeRx? && rx != RxDone
    requires !InEventLoop(rx) ==> !ctl.running
    requires LockMove(s.ctl.mutex, ctl.mutex, RxThread, RxOwns(s.rx), RxOwns(rx))
    ensures Inv(s.(ctl := ctl, rx := rx))
  {
    hide U64, SumOf, SlotsOk, TxCountOk, StatsOk, FreedOk, RxOk, TxOwns, RxOwns, CbOwns, SlotsExist;
    RxFrame(s.rxp, s.rx, rx, s.cb);
  }

  lemma RxFrame(q: RxPool, rx: RxPc, rx': RxPc, cb: Cb)
    requires RxOk(q, rx, cb) && FreedOk(q, rx)
    requires !InStartup(rx')
    requires !rx.FreeRx? && rx != RxDone && (rx'.FreeRx? ==> rx'.next == 0) && rx' != RxDone
    ensures RxOk(q, rx', cb) && FreedOk(q, rx')
  {
  }

  lemma EventKeeps(s: State, ok: bool)
    requires Inv(s) && InEventLoop(s.rx)
    ensures Inv(EventNext(s, ok))
  {
    hide MutexOk, SlotsOk, TxCountOk, RxOk, RxCountOk, StatsOk, FreedOk, QuietOk;
    var t := EventNext(s, ok);
    RxMoves(s, t.ctl, t.rx);
  }

  /** What was asked to be cancelled is history only. */
  lemma AskedKeeps(s: State, tx: set<nat>, rx: set<nat>)
    requires Inv(s)
    ensures Inv(s.(txp := s.txp.(asked := tx), rxp := s.rxp.(asked := rx)))
  {
    var t := s.(txp := s.txp.(asked := tx), rxp := s.rxp.(asked := rx));
    SlotsFrame(s.txp, t.txp, s.tx, s.tx, s.cb);
    RxFrameSame(s.rxp, t.rxp, s.rx, s.cb);
    hide StatsOk, MutexOk, SlotsOk, RxOk, FreedOk;
  }

  lemma RxFrameSame(q: RxPool, q': RxPool, rx: RxPc, cb: Cb)
    requires RxOk(q, rx, cb) && FreedOk(q, rx) && q' == q.(asked := q'.asked)
    ensures RxOk(q', rx, cb) && FreedOk(q', rx)
  {
  }

  lemma CancelKeeps(s: State)
    requires Inv(s) && Enabled(s, Rx(true)) && InCancel(s.rx)
    ensures Inv(CancelNext(s))
  {
    hide SlotsOk, TxCountOk, RxOk, RxCountOk, StatsOk, FreedOk, QuietOk;
    var t := CancelNext(s);
    AskedKeeps(s, t.txp.asked, t.rxp.asked);
    RxMoves(s.(txp := t.txp, rxp := t.rxp), t.ctl, t.rx);
  }

  lemma StartupPool(q: RxPool, rx: RxPc, cb: Cb, s: State, ok: bool)
    requires q == s.rxp && rx == s.rx && cb == s.cb
    requires RxOk(q, rx, cb) && RxCountOk(q, rx, cb) && FreedOk(q, rx) && InStartup(rx)
    ensures var t := StartupNext(s, ok); RxOk(t.rxp, t.rx, cb) && RxCountOk(t.rxp, t.rx, cb) && FreedOk(t.rxp, t.rx)
  {
  }

  lemma StartupKeeps(s: State, ok: bool)
    requires Inv(s) && InStartup(s.rx)
    ensures Inv(StartupNext(s, ok))
  {
    hide U64, SumOf, SlotsOk, TxCountOk, StatsOk, RxOk, RxCountOk, FreedOk, TxOwns, CbOwns, SlotsExist;
    StartupPool(s.rxp, s.rx, s.cb, s, ok);
  }

  /** A zero counter read by the drain loop means that nothing is pending. */
  lemma DrainKeeps(s: State, ok: bool)
    requires Inv(s) && (s.rx.DrainRx? || s.rx.DrainTx? || s.rx.DrainTime?)
    ensures Inv(DrainNext(s, ok))
  {
    hide U64, SumOf, SlotsOk, StatsOk, RxOk, FreedOk, TxOwns, CbOwns, SlotsExist;
    RxFrame(s.rxp, s.rx, DrainNext(s, ok).rx, s.cb);
  }

  lemma FreePool(s: State, ok: bool)
    requires RxOk(s.rxp, s.rx, s.cb) && FreedOk(s.rxp, s.rx) && s.rx.FreeRx?
    ensures var t := DrainNext(s, ok); RxOk(t.rxp, t.rx, t.cb) && FreedOk(t.rxp, t.rx)
  {
  }

  lemma FreeKeeps(s: State, ok: bool)
    requires Inv(s) && s.rx.FreeRx?
    ensures Inv(DrainNext(s, ok))
  {
    hide U64, SumOf, SlotsOk, StatsOk, TxCountOk, FreedOk, RxOk, TxOwns, CbOwns, SlotsExist;
    FreePool(s, ok);
  }

  lemma RxKeeps(s: State, ok: bool)
    requires Inv(s) && Enabled(s, Rx(ok))
    ensures Inv(RxNext(s, ok))
  {
    hide Inv, StartupNext, EventNext, CancelNext, DrainNext;
    if InStartup(s.rx) {
      StartupKeeps(s, ok);
    } else if InEventLoop(s.rx) {
      EventKeeps(s, ok);
    } else if InCancel(s.rx) {
      CancelKeeps(s);
    } else if s.rx.FreeRx? {
      FreeKeeps(s, ok);
    } else {
      DrainKeeps(s, ok);
    }
  }

  lemma MainKeeps(s: State, ok: bool)
    requires Inv(s) && Enabled(s, Main(ok))
    ensures Inv(MainNext(s, ok))
  {
    hide U64, SumOf, SlotsOk, TxCountOk, RxOk, RxCountOk, StatsOk, FreedOk, QuietOk, SlotsExist, TxOwns;
    hide RxOwns, CbOwns, InStartup, InEventLoop;
  }

  // ---- Callbacks ----

  /** Slots depend on the callback only through the slot it has not given back. */
  lemma SlotsCbFrame(p: TxPool, p': TxPool, tx: TxPc, cb: Cb, cb': Cb)
    requires SlotsOk(p, tx, cb)
    requires p'.inUse == p.inUse && p'.fly == p.fly
    requires forall i :: InFlight(p, cb, i) <==> InFlight(p', cb', i)
    requires cb'.OnTx? ==> cb.OnTx? && cb'.txSlot == cb.txSlot
    ensures SlotsOk(p', tx, cb')
  {
  }

  lemma RxCbFrame(q: RxPool, rx: RxPc, cb: Cb, cb': Cb)
    requires RxOk(q, rx, cb)
    requires cb'.OnRx? ==> cb.OnRx? && cb'.rxSlot == cb.rxSlot
    ensures RxOk(q, rx, cb')
  {
  }

  /** A step of a callback that moves on, may clear a flag, and at most locks or unlocks. */
  lemma CbMoves(s: State, ctl: Control, cb: Cb)
    requires Inv(s) && (!s.ctl.running ==> !ctl.running)
    requires LockMove(s.ctl.mutex, ctl.mutex, Callback, CbOwns(s.cb), CbOwns(cb))
    requires cb.OnTx? ==> s.cb.OnTx? && cb.txSlot == s.cb.txSlot
    requires cb.OnRx? <==> s.cb.OnRx?
    requires cb.OnRx? ==> cb.rxSlot == s.cb.rxSlot
    requires forall i :: InFlight(s.txp, s.cb, i) <==> InFlight(s.txp, cb, i)
    requires TxPending(s.txp, s.cb) == TxPending(s.txp, cb)
    ensures Inv(s.(ctl := ctl, cb := cb))
  {
    hide U64, SumOf, SlotsOk, RxOk, FreedOk, StatsOk, InFlight, TxPending, TxOwns, RxOwns, CbOwns, InStartup;
    hide InEventLoop;
    SlotsCbFrame(s.txp, s.txp, s.tx, s.cb, cb);
    RxCbFrame(s.rxp, s.rx, s.cb, cb);
  }

  lemma OnTxKeeps(s: State, ok: bool)
    requires Inv(s) && Enabled(s, Cb(ok)) && s.cb.OnTx?
    ensures Inv(OnTxNext(s, ok))
  {
    hide SlotsOk, TxCountOk, RxOk, RxCountOk, StatsOk, FreedOk, QuietOk, StopOk;
    var t := OnTxNext(s, ok);
    if s.cb.txStage == TxClear {
      ClearKeeps(s);
    } else if s.cb.txStage == TxSub {
      SubKeeps(s);
    } else {
      CbMoves(s, t.ctl, t.cb);
    }
  }

  lemma ClearSlot(p: TxPool, tx: TxPc, cb: Cb)
    requires SlotsOk(p, tx, cb) && cb.OnTx? && cb.txSlot < |p.inUse| && cb.txStage == TxClear
    ensures SlotsOk(p.(inUse := p.inUse[cb.txSlot := false]), tx, OnTx(cb.txSlot, TxSub))
  {
  }

  lemma ClearKeeps(s: State)
    requires Inv(s) && s.cb.OnTx? && s.cb.txStage == TxClear
    ensures Inv(OnTxNext(s, true))
  {
    hide U64, SumOf, FreedOk, StatsOk, SlotsOk, RxOk, TxOwns, RxOwns, InStartup, InEventLoop;
    ClearSlot(s.txp, s.tx, s.cb);
    RxCbFrame(s.rxp, s.rx, s.cb, OnTxNext(s, true).cb);
  }

  lemma SubKeeps(s: State)
    requires Inv(s) && s.cb.OnTx? && s.cb.txStage == TxSub
    ensures Inv(OnTxNext(s, true))
  {
    hide U64, SumOf, FreedOk, StatsOk, SlotsOk, RxOk, TxOwns, RxOwns, InStartup, InEventLoop;
    var t := OnTxNext(s, true);
    SlotsCbFrame(s.txp, t.txp, s.tx, s.cb, t.cb);
    RxCbFrame(s.rxp, s.rx, s.cb, t.cb);
  }

  lemma OnRxKeeps(s: State, ok: bool)
    requires Inv(s) && s.cb.OnRx?
    ensures Inv(OnRxNext(s, ok))
  {
    hide MutexOk, SlotsOk, TxCountOk, RxOk, RxCountOk, StatsOk, FreedOk, QuietOk, StopOk;
    var t := OnRxNext(s, ok);
    if t.cb == Idle {
      OnRxEnds(s, ok);
    } else {
      CbMoves(s, t.ctl, t.cb);
    }
  }

  lemma OnRxPool(s: State, ok: bool)
    requires RxOk(s.rxp, s.rx, s.cb) && FreedOk(s.rxp, s.rx) && RxCountOk(s.rxp, s.rx, s.cb)
    requires s.cb.OnRx? && OnRxNext(s, ok).cb == Idle
    ensures var t := OnRxNext(s, ok);
      RxOk(t.rxp, t.rx, t.cb) && FreedOk(t.rxp, t.rx) && RxCountOk(t.rxp, t.rx, t.cb)
  {
  }

  lemma OnRxEnds(s: State, ok: bool)
    requires Inv(s) && s.cb.OnRx? && OnRxNext(s, ok).cb == Idle
    ensures Inv(OnRxNext(s, ok))
  {
    hide U64, SumOf, StatsOk, SlotsOk, FreedOk, RxOk, RxCountOk, TxOwns, RxOwns, InStartup, InEventLoop;
    var t := OnRxNext(s, ok);
    SlotsCbFrame(s.txp, t.txp, s.tx, s.cb, t.cb);
    OnRxPool(s, ok);
  }

  lemma BeginTxSlots(p: TxPool, tx: TxPc, i: nat)
    requires SlotsOk(p, tx, Idle) && i in p.fly
    ensures SlotsOk(p.(fly := p.fly - {i}), tx, OnTx(i, TxBegin)) && i < |p.inUse|
  {
  }

  lemma BeginTxKeeps(s: State, i: nat)
    requires Inv(s) && Enabled(s, BeginTx(i))
    ensures Inv(Next(s, BeginTx(i)))
  {
    hide U64, SumOf, StatsOk, FreedOk, SlotsOk, RxOk, TxOwns, RxOwns, InStartup, InEventLoop, TxNext, RxNext;
    hide MainNext, CbNext;
    BeginTxSlots(s.txp, s.tx, i);
    RxCbFrame(s.rxp, s.rx, s.cb, OnTx(i, TxBegin));
  }

  lemma BeginRxPool(q: RxPool, rx: RxPc, j: nat)
    requires RxOk(q, rx, Idle) && FreedOk(q, rx) && j in q.fly
    ensures RxOk(q.(fly := q.fly - {j}), rx, OnRx(j, RxBegin)) && FreedOk(q.(fly := q.fly - {j}), rx)
  {
  }

  lemma BeginRxKeeps(s: State, j: nat)
    requires Inv(s) && Enabled(s, BeginRx(j))
    ensures Inv(Next(s, BeginRx(j)))
  {
    hide U64, SumOf, StatsOk, FreedOk, SlotsOk, RxOk, TxOwns, RxOwns, InStartup, InEventLoop, TxNext, RxNext;
    hide MainNext, CbNext;
    BeginRxPool(s.rxp, s.rx, j);
    SlotsCbFrame(s.txp, s.txp, s.tx, s.cb, OnRx(j, RxBegin));
  }

  /** Every step of every party keeps the invariant. */
  lemma StepKeeps(s: State, a: Action)
    requires Inv(s) && Enabled(s, a)
    ensures Inv(Next(s, a))
  {
    hide MutexOk, SlotsOk, TxCountOk, RxOk, RxCountOk, StatsOk, FreedOk, QuietOk, StopOk, TxNext, RxNext;
    hide MainNext, OnTxNext, OnRxNext;
    match a
    case Tx(ok, frame) => TxKeeps(s, ok, frame);
    case Rx(ok) => RxKeeps(s, ok);
    case Main(ok) => MainKeeps(s, ok);
    case Cb(ok) =>
      if s.cb.OnRx? {
        OnRxKeeps(s, ok);
      } else {
        OnTxKeeps(s, ok);
      }
    case BeginTx(i) => BeginTxKeeps(s, i);
    case BeginRx(j) => BeginRxKeeps(s, j);
    case Signal =>
  }
}

/** The drain loop of usb_to_tun: that it can end, and what its last test is worth. */
module BridgeDraining {
  import opened Bytes
  import opened Bridge
  import opened BridgeInvariant
  import opened BridgeRuns
  import opened BridgeStopping

  // ---- Draining ends ----

  /** The session was told to stop and the TX thread has returned. */
  predicate Draining(s: State) {
    !s.ctl.running && s.tx == TX_DONE
  }

  lemma DrainingStep(s: State, a: Action)
    requires Sane(s) && Enabled(s, a) && Draining(s)
    ensures Draining(Next(s, a))
  {
    hide TxNext, RxNext, MainNext, CbNext;
    TxAlone(s, a);
    match a
    case Rx(ok) => RxLeaves(s, ok);
    case Main(ok) => MainLeaves(s, ok);
    case Cb(ok) => CbLeaves(s, ok);
    case _ =>
  }

  const TX_FLIGHT := 8
  const RX_FLIGHT := 6

  function CbWeight(cb: Cb): nat {
    match cb
    case Idle => 0
    case OnTx(_, stage) =>
      (match stage
       case TxBegin => 7
       case TxDisc => 6
       case TxStop => 5
       case TxLock => 4
       case TxClear => 3
       case TxSub => 2
       case TxUnlock => 1)
    case OnRx(_, stage) =>
      (match stage
       case RxTest1 => RX_FLIGHT + 2
       case RxResubmit => RX_FLIGHT + 1
       case RxBegin => 5
       case RxDisc => 4
       case RxTest0 => 4
       case RxStop => 3
       case RxSub => 1)
  }

  /** The RX transfers that the RX thread has yet to submit for the first time, which it does
      without looking at a flag. */
  function Unsubmitted(rx: RxPc, m: nat): nat {
    match rx
    case Alloc(j) => if j <= m then m - j else 0
    case FirstSubmit(j) => if j <= m then m - j else 0
    case AddRx(j) => if j < m then m - j - 1 else 0
    case _ => 0
  }

  /** The callback steps that can still be taken while draining, at most. A callback that read
      running before it fell may put its transfer in flight once more. */
  function Work(s: State): nat {
    TX_FLIGHT * |s.txp.fly| + RX_FLIGHT * |s.rxp.fly| + RX_FLIGHT * Unsubmitted(s.rx, |s.rxp.freed|) + CbWeight(s.cb)
  }

  predicate IsCallback(a: Action) {
    a.Cb? || a.BeginTx? || a.BeginRx?
  }

  lemma WorkCb(s: State, ok: bool)
    requires Inv(s) && Draining(s) && s.cb != Idle
    ensures Work(CbNext(s, ok)) + 1 <= Work(s)
  {
    hide U64, StatsOk, FreedOk, MutexOk, SlotsOk, QuietOk, Unsubmitted;
  }

  lemma WorkBegin(s: State, a: Action)
    requires Inv(s) && Enabled(s, a) && (a.BeginTx? || a.BeginRx?)
    ensures Work(Next(s, a)) + 1 <= Work(s)
  {
    hide U64, StatsOk, FreedOk, MutexOk, SlotsOk, RxOk, QuietOk, TxNext, RxNext, MainNext, CbNext, Unsubmitted;
  }

  lemma WorkStartup(s: State, ok: bool)
    requires Inv(s) && InStartup(s.rx)
    ensures Work(StartupNext(s, ok)) <= Work(s)
  {
    hide U64, StatsOk, FreedOk, MutexOk, SlotsOk, QuietOk, CbWeight;
  }

  lemma WorkOther(s: State, a: Action)
    requires Sane(s) && Enabled(s, a) && Draining(s) && !IsCallback(a) && !(a.Rx? && InStartup(s.rx))
    ensures Work(Next(s, a)) <= Work(s)
  {
    hide TxNext, RxNext, MainNext, CbNext, CbWeight;
    match a
    case Rx(ok) => RxLeaves(s, ok);
    case Main(ok) => MainLeaves(s, ok);
    case _ =>
  }

  lemma WorkStep(s: State, a: Action)
    requires Inv(s) && Enabled(s, a) && Draining(s)
    ensures Work(Next(s, a)) + (if IsCallback(a) then 1 else 0) <= Work(s)
  {
    hide Work, TxNext, MainNext, CbNext, StartupNext, EventNext, CancelNext, DrainNext, Draining;
    match a
    case Cb(ok) => WorkCb(s, ok);
    case BeginTx(_) => WorkBegin(s, a);
    case BeginRx(_) => WorkBegin(s, a);
    case Rx(ok) =>
      if InStartup(s.rx) {
        WorkStartup(s, ok);
      } else {
        WorkOther(s, a);
      }
    case _ => WorkOther(s, a);
  }

  function Callbacks(acts: seq<Action>): nat {
    if acts == [] then 0 else (if IsCallback(acts[0]) then 1 else 0) + Callbacks(acts[1..])
  }

  /** Draining ends: every callback step strictly lowers the remaining work and no other step
      raises it, so that no run takes more callback steps than that. */
  lemma {:induction false} DrainBounded(s: State, acts: seq<Action>)
    requires Inv(s) && Draining(s) && Valid(s, acts)
    ensures Callbacks(acts) + Work(Run(s, acts)) <= Work(s)
    decreases |acts|
  {
    hide Inv, Next, Enabled, Work, Draining;
    if acts != [] {
      WorkStep(s, acts[0]);
      StepKeeps(s, acts[0]);
      DrainingStep(s, acts[0]);
      DrainBounded(Next(s, acts[0]), acts[1..]);
    }
  }

  /** A callback step, a step of the RX thread's startup, or one of the thread that holds the mutex. */
  predicate Advances(s: State, a: Action) {
    || IsCallback(a)
    || (a.Rx? && (InStartup(s.rx) || s.ctl.mutex == RxThread))
    || (a.Main? && s.ctl.mutex == MainThread)
  }

  /** And it never gets stuck: while work is left a callback step can be taken, or the RX thread
      can go on submitting its pool, or the thread that holds the mutex can release it. */
  lemma DrainProgress(s: State)
    requires Inv(s) && Draining(s) && Work(s) > 0
    ensures exists a :: Enabled(s, a) && Advances(s, a)
  {
    hide U64, StatsOk, FreedOk, SlotsOk, RxOk;
    if s.cb != Idle {
      if s.cb.OnTx? && s.cb.txStage == TxLock && s.ctl.mutex != NoOne {
        assert s.ctl.mutex == RxThread ==> Enabled(s, Rx(true));
        assert s.ctl.mutex == MainThread ==> Enabled(s, Main(true));
      } else {
        assert Enabled(s, Cb(true));
      }
    } else if s.txp.fly != {} {
      var i :| i in s.txp.fly;
      assert Enabled(s, BeginTx(i));
    } else if s.rxp.fly != {} {
      var j :| j in s.rxp.fly;
      assert Enabled(s, BeginRx(j));
    } else {
      assert InStartup(s.rx) && Enabled(s, Rx(true));
    }
  }

  // ---- Exactly when a passed drain test is enough ----

  /** No pool transfer is pending, now or at any later time. */
  ghost predicate SafeToFree(s: State) {
    forall t :: Leads(s, t) ==> TxPending(t.txp, t.cb) == 0 && RxPending(t.rxp, t.cb) == 0
  }

  predicate NothingPending(s: State) {
    !InStartup(s.rx) && TxPending(s.txp, s.cb) == 0 && RxPending(s.rxp, s.cb) == 0
  }

  lemma NothingPendingOther(s: State, a: Action)
    requires Sane(s) && NothingPending(s) && Enabled(s, a) && !a.Tx?
    ensures NothingPending(Next(s, a))
  {
    hide TxNext, RxNext, MainNext;
    match a
    case Rx(ok) => RxLeaves(s, ok);
    case Main(ok) => MainLeaves(s, ok);
    case Cb(ok) => CbLeaves(s, ok);
    case _ =>
  }

  lemma NothingPendingTx(s: State, ok: bool, frame: seq<byte>)
    requires Sane(s) && NothingPending(s) && Spent(s) && Enabled(s, Tx(ok, frame))
    ensures NothingPending(TxNext(s, ok, frame))
  {
    hide U64, FirstFree;
  }

  lemma {:induction false} NothingPendingStays(s: State, acts: seq<Action>)
    requires Inv(s) && Spent(s) && NothingPending(s) && Valid(s, acts)
    ensures NothingPending(Run(s, acts))
    decreases |acts|
  {
    hide TxNext, RxNext, MainNext, CbNext, Enabled, Spent, NothingPending, MutexOk, SlotsOk, RxOk, StatsOk, FreedOk;
    if acts != [] {
      StepKeeps(s, acts[0]);
      match acts[0] {
        case Tx(ok, frame) =>
          SpentTx(s, ok, frame);
          NothingPendingTx(s, ok, frame);
        case _ =>
          SpentOther(s, acts[0]);
          NothingPendingOther(s, acts[0]);
      }
      NothingPendingStays(Next(s, acts[0]), acts[1..]);
    }
  }

  lemma SpentIsSafe(s: State)
    requires Inv(s) && Spent(s) && NothingPending(s)
    ensures SafeToFree(s)
  {
    hide Inv, Spent;
    forall t | Leads(s, t)
      ensures TxPending(t.txp, t.cb) == 0 && RxPending(t.rxp, t.cb) == 0
    {
      var acts :| Valid(s, acts) && Run(s, acts) == t;
      NothingPendingStays(s, acts);
    }
  }

  /** When the drain loop's last test has seen both counters at zero, the pools are safe to free
      if and only if the TX thread has no slot on its way to libusb: it neither holds one that it
      may submit nor is about to reserve one, and it is not between a submission that is still
      pending and its addition. */
  lemma DrainTestExact(s: State)
    requires Inv(s) && s.rx == DrainTx && s.txp.active <= 0
    ensures SafeToFree(s) <==>
            !s.tx.Sending? && !AboutToReserve(s) && !(s.tx.Counting? && s.tx.countAt == Add && s.txp.active == 0)
  {
    hide U64, StatsOk, FreedOk, RxOk, MutexOk, SlotsOk, AboutToReserve;
    LeadsHere(s);
    if TxPending(s.txp, s.cb) == 0 {
      if s.tx.Sending? {
        var t := SenderSubmits(s, s);
        assert t.txp.fly != {} && Leads(s, t);
      } else if AboutToReserve(s) {
        var t := ReserverSubmits(s);
        assert Leads(s, t) && TxPending(t.txp, t.cb) > 0;
      } else {
        SpentIsSafe(s);
      }
    }
  }

  // ---- Two zero counters are not enough ----

  lemma LeadsRx(s: State, t: State, ok: bool, u: State)
    requires Leads(s, t) && Sane(t) && Enabled(t, Rx(ok)) && RxNext(t, ok) == u
    ensures Leads(s, u)
  {
    hide TxNext, RxNext, MainNext, CbNext;
    LeadsOn(s, t, Rx(ok));
  }

  lemma LeadsMain(s: State, t: State, u: State)
    requires Leads(s, t) && Sane(t) && Enabled(t, Main(true)) && MainNext(t, true) == u
    ensures Leads(s, u)
  {
    hide TxNext, RxNext, MainNext, CbNext;
    LeadsOn(s, t, Main(true));
  }

  /** The RX thread fails to allocate any transfer. */
  lemma {:induction false} NothingAllocated(s: State, t: State)
    requires Leads(s, t) && Sane(t) && t.rx.Alloc? && t.rx.next <= |t.rxp.freed|
    ensures Leads(s, t.(rx := Loop0))
    decreases |t.rxp.freed| - t.rx.next
  {
    hide EventNext, CancelNext, DrainNext;
    var j := t.rx.next;
    if j < |t.rxp.freed| {
      LeadsRx(s, t, false, t.(rx := Alloc(j + 1)));
      NothingAllocated(s, t.(rx := Alloc(j + 1)));
    } else {
      LeadsRx(s, t, false, t.(rx := Loop0));
    }
  }

  lemma RxStops(s: State, t: State)
    requires Leads(s, t) && Sane(t) && t.rx == Loop0 && t.ctl.running && !t.ctl.gRunning
    ensures Leads(s, t.(ctl := t.ctl.(running := false), rx := CancelRx))
  {
    hide StartupNext, CancelNext, DrainNext;
    LeadsRx(s, t, true, t.(rx := Loop1));
    LeadsRx(s, t.(rx := Loop1), true, t.(rx := Stop));
    LeadsRx(s, t.(rx := Stop), true, t.(ctl := t.ctl.(running := false), rx := CancelRx));
  }

  lemma RxCancels(s: State, t: State) returns (u: State)
    requires Leads(s, t) && Sane(t) && t.rx == CancelRx && t.ctl.mutex == NoOne && t.rxp.alloc == {}
    ensures Leads(s, u) && u == t.(rx := DrainRx, txp := t.txp.(asked := u.txp.asked))
  {
    hide EventNext, StartupNext, DrainNext;
    assert t.rxp.(asked := t.rxp.asked + t.rxp.alloc) == t.rxp;
    LeadsRx(s, t, true, t.(rx := CancelLock));
    var v := t.(ctl := t.ctl.(mutex := RxThread), rx := CancelTx(0));
    LeadsRx(s, t.(rx := CancelLock), true, v);
    var w := RxCancelsSlots(s, v);
    u := w.(ctl := t.ctl, rx := DrainRx);
    LeadsRx(s, w, true, u);
  }

  lemma {:induction false} RxCancelsSlots(s: State, t: State) returns (u: State)
    requires Leads(s, t) && Sane(t) && t.rx.CancelTx? && t.rx.next <= |t.txp.inUse|
    ensures Leads(s, u) && u == t.(rx := CancelUnlock, txp := t.txp.(asked := u.txp.asked))
    decreases |t.txp.inUse| - t.rx.next
  {
    hide EventNext, StartupNext, DrainNext;
    u := RxNext(t, true);
    LeadsRx(s, t, true, u);
    if t.rx.next < |t.txp.inUse| {
      u := RxCancelsSlots(s, u);
    }
  }

  lemma RxPassesDrain(s: State, t: State)
    requires Leads(s, t) && Sane(t) && t.rx == DrainRx && t.rxp.active == 0 && t.txp.active == 0 && t.tx != TX_DONE
    ensures Leads(s, t.(rx := FreeRx(0), quiet := false))
  {
    hide EventNext, StartupNext, CancelNext;
    LeadsRx(s, t, true, t.(rx := DrainTx));
    LeadsRx(s, t.(rx := DrainTx), true, t.(rx := FreeRx(0), quiet := false));
  }

  lemma {:induction false} RxHasNothingToFree(s: State, t: State)
    requires Leads(s, t) && Sane(t) && t.rx.FreeRx? && t.rx.next <= |t.rxp.freed| && t.rxp.alloc == {}
    ensures Leads(s, t.(rx := RxDone))
    decreases |t.rxp.freed| - t.rx.next
  {
    hide EventNext, StartupNext, CancelNext;
    var j := t.rx.next;
    if j < |t.rxp.freed| {
      LeadsRx(s, t, true, t.(rx := FreeRx(j + 1)));
      RxHasNothingToFree(s, t.(rx := FreeRx(j + 1)));
    } else {
      LeadsRx(s, t, true, t.(rx := RxDone));
    }
  }

  /** From a process told to stop to the end of the RX thread, by itself. */
  lemma RxRunsToEnd(s: State, t: State) returns (u: State)
    requires Leads(s, t) && Sane(t) && t.rx == Alloc(0) && t.rxp.alloc == {} && t.rxp.active == 0 && t.txp.active == 0
    requires t.ctl == Control(true, false, false, NoOne) && t.tx != TX_DONE
    ensures Leads(s, u)
    ensures u == t.(ctl := t.ctl.(running := false), rx := RxDone, quiet := false, txp := t.txp.(asked := u.txp.asked))
  {
    hide RxNext;
    NothingAllocated(s, t);
    RxStops(s, t.(rx := Loop0));
    var v := RxCancels(s, t.(ctl := t.ctl.(running := false), rx := CancelRx));
    RxPassesDrain(s, v);
    RxHasNothingToFree(s, v.(rx := FreeRx(0), quiet := false));
    u := v.(rx := RxDone, quiet := false);
  }

  /** A TX thread that has submitted finds running cleared and returns. */
  lemma TxReturns(s: State, t: State) returns (u: State)
    requires Leads(s, t) && Sane(t) && t.tx.Counting? && t.tx.countAt == Add && !t.ctl.running
    ensures Leads(s, u) && Sane(u) && u.tx == TX_DONE && u.txp.fly == t.txp.fly
    ensures u.ctl == t.ctl && u.rx == t.rx && u.main == t.main && u.quiet == t.quiet
  {
    hide U64, ReserveNext, SendNext, RxNext, MainNext, CbNext;
    u := TxNext(t, true, []);
    LeadsTx(s, t, [], u);
    var v := TxNext(u, true, []);
    LeadsTx(s, u, [], v);
    var w := TxNext(v, true, []);
    LeadsTx(s, v, [], w);
    var x := TxNext(w, true, []);
    LeadsTx(s, w, [], x);
    u := TxNext(x, true, []);
    LeadsTx(s, x, [], u);
  }

  lemma MainFrees(s: State, t: State)
    requires Leads(s, t) && Sane(t) && t.main == Running && !t.ctl.running && t.ctl.mutex == NoOne
    requires t.tx == TX_DONE && t.rx == RxDone
    ensures Leads(s, t.(main := FreeTx))
  {
    LeadsMain(s, t, t.(main := Stopping));
    LeadsMain(s, t.(main := Stopping), t.(main := SignalLock));
    var u := t.(ctl := t.ctl.(mutex := MainThread), main := SignalUnlock);
    LeadsMain(s, t.(main := SignalLock), u);
    LeadsMain(s, u, t.(main := JoinTx));
    LeadsMain(s, t.(main := JoinTx), t.(main := JoinRx));
    LeadsMain(s, t.(main := JoinRx), t.(main := FreeTx));
  }

  /** With a slot still reserved the drain loop can end on two zero counters, and the main thread
      then free the TX pool, while libusb still holds one of its transfers. */
  lemma DrainCanMissATransfer(n: nat, m: nat)
    requires n > 0
    ensures exists s :: Reachable(n, m, s) && s.main == FreeTx && s.txp.fly != {}
  {
    hide TxNext, RxNext, MainNext, CbNext;
    var s0 := Start(n, m);
    WrapReachable(n, m);
    LeadsOn(s0, AtWrap(n, m), Signal);
    var c := Control(true, false, false, NoOne);
    var t := AtWrap(n, m).(ctl := c);
    var u := RxRunsToEnd(s0, t);
    var v := SenderSubmits(s0, u);
    var w := TxReturns(s0, v);
    MainFrees(s0, w);
    assert Reachable(n, m, w.(main := FreeTx)) && 0 in w.txp.fly;
  }
}

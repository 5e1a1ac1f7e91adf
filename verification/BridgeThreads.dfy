/** What the RX thread and the main thread get done: the pool is started, the event loop goes on
    while it should and no longer, everything is asked to cancel, and nothing is freed too soon. */
module BridgeThreads {
  import opened Bytes
  import opened Rndis
  import opened Bridge
  import opened BridgeInvariant
  import opened BridgeRuns

  // ---- Startup ----

  /** How far the startup loop is. */
  function Tried(rx: RxPc, m: nat): nat {
    match rx
    case Alloc(j) => j
    case FirstSubmit(j) => j + 1
    case AddRx(j) => j + 1
    case _ => m
  }

  /** The transfers whose allocation succeeds in a run, */
  function Allocated(s: State, acts: seq<Action>): set<nat>
    requires Valid(s, acts)
    decreases |acts|
  {
    if acts == [] then {}
    else
      (if acts[0] == Rx(true) && s.rx.Alloc? && s.rx.next < |s.rxp.freed| then {s.rx.next} else {})
      + Allocated(Next(s, acts[0]), acts[1..])
  }

  /** and those that the RX thread tries to submit for the first time. */
  function FirstTries(s: State, acts: seq<Action>): set<nat>
    requires Valid(s, acts)
    decreases |acts|
  {
    if acts == [] then {}
    else
      (if acts[0].Rx? && s.rx.FirstSubmit? then {s.rx.slot} else {}) + FirstTries(Next(s, acts[0]), acts[1..])
  }

  /** How often an allocation is tried. */
  function AllocTries(s: State, acts: seq<Action>): nat
    requires Valid(s, acts)
    decreases |acts|
  {
    if acts == [] then 0
    else
      (if acts[0].Rx? && s.rx.Alloc? && s.rx.next < |s.rxp.freed| then 1 else 0)
      + AllocTries(Next(s, acts[0]), acts[1..])
  }

  /** The transfer that is allocated and not yet tried. */
  function Untried(rx: RxPc): set<nat> {
    if rx.FirstSubmit? then {rx.slot} else {}
  }

  /** What a step does to startup. */
  predicate StartsUp(s: State, a: Action, t: State) {
    var m := |s.rxp.freed|;
    var tries := a.Rx? && s.rx.Alloc? && s.rx.next < m;
    && t.rxp.alloc == s.rxp.alloc + (if tries && a.ok then {s.rx.next} else {})
    && Tried(t.rx, m) == Tried(s.rx, m) + (if tries then 1 else 0)
    && Untried(t.rx) == (if tries && a.ok then {s.rx.next} else if a.Rx? then {} else Untried(s.rx))
    && |t.rxp.freed| == m
  }

  lemma StartupPhase(s: State, ok: bool)
    requires RxOk(s.rxp, s.rx, s.cb) && InStartup(s.rx)
    ensures StartsUp(s, Rx(ok), StartupNext(s, ok))
  {
  }

  lemma StartupStep(s: State, a: Action)
    requires Inv(s) && Enabled(s, a)
    ensures StartsUp(s, a, Next(s, a))
  {
    hide Inv, TxNext, MainNext, CbNext, StartupNext, EventNext, CancelNext, DrainNext, Enabled, RxOk, Sane;
    RxOkOf(s);
    match a
    case Tx(ok, frame) => TxLeaves(s, ok, frame);
    case Main(ok) => MainLeaves(s, ok);
    case Cb(ok) => CbLeaves(s, ok);
    case Rx(ok) =>
      if InStartup(s.rx) {
        hide StartsUp;
        StartupPhase(s, ok);
      } else {
        RxLeaves(s, ok);
      }
    case _ =>
  }

  lemma RxOkOf(s: State)
    requires Inv(s)
    ensures Sane(s) && RxOk(s.rxp, s.rx, s.cb)
  {
    hide StatsOk, FreedOk, MutexOk, SlotsOk, RxOk;
  }

  lemma {:induction false} StartupRun(s: State, acts: seq<Action>)
    requires Inv(s) && Valid(s, acts)
    ensures
      var t, m := Run(s, acts), |s.rxp.freed|;
      && t.rxp.alloc == s.rxp.alloc + Allocated(s, acts)
      && Tried(t.rx, m) == Tried(s.rx, m) + AllocTries(s, acts)
      && Untried(s.rx) + Allocated(s, acts) == FirstTries(s, acts) + Untried(t.rx)
    decreases |acts|
  {
    hide Inv, Next, Enabled, Tried;
    if acts != [] {
      StartupStep(s, acts[0]);
      StepKeeps(s, acts[0]);
      StartupRun(Next(s, acts[0]), acts[1..]);
    }
  }

  /** Once startup is over, each of the m transfers has been tried to allocate, just those that
      succeeded are allocated, and each of these has been tried to submit. */
  lemma StartupExact(n: nat, m: nat, acts: seq<Action>)
    requires Valid(Start(n, m), acts) && !InStartup(Run(Start(n, m), acts).rx)
    ensures AllocTries(Start(n, m), acts) == m
    ensures Run(Start(n, m), acts).rxp.alloc == Allocated(Start(n, m), acts) == FirstTries(Start(n, m), acts)
  {
    hide Inv, Next, Run, Valid, Allocated, FirstTries, AllocTries;
    StartOk(n, m);
    StartupRun(Start(n, m), acts);
  }

  // ---- Transfers are not lost ----

  /** How often a submission of an RX transfer succeeds for the first time, */
  function FirstFlights(s: State, acts: seq<Action>): nat
    requires Valid(s, acts)
    decreases |acts|
  {
    if acts == [] then 0
    else (if acts[0] == Rx(true) && s.rx.FirstSubmit? then 1 else 0) + FirstFlights(Next(s, acts[0]), acts[1..])
  }

  /** and how often a callback ends by subtracting its transfer. */
  function Landings(s: State, acts: seq<Action>): nat
    requires Valid(s, acts)
    decreases |acts|
  {
    if acts == [] then 0
    else
      (if acts[0].Cb? && s.cb.OnRx? && s.cb.rxStage == RxSub then 1 else 0) + Landings(Next(s, acts[0]), acts[1..])
  }

  lemma FlightStep(s: State, a: Action)
    requires Inv(s) && Enabled(s, a)
    ensures
      var t := Next(s, a);
      RxPending(t.rxp, t.cb) == RxPending(s.rxp, s.cb)
        + (if a == Rx(true) && s.rx.FirstSubmit? then 1 else 0)
        - (if a.Cb? && s.cb.OnRx? && s.cb.rxStage == RxSub then 1 else 0)
  {
    hide StatsOk, FreedOk, MutexOk, SlotsOk, RxOk, TxNext, RxNext, MainNext, CbNext;
    assert RxOk(s.rxp, s.rx, s.cb) by { RxOkOf(s); }
    match a
    case Tx(ok, frame) => TxLeaves(s, ok, frame);
    case Main(ok) => MainLeaves(s, ok);
    case Rx(ok) => FlightRx(s, ok);
    case Cb(ok) => FlightCb(s, ok);
    case BeginTx(i) =>
    case BeginRx(j) =>
    case Signal =>
  }

  lemma FlightRx(s: State, ok: bool)
    requires RxOk(s.rxp, s.rx, s.cb)
    ensures
      var t := RxNext(s, ok);
      RxPending(t.rxp, t.cb) == RxPending(s.rxp, s.cb) + (if ok && s.rx.FirstSubmit? then 1 else 0)
  {
    hide EventNext, CancelNext, DrainNext;
    if !InStartup(s.rx) {
      hide RxNext;
      RxLeaves(s, ok);
    }
  }

  lemma FlightCb(s: State, ok: bool)
    requires Sane(s) && RxOk(s.rxp, s.rx, s.cb)
    ensures
      var t := CbNext(s, ok);
      RxPending(t.rxp, t.cb) == RxPending(s.rxp, s.cb) - (if s.cb.OnRx? && s.cb.rxStage == RxSub then 1 else 0)
  {
  }

  /** At any time, the RX transfers with libusb or a callback are those ever submitted less those
      that a callback has subtracted. */
  lemma {:induction false} TransfersConserved(s: State, acts: seq<Action>)
    requires Inv(s) && Valid(s, acts)
    ensures
      var t := Run(s, acts);
      RxPending(t.rxp, t.cb) == RxPending(s.rxp, s.cb) + FirstFlights(s, acts) - Landings(s, acts)
    decreases |acts|
  {
    hide Inv, Next, Enabled, RxPending;
    if acts != [] {
      FlightStep(s, acts[0]);
      StepKeeps(s, acts[0]);
      TransfersConserved(Next(s, acts[0]), acts[1..]);
    }
  }

  // ---- The event loop ----

  /** The RX thread has not left its event loop. */
  predicate Serving(rx: RxPc) {
    InStartup(rx) || rx == Loop0 || rx == Loop1 || rx == LoopActive || rx == Events
  }

  /** At every step of the run both flags stand and, past startup, active_rx is positive; and no
      step of the RX thread meets a lost device. */
  predicate Undisturbed(s: State, acts: seq<Action>)
    requires Valid(s, acts)
    decreases |acts|
  {
    acts == []
    || (!Down(s) && (InStartup(s.rx) || s.rxp.active > 0) && (s.rx == Events && acts[0].Rx? ==> acts[0].ok)
        && Undisturbed(Next(s, acts[0]), acts[1..]))
  }

  lemma ServingStep(s: State, a: Action)
    requires Sane(s) && Enabled(s, a) && Serving(s.rx) && !Down(s) && (InStartup(s.rx) || s.rxp.active > 0)
    requires s.rx == Events && a.Rx? ==> a.ok
    ensures Serving(Next(s, a).rx)
  {
    hide TxNext, MainNext, CbNext, CancelNext, DrainNext;
    match a
    case Tx(ok, frame) => TxLeaves(s, ok, frame);
    case Main(ok) => MainLeaves(s, ok);
    case Cb(ok) => CbLeaves(s, ok);
    case _ =>
  }

  /** The event loop goes on as long as it is undisturbed. */
  lemma {:induction false} ServesOn(s: State, acts: seq<Action>)
    requires Valid(s, acts) && Serving(s.rx) && Undisturbed(s, acts)
    ensures Serving(Run(s, acts).rx)
    decreases |acts|
  {
    hide Next, Enabled, Serving;
    if acts != [] {
      ServingStep(s, acts[0]);
      ServesOn(Next(s, acts[0]), acts[1..]);
    }
  }

  /** How many steps of its own the RX thread needs at most to leave the loop when a flag is down. */
  function LoopLeft(s: State): nat {
    var m := |s.rxp.freed|;
    match s.rx
    case Alloc(j) => if j <= m then 4 + 3 * (m - j) else 4
    case FirstSubmit(j) => if j < m then 3 + 3 * (m - j) else 4
    case AddRx(j) => if j < m then 2 + 3 * (m - j) else 4
    case Loop1 => if s.ctl.gRunning then 6 else 2
    case LoopActive => 5
    case Events => 4
    case Loop0 => 3
    case EventsDisc => 3
    case EventsStop => 2
    case Stop => 1
    case _ => 0
  }

  function RxSteps(acts: seq<Action>): nat {
    if acts == [] then 0 else (if acts[0].Rx? then 1 else 0) + RxSteps(acts[1..])
  }

  /** The bound after one more of these steps. */
  function OneLess(n: nat): nat {
    if n > 0 then n - 1 else 0
  }

  lemma LoopInStartup(s: State, ok: bool)
    requires InStartup(s.rx)
    requires s.rx.Alloc? ==> s.rx.next <= |s.rxp.freed|
    requires s.rx.FirstSubmit? || s.rx.AddRx? ==> s.rx.slot < |s.rxp.freed|
    ensures LoopLeft(StartupNext(s, ok)) <= OneLess(LoopLeft(s))
  {
  }

  lemma LoopInEvents(s: State, ok: bool)
    requires InEventLoop(s.rx) && Down(s)
    ensures LoopLeft(EventNext(s, ok)) <= OneLess(LoopLeft(s))
  {
  }

  lemma LoopBehind(s: State, ok: bool)
    requires !InStartup(s.rx) && !InEventLoop(s.rx)
    ensures LoopLeft(RxNext(s, ok)) == 0
  {
    hide StartupNext, EventNext;
  }

  lemma LoopPhase(s: State, ok: bool)
    requires RxOk(s.rxp, s.rx, s.cb) && Down(s)
    ensures LoopLeft(RxNext(s, ok)) <= OneLess(LoopLeft(s))
  {
    hide RxOk, StartupNext, EventNext, CancelNext, DrainNext, LoopLeft;
    if InStartup(s.rx) {
      StartupSlot(s);
      LoopInStartup(s, ok);
    } else if InEventLoop(s.rx) {
      LoopInEvents(s, ok);
    } else {
      LoopBehind(s, ok);
    }
  }

  lemma StartupSlot(s: State)
    requires RxOk(s.rxp, s.rx, s.cb)
    ensures s.rx.Alloc? ==> s.rx.next <= |s.rxp.freed|
    ensures s.rx.FirstSubmit? || s.rx.AddRx? ==> s.rx.slot < |s.rxp.freed|
  {
  }

  lemma LoopStep(s: State, a: Action)
    requires Inv(s) && Enabled(s, a) && Down(s)
    ensures a.Rx? ==> LoopLeft(Next(s, a)) <= OneLess(LoopLeft(s))
    ensures !a.Rx? ==> LoopLeft(Next(s, a)) <= LoopLeft(s)
  {
    hide Inv, RxOk, TxNext, RxNext, MainNext, CbNext;
    RxOkOf(s);
    match a
    case Tx(ok, frame) => TxLeaves(s, ok, frame);
    case Main(ok) => MainLeaves(s, ok);
    case Cb(ok) => CbLeaves(s, ok);
    case Rx(ok) => LoopPhase(s, ok);
    case _ =>
  }

  /** When a flag is down the RX thread leaves startup and its event loop within a bounded number
      of steps of its own. */
  lemma {:induction false} LeavesLoop(s: State, acts: seq<Action>)
    requires Inv(s) && Valid(s, acts) && Down(s)
    ensures RxSteps(acts) >= LoopLeft(s) ==> !InStartup(Run(s, acts).rx) && !InEventLoop(Run(s, acts).rx)
    ensures LoopLeft(s) <= 4 + 3 * |s.rxp.freed| + 2
    decreases |acts|
  {
    hide Inv, Next, Enabled, Down;
    if acts != [] {
      LoopStep(s, acts[0]);
      StepKeeps(s, acts[0]);
      DownStays(s, acts[0]);
      LeavesLoop(Next(s, acts[0]), acts[1..]);
    }
  }

  /** Past startup nothing is in flight: nothing will ever be again, and active_rx is zero. */
  predicate RanDry(s: State) {
    !InStartup(s.rx) && RxPending(s.rxp, s.cb) == 0
  }

  /** How many steps of its own the RX thread then needs at most to leave the loop. */
  function DryLeft(rx: RxPc): nat {
    match rx
    case Events => 5
    case Loop0 => 4
    case Loop1 => 3
    case LoopActive => 2
    case EventsDisc => 3
    case EventsStop => 2
    case Stop => 1
    case _ => 0
  }

  lemma DryOwn(s: State, ok: bool)
    requires !InStartup(s.rx) && s.rxp.active <= 0
    ensures DryLeft(RxNext(s, ok).rx) <= OneLess(DryLeft(s.rx))
  {
    if InEventLoop(s.rx) {
      hide StartupNext, CancelNext, DrainNext;
    } else {
      hide StartupNext, EventNext;
    }
  }

  lemma DryStep(s: State, a: Action)
    requires Inv(s) && Enabled(s, a) && RanDry(s)
    ensures RanDry(Next(s, a))
    ensures DryLeft(Next(s, a).rx) <= if a.Rx? then OneLess(DryLeft(s.rx)) else DryLeft(s.rx)
  {
    hide StatsOk, FreedOk, RxOk, SlotsOk, MutexOk, TxNext, RxNext, MainNext;
    match a
    case Tx(ok, frame) => TxLeaves(s, ok, frame);
    case Rx(ok) =>
      RxLeaves(s, ok);
      DryOwn(s, ok);
    case Main(ok) => MainLeaves(s, ok);
    case _ =>
  }

  /** When every RX transfer has failed the event loop ends, within a bounded number of steps. */
  lemma {:induction false} LeavesWhenDry(s: State, acts: seq<Action>)
    requires Inv(s) && Valid(s, acts) && RanDry(s)
    ensures RxSteps(acts) >= DryLeft(s.rx) ==> !InEventLoop(Run(s, acts).rx)
    ensures DryLeft(s.rx) <= 5
    decreases |acts|
  {
    hide Inv, Next, Enabled, RanDry;
    if acts != [] {
      DryStep(s, acts[0]);
      StepKeeps(s, acts[0]);
      LeavesWhenDry(Next(s, acts[0]), acts[1..]);
    }
  }

  // ---- Cancelling ----

  /** The RX thread has been through its cancel loops. */
  predicate Cancelled(rx: RxPc) {
    rx == CancelUnlock || rx == DrainRx || rx == DrainTx || rx == DrainTime || rx.FreeRx? || rx == RxDone
  }

  /** The slots below n that are in use have been asked to cancel. */
  predicate AskedBelow(p: TxPool, n: nat) {
    forall i {:trigger p.inUse[i]} :: 0 <= i < n && i < |p.inUse| && p.inUse[i] ==> i in p.asked
  }

  lemma AskedNext(p: TxPool, k: nat)
    requires AskedBelow(p, k)
    ensures k >= |p.inUse| ==> AskedBelow(p, |p.inUse|)
    ensures k < |p.inUse| && p.inUse[k] ==> AskedBelow(p.(asked := p.asked + {k}), k + 1)
    ensures k < |p.inUse| && !p.inUse[k] ==> AskedBelow(p, k + 1)
  {
  }

  lemma AskedNone(p: TxPool)
    ensures AskedBelow(p, 0)
  {
  }

  /** Every RX transfer has been asked to cancel, and every TX slot that the loop has come to and
      that is still in use; and no slot is reserved any more once it has come to all. */
  predicate CancelOk(s: State) {
    && ((InCancel(s.rx) && s.rx != CancelRx) || Cancelled(s.rx) ==> s.rxp.alloc <= s.rxp.asked)
    && (s.rx.CancelTx? ==> AskedBelow(s.txp, s.rx.next))
    && (Cancelled(s.rx) ==>
          && AskedBelow(s.txp, |s.txp.inUse|)
          && !(s.tx.Reserving? && (s.tx.slotAt == Test1 || s.tx.slotAt == Scan)))
  }

  lemma CancelTxStep(s: State, ok: bool, frame: seq<byte>)
    requires Inv(s) && Enabled(s, Tx(ok, frame)) && CancelOk(s)
    ensures CancelOk(TxNext(s, ok, frame))
  {
    hide U64, FirstFree, DataPacket, StatsOk, FreedOk, RxOk, SlotsOk;
    TxLeaves(s, ok, frame);
  }

  lemma CancelPhase(s: State)
    requires InCancel(s.rx) && CancelOk(s) && (s.rx.CancelTx? ==> !TxOwns(s.tx))
    ensures CancelOk(CancelNext(s))
  {
    hide AskedBelow, TxOwns;
    if s.rx.CancelTx? {
      AskedNext(s.txp, s.rx.next);
      OwnsToScan(s.tx);
    } else {
      AskedNone(s.txp);
    }
  }

  lemma OwnsToScan(tx: TxPc)
    ensures tx.Reserving? && (tx.slotAt == Test1 || tx.slotAt == Scan) ==> TxOwns(tx)
  {
  }

  lemma CancellerOwns(s: State)
    requires Inv(s) && s.rx.CancelTx?
    ensures !TxOwns(s.tx)
  {
    hide StatsOk, FreedOk, RxOk, SlotsOk, TxOwns, CbOwns;
  }

  lemma CancelRxStep(s: State, ok: bool)
    requires Inv(s) && Enabled(s, Rx(ok)) && CancelOk(s)
    ensures CancelOk(RxNext(s, ok))
  {
    hide StatsOk, FreedOk, RxOk, SlotsOk, MutexOk, StartupNext, EventNext, CancelNext, DrainNext;
    if InCancel(s.rx) {
      hide CancelOk, TxOwns;
      if s.rx.CancelTx? {
        CancellerOwns(s);
      }
      CancelPhase(s);
    } else {
      RxLeaves(s, ok);
      NoCancelElsewhere(s, ok);
    }
  }

  lemma NoCancelElsewhere(s: State, ok: bool)
    requires !InCancel(s.rx)
    ensures var t := RxNext(s, ok);
      && t.txp == s.txp && t.rxp.asked == s.rxp.asked
      && (InCancel(t.rx) ==> t.rx == CancelRx) && (Cancelled(t.rx) ==> Cancelled(s.rx) || s.rx == t.rx)
  {
    hide CancelNext;
    if InStartup(s.rx) {
      hide EventNext, DrainNext;
    } else if InEventLoop(s.rx) {
      hide StartupNext, DrainNext;
    } else {
      hide StartupNext, EventNext;
    }
  }

  lemma CancelCbStep(s: State, ok: bool)
    requires Inv(s) && Enabled(s, Cb(ok)) && CancelOk(s)
    ensures CancelOk(CbNext(s, ok))
  {
    hide StatsOk, FreedOk, RxOk, SlotsOk;
    CbLeaves(s, ok);
  }

  lemma CancelStep(s: State, a: Action)
    requires Inv(s) && Enabled(s, a) && CancelOk(s)
    ensures CancelOk(Next(s, a))
  {
    hide TxNext, RxNext, MainNext, CbNext, StatsOk, FreedOk, RxOk, SlotsOk;
    match a
    case Tx(ok, frame) => CancelTxStep(s, ok, frame);
    case Rx(ok) => CancelRxStep(s, ok);
    case Main(ok) => MainLeaves(s, ok);
    case Cb(ok) => CancelCbStep(s, ok);
    case _ =>
  }

  lemma {:induction false} CancelRun(s: State, acts: seq<Action>)
    requires Inv(s) && Valid(s, acts) && CancelOk(s)
    ensures CancelOk(Run(s, acts))
    decreases |acts|
  {
    hide Inv, Next, Enabled, CancelOk;
    if acts != [] {
      CancelStep(s, acts[0]);
      StepKeeps(s, acts[0]);
      CancelRun(Next(s, acts[0]), acts[1..]);
    }
  }

  /** From the unlock after the cancel loop on, in every reachable state, libusb has been asked to
      cancel every RX transfer of the pool and every TX transfer that is reserved or in flight. */
  lemma AllAskedToCancel(n: nat, m: nat, s: State)
    requires Reachable(n, m, s) && Cancelled(s.rx)
    ensures s.rxp.alloc <= s.rxp.asked
    ensures forall i: nat :: i < n && (Reserved(s.tx, i) || InFlight(s.txp, s.cb, i)) ==> i in s.txp.asked
  {
    var acts :| Valid(Start(n, m), acts) && Run(Start(n, m), acts) == s;
    StartOk(n, m);
    CancelRun(Start(n, m), acts);
    forall i: nat | i < n && (Reserved(s.tx, i) || InFlight(s.txp, s.cb, i))
      ensures i in s.txp.asked
    {
      SlotPartition(n, m, s, i, i);
    }
  }

  // ---- Draining and freeing ----

  predicate RxOks(acts: seq<Action>) {
    forall a :: a in acts && a.Rx? ==> a.ok
  }

  predicate InDrain(rx: RxPc) {
    rx == DrainRx || rx == DrainTx || rx == DrainTime
  }

  lemma DrainStep(s: State, a: Action)
    requires Inv(s) && Enabled(s, a) && InDrain(s.rx) && s.tx == TX_DONE && (a.Rx? ==> a.ok)
    ensures var t := Next(s, a); t.tx == TX_DONE && (InDrain(t.rx) || t.quiet)
  {
    hide TxNext, MainNext, CbNext, StatsOk, FreedOk, RxOk, SlotsOk, MutexOk;
    if !a.Tx? {
      TxAlone(s, a);
    }
    match a
    case Main(ok) => MainLeaves(s, ok);
    case Cb(ok) => CbLeaves(s, ok);
    case _ =>
  }

  /** Unless its time runs out, the drain loop is left with nothing pending if the TX thread has
      returned: only a test that finds both counters at zero ends it. */
  lemma {:induction false} DrainsQuietlyInTime(s: State, acts: seq<Action>)
    requires Inv(s) && Valid(s, acts) && InDrain(s.rx) && s.tx == TX_DONE && RxOks(acts)
    ensures InDrain(Run(s, acts).rx) || Run(s, acts).quiet
    decreases |acts|
  {
    hide Inv, Next, Enabled, InDrain;
    if acts != [] {
      assert acts[0] in acts && forall b :: b in acts[1..] ==> b in acts;
      DrainStep(s, acts[0]);
      StepKeeps(s, acts[0]);
      if InDrain(Next(s, acts[0]).rx) {
        DrainsQuietlyInTime(Next(s, acts[0]), acts[1..]);
      } else {
        QuietIsHistory(Next(s, acts[0]), acts[1..]);
      }
    }
  }

  function DrainLeft(rx: RxPc): nat {
    match rx
    case DrainRx => 3
    case DrainTx => 2
    case DrainTime => 1
    case _ => 0
  }

  predicate OutOfTime(acts: seq<Action>) {
    forall a :: a in acts && a.Rx? ==> !a.ok
  }

  lemma OutOfTimeStep(s: State, a: Action)
    requires Sane(s) && Enabled(s, a) && !InStartup(s.rx) && !InEventLoop(s.rx) && !InCancel(s.rx) && (a.Rx? ==> !a.ok)
    ensures DrainLeft(Next(s, a).rx) <= if a.Rx? then OneLess(DrainLeft(s.rx)) else DrainLeft(s.rx)
    ensures var rx := Next(s, a).rx; !InStartup(rx) && !InEventLoop(rx) && !InCancel(rx)
  {
    hide TxNext, MainNext, CbNext, StartupNext, EventNext, CancelNext;
    match a
    case Tx(ok, frame) => TxLeaves(s, ok, frame);
    case Main(ok) => MainLeaves(s, ok);
    case Cb(ok) => CbLeaves(s, ok);
    case _ =>
  }

  /** And when its time has run out the loop ends whatever is pending. */
  lemma {:induction false} DrainIsTimed(s: State, acts: seq<Action>)
    requires Inv(s) && Valid(s, acts) && OutOfTime(acts) && RxSteps(acts) >= DrainLeft(s.rx)
    requires !InStartup(s.rx) && !InEventLoop(s.rx) && !InCancel(s.rx)
    ensures !InDrain(Run(s, acts).rx)
    decreases |acts|
  {
    hide Inv, Next, Enabled, InStartup, InEventLoop, InCancel;
    if acts != [] {
      assert acts[0] in acts && forall b :: b in acts[1..] ==> b in acts;
      RxOkOf(s);
      OutOfTimeStep(s, acts[0]);
      StepKeeps(s, acts[0]);
      DrainIsTimed(Next(s, acts[0]), acts[1..]);
    }
  }

  // ---- Stop commands ----

  /** Main takes a stop command in its loop. */
  predicate TakesStop(s: State, a: Action) {
    a == Main(false) && s.main == Running
  }

  lemma StopStep(s: State, a: Action)
    requires Sane(s) && Enabled(s, a)
    ensures Next(s, a).ctl.running ==> s.ctl.running && !TakesStop(s, a)
  {
    hide TxNext, RxNext, CbNext;
    match a
    case Tx(ok, frame) => TxLeaves(s, ok, frame);
    case Rx(ok) => RxLeaves(s, ok);
    case Cb(ok) => CbLeaves(s, ok);
    case _ =>
  }

  /** After a stop command, at whatever point of a run, running is 0 for good. */
  lemma {:induction false} StopIsFinal(s: State, acts: seq<Action>)
    requires Inv(s) && Valid(s, acts) && (!s.ctl.running || (acts != [] && TakesStop(s, acts[0])))
    ensures !Run(s, acts).ctl.running
    decreases |acts|
  {
    hide Inv, Next, Enabled, TakesStop;
    if acts != [] {
      RxOkOf(s);
      StopStep(s, acts[0]);
      StepKeeps(s, acts[0]);
      StopIsFinal(Next(s, acts[0]), acts[1..]);
    }
  }

  /** The order in which the threads end. */
  predicate OrderOk(s: State) {
    && (s.tx == TX_DONE ==> Down(s))
    && (s.main != Running ==> Down(s))
    && (s.main != Running && s.main != Stopping ==> !s.ctl.running)
    && (s.main == JoinRx || s.main == FreeTx || s.main == MainDone ==> s.tx == TX_DONE)
    && (s.main == FreeTx || s.main == MainDone ==> s.rx == RxDone)
  }

  lemma OrderStep(s: State, a: Action)
    requires Sane(s) && Enabled(s, a) && OrderOk(s)
    ensures OrderOk(Next(s, a))
  {
    hide CbNext, StartupNext, EventNext, CancelNext, ReserveNext, SendNext, CountNext;
    match a
    case Tx(ok, frame) =>
      hide TxNext;
      TxLeaves(s, ok, frame);
      ReturnsOnlyWhenDown(s, ok, frame);
    case Rx(ok) => RxLeaves(s, ok);
    case Cb(ok) => CbLeaves(s, ok);
    case _ =>
  }

  lemma ReturnsOnlyWhenDown(s: State, ok: bool, frame: seq<byte>)
    requires Sane(s) && Enabled(s, Tx(ok, frame))
    ensures TxNext(s, ok, frame).tx == TX_DONE ==> Down(s)
  {
    hide FirstFree, U64, DataPacket;
  }

  lemma {:induction false} OrderRun(s: State, acts: seq<Action>)
    requires Inv(s) && Valid(s, acts) && OrderOk(s)
    ensures OrderOk(Run(s, acts))
    decreases |acts|
  {
    hide Inv, Next, Enabled, OrderOk;
    if acts != [] {
      OrderStep(s, acts[0]);
      StepKeeps(s, acts[0]);
      OrderRun(Next(s, acts[0]), acts[1..]);
    }
  }

  /** The TX thread returns and main leaves its loop only after a flag fell; and main frees the TX
      pool only after running was cleared and both threads have returned, by when every RX transfer
      has been freed. */
  lemma FreesAfterBothReturned(n: nat, m: nat, s: State)
    requires Reachable(n, m, s)
    ensures s.tx == TX_DONE || s.main != Running ==> Down(s)
    ensures s.main == FreeTx || s.main == MainDone ==> !s.ctl.running && s.tx == TX_DONE && s.rx == RxDone
  {
    var acts :| Valid(Start(n, m), acts) && Run(Start(n, m), acts) == s;
    StartOk(n, m);
    OrderRun(Start(n, m), acts);
  }

  // ---- A lost device ----

  /** The step meets the outcome that the device is gone. */
  predicate MeetsLoss(s: State, a: Action) {
    || (a == Rx(false) && s.rx == Events)
    || (a == Action.Cb(false) && ((s.cb.OnTx? && s.cb.txStage == TxBegin) || (s.cb.OnRx? && s.cb.rxStage == RxBegin)))
  }

  predicate LosesDevice(s: State, acts: seq<Action>)
    requires Valid(s, acts)
    decreases |acts|
  {
    acts != [] && (MeetsLoss(s, acts[0]) || LosesDevice(Next(s, acts[0]), acts[1..]))
  }

  /** A party has met the loss and is about to note it, */
  predicate AboutToNote(s: State) {
    || s.rx == EventsDisc
    || (s.cb.OnTx? && s.cb.txStage == TxDisc) || (s.cb.OnRx? && s.cb.rxStage == RxDisc)
  }

  /** or has noted it and is about to stop the session. */
  predicate AboutToStop(s: State) {
    || s.rx == EventsStop
    || (s.cb.OnTx? && s.cb.txStage == TxStop) || (s.cb.OnRx? && s.cb.rxStage == RxStop)
  }

  predicate Noted(s: State) {
    s.ctl.disconnected || AboutToNote(s)
  }

  predicate LossOk(s: State) {
    && (AboutToStop(s) ==> s.ctl.disconnected)
    && (s.ctl.disconnected ==> !s.ctl.running || AboutToStop(s))
  }

  lemma LossRx(s: State, ok: bool)
    requires LossOk(s)
    ensures Noted(RxNext(s, ok)) <==> Noted(s) || MeetsLoss(s, Rx(ok))
    ensures LossOk(RxNext(s, ok))
  {
    if InEventLoop(s.rx) {
      hide StartupNext, CancelNext, DrainNext;
    } else {
      hide EventNext;
      NoLossElsewhere(s, ok);
    }
  }

  lemma NoLossElsewhere(s: State, ok: bool)
    requires !InEventLoop(s.rx)
    ensures var t := RxNext(s, ok);
      t.ctl.disconnected == s.ctl.disconnected && t.ctl.running == s.ctl.running && t.cb == s.cb
      && t.rx != EventsDisc && t.rx != EventsStop
  {
    hide EventNext;
  }

  lemma LossCb(s: State, ok: bool)
    requires Sane(s) && LossOk(s) && s.cb != Idle
    ensures Noted(CbNext(s, ok)) <==> Noted(s) || MeetsLoss(s, Action.Cb(ok))
    ensures LossOk(CbNext(s, ok))
  {
    if s.cb.OnTx? {
      hide OnRxNext;
    } else {
      hide OnTxNext;
    }
  }

  lemma LossStep(s: State, a: Action)
    requires Sane(s) && Enabled(s, a) && LossOk(s)
    ensures Noted(Next(s, a)) <==> Noted(s) || MeetsLoss(s, a)
    ensures LossOk(Next(s, a))
  {
    hide TxNext, RxNext, CbNext;
    match a
    case Tx(ok, frame) => TxKeepsLoss(s, ok, frame);
    case Rx(ok) => LossRx(s, ok);
    case Cb(ok) => LossCb(s, ok);
    case _ =>
  }

  lemma TxKeepsLoss(s: State, ok: bool, frame: seq<byte>)
    requires Sane(s)
    ensures TxNext(s, ok, frame).ctl.disconnected == s.ctl.disconnected
    ensures TxNext(s, ok, frame).ctl.running == s.ctl.running
    ensures TxNext(s, ok, frame).rx == s.rx && TxNext(s, ok, frame).cb == s.cb
  {
    hide FirstFree, U64, DataPacket;
  }

  lemma {:induction false} LossRun(s: State, acts: seq<Action>)
    requires Inv(s) && Valid(s, acts) && LossOk(s)
    ensures LossOk(Run(s, acts)) && (Noted(Run(s, acts)) <==> Noted(s) || LosesDevice(s, acts))
    decreases |acts|
  {
    hide Inv, Next, Enabled, LossOk, Noted, MeetsLoss;
    if acts != [] {
      LossStep(s, acts[0]);
      StepKeeps(s, acts[0]);
      LossRun(Next(s, acts[0]), acts[1..]);
    }
  }

  /** In every run disconnected is set if and only if some callback or the event loop met the loss
      of the device, once the party that met it last has gone on; and the session is then told to
      stop. */
  lemma DisconnectedExact(n: nat, m: nat, acts: seq<Action>)
    requires Valid(Start(n, m), acts)
    ensures
      var t := Run(Start(n, m), acts);
      && (!AboutToNote(t) ==> (t.ctl.disconnected <==> LosesDevice(Start(n, m), acts)))
      && (t.ctl.disconnected && !AboutToStop(t) ==> !t.ctl.running)
  {
    hide Inv, Next, Run, Valid, LosesDevice;
    StartOk(n, m);
    LossRun(Start(n, m), acts);
  }
}

/** The asynchronous bridge of main.c as a transition system. Every access to a shared field is
    a step of its own, so a run is any interleaving of
      - the TX thread (tun_to_usb),
      - the RX thread (usb_to_tun),
      - the main thread (the end of run_session),
      - completion callbacks (tx_complete, rx_complete), which libusb runs one at a time but on
        whichever thread happens to handle events,
      - the signal handler.
    Pool sizes are arbitrary. */
module Bridge {
  import opened Bytes
  import opened Rndis
  import opened Options

  datatype Owner = NoOne | TxThread | RxThread | MainThread | Callback

  /** The head of the outer loop (two loads, of running and of g_running), and the wait for the
      next packet of a batch. */
  datatype OuterAt = Head0 | Head1 | Poll | Returned

  /** Reserving a slot: lock, test both flags, scan for a free slot, sleep on the condition,
      unlock without a slot. */
  datatype SlotAt = Lock | Test0 | Test1 | Scan | Asleep | UnlockNone

  /** With a slot: unlock, wrap_frame into its buffer, fill its transfer, submit it. */
  datatype SendAt = UnlockSlot | Wrap | Fill | Submit

  /** After a successful submission: active_tx += 1, tx_pkts += 1, tx_bytes += elen. */
  datatype CountAt = Add | CountPkt | CountBytes

  /** Where the TX thread is. */
  datatype TxPc =
    | Outer(outerAt: OuterAt)
    | Reserving(slotAt: SlotAt, frame: seq<byte>)
    | Sending(sendAt: SendAt, slot: nat, frame: seq<byte>)
    | Counting(countAt: CountAt, sent: seq<byte>)
    | FailLock(back: nat)              // give the slot back: lock,
    | FailClear(back: nat)             // clear,
    | FailUnlock                       // unlock

  datatype RxPc =
    | Alloc(next: nat)                 // allocate the next transfer
    | FirstSubmit(slot: nat)           // and submit it
    | AddRx(slot: nat)                 // active_rx += 1
    | Loop0 | Loop1 | LoopActive       // event loop: running, g_running, active_rx > 0
    | Events                           // libusb_handle_events_timeout, outside callbacks
    | EventsDisc | EventsStop          // the device is gone: disconnected, running
    | Stop                             // running = 0
    | CancelRx
    | CancelLock
    | CancelTx(next: nat)              // cancel the TX slots in use, under the mutex
    | CancelUnlock
    | DrainRx                          // drain loop: load active_rx
    | DrainTx                          // drain loop: load active_tx
    | DrainTime                        // drain loop: time limit, then handle events
    | FreeRx(next: nat)
    | RxDone

  datatype MainPc =
    | Running                          // keepalive, statistics, commands
    | Stopping                         // running = 0
    | SignalLock | SignalUnlock
    | JoinTx | JoinRx
    | FreeTx
    | MainDone

  datatype TxStage = TxBegin | TxDisc | TxStop | TxLock | TxClear | TxSub | TxUnlock

  datatype RxStage = RxBegin | RxDisc | RxStop | RxTest0 | RxTest1 | RxResubmit | RxSub

  /** The callback that is running, if any, and how far it is. */
  datatype Cb = Idle | OnTx(txSlot: nat, txStage: TxStage) | OnRx(rxSlot: nat, rxStage: RxStage)

  /** The flags and the mutex. */
  datatype Control = Control(running: bool, gRunning: bool, disconnected: bool, mutex: Owner)

  datatype TxPool = TxPool(
    inUse: seq<bool>,
    buffer: seq<seq<byte>>,   // the packet last written to the front of each buffer
    length: seq<nat>,         // how much of its buffer each transfer was last told to send
    active: int,              // active_tx
    pkts: nat,                // tx_pkts
    bytes: nat,               // tx_bytes
    fly: set<nat>,            // transfers that libusb holds
    asked: set<nat>,          // history: transfers that libusb was asked to cancel
    handed: seq<seq<byte>>,   // history: the frame of each transfer's last successful submission
    submitted: seq<seq<byte>>) // history: the frames of all successful submissions

  datatype RxPool = RxPool(
    active: int,              // active_rx
    fly: set<nat>,            // transfers that libusb holds
    alloc: set<nat>,          // transfers that were allocated
    asked: set<nat>,          // history: transfers that libusb was asked to cancel
    freed: seq<nat>)          // history: how often each transfer was freed

  /** quiet is history: the drain loop ended on two zero counters after the TX thread returned. */
  datatype State = State(ctl: Control, txp: TxPool, rxp: RxPool, tx: TxPc, rx: RxPc, main: MainPc, cb: Cb, quiet: bool)

  function Start(n: nat, m: nat): State {
    State(Control(true, true, false, NoOne),
      TxPool(seq(n, _ => false), seq(n, _ => []), seq(n, _ => 0), 0, 0, 0, {}, {}, seq(n, _ => []), []),
      RxPool(0, {}, {}, {}, seq(m, _ => 0)),
      Outer(Head0), Alloc(0), Running, Idle, false)
  }

  /** One step. The boolean is the outcome of the call the step makes, where it makes one. */
  datatype Action =
    | Tx(ok: bool, frame: seq<byte>)
    | Rx(ok: bool)
    | Main(ok: bool)
    | Cb(ok: bool)
    | BeginTx(slot: nat)
    | BeginRx(slot: nat)
    | Signal

  predicate TxNeedsMutex(tx: TxPc) {
    (tx.Reserving? && (tx.slotAt == Lock || tx.slotAt == Asleep)) || tx.FailLock?
  }

  const TX_DONE := Outer(Returned)

  predicate Enabled(s: State, a: Action) {
    match a
    case Tx(_, _) => s.tx != TX_DONE && (TxNeedsMutex(s.tx) ==> s.ctl.mutex == NoOne)
    case Rx(_) => s.rx != RxDone && (s.rx == CancelLock ==> s.ctl.mutex == NoOne)
    case Main(ok) =>
      && s.main != MainDone
      && (s.main == Running && ok ==> !s.ctl.running || !s.ctl.gRunning)
      && (s.main == SignalLock ==> s.ctl.mutex == NoOne)
      && (s.main == JoinTx ==> s.tx == TX_DONE)
      && (s.main == JoinRx ==> s.rx == RxDone)
    case Cb(_) => s.cb != Idle && (s.cb.OnTx? && s.cb.txStage == TxLock ==> s.ctl.mutex == NoOne)
    case BeginTx(i) => s.cb == Idle && i in s.txp.fly
    case BeginRx(j) => s.cb == Idle && j in s.rxp.fly
    case Signal => true
  }

  function FirstFree(inUse: seq<bool>): (r: Option<nat>)
    ensures r.Some? ==> r.value < |inUse| && !inUse[r.value] && forall j :: 0 <= j < r.value ==> inUse[j]
    ensures r.None? ==> forall j :: 0 <= j < |inUse| ==> inUse[j]
  {
    if inUse == [] then None
    else if !inUse[0] then Some(0)
    else
      match FirstFree(inUse[1..])
      case None => None
      case Some(i) => Some(i + 1)
  }

  /** The TX thread holds the slot: from the scan to the submission, or to giving it back. */
  predicate Reserved(tx: TxPc, i: nat) {
    (tx.Sending? && tx.slot == i) || ((tx.FailLock? || tx.FailClear?) && tx.back == i)
  }

  predicate SlotsExist(p: TxPool, tx: TxPc, cb: Cb) {
    && |p.buffer| == |p.length| == |p.handed| == |p.inUse|
    && (tx.Sending? ==> tx.slot < |p.inUse|)
    && (tx.FailLock? || tx.FailClear? ==> tx.back < |p.inUse|)
    && (cb.OnTx? ==> cb.txSlot < |p.inUse|)
  }

  predicate Sane(s: State) {
    SlotsExist(s.txp, s.tx, s.cb)
  }

  /** The head of tun_to_usb and of its batch loop. */
  function OuterNext(s: State, ok: bool, frame: seq<byte>): State
    requires s.tx.Outer?
  {
    match s.tx.outerAt
    case Head0 => s.(tx := Outer(if s.ctl.running then Head1 else Returned))
    case Head1 => s.(tx := Outer(if s.ctl.gRunning then Poll else Returned))
    case Poll => s.(tx := if ok && frame != [] then Reserving(Lock, frame) else Outer(Head0))
    case Returned => s
  }

  /** Reserving a slot. */
  function ReserveNext(s: State): State
    requires s.tx.Reserving?
  {
    var c, p, f := s.ctl, s.txp, s.tx.frame;
    match s.tx.slotAt
    case Lock => s.(ctl := c.(mutex := TxThread), tx := Reserving(Test0, f))
    case Test0 => s.(tx := Reserving(if c.running then Test1 else UnlockNone, f))
    case Test1 => s.(tx := Reserving(if c.gRunning then Scan else UnlockNone, f))
    case Scan =>
      var free := FirstFree(p.inUse);
      if free.Some? then s.(txp := p.(inUse := p.inUse[free.value := true]), tx := Sending(UnlockSlot, free.value, f))
      else s.(ctl := c.(mutex := NoOne), tx := Reserving(Asleep, f))
    case Asleep => s.(ctl := c.(mutex := TxThread), tx := Reserving(Test0, f))
    case UnlockNone => s.(ctl := c.(mutex := NoOne), tx := Outer(Head0))
  }

  /** Wrapping and submitting. */
  function SendNext(s: State, ok: bool): State
    requires Sane(s) && s.tx.Sending?
  {
    var p, i, f := s.txp, s.tx.slot, s.tx.frame;
    match s.tx.sendAt
    case UnlockSlot => s.(ctl := s.ctl.(mutex := NoOne), tx := Sending(Wrap, i, f))
    case Wrap =>
      if ok then s.(txp := p.(buffer := p.buffer[i := DataPacket(f)]), tx := Sending(Fill, i, f))
      else s.(tx := FailLock(i))
    case Fill => s.(txp := p.(length := p.length[i := |DataPacket(f)|]), tx := Sending(Submit, i, f))
    case Submit =>
      if ok then
        s.(txp := p.(fly := p.fly + {i}, handed := p.handed[i := f], submitted := p.submitted + [f]),
          tx := Counting(Add, f))
      else s.(tx := FailLock(i))
  }

  /** The three counters bumped after a successful submission. */
  function CountNext(s: State): State
    requires s.tx.Counting?
  {
    var p, f := s.txp, s.tx.sent;
    match s.tx.countAt
    case Add => s.(txp := p.(active := p.active + 1), tx := Counting(CountPkt, f))
    case CountPkt => s.(txp := p.(pkts := U64(p.pkts + 1)), tx := Counting(CountBytes, f))
    case CountBytes => s.(txp := p.(bytes := U64(p.bytes + |f|)), tx := Outer(Poll))
  }

  function TxNext(s: State, ok: bool, frame: seq<byte>): State
    requires Sane(s)
  {
    match s.tx
    case Outer(_) => OuterNext(s, ok, frame)
    case Reserving(_, _) => ReserveNext(s)
    case Sending(_, _, _) => SendNext(s, ok)
    case Counting(_, _) => CountNext(s)
    case FailLock(i) => s.(ctl := s.ctl.(mutex := TxThread), tx := FailClear(i))
    case FailClear(i) => s.(txp := s.txp.(inUse := s.txp.inUse[i := false]), tx := FailUnlock)
    case FailUnlock => s.(ctl := s.ctl.(mutex := NoOne), tx := Outer(Poll))
  }

  predicate InStartup(rx: RxPc) {
    rx.Alloc? || rx.FirstSubmit? || rx.AddRx?
  }

  predicate InEventLoop(rx: RxPc) {
    rx.Loop0? || rx.Loop1? || rx.LoopActive? || rx.Events? || rx.EventsDisc? || rx.EventsStop? || rx.Stop?
  }

  predicate InCancel(rx: RxPc) {
    rx.CancelRx? || rx.CancelLock? || rx.CancelTx? || rx.CancelUnlock?
  }

  function StartupNext(s: State, ok: bool): State
    requires InStartup(s.rx)
  {
    var q := s.rxp;
    match s.rx
    case Alloc(j) =>
      if j >= |q.freed| then s.(rx := Loop0)
      else if ok then s.(rxp := q.(alloc := q.alloc + {j}), rx := FirstSubmit(j))
      else s.(rx := Alloc(j + 1))
    case FirstSubmit(j) => if ok then s.(rxp := q.(fly := q.fly + {j}), rx := AddRx(j)) else s.(rx := Alloc(j + 1))
    case AddRx(j) => s.(rxp := q.(active := q.active + 1), rx := Alloc(j + 1))
  }

  function EventNext(s: State, ok: bool): State
    requires InEventLoop(s.rx)
  {
    var c := s.ctl;
    match s.rx
    case Loop0 => s.(rx := if c.running then Loop1 else Stop)
    case Loop1 => s.(rx := if c.gRunning then LoopActive else Stop)
    case LoopActive => s.(rx := if s.rxp.active > 0 then Events else Stop)
    case Events => s.(rx := if ok then Loop0 else EventsDisc)
    case EventsDisc => s.(ctl := c.(disconnected := true), rx := EventsStop)
    case EventsStop => s.(ctl := c.(running := false), rx := Stop)
    case _ => s.(ctl := c.(running := false), rx := CancelRx)
  }

  function CancelNext(s: State): State
    requires InCancel(s.rx)
  {
    match s.rx
    case CancelRx => s.(rxp := s.rxp.(asked := s.rxp.asked + s.rxp.alloc), rx := CancelLock)
    case CancelLock => s.(ctl := s.ctl.(mutex := RxThread), rx := CancelTx(0))
    case CancelTx(i) =>
      if i >= |s.txp.inUse| then s.(rx := CancelUnlock)
      else if s.txp.inUse[i] then s.(txp := s.txp.(asked := s.txp.asked + {i}), rx := CancelTx(i + 1))
      else s.(rx := CancelTx(i + 1))
    case _ => s.(ctl := s.ctl.(mutex := NoOne), rx := DrainRx)
  }

  function DrainNext(s: State, ok: bool): State {
    var q := s.rxp;
    match s.rx
    case DrainRx => s.(rx := if q.active > 0 then DrainTime else DrainTx)
    case DrainTx =>
      if s.txp.active > 0 then s.(rx := DrainTime)
      else s.(rx := FreeRx(0), quiet := s.tx == TX_DONE)
    case DrainTime => s.(rx := if ok then DrainRx else FreeRx(0))
    case FreeRx(j) =>
      if j >= |q.freed| then s.(rx := RxDone)
      else if j in q.alloc then s.(rxp := q.(freed := q.freed[j := q.freed[j] + 1]), rx := FreeRx(j + 1))
      else s.(rx := FreeRx(j + 1))
    case _ => s
  }

  function RxNext(s: State, ok: bool): State {
    if InStartup(s.rx) then StartupNext(s, ok)
    else if InEventLoop(s.rx) then EventNext(s, ok)
    else if InCancel(s.rx) then CancelNext(s)
    else DrainNext(s, ok)
  }

  /** The main loop leaves when a test of a flag fails (ok); until then it may clear running for
      a stop command (not ok). */
  function MainNext(s: State, ok: bool): State {
    var c := s.ctl;
    match s.main
    case Running => if ok then s.(main := Stopping) else s.(ctl := c.(running := false))
    case Stopping => s.(ctl := c.(running := false), main := SignalLock)
    case SignalLock => s.(ctl := c.(mutex := MainThread), main := SignalUnlock)
    case SignalUnlock => s.(ctl := c.(mutex := NoOne), main := JoinTx)
    case JoinTx => s.(main := JoinRx)
    case JoinRx => s.(main := FreeTx)
    case FreeTx => s.(main := MainDone)
    case MainDone => s
  }

  function OnTxNext(s: State, ok: bool): State
    requires Sane(s) && s.cb.OnTx?
  {
    var c, p, i := s.ctl, s.txp, s.cb.txSlot;
    match s.cb.txStage
    case TxBegin => s.(cb := OnTx(i, if ok then TxLock else TxDisc))
    case TxDisc => s.(ctl := c.(disconnected := true), cb := OnTx(i, TxStop))
    case TxStop => s.(ctl := c.(running := false), cb := OnTx(i, TxLock))
    case TxLock => s.(ctl := c.(mutex := Callback), cb := OnTx(i, TxClear))
    case TxClear => s.(txp := p.(inUse := p.inUse[i := false]), cb := OnTx(i, TxSub))
    case TxSub => s.(txp := p.(active := p.active - 1), cb := OnTx(i, TxUnlock))
    case TxUnlock => s.(ctl := c.(mutex := NoOne), cb := Idle)
  }

  function OnRxNext(s: State, ok: bool): State
    requires s.cb.OnRx?
  {
    var c, q, j := s.ctl, s.rxp, s.cb.rxSlot;
    match s.cb.rxStage
    case RxBegin => s.(cb := OnRx(j, if ok then RxTest0 else RxDisc))
    case RxDisc => s.(ctl := c.(disconnected := true), cb := OnRx(j, RxStop))
    case RxStop => s.(ctl := c.(running := false), cb := OnRx(j, RxSub))
    case RxTest0 => s.(cb := OnRx(j, if ok && c.running then RxTest1 else RxSub))
    case RxTest1 => s.(cb := OnRx(j, if c.gRunning then RxResubmit else RxSub))
    case RxResubmit => if ok then s.(rxp := q.(fly := q.fly + {j}), cb := Idle) else s.(cb := OnRx(j, RxSub))
    case RxSub => s.(rxp := q.(active := q.active - 1), cb := Idle)
  }

  /** A callback step. At TxBegin and RxBegin the outcome tells NO_DEVICE (not ok) from the rest;
      at RxTest0 it tells a cancelled transfer (not ok) from one to resubmit. */
  function CbNext(s: State, ok: bool): State
    requires Sane(s)
  {
    match s.cb
    case Idle => s
    case OnTx(_, _) => OnTxNext(s, ok)
    case OnRx(_, _) => OnRxNext(s, ok)
  }

  function Next(s: State, a: Action): State
    requires Sane(s)
  {
    match a
    case Tx(ok, frame) => TxNext(s, ok, frame)
    case Rx(ok) => RxNext(s, ok)
    case Main(ok) => MainNext(s, ok)
    case Cb(ok) => CbNext(s, ok)
    case BeginTx(i) => s.(txp := s.txp.(fly := s.txp.fly - {i}), cb := OnTx(i, TxBegin))
    case BeginRx(j) => s.(rxp := s.rxp.(fly := s.rxp.fly - {j}), cb := OnRx(j, RxBegin))
    case Signal => s.(ctl := s.ctl.(gRunning := false))
  }

  // ---- The invariant ----

  /** The slot was submitted and its callback has not given it back. */
  predicate InFlight(p: TxPool, cb: Cb, i: nat) {
    i in p.fly || (cb.OnTx? && cb.txSlot == i && cb.txStage != TxSub && cb.txStage != TxUnlock)
  }

  /** Submitted transfers that no callback has subtracted yet. */
  function TxPending(p: TxPool, cb: Cb): nat {
    |p.fly| + if cb.OnTx? && cb.txStage != TxUnlock then 1 else 0
  }

  function RxPending(q: RxPool, cb: Cb): nat {
    |q.fly| + if cb.OnRx? then 1 else 0
  }

  predicate TxOwns(tx: TxPc) {
    || (tx.Reserving? && tx.slotAt != Lock && tx.slotAt != Asleep)
    || (tx.Sending? && tx.sendAt == UnlockSlot)
    || tx.FailClear? || tx.FailUnlock?
  }

  predicate RxOwns(rx: RxPc) {
    rx.CancelTx? || rx == CancelUnlock
  }

  predicate CbOwns(cb: Cb) {
    cb.OnTx? && (cb.txStage == TxClear || cb.txStage == TxSub || cb.txStage == TxUnlock)
  }

  /** The mutex is owned by whoever is between a lock and an unlock. */
  predicate MutexOk(mutex: Owner, tx: TxPc, rx: RxPc, main: MainPc, cb: Cb) {
    && (mutex == TxThread <==> TxOwns(tx))
    && (mutex == RxThread <==> RxOwns(rx))
    && (mutex == MainThread <==> main == SignalUnlock)
    && (mutex == Callback <==> CbOwns(cb))
  }

  /** in_use says which slots are reserved or in flight, and no slot is both. */
  predicate SlotsOk(p: TxPool, tx: TxPc, cb: Cb) {
    && (forall i :: i in p.fly ==> i < |p.inUse| && !Reserved(tx, i) && !(cb.OnTx? && cb.txSlot == i))
    && (cb.OnTx? ==> !Reserved(tx, cb.txSlot))
    && (forall i {:trigger p.inUse[i]} :: 0 <= i < |p.inUse| ==>
          (p.inUse[i] <==> Reserved(tx, i) || InFlight(p, cb, i)))
  }

  predicate TxCountOk(p: TxPool, tx: TxPc, cb: Cb) {
    p.active == TxPending(p, cb) - if tx.Counting? && tx.countAt == Add then 1 else 0
  }

  /** libusb holds allocated transfers only, each once. */
  predicate RxOk(q: RxPool, rx: RxPc, cb: Cb) {
    && (forall j :: j in q.alloc ==> j < |q.freed|)
    && (forall j :: j in q.fly ==> j in q.alloc && !(cb.OnRx? && cb.rxSlot == j))
    && (cb.OnRx? ==> cb.rxSlot in q.alloc)
    && (rx.Alloc? ==> rx.next <= |q.freed| && forall j :: j in q.alloc ==> j < rx.next)
    && (rx.FirstSubmit? || rx.AddRx? ==> rx.slot in q.alloc && forall j :: j in q.alloc ==> j <= rx.slot)
    && (rx.FirstSubmit? ==> rx.slot !in q.fly && !(cb.OnRx? && cb.rxSlot == rx.slot))
  }

  predicate RxCountOk(q: RxPool, rx: RxPc, cb: Cb) {
    q.active == RxPending(q, cb) - if rx.AddRx? then 1 else 0
  }

  /** The total length of a list of frames. */
  function SumOf(frames: seq<seq<byte>>): nat {
    if frames == [] then 0 else SumOf(frames[..|frames| - 1]) + |frames[|frames| - 1]|
  }

  /** How many of the successful submissions are counted in tx_pkts, and in tx_bytes. */
  predicate StatsOk(pkts: nat, bytes: nat, submitted: seq<seq<byte>>, tx: TxPc) {
    && (tx.Counting? ==> submitted != [] && submitted[|submitted| - 1] == tx.sent)
    && pkts == U64(|submitted| - if tx.Counting? && tx.countAt != CountBytes then 1 else 0)
    && bytes == U64(SumOf(submitted) - if tx.Counting? then |tx.sent| else 0)
  }

  predicate FreedOk(q: RxPool, rx: RxPc) {
    forall j :: 0 <= j < |q.freed| ==>
      q.freed[j] == if j in q.alloc && (rx == RxDone || (rx.FreeRx? && j < rx.next)) then 1 else 0
  }

  /** Once the drain loop has seen active_rx at zero no RX transfer is pending, and once it has
      ended quietly no transfer is. */
  predicate QuietOk(quiet: bool, p: TxPool, q: RxPool, tx: TxPc, rx: RxPc, cb: Cb) {
    && (rx == DrainTx || quiet ==> RxPending(q, cb) == 0 && !rx.Alloc? && !rx.FirstSubmit? && !rx.AddRx?)
    && (quiet ==> tx == TX_DONE && TxPending(p, cb) == 0)
  }

  /** The RX thread clears running before it cancels anything. */
  predicate StopOk(running: bool, rx: RxPc) {
    !InStartup(rx) && !InEventLoop(rx) ==> !running
  }

  predicate Inv(s: State) {
    && StopOk(s.ctl.running, s.rx)
    && Sane(s)
    && MutexOk(s.ctl.mutex, s.tx, s.rx, s.main, s.cb)
    && SlotsOk(s.txp, s.tx, s.cb)
    && TxCountOk(s.txp, s.tx, s.cb)
    && RxOk(s.rxp, s.rx, s.cb)
    && RxCountOk(s.rxp, s.rx, s.cb)
    && StatsOk(s.txp.pkts, s.txp.bytes, s.txp.submitted, s.tx)
    && FreedOk(s.rxp, s.rx)
    && QuietOk(s.quiet, s.txp, s.rxp, s.tx, s.rx, s.cb)
  }
}

/** What becomes of what each party is given, over whole runs and whatever the others do meanwhile:
    of a completed transfer, of a packet, of a lost device. */
module BridgeFates {
  import opened Bytes
  import opened Rndis
  import opened Bridge
  import opened BridgeInvariant
  import opened BridgeRuns
  import opened BridgeStopping

  // ---- One RX callback from its start to its end ----

  /** The steps, of whatever parties, up to and including the last one of the RX callback that is
      running. */
  predicate Handles(s: State, acts: seq<Action>)
    decreases |acts|
  {
    && acts != [] && s.cb.OnRx? && Sane(s) && Enabled(s, acts[0])
    && if |acts| == 1 then Next(s, acts[0]).cb == Idle else Handles(Next(s, acts[0]), acts[1..])
  }

  /** How often the RX thread adds to active_rx. */
  function Added(s: State, acts: seq<Action>): nat
    requires Handles(s, acts)
    decreases |acts|
  {
    (if acts[0].Rx? && s.rx.AddRx? then 1 else 0) + if |acts| == 1 then 0 else Added(Next(s, acts[0]), acts[1..])
  }

  lemma RxCallbackOwnStep(s: State, ok: bool)
    requires Sane(s) && RxOk(s.rxp, s.rx, s.cb) && s.cb.OnRx?
    ensures
      var t := CbNext(s, ok);
      && (t.cb == Idle ==> t.rxp.active == s.rxp.active - if s.cb.rxSlot in t.rxp.fly then 0 else 1)
      && (t.cb != Idle ==> t.cb.OnRx? && t.cb.rxSlot == s.cb.rxSlot && t.rxp.active == s.rxp.active)
      && t.rx == s.rx
  {
  }

  lemma RxCallbackStep(s: State, a: Action)
    requires Inv(s) && s.cb.OnRx? && Enabled(s, a)
    ensures
      var t, added := Next(s, a), if a.Rx? && s.rx.AddRx? then 1 else 0;
      && (t.cb == Idle ==>
            && added == 0
            && t.rxp.active == s.rxp.active - if s.cb.rxSlot in t.rxp.fly then 0 else 1)
      && (t.cb != Idle ==> t.cb.OnRx? && t.cb.rxSlot == s.cb.rxSlot && t.rxp.active == s.rxp.active + added)
  {
    hide U64, StatsOk, FreedOk, MutexOk, SlotsOk, TxNext, MainNext;
    match a
    case Cb(ok) =>
      hide CbNext, RxNext;
      RxCallbackOwnStep(s, ok);
    case Tx(ok, frame) => TxLeaves(s, ok, frame);
    case Main(ok) => MainLeaves(s, ok);
    case _ => hide CbNext;
  }

  /** Over the whole life of an RX callback, whatever the other threads do meanwhile: if it
      resubmits its transfer it leaves active_rx as it was, and otherwise it lowers it by exactly
      one, apart from what the RX thread adds. */
  lemma {:induction false} RxCallbackEffect(s: State, acts: seq<Action>)
    requires Inv(s) && Handles(s, acts)
    ensures Valid(s, acts)
    ensures
      var t := Run(s, acts);
      t.cb == Idle && t.rxp.active == s.rxp.active + Added(s, acts) - if s.cb.rxSlot in t.rxp.fly then 0 else 1
    decreases |acts|
  {
    hide Inv, Next, Enabled;
    assert Sane(s) && Enabled(s, acts[0]);
    RxCallbackStep(s, acts[0]);
    StepKeeps(s, acts[0]);
    if |acts| == 1 {
      assert acts[1..] == [];
    } else {
      RxCallbackEffect(Next(s, acts[0]), acts[1..]);
    }
  }

  /** The callback has read the flag that fell, or will. */
  predicate GivesUp(s: State) {
    && s.cb.OnRx? && s.cb.rxStage != RxResubmit
    && (!s.ctl.gRunning || (!s.ctl.running && s.cb.rxStage != RxTest1))
  }

  lemma GivesUpStep(s: State, a: Action)
    requires Inv(s) && Enabled(s, a) && GivesUp(s)
    ensures Next(s, a).cb != Idle ==> GivesUp(Next(s, a))
    ensures Next(s, a).cb == Idle ==> s.cb.rxSlot !in Next(s, a).rxp.fly
  {
    hide StatsOk, FreedOk, MutexOk, SlotsOk, TxNext, RxNext, MainNext;
    if a.Cb? {
      hide OnTxNext;
    } else {
      hide CbNext;
      CbAlone(s, a);
    }
  }

  /** A callback that begins after a flag has fallen does not resubmit; one that read the flags
      before may still do so. */
  lemma {:induction false} NoResubmitWhenDown(s: State, acts: seq<Action>)
    requires Inv(s) && Handles(s, acts) && GivesUp(s)
    ensures Valid(s, acts) && s.cb.rxSlot !in Run(s, acts).rxp.fly
    decreases |acts|
  {
    hide Inv, Next, Enabled, GivesUp;
    assert Sane(s) && Enabled(s, acts[0]);
    RxCallbackStep(s, acts[0]);
    GivesUpStep(s, acts[0]);
    StepKeeps(s, acts[0]);
    if |acts| == 1 {
      assert acts[1..] == [];
    } else {
      NoResubmitWhenDown(Next(s, acts[0]), acts[1..]);
    }
  }

  /** What the callback meets at its step lets it go on to resubmit. */
  predicate LetsResubmit(s: State, a: Action) {
    a.Cb? && s.cb.OnRx? ==>
      match s.cb.rxStage
      case RxBegin => a.ok
      case RxTest0 => a.ok && s.ctl.running
      case RxTest1 => s.ctl.gRunning
      case RxResubmit => a.ok
      case _ => false
  }

  /** It does so at every step of the callback: the device is there, the transfer was not
      cancelled, both flags stand when they are read, and the submission succeeds. */
  predicate AllLetResubmit(s: State, acts: seq<Action>)
    requires Handles(s, acts)
    decreases |acts|
  {
    LetsResubmit(s, acts[0]) && (|acts| == 1 || AllLetResubmit(Next(s, acts[0]), acts[1..]))
  }

  /** The callback can no longer resubmit. */
  predicate PastResubmit(cb: Cb) {
    cb.OnRx? && (cb.rxStage == RxDisc || cb.rxStage == RxStop || cb.rxStage == RxSub)
  }

  lemma ResubmitStep(s: State, a: Action)
    requires Inv(s) && s.cb.OnRx? && Enabled(s, a)
    ensures
      var t := Next(s, a);
      && (t.cb == Idle ==> (s.cb.rxSlot in t.rxp.fly <==> LetsResubmit(s, a)))
      && (t.cb != Idle ==> (PastResubmit(t.cb) <==> PastResubmit(s.cb) || !LetsResubmit(s, a)))
      && (PastResubmit(s.cb) && a.Cb? ==> !LetsResubmit(s, a))
      && (t.cb == Idle ==> a.Cb?)
  {
    hide U64, StatsOk, FreedOk, MutexOk, SlotsOk, TxNext, RxNext, MainNext;
    if !a.Cb? {
      hide CbNext;
      CbAlone(s, a);
    }
  }

  lemma {:induction false} PastResubmitStays(s: State, acts: seq<Action>)
    requires Inv(s) && Handles(s, acts) && PastResubmit(s.cb)
    ensures Valid(s, acts) && s.cb.rxSlot !in Run(s, acts).rxp.fly && !AllLetResubmit(s, acts)
    decreases |acts|
  {
    hide Inv, Next, Enabled, LetsResubmit, PastResubmit;
    assert Sane(s) && Enabled(s, acts[0]);
    RxCallbackStep(s, acts[0]);
    ResubmitStep(s, acts[0]);
    StepKeeps(s, acts[0]);
    if |acts| == 1 {
      assert acts[1..] == [];
    } else {
      PastResubmitStays(Next(s, acts[0]), acts[1..]);
    }
  }

  /** A callback puts its transfer in flight again if and only if everything it meets lets it. */
  lemma {:induction false} ResubmitExact(s: State, acts: seq<Action>)
    requires Inv(s) && Handles(s, acts)
    requires !PastResubmit(s.cb)
    ensures Valid(s, acts) && (s.cb.rxSlot in Run(s, acts).rxp.fly <==> AllLetResubmit(s, acts))
    decreases |acts|
  {
    hide Inv, Next, Enabled, LetsResubmit, PastResubmit;
    assert Sane(s) && Enabled(s, acts[0]);
    RxCallbackStep(s, acts[0]);
    ResubmitStep(s, acts[0]);
    StepKeeps(s, acts[0]);
    if |acts| == 1 {
      assert acts[1..] == [];
    } else if PastResubmit(Next(s, acts[0]).cb) {
      PastResubmitStays(Next(s, acts[0]), acts[1..]);
    } else {
      ResubmitExact(Next(s, acts[0]), acts[1..]);
    }
  }

  predicate CallbackOk(acts: seq<Action>) {
    forall a :: a in acts && a.Cb? ==> a.ok
  }

  lemma {:induction false} UpLetsResubmit(s: State, acts: seq<Action>)
    requires Inv(s) && Handles(s, acts) && !PastResubmit(s.cb) && CallbackOk(acts)
    requires Valid(s, acts) && !Down(Run(s, acts))
    ensures AllLetResubmit(s, acts)
    decreases |acts|
  {
    hide Inv, Next, Enabled, PastResubmit;
    var a, t := acts[0], Next(s, acts[0]);
    assert Sane(s) && Enabled(s, a) && a in acts;
    if Down(s) {
      DownStaysDown(s, acts);
    }
    assert LetsResubmit(s, a) by { StageLets(s, a); }
    if |acts| > 1 {
      RxCallbackStep(s, a);
      ResubmitStep(s, a);
      StepKeeps(s, a);
      assert forall b :: b in acts[1..] ==> b in acts;
      UpLetsResubmit(t, acts[1..]);
    }
  }

  lemma StageLets(s: State, a: Action)
    requires !Down(s) && (a.Cb? ==> a.ok) && s.cb.OnRx? && !PastResubmit(s.cb)
    ensures LetsResubmit(s, a)
  {
  }

  /** The receive pipeline stays full: a completed transfer is in flight again when its callback
      ends, whatever other threads do meanwhile, if nothing failed and no flag has fallen. */
  lemma ResubmitsWhileUp(s: State, acts: seq<Action>)
    requires Inv(s) && Handles(s, acts) && s.cb.rxStage == RxBegin && CallbackOk(acts)
    ensures Valid(s, acts) && (!Down(Run(s, acts)) ==> s.cb.rxSlot in Run(s, acts).rxp.fly)
  {
    hide Inv, Handles, AllLetResubmit, Run, Valid, Down, CallbackOk;
    ResubmitExact(s, acts);
    if !Down(Run(s, acts)) {
      UpLetsResubmit(s, acts);
    }
  }

  /** An upper bound on the steps that a callback has left. */
  function StepsLeft(cb: Cb): nat {
    match cb
    case Idle => 0
    case OnTx(_, stage) =>
      (match stage
       case TxBegin => 7
       case TxDisc => 6
       case TxStop => 5
       case TxLock => 4
       case TxClear => 3
       case TxSub => 2
       case TxUnlock => 1)
    case OnRx(_, stage) =>
      (match stage
       case RxBegin => 5
       case RxTest0 => 4
       case RxDisc => 3
       case RxTest1 => 3
       case RxStop => 2
       case RxResubmit => 2
       case RxSub => 1)
  }

  /** Every callback ends: each of its steps lowers that bound, and no other step changes it. */
  lemma CallbackEnds(s: State, a: Action)
    requires Sane(s) && Enabled(s, a) && s.cb != Idle
    ensures a.Cb? ==> StepsLeft(Next(s, a).cb) < StepsLeft(s.cb)
    ensures !a.Cb? ==> Next(s, a).cb == s.cb
  {
    hide TxNext, RxNext, MainNext;
    if !a.Cb? {
      hide CbNext;
      CbAlone(s, a);
    }
  }

  // ---- One packet from the wait for a slot to the end ----

  /** The steps, of whatever parties, up to and including the one with which the TX thread is done
      with a packet. */
  predicate Works(s: State, acts: seq<Action>)
    decreases |acts|
  {
    && acts != [] && !s.tx.Outer? && Sane(s) && Enabled(s, acts[0])
    && if |acts| == 1 then Next(s, acts[0]).tx.Outer? else Works(Next(s, acts[0]), acts[1..])
  }

  /** What the TX thread meets at its step lets the packet through. Finding no free slot does: the
      thread waits. */
  predicate LetsThrough(s: State, a: Action) {
    a.Tx? ==>
      match s.tx
      case Reserving(at, _) =>
        (at == Test0 ==> s.ctl.running) && (at == Test1 ==> s.ctl.gRunning) && at != UnlockNone
      case Sending(at, _, _) => at == Wrap || at == Submit ==> a.ok
      case Counting(_, _) => true
      case _ => false
  }

  predicate AllLetThrough(s: State, acts: seq<Action>)
    requires Works(s, acts)
    decreases |acts|
  {
    LetsThrough(s, acts[0]) && (|acts| == 1 || AllLetThrough(Next(s, acts[0]), acts[1..]))
  }

  /** A flag is found down while the thread looks for a slot. */
  predicate StopsWaiting(s: State, acts: seq<Action>)
    requires Works(s, acts)
    decreases |acts|
  {
    (s.tx.Reserving? && !LetsThrough(s, acts[0])) || (|acts| > 1 && StopsWaiting(Next(s, acts[0]), acts[1..]))
  }

  /** The packet of a thread that is reserving or sending. */
  predicate Carrying(tx: TxPc) {
    tx.Sending? || (tx.Reserving? && tx.slotAt != UnlockNone)
  }

  predicate GivenUp(tx: TxPc) {
    (tx.Reserving? && tx.slotAt == UnlockNone) || tx.FailLock? || tx.FailClear? || tx.FailUnlock?
  }

  lemma PacketStep(s: State, a: Action)
    requires Sane(s) && Enabled(s, a) && !s.tx.Outer?
    ensures
      var t := Next(s, a);
      && (Carrying(s.tx) && LetsThrough(s, a) ==>
            || (Carrying(t.tx) && t.tx.frame == s.tx.frame && t.txp.submitted == s.txp.submitted)
            || (t.tx == Counting(Add, s.tx.frame) && t.txp.submitted == s.txp.submitted + [s.tx.frame]))
      && (Carrying(s.tx) && !LetsThrough(s, a) ==> GivenUp(t.tx) && t.txp.submitted == s.txp.submitted)
      && (s.tx.Counting? ==> LetsThrough(s, a) && (t.tx.Counting? || t.tx.Outer?) && t.txp.submitted == s.txp.submitted)
      && (GivenUp(s.tx) ==> (GivenUp(t.tx) || t.tx.Outer?) && t.txp.submitted == s.txp.submitted)
      && (GivenUp(s.tx) && a.Tx? ==> !LetsThrough(s, a))
      && (GivenUp(s.tx) && !t.tx.Outer? ==> (t.tx.Reserving? <==> s.tx.Reserving?))
      && (GivenUp(s.tx) && t.tx.Outer? ==> t.tx == Outer(if s.tx.Reserving? then Head0 else Poll))
      && (Carrying(s.tx) && !LetsThrough(s, a) ==> (t.tx.Reserving? <==> s.tx.Reserving?))
      && (s.tx.Counting? && t.tx.Outer? ==> t.tx == Outer(Poll))
      && (t.tx.Outer? ==> a.Tx?)
  {
    hide U64, FirstFree, DataPacket, RxNext, MainNext, CbNext;
    if !a.Tx? {
      hide TxNext;
      TxAlone(s, a);
    }
  }

  lemma {:induction false} CountedOnly(s: State, acts: seq<Action>)
    requires Works(s, acts) && s.tx.Counting?
    ensures Valid(s, acts) && Run(s, acts).txp.submitted == s.txp.submitted && AllLetThrough(s, acts)
    ensures Run(s, acts).tx == Outer(Poll) && !StopsWaiting(s, acts)
    decreases |acts|
  {
    hide Next, Enabled, LetsThrough;
    PacketStep(s, acts[0]);
    if |acts| == 1 {
      assert acts[1..] == [];
    } else {
      CountedOnly(Next(s, acts[0]), acts[1..]);
    }
  }

  lemma {:induction false} GivenUpOnly(s: State, acts: seq<Action>)
    requires Works(s, acts) && GivenUp(s.tx)
    ensures Valid(s, acts) && Run(s, acts).txp.submitted == s.txp.submitted && !AllLetThrough(s, acts)
    ensures Run(s, acts).tx == Outer(if s.tx.Reserving? then Head0 else Poll)
    ensures s.tx.Reserving? <==> StopsWaiting(s, acts)
    decreases |acts|
  {
    hide Next, Enabled, LetsThrough, GivenUp;
    PacketStep(s, acts[0]);
    if |acts| == 1 {
      assert acts[1..] == [];
    } else {
      GivenUpOnly(Next(s, acts[0]), acts[1..]);
    }
  }

  /** A packet for which the TX thread has begun to look for a slot is submitted, once, if and only
      if both flags stand whenever they are read, and it can be wrapped and submitted; it is never
      dropped for want of a slot. The thread then goes on with the batch, unless it was a flag that
      was found down while it looked for a slot. */
  lemma {:induction false} PacketFate(s: State, acts: seq<Action>)
    requires Works(s, acts) && Carrying(s.tx)
    ensures Valid(s, acts)
    ensures Run(s, acts).txp.submitted == s.txp.submitted + if AllLetThrough(s, acts) then [s.tx.frame] else []
    ensures Run(s, acts).tx == Outer(if StopsWaiting(s, acts) then Head0 else Poll)
    decreases |acts|
  {
    hide Next, Enabled, LetsThrough, GivenUp;
    var t := Next(s, acts[0]);
    PacketStep(s, acts[0]);
    if |acts| == 1 {
      CarryingNotDone(s, acts[0]);
    } else if t.tx.Counting? {
      CountedOnly(t, acts[1..]);
    } else if GivenUp(t.tx) {
      GivenUpOnly(t, acts[1..]);
    } else {
      PacketFate(t, acts[1..]);
    }
  }

  lemma CarryingNotDone(s: State, a: Action)
    requires Sane(s) && Enabled(s, a) && Carrying(s.tx)
    ensures !Next(s, a).tx.Outer?
  {
    hide U64, FirstFree, DataPacket, RxNext, MainNext, CbNext;
    if !a.Tx? {
      hide TxNext;
      TxAlone(s, a);
    }
  }

  predicate SendingOk(acts: seq<Action>) {
    forall a :: a in acts && a.Tx? ==> a.ok
  }

  lemma {:induction false} UpLetsThrough(s: State, acts: seq<Action>)
    requires Works(s, acts) && (Carrying(s.tx) || s.tx.Counting?) && SendingOk(acts)
    requires Valid(s, acts) && !Down(Run(s, acts))
    ensures AllLetThrough(s, acts)
    decreases |acts|
  {
    hide Next, Enabled, Down, GivenUp;
    var a, t := acts[0], Next(s, acts[0]);
    assert a in acts;
    if Down(s) {
      DownStaysDown(s, acts);
    }
    assert LetsThrough(s, a) by { StepLetsThrough(s, a); }
    if |acts| > 1 {
      PacketStep(s, a);
      assert forall b :: b in acts[1..] ==> b in acts;
      UpLetsThrough(t, acts[1..]);
    }
  }

  lemma StepLetsThrough(s: State, a: Action)
    requires !Down(s) && (a.Tx? ==> a.ok) && (Carrying(s.tx) || s.tx.Counting?)
    ensures LetsThrough(s, a)
  {
  }

  /** In particular when no flag has fallen by the time the thread is done with it. */
  lemma SubmittedWhileUp(s: State, acts: seq<Action>)
    requires Works(s, acts) && Carrying(s.tx) && SendingOk(acts)
    ensures Valid(s, acts)
    ensures !Down(Run(s, acts)) ==> Run(s, acts).txp.submitted == s.txp.submitted + [s.tx.frame]
  {
    hide Works, AllLetThrough, Run, Valid, Down, SendingOk, Carrying;
    PacketFate(s, acts);
    if !Down(Run(s, acts)) {
      UpLetsThrough(s, acts);
    }
  }

  /** And a thread that waits for a slot goes on as soon as there is one. */
  lemma WaiterSubmits(s: State) returns (u: State)
    requires Sane(s) && s.tx.Reserving? && (s.tx.slotAt == Lock || s.tx.slotAt == Asleep)
    requires !Down(s) && s.ctl.mutex == NoOne && FirstFree(s.txp.inUse).Some?
    ensures Leads(s, u) && u.txp.submitted == s.txp.submitted + [s.tx.frame]
  {
    hide FirstFree, ReserveNext, SendNext, CountNext;
    LeadsHere(s);
    var f := s.tx.frame;
    var t := s.(ctl := s.ctl.(mutex := TxThread), tx := Reserving(Test0, f));
    assert ReserveNext(s) == t by { WaiterLocks(s); }
    LeadsTx(s, s, [], t);
    assert ReserveNext(t) == t.(tx := Reserving(Test1, f)) by { WaiterTests(t); }
    LeadsTx(s, t, [], t.(tx := Reserving(Test1, f)));
    u := ReserverSubmits(t.(tx := Reserving(Test1, f)));
    LeadsOver(s, t.(tx := Reserving(Test1, f)), u);
  }

  lemma WaiterLocks(s: State)
    requires s.tx.Reserving? && (s.tx.slotAt == Lock || s.tx.slotAt == Asleep)
    ensures ReserveNext(s) == s.(ctl := s.ctl.(mutex := TxThread), tx := Reserving(Test0, s.tx.frame))
  {
  }

  lemma WaiterTests(s: State)
    requires s.tx.Reserving? && s.tx.slotAt == Test0 && s.ctl.running
    ensures ReserveNext(s) == s.(tx := Reserving(Test1, s.tx.frame))
  {
  }

  // ---- The TX thread returns ----

  /** How many steps of its own the TX thread needs at most to return when a flag is down. */
  function TxLeft(s: State): nat {
    match s.tx
    case Outer(at) =>
      (match at
       case Returned => 0
       case Head0 => 2
       case Head1 => if s.ctl.gRunning then 8 else 1
       case Poll => 7)
    case Reserving(at, _) =>
      (match at
       case UnlockNone => 3
       case Test1 => if s.ctl.gRunning then 16 else 4
       case Test0 => 5
       case Lock => 6
       case Asleep => 6
       case Scan => 15)
    case Sending(at, _, _) =>
      (match at
       case UnlockSlot => 14
       case Wrap => 13
       case Fill => 12
       case Submit => 11)
    case Counting(at, _) =>
      (match at
       case Add => 10
       case CountPkt => 9
       case CountBytes => 8)
    case FailLock(_) => 10
    case FailClear(_) => 9
    case FailUnlock => 8
  }

  lemma TxLeftOwn(s: State, ok: bool, frame: seq<byte>)
    requires Sane(s) && Down(s) && Enabled(s, Tx(ok, frame))
    ensures TxLeft(TxNext(s, ok, frame)) < TxLeft(s)
  {
    hide U64, FirstFree, DataPacket;
  }

  lemma TxLeftStep(s: State, a: Action)
    requires Sane(s) && Down(s) && Enabled(s, a)
    ensures TxLeft(Next(s, a)) + (if a.Tx? then 1 else 0) <= TxLeft(s)
  {
    hide TxNext, RxNext, MainNext, CbNext;
    if a.Tx? {
      TxLeftOwn(s, a.ok, a.frame);
    } else {
      TxAlone(s, a);
    }
  }

  function TxSteps(acts: seq<Action>): nat {
    if acts == [] then 0 else (if acts[0].Tx? then 1 else 0) + TxSteps(acts[1..])
  }

  /** Once a flag is down the TX thread takes at most 16 more steps of its own and then has
      returned, however many packets wait. */
  lemma {:induction false} TxReturnsSoon(s: State, acts: seq<Action>)
    requires Inv(s) && Valid(s, acts) && Down(s)
    ensures TxSteps(acts) + TxLeft(Run(s, acts)) <= TxLeft(s) <= 16
    ensures TxLeft(Run(s, acts)) == 0 <==> Run(s, acts).tx == TX_DONE
    decreases |acts|
  {
    hide Inv, Next, Enabled, Down;
    if acts != [] {
      SaneOf(s);
      TxLeftStep(s, acts[0]);
      DownStays(s, acts[0]);
      StepKeeps(s, acts[0]);
      TxReturnsSoon(Next(s, acts[0]), acts[1..]);
    }
  }

  lemma SaneOf(s: State)
    requires Inv(s)
    ensures Sane(s)
  {
  }
}

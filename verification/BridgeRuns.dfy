/** What holds over whole runs of the bridge. */
module BridgeRuns {
  import opened Bytes
  import opened Rndis
  import opened FiniteSets
  import opened Bridge
  import opened BridgeInvariant

  /** The actions can be taken one after the other. */
  predicate Valid(s: State, acts: seq<Action>)
    decreases |acts|
  {
    acts == [] || (Sane(s) && Enabled(s, acts[0]) && Valid(Next(s, acts[0]), acts[1..]))
  }

  function Run(s: State, acts: seq<Action>): State
    requires Valid(s, acts)
    decreases |acts|
  {
    if acts == [] then s else Run(Next(s, acts[0]), acts[1..])
  }

  lemma {:induction false} RunKeeps(s: State, acts: seq<Action>)
    requires Inv(s) && Valid(s, acts)
    ensures Inv(Run(s, acts))
    decreases |acts|
  {
    hide Inv, Next, Enabled;
    if acts != [] {
      StepKeeps(s, acts[0]);
      RunKeeps(Next(s, acts[0]), acts[1..]);
    }
  }

  /** Some interleaving leads from s to t. */
  ghost predicate Leads(s: State, t: State) {
    exists acts :: Valid(s, acts) && Run(s, acts) == t
  }

  /** A state that some interleaving reaches with pools of n and m transfers. */
  ghost predicate Reachable(n: nat, m: nat, s: State) {
    Leads(Start(n, m), s)
  }

  lemma ReachableOk(n: nat, m: nat, s: State)
    requires Reachable(n, m, s)
    ensures Inv(s)
  {
    hide Inv;
    var acts :| Valid(Start(n, m), acts) && Run(Start(n, m), acts) == s;
    StartOk(n, m);
    RunKeeps(Start(n, m), acts);
  }

  lemma {:induction false} RunSizes(s: State, acts: seq<Action>)
    requires Valid(s, acts)
    ensures |Run(s, acts).txp.inUse| == |s.txp.inUse| && |Run(s, acts).rxp.freed| == |s.rxp.freed|
    decreases |acts|
  {
    hide Next;
    if acts != [] {
      StepSizes(s, acts[0]);
      RunSizes(Next(s, acts[0]), acts[1..]);
    }
  }

  // ---- What a step of each party leaves alone ----

  lemma TxLeaves(s: State, ok: bool, frame: seq<byte>)
    requires Sane(s)
    ensures
      var t := TxNext(s, ok, frame);
      && t.cb == s.cb && t.rx == s.rx && t.rxp == s.rxp && t.main == s.main && t.quiet == s.quiet
      && t.ctl.running == s.ctl.running && t.ctl.gRunning == s.ctl.gRunning
  {
    hide FirstFree, U64, DataPacket;
  }

  /** What a step of the RX thread leaves alone. */
  predicate RxKept(s: State, t: State) {
    && t.txp == s.txp.(asked := t.txp.asked) && t.tx == s.tx && t.cb == s.cb && t.main == s.main
    && |t.rxp.freed| == |s.rxp.freed|
    && (t.ctl.running ==> s.ctl.running) && t.ctl.gRunning == s.ctl.gRunning
    && (!InStartup(s.rx) ==>
          !InStartup(t.rx) && t.rxp.fly == s.rxp.fly && t.rxp.active == s.rxp.active && t.rxp.alloc == s.rxp.alloc)
  }

  lemma StartupLeaves(s: State, ok: bool)
    requires InStartup(s.rx)
    ensures RxKept(s, StartupNext(s, ok))
  {
  }

  lemma EventLeaves(s: State, ok: bool)
    requires InEventLoop(s.rx)
    ensures RxKept(s, EventNext(s, ok))
  {
  }

  lemma CancelLeaves(s: State)
    requires InCancel(s.rx)
    ensures RxKept(s, CancelNext(s))
  {
  }

  lemma DrainLeaves(s: State, ok: bool)
    requires !InStartup(s.rx) && !InEventLoop(s.rx) && !InCancel(s.rx)
    ensures RxKept(s, DrainNext(s, ok))
  {
  }

  lemma RxLeaves(s: State, ok: bool)
    ensures RxKept(s, RxNext(s, ok))
  {
    hide RxKept, StartupNext, EventNext, CancelNext, DrainNext;
    if InStartup(s.rx) {
      StartupLeaves(s, ok);
    } else if InEventLoop(s.rx) {
      EventLeaves(s, ok);
    } else if InCancel(s.rx) {
      CancelLeaves(s);
    } else {
      DrainLeaves(s, ok);
    }
  }

  lemma MainLeaves(s: State, ok: bool)
    ensures
      var t := MainNext(s, ok);
      && t.txp == s.txp && t.tx == s.tx && t.rxp == s.rxp && t.rx == s.rx && t.cb == s.cb && t.quiet == s.quiet
      && (t.ctl.running ==> s.ctl.running) && t.ctl.gRunning == s.ctl.gRunning
  {
  }

  lemma CbLeaves(s: State, ok: bool)
    requires Sane(s)
    ensures
      var t := CbNext(s, ok);
      && t.tx == s.tx && t.rx == s.rx && t.main == s.main && t.quiet == s.quiet
      && (t.ctl.running ==> s.ctl.running) && t.ctl.gRunning == s.ctl.gRunning
      && t.txp.(inUse := s.txp.inUse, active := s.txp.active) == s.txp
      && |t.txp.inUse| == |s.txp.inUse| && t.rxp.(fly := s.rxp.fly, active := s.rxp.active) == s.rxp
      && (CbOwns(s.cb) || t.txp.inUse == s.txp.inUse)
  {
  }

  /** No other party moves the TX thread, submits a transfer or writes one. */
  lemma TxAlone(s: State, a: Action)
    requires Sane(s) && !a.Tx?
    ensures Next(s, a).tx == s.tx && Next(s, a).txp.submitted == s.txp.submitted
    ensures Next(s, a).txp.buffer == s.txp.buffer && Next(s, a).txp.length == s.txp.length
    ensures Next(s, a).txp.handed == s.txp.handed
    ensures |Next(s, a).txp.inUse| == |s.txp.inUse| && |Next(s, a).rxp.freed| == |s.rxp.freed|
    ensures Next(s, a).ctl.running ==> s.ctl.running
    ensures Next(s, a).ctl.gRunning ==> s.ctl.gRunning
  {
    hide TxNext, RxNext, MainNext, CbNext;
    match a
    case Rx(ok) => RxLeaves(s, ok);
    case Main(ok) => MainLeaves(s, ok);
    case Cb(ok) => CbLeaves(s, ok);
    case _ =>
  }

  lemma StepSizes(s: State, a: Action)
    requires Sane(s) && Enabled(s, a)
    ensures |Next(s, a).txp.inUse| == |s.txp.inUse| && |Next(s, a).rxp.freed| == |s.rxp.freed|
    ensures |Next(s, a).txp.buffer| == |s.txp.buffer| && |Next(s, a).txp.length| == |s.txp.length|
    ensures |Next(s, a).txp.handed| == |s.txp.handed|
  {
    hide U64, FirstFree, DataPacket, RxNext, MainNext, CbNext;
    if a.Tx? {
      TxLeaves(s, a.ok, a.frame);
    } else {
      hide TxNext;
      TxAlone(s, a);
    }
  }

  lemma ReachableSizes(n: nat, m: nat, s: State)
    requires Reachable(n, m, s)
    ensures |s.txp.inUse| == n && |s.rxp.freed| == m
  {
    var acts :| Valid(Start(n, m), acts) && Run(Start(n, m), acts) == s;
    RunSizes(Start(n, m), acts);
  }

  // ---- Reaching a state step by step ----

  lemma {:induction false} RunSnoc(s: State, acts: seq<Action>, a: Action)
    requires Valid(s, acts) && Sane(Run(s, acts)) && Enabled(Run(s, acts), a)
    ensures Valid(s, acts + [a]) && Run(s, acts + [a]) == Next(Run(s, acts), a)
    decreases |acts|
  {
    hide Next, Enabled, Sane;
    if acts == [] {
      assert [a][1..] == [] && acts + [a] == [a];
    } else {
      RunSnoc(Next(s, acts[0]), acts[1..], a);
      assert (acts + [a])[0] == acts[0] && (acts + [a])[1..] == acts[1..] + [a];
    }
  }

  lemma LeadsOn(s: State, t: State, a: Action)
    requires Leads(s, t) && Sane(t) && Enabled(t, a)
    ensures Leads(s, Next(t, a))
  {
    hide Next, Enabled, Sane;
    var acts :| Valid(s, acts) && Run(s, acts) == t;
    RunSnoc(s, acts, a);
    assert Valid(s, acts + [a]) && Run(s, acts + [a]) == Next(t, a);
  }

  lemma LeadsHere(s: State)
    ensures Leads(s, s)
  {
    assert Valid(s, []) && Run(s, []) == s;
  }

  lemma LeadsTx(s: State, t: State, frame: seq<byte>, u: State)
    requires Leads(s, t) && Sane(t) && Enabled(t, Tx(true, frame)) && TxNext(t, true, frame) == u
    ensures Leads(s, u)
  {
    hide TxNext, RxNext, MainNext, CbNext;
    LeadsOn(s, t, Tx(true, frame));
  }

  lemma {:induction false} RunConcat(s: State, a: seq<Action>, b: seq<Action>)
    requires Valid(s, a) && Valid(Run(s, a), b)
    ensures Valid(s, a + b) && Run(s, a + b) == Run(Run(s, a), b)
    decreases |a|
  {
    hide Next, Enabled, Sane;
    if a == [] {
      assert a + b == b;
    } else {
      assert (a + b)[0] == a[0] && (a + b)[1..] == a[1..] + b;
      RunConcat(Next(s, a[0]), a[1..], b);
    }
  }

  lemma LeadsOver(s: State, t: State, u: State)
    requires Leads(s, t) && Leads(t, u)
    ensures Leads(s, u)
  {
    hide Valid, Run;
    var a :| Valid(s, a) && Run(s, a) == t;
    var b :| Valid(t, b) && Run(t, b) == u;
    RunConcat(s, a, b);
  }

  // ---- Slots ----

  /** In every reachable state a TX slot is free, reserved by the TX thread or in flight, and
      only one of these; in_use tells the last two from the first; one slot at most is reserved. */
  lemma SlotPartition(n: nat, m: nat, s: State, i: nat, j: nat)
    requires Reachable(n, m, s) && i < n && j < n
    ensures i < |s.txp.inUse|
    ensures s.txp.inUse[i] <==> Reserved(s.tx, i) || InFlight(s.txp, s.cb, i)
    ensures !(Reserved(s.tx, i) && InFlight(s.txp, s.cb, i))
    ensures Reserved(s.tx, i) && Reserved(s.tx, j) ==> i == j
  {
    ReachableOk(n, m, s);
    ReachableSizes(n, m, s);
    assert s.txp.inUse[i] <==> Reserved(s.tx, i) || InFlight(s.txp, s.cb, i);
  }

  /** The step writes the slot's buffer, or fills its transfer. */
  predicate Writes(s: State, a: Action, i: nat) {
    a.Tx? && s.tx.Sending? && s.tx.slot == i && ((s.tx.sendAt == Wrap && a.ok) || s.tx.sendAt == Fill)
  }

  /** A slot's buffer and transfer are written only while the TX thread holds the slot and neither
      libusb nor a callback does. */
  lemma WrittenOnlyWhileReserved(n: nat, m: nat, s: State, a: Action, i: nat)
    requires Reachable(n, m, s) && Writes(s, a, i)
    ensures Reserved(s.tx, i) && i !in s.txp.fly && !(s.cb.OnTx? && s.cb.txSlot == i)
  {
    hide StatsOk, RxOk, FreedOk, MutexOk;
    ReachableOk(n, m, s);
  }

  /** And nothing else changes them. */
  lemma OnlyWritesWrite(s: State, a: Action, i: nat)
    requires Sane(s) && Enabled(s, a) && i < |s.txp.inUse| && !Writes(s, a, i)
    ensures i < |Next(s, a).txp.buffer| && Next(s, a).txp.buffer[i] == s.txp.buffer[i]
    ensures i < |Next(s, a).txp.length| && Next(s, a).txp.length[i] == s.txp.length[i]
  {
    hide U64, FirstFree, DataPacket, RxNext, MainNext, CbNext;
    if !a.Tx? {
      hide TxNext;
      TxAlone(s, a);
    }
  }

  /** What the transfer would send is the packet of the frame. */
  predicate Carries(p: TxPool, i: nat, frame: seq<byte>)
    requires i < |p.buffer| == |p.length|
  {
    p.buffer[i] == DataPacket(frame) && p.length[i] == |DataPacket(frame)|
  }

  /** A slot about to be submitted carries the frame wrapped for it, and a slot in flight the one
      that it was submitted with. */
  predicate CarriedOk(s: State)
    requires Sane(s)
  {
    && (s.tx.Sending? && (s.tx.sendAt == Fill || s.tx.sendAt == Submit) ==>
          s.txp.buffer[s.tx.slot] == DataPacket(s.tx.frame))
    && (s.tx.Sending? && s.tx.sendAt == Submit ==> Carries(s.txp, s.tx.slot, s.tx.frame))
    && (forall i :: 0 <= i < |s.txp.handed| && InFlight(s.txp, s.cb, i) ==> Carries(s.txp, i, s.txp.handed[i]))
  }

  lemma HeldIsGrounded(s: State)
    requires Inv(s) && s.tx.Sending?
    ensures !InFlight(s.txp, s.cb, s.tx.slot)
  {
    hide StatsOk, RxOk, FreedOk, MutexOk, QuietOk;
  }

  lemma CarriedSend(s: State, ok: bool)
    requires Sane(s) && s.tx.Sending? && !InFlight(s.txp, s.cb, s.tx.slot) && CarriedOk(s) && Sane(SendNext(s, ok))
    ensures CarriedOk(SendNext(s, ok))
  {
    hide DataPacket;
  }

  lemma CarriedTx(s: State, ok: bool, frame: seq<byte>)
    requires Inv(s) && Enabled(s, Tx(ok, frame)) && CarriedOk(s) && Sane(TxNext(s, ok, frame))
    ensures CarriedOk(TxNext(s, ok, frame))
  {
    hide U64, FirstFree, DataPacket, StatsOk, SlotsOk, RxOk, FreedOk, MutexOk, QuietOk, SendNext;
    if s.tx.Sending? {
      hide CarriedOk;
      HeldIsGrounded(s);
      CarriedSend(s, ok);
    } else {
      hide Carries;
      forall i | 0 <= i < |s.txp.handed|
        ensures Carries(TxNext(s, ok, frame).txp, i, s.txp.handed[i]) <==> Carries(s.txp, i, s.txp.handed[i])
      {
        SameCargo(s.txp, TxNext(s, ok, frame).txp, i, s.txp.handed[i]);
      }
    }
  }

  /** No other party puts a transfer in flight. */
  lemma NoneLaunched(s: State, a: Action, i: nat)
    requires Inv(s) && Enabled(s, a) && !a.Tx?
    ensures InFlight(Next(s, a).txp, Next(s, a).cb, i) ==> InFlight(s.txp, s.cb, i)
  {
    hide StatsOk, RxOk, FreedOk, MutexOk, QuietOk, SlotsOk, TxNext, RxNext, MainNext;
    match a
    case Rx(ok) => RxLeaves(s, ok);
    case Main(ok) => MainLeaves(s, ok);
    case _ =>
  }

  lemma {:induction false} CarriedRun(s: State, acts: seq<Action>)
    requires Inv(s) && Valid(s, acts) && CarriedOk(s)
    ensures Inv(Run(s, acts)) && CarriedOk(Run(s, acts))
    decreases |acts|
  {
    if acts != [] {
      var a, t := acts[0], Next(s, acts[0]);
      StepKeeps(s, a);
      if a.Tx? {
        hide TxNext, Enabled, CarriedOk;
        CarriedTx(s, a.ok, a.frame);
        CarriedRun(t, acts[1..]);
      } else {
        hide Next, Enabled, Carries;
        TxAlone(s, a);
        forall i | 0 <= i < |t.txp.handed| && InFlight(t.txp, t.cb, i)
          ensures Carries(t.txp, i, t.txp.handed[i])
        {
          NoneLaunched(s, a, i);
          SameCargo(s.txp, t.txp, i, s.txp.handed[i]);
        }
        CarriedRun(t, acts[1..]);
      }
    }
  }

  lemma SameCargo(p: TxPool, p': TxPool, i: nat, frame: seq<byte>)
    requires i < |p.buffer| == |p.length| && p'.buffer == p.buffer && p'.length == p.length
    ensures Carries(p', i, frame) <==> Carries(p, i, frame)
  {
  }

  /** A submission hands over the packet of the frame that was wrapped for it; and as long as a
      transfer is in flight, it carries the packet of the frame it was submitted with. */
  lemma CarriesWhatWasSubmitted(n: nat, m: nat, s: State)
    requires Reachable(n, m, s)
    ensures Sane(s)
    ensures s.tx.Sending? && s.tx.sendAt == Submit ==> Carries(s.txp, s.tx.slot, s.tx.frame)
    ensures forall i: nat :: i < |s.txp.handed| && InFlight(s.txp, s.cb, i) ==> Carries(s.txp, i, s.txp.handed[i])
  {
    hide Carries;
    var acts :| Valid(Start(n, m), acts) && Run(Start(n, m), acts) == s;
    StartOk(n, m);
    CarriedRun(Start(n, m), acts);
  }

  // ---- Counters ----

  lemma PendingBound(p: TxPool, tx: TxPc, cb: Cb)
    requires SlotsOk(p, tx, cb) && SlotsExist(p, tx, cb)
    ensures TxPending(p, cb) <= |p.inUse|
  {
    var all := UpTo(|p.inUse|);
    if cb.OnTx? {
      SubsetSize(p.fly + {cb.txSlot}, all);
    } else {
      SubsetSize(p.fly, all);
    }
  }

  lemma RxPendingBound(q: RxPool, rx: RxPc, cb: Cb)
    requires RxOk(q, rx, cb)
    ensures RxPending(q, cb) <= |q.freed|
  {
    var all := UpTo(|q.freed|);
    if cb.OnRx? {
      SubsetSize(q.fly + {cb.rxSlot}, all);
    } else {
      SubsetSize(q.fly, all);
    }
  }

  /** active_tx is the number of transfers submitted and not yet completed, less one exactly
      while the TX thread is between a submission and the addition; so it may be -1. The same
      law holds for active_rx and the thread that submits the RX pool. */
  lemma CounterLaw(n: nat, m: nat, s: State)
    requires Reachable(n, m, s)
    ensures s.txp.active == TxPending(s.txp, s.cb) - if s.tx.Counting? && s.tx.countAt == Add then 1 else 0
    ensures -1 <= s.txp.active <= n
    ensures s.rxp.active == RxPending(s.rxp, s.cb) - if s.rx.AddRx? then 1 else 0
    ensures -1 <= s.rxp.active <= m
  {
    hide U64, StatsOk, FreedOk, MutexOk, SlotsOk, RxOk;
    ReachableOk(n, m, s);
    ReachableSizes(n, m, s);
    PendingBound(s.txp, s.tx, s.cb);
    RxPendingBound(s.rxp, s.rx, s.cb);
  }

  /** tx_pkts and tx_bytes are the number and the total length of the successful submissions, in
      the width of the counters, except that each lags by one submission until it is bumped. */
  lemma StatsLaw(n: nat, m: nat, s: State)
    requires Reachable(n, m, s)
    ensures !s.tx.Counting? ==> s.txp.pkts == U64(|s.txp.submitted|) && s.txp.bytes == U64(SumOf(s.txp.submitted))
    ensures s.tx.Counting? ==>
              && s.txp.submitted != []
              && var counted := s.txp.submitted[..|s.txp.submitted| - 1];
                 && s.txp.pkts == U64(if s.tx.countAt == CountBytes then |s.txp.submitted| else |counted|)
                 && s.txp.bytes == U64(SumOf(counted))
  {
    hide U64, FreedOk, MutexOk, SlotsOk, RxOk;
    ReachableOk(n, m, s);
    if s.tx.Counting? {
      var sent := s.txp.submitted;
      assert SumOf(sent) == SumOf(sent[..|sent| - 1]) + |s.tx.sent|;
    }
  }

  // ---- Freeing ----

  /** If the drain loop's last test saw both counters at zero, after the TX thread returned, then
      no pool transfer is with libusb or with an unfinished callback when the RX transfers are
      freed, nor ever after, and so not when the TX transfers are. */
  lemma NothingPendingAtFree(n: nat, m: nat, s: State)
    requires Reachable(n, m, s) && s.quiet
    ensures s.txp.fly == {} && s.rxp.fly == {} && !s.cb.OnRx?
    ensures s.cb.OnTx? ==> s.cb.txStage == TxUnlock
  {
    hide U64, StatsOk, FreedOk, MutexOk, SlotsOk, RxOk;
    ReachableOk(n, m, s);
  }

  /** The step is the drain loop's last test, passed after the TX thread returned. */
  predicate PassesDrainTest(s: State, a: Action) {
    a.Rx? && s.rx == DrainTx && s.txp.active <= 0 && s.tx == TX_DONE
  }

  lemma QuietStep(s: State, a: Action)
    requires Inv(s) && Enabled(s, a)
    ensures Next(s, a).quiet <==> s.quiet || PassesDrainTest(s, a)
  {
    hide U64, FirstFree, StatsOk, FreedOk, MutexOk, SlotsOk, RxOk;
  }

  /** Some step of the run is such a test. */
  predicate DrainsQuietly(s: State, acts: seq<Action>)
    requires Valid(s, acts)
    decreases |acts|
  {
    acts != [] && (PassesDrainTest(s, acts[0]) || DrainsQuietly(Next(s, acts[0]), acts[1..]))
  }

  /** The history that NothingPendingAtFree speaks of is that of the run. */
  lemma {:induction false} QuietIsHistory(s: State, acts: seq<Action>)
    requires Inv(s) && Valid(s, acts)
    ensures Run(s, acts).quiet <==> s.quiet || DrainsQuietly(s, acts)
    decreases |acts|
  {
    hide Inv, Next, Enabled, PassesDrainTest;
    if acts != [] {
      StepKeeps(s, acts[0]);
      QuietStep(s, acts[0]);
      QuietIsHistory(Next(s, acts[0]), acts[1..]);
    }
  }

  /** Every RX transfer that was allocated is freed once, and no other is. */
  lemma RxFreedOnce(n: nat, m: nat, s: State, j: nat)
    requires Reachable(n, m, s) && s.rx == RxDone && j < m
    ensures j < |s.rxp.freed| && s.rxp.freed[j] == if j in s.rxp.alloc then 1 else 0
  {
    hide U64, StatsOk, MutexOk, SlotsOk, RxOk;
    ReachableOk(n, m, s);
    ReachableSizes(n, m, s);
  }

  // ---- Flags ----

  /** The session or the process was told to stop. */
  predicate Down(s: State) {
    !s.ctl.running || !s.ctl.gRunning
  }

  /** No other party moves a running callback or raises a flag. */
  lemma CbAlone(s: State, a: Action)
    requires Sane(s) && s.cb != Idle && Enabled(s, a) && !a.Cb?
    ensures Next(s, a).cb == s.cb
    ensures Next(s, a).ctl.running ==> s.ctl.running
    ensures Next(s, a).ctl.gRunning ==> s.ctl.gRunning
  {
    hide TxNext, RxNext, MainNext, CbNext;
    match a
    case Tx(ok, frame) => TxLeaves(s, ok, frame);
    case Rx(ok) => RxLeaves(s, ok);
    case Main(ok) => MainLeaves(s, ok);
    case _ =>
  }

  /** No step raises a flag. */
  lemma DownStays(s: State, a: Action)
    requires Sane(s) && Enabled(s, a) && Down(s)
    ensures Down(Next(s, a))
  {
    hide TxNext, RxNext, MainNext, CbNext;
    if a.Tx? {
      TxLeaves(s, a.ok, a.frame);
    } else {
      TxAlone(s, a);
    }
  }

  lemma {:induction false} DownStaysDown(s: State, acts: seq<Action>)
    requires Down(s) && Valid(s, acts)
    ensures Down(Run(s, acts))
    decreases |acts|
  {
    hide Next, Enabled, Down;
    if acts != [] {
      DownStays(s, acts[0]);
      DownStaysDown(Next(s, acts[0]), acts[1..]);
    }
  }
}

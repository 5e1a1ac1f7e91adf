/** What the TX thread may still do once it was told to stop, and what the counters do not tell. */
module BridgeStopping {
  import opened Bytes
  import opened Options
  import opened Bridge
  import opened BridgeInvariant
  import opened BridgeRuns

  // ---- At most one more submission ----

  /** The TX thread has passed the slot loop's tests and not yet submitted. */
  predicate Committed(s: State) {
    || s.tx.Sending?
    || (s.tx.Reserving? && s.tx.slotAt == Scan)
    || (s.tx.Reserving? && s.tx.slotAt == Test1 && s.ctl.gRunning)
  }

  /** The frame that a committed TX thread is about to submit. */
  function Pending(s: State): seq<byte>
    requires Committed(s)
  {
    s.tx.frame
  }

  /** From s to t nothing was submitted, or just the frame to which the TX thread was committed. */
  predicate AtMostPending(s: State, t: State) {
    || (t.txp.submitted == s.txp.submitted && (Committed(t) ==> Committed(s) && Pending(t) == Pending(s)))
    || (Committed(s) && !Committed(t) && t.txp.submitted == s.txp.submitted + [Pending(s)])
  }

  lemma DownTx(s: State, ok: bool, frame: seq<byte>)
    requires Sane(s) && Down(s) && Enabled(s, Tx(ok, frame))
    ensures Down(TxNext(s, ok, frame)) && AtMostPending(s, TxNext(s, ok, frame))
  {
    hide U64, FirstFree;
  }

  lemma DownOther(s: State, a: Action)
    requires Sane(s) && Down(s) && Enabled(s, a) && !a.Tx?
    ensures Down(Next(s, a)) && AtMostPending(s, Next(s, a))
  {
    hide TxNext, RxNext, MainNext, CbNext;
    TxAlone(s, a);
  }

  /** Once a flag has fallen at most one more TX submission ever succeeds, and only that of a
      frame for which the slot loop's tests had been passed before. */
  lemma {:induction false} OneMoreSubmission(s: State, acts: seq<Action>)
    requires Down(s) && Valid(s, acts)
    ensures AtMostPending(s, Run(s, acts)) && Down(Run(s, acts))
    decreases |acts|
  {
    hide TxNext, RxNext, MainNext, CbNext, Enabled, Down, Committed, Pending;
    if acts != [] {
      var a, t := acts[0], Next(s, acts[0]);
      match a {
        case Tx(ok, frame) => DownTx(s, ok, frame);
        case _ => DownOther(s, a);
      }
      OneMoreSubmission(t, acts[1..]);
    }
  }

  // ---- Exactly when there is one, and when its slot was reserved before ----

  /** The TX thread is between the slot loop's tests and its scan, which will find a slot. */
  predicate AboutToReserve(s: State) {
    && s.tx.Reserving?
    && (s.tx.slotAt == Scan || (s.tx.slotAt == Test1 && s.ctl.gRunning))
    && FirstFree(s.txp.inUse).Some?
  }

  /** No submission is on its way. */
  predicate Spent(s: State) {
    Down(s) && !s.tx.Sending? && !AboutToReserve(s)
  }

  lemma SpentTx(s: State, ok: bool, frame: seq<byte>)
    requires Sane(s) && Spent(s) && Enabled(s, Tx(ok, frame))
    ensures Spent(TxNext(s, ok, frame)) && TxNext(s, ok, frame).txp.submitted == s.txp.submitted
    ensures TxNext(s, ok, frame).txp.fly == s.txp.fly
  {
    hide U64, FirstFree;
  }

  /** No other party submits, raises a flag, or frees a slot while the TX thread is about to scan. */
  lemma SpentOther(s: State, a: Action)
    requires Inv(s) && Spent(s) && Enabled(s, a) && !a.Tx?
    ensures Spent(Next(s, a)) && Next(s, a).txp.submitted == s.txp.submitted
  {
    hide U64, FirstFree, StatsOk, FreedOk, RxOk, SlotsOk, TxNext, RxNext, MainNext, CbNext;
    TxAlone(s, a);
    match a
    case Rx(ok) => RxLeaves(s, ok);
    case Main(ok) => MainLeaves(s, ok);
    case Cb(ok) => CbLeaves(s, ok);
    case _ =>
  }

  lemma {:induction false} SpentStays(s: State, acts: seq<Action>)
    requires Inv(s) && Spent(s) && Valid(s, acts)
    ensures Run(s, acts).txp.submitted == s.txp.submitted
    decreases |acts|
  {
    hide TxNext, RxNext, MainNext, CbNext, Enabled, Spent, MutexOk, SlotsOk, RxOk, StatsOk, FreedOk;
    if acts != [] {
      StepKeeps(s, acts[0]);
      match acts[0] {
        case Tx(ok, frame) => SpentTx(s, ok, frame);
        case _ => SpentOther(s, acts[0]);
      }
      SpentStays(Next(s, acts[0]), acts[1..]);
    }
  }

  /** A thread that holds a slot can go on to submit it. */
  lemma SenderSubmits(s: State, t: State) returns (u: State)
    requires Leads(s, t) && Sane(t) && t.tx.Sending?
    ensures Leads(s, u) && u.tx == Counting(Add, t.tx.frame)
    ensures u.txp.fly == t.txp.fly + {t.tx.slot} && u.txp.submitted == t.txp.submitted + [t.tx.frame]
    ensures u.txp.inUse == t.txp.inUse && u.txp.active == t.txp.active && Sane(u)
    ensures u.rx == t.rx && u.rxp == t.rxp && u.main == t.main && u.cb == t.cb
    ensures u.ctl == t.ctl.(mutex := if t.tx.sendAt == UnlockSlot then NoOne else t.ctl.mutex)
    decreases match t.tx.sendAt case UnlockSlot => 3 case Wrap => 2 case Fill => 1 case Submit => 0
  {
    u := TxNext(t, true, []);
    LeadsTx(s, t, [], u);
    if t.tx.sendAt != Submit {
      u := SenderSubmits(s, u);
    }
  }

  /** And so can one that is about to reserve one. */
  lemma ReserverSubmits(s: State) returns (u: State)
    requires Sane(s) && AboutToReserve(s)
    ensures Leads(s, u) && u.txp.submitted == s.txp.submitted + [s.tx.frame]
    ensures TxPending(u.txp, u.cb) > 0
  {
    LeadsHere(s);
    var t := if s.tx.slotAt == Test1 then s.(tx := Reserving(Scan, s.tx.frame)) else s;
    if s.tx.slotAt == Test1 {
      LeadsTx(s, s, [], t);
    }
    var v := TxNext(t, true, []);
    LeadsTx(s, t, [], v);
    u := SenderSubmits(s, v);
  }

  /** Told to stop, the TX thread may submit once more if and only if it holds a slot or is about
      to reserve one; and that submission comes from a slot that it already held, in every run,
      if and only if it was not about to reserve one. */
  lemma LastSubmissionExact(s: State)
    requires Inv(s) && Down(s)
    ensures (exists t :: Leads(s, t) && |t.txp.submitted| > |s.txp.submitted|) <==> s.tx.Sending? || AboutToReserve(s)
    ensures (forall t :: Leads(s, t) && |t.txp.submitted| > |s.txp.submitted| ==> s.tx.Sending?) <==> !AboutToReserve(s)
  {
    hide AboutToReserve, StatsOk, FreedOk, RxOk, MutexOk, SlotsOk;
    if s.tx.Sending? {
      LeadsHere(s);
      var t := SenderSubmits(s, s);
      assert Leads(s, t) && |t.txp.submitted| > |s.txp.submitted|;
      NotBoth(s);
    } else if AboutToReserve(s) {
      var t := ReserverSubmits(s);
      assert Leads(s, t) && |t.txp.submitted| > |s.txp.submitted|;
    } else {
      forall t | Leads(s, t)
        ensures t.txp.submitted == s.txp.submitted
      {
        var acts :| Valid(s, acts) && Run(s, acts) == t;
        SpentStays(s, acts);
      }
    }
  }

  lemma NotBoth(s: State)
    ensures s.tx.Sending? ==> !AboutToReserve(s)
  {
  }

  // ---- What does not hold, for pools of any size ----

  /** The TX thread can be handed a packet. */
  lemma LockReachable(n: nat, m: nat)
    ensures Reachable(n, m, Start(n, m).(tx := Reserving(Lock, [0])))
  {
    hide ReserveNext, SendNext, CountNext;
    var s0 := Start(n, m);
    LeadsHere(s0);
    LeadsTx(s0, s0, [], s0.(tx := Outer(Head1)));
    LeadsTx(s0, s0.(tx := Outer(Head1)), [], s0.(tx := Outer(Poll)));
    LeadsTx(s0, s0.(tx := Outer(Poll)), [0], s0.(tx := Reserving(Lock, [0])));
  }

  function AtScan(n: nat, m: nat): State {
    Start(n, m).(ctl := Control(true, true, false, TxThread), tx := Reserving(Scan, [0]))
  }

  /** And it can stand just before its scan. */
  lemma ScanReachable(n: nat, m: nat)
    ensures Reachable(n, m, AtScan(n, m))
  {
    hide OuterNext, SendNext, CountNext;
    var s0 := Start(n, m);
    LockReachable(n, m);
    var c := Control(true, true, false, TxThread);
    LeadsTx(s0, s0.(tx := Reserving(Lock, [0])), [], s0.(ctl := c, tx := Reserving(Test0, [0])));
    LeadsTx(s0, s0.(ctl := c, tx := Reserving(Test0, [0])), [], s0.(ctl := c, tx := Reserving(Test1, [0])));
    LeadsTx(s0, s0.(ctl := c, tx := Reserving(Test1, [0])), [], AtScan(n, m));
  }

  lemma ScanFindsSlot(n: nat, m: nat)
    requires n > 0
    ensures FirstFree(AtScan(n, m).txp.inUse) == Some(0)
  {
    assert !AtScan(n, m).txp.inUse[0];
  }

  /** The slot of the last submission need not have been reserved before the flag fell: the flag
      can fall between the slot loop's tests and its scan. */
  lemma ReservedAfterStop(n: nat, m: nat)
    requires n > 0
    ensures exists s, t ::
      && Reachable(n, m, s) && Down(s) && (forall i :: !Reserved(s.tx, i))
      && Leads(s, t) && |t.txp.submitted| == |s.txp.submitted| + 1
  {
    ScanReachable(n, m);
    ScanFindsSlot(n, m);
    LeadsOn(Start(n, m), AtScan(n, m), Signal);
    var s := AtScan(n, m).(ctl := Control(true, false, false, TxThread));
    var t := ReserverSubmits(s);
    assert Reachable(n, m, s) && Down(s) && Leads(s, t);
  }

  /** The TX thread has taken slot 0 and released the mutex, and nobody else has moved. */
  function AtWrap(n: nat, m: nat): State
    requires n > 0
  {
    var s := Start(n, m);
    s.(txp := s.txp.(inUse := s.txp.inUse[0 := true]), tx := Sending(Wrap, 0, [0]))
  }

  lemma WrapReachable(n: nat, m: nat)
    requires n > 0
    ensures Reachable(n, m, AtWrap(n, m))
  {
    hide OuterNext, CountNext;
    ScanReachable(n, m);
    ScanFindsSlot(n, m);
    var s0, s := Start(n, m), AtScan(n, m);
    var t := s.(txp := s.txp.(inUse := s.txp.inUse[0 := true]), tx := Sending(UnlockSlot, 0, [0]));
    LeadsTx(s0, s, [], t);
    LeadsTx(s0, t, [], AtWrap(n, m));
  }

  /** active_tx does go below zero: a completion can overtake the addition. */
  lemma CompletionOvertakes(n: nat, m: nat)
    requires n > 0
    ensures exists s :: Reachable(n, m, s) && s.txp.active == -1
  {
    hide TxNext, RxNext, MainNext, OnRxNext;
    WrapReachable(n, m);
    var s0 := Start(n, m);
    var s1 := SenderSubmits(s0, AtWrap(n, m));
    LeadsOn(s0, s1, BeginTx(0));
    var s2 := Next(s1, BeginTx(0));
    CompletionRuns(s0, s2);
  }

  lemma CompletionRuns(s0: State, s: State)
    requires Leads(s0, s) && s.cb == OnTx(0, TxBegin) && SlotsExist(s.txp, s.tx, s.cb) && s.ctl.mutex == NoOne
    ensures exists t :: Leads(s0, t) && t.txp.active == s.txp.active - 1
  {
    hide TxNext, RxNext, MainNext, OnRxNext;
    LeadsOn(s0, s, Cb(true));
    var s1 := s.(cb := OnTx(0, TxLock));
    LeadsOn(s0, s1, Cb(true));
    var s2 := s.(ctl := s.ctl.(mutex := Callback), cb := OnTx(0, TxClear));
    LeadsOn(s0, s2, Cb(true));
    var s3 := s2.(txp := s.txp.(inUse := s.txp.inUse[0 := false]), cb := OnTx(0, TxSub));
    LeadsOn(s0, s3, Cb(true));
    assert Leads(s0, Next(s3, Cb(true)));
  }
}

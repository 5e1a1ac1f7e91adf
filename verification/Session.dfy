/** run_session and restore_network_state: whatever fails and whenever the session ends, all it
    took is given back. */
module Session {
  import opened Options
  import opened UsbDevice

  /** The command line's choices, and the outcome of every step that can fail. stillRunning is
      g_running when the session returns, disconnected is how the bridge ended. txAllocated says for
      which TX slots a transfer could be allocated. */
  datatype Plan = Plan(
    noRoute: bool,
    noDns: bool,
    driverOk: bool,
    bus: Bus,
    initOk: bool,
    macOk: bool,
    addressOk: bool,
    tunOk: bool,
    configureOk: bool,
    txAllocated: seq<bool>,
    disconnected: bool,
    stillRunning: bool)

  /** The session gets as far as moving packets. */
  predicate Bridges(p: Plan) {
    p.driverOk && Finds(p.bus) && p.initOk && p.macOk && p.addressOk && p.tunOk && p.configureOk
  }

  /** What the host holds at some moment. */
  datatype Holding = Holding(
    driver: bool,
    device: Option<nat>,
    claims: set<int>,
    tun: bool,
    routes: bool,
    service: bool,
    dns: bool,
    bound: bool,
    sync: bool,
    txXfers: set<nat>)

  function Allocated(got: seq<bool>): (r: set<nat>)
    ensures forall i: nat :: i in r <==> i < |got| && got[i]
  {
    set i: nat | i < |got| && got[i]
  }

  /** The driver, the first usable device with its two interfaces claimed, the tun interface, the
      routes, service and DNS override that were asked for, and the bridge with its TX pool. */
  function HeldWhileBridging(p: Plan): Holding
    requires Bridges(p)
  {
    Holding(true, Some(FirstUsable(p.bus.devices)), {FoundChoice(p.bus).comm, FoundChoice(p.bus).data}, true,
      !p.noRoute, !p.noDns || !p.noRoute, !p.noDns, true, true, Allocated(p.txAllocated))
  }

  /** How often the session releases an interface that is not claimed. */
  function Excess(p: Plan): nat {
    if !p.driverOk then 0
    else ExcessOfSearch(p.bus) + if Finds(p.bus) then ExcessOfClose(FoundChoice(p.bus)) else 0
  }

  function TotalExcess(plans: seq<Plan>): nat {
    if plans == [] then 0 else TotalExcess(plans[..|plans| - 1]) + Excess(plans[|plans| - 1])
  }

  /** What the session holds of the host. Each method checks that it neither takes what is held
      nor gives back what is not, except that restoring is conditional on the bound flag. */
  class Host {
    const usb: Usb
    var driver: bool
    var tun: bool
    var sync: bool               // tx_mutex and tx_cond
    var txXfers: set<nat>        // the slots of tx_pool that have a transfer
    var routes: bool
    var service: bool
    var dns: bool
    var bound: bool              // g_network_bound

    constructor ()
      ensures Released() && fresh(usb) && usb.excess == 0
    {
      usb := new Usb();
      driver, tun, routes, service, dns, bound := false, false, false, false, false, false;
      sync, txXfers := false, {};
    }

    predicate Released()
      reads this, usb
    {
      usb.Released() && !driver && !tun && BridgeReleased() && NetworkRestored()
    }

    function Held(): Holding
      reads this, usb
    {
      Holding(driver, usb.handle, usb.claims, tun, routes, service, dns, bound, sync, txXfers)
    }

    predicate BridgeReleased()
      reads this
    {
      !sync && txXfers == {}
    }

    predicate NetworkRestored()
      reads this
    {
      !routes && !service && !dns && !bound
    }

    method CreateDriver()
      requires !driver
      modifies this`driver
      ensures driver
    {
      driver := true;
    }

    method DestroyDriver()
      requires driver
      modifies this`driver
      ensures !driver
    {
      driver := false;
    }

    method CreateTun()
      requires !tun
      modifies this`tun
      ensures tun
    {
      tun := true;
    }

    method CloseTun()
      requires tun
      modifies this`tun
      ensures !tun
    {
      tun := false;
    }

    /** restore_network_state. It does nothing unless the network was bound, so it may be called
        again at exit. */
    method Restore(noRoute: bool, noDns: bool)
      requires bound ==> (routes ==> !noRoute) && (dns ==> !noDns)
      requires !bound ==> NetworkRestored()
      modifies this`routes, this`service, this`dns, this`bound
      ensures NetworkRestored()
    {
      if !bound {
        return;
      }
      if !noRoute {
        routes := false;
      }
      service := false;
      if !noDns {
        dns := false;
      }
      bound := false;
    }

    /** Steps 7 and 8: DNS override, service entry and routes, as the two options ask for. */
    method BindNetwork(noRoute: bool, noDns: bool)
      requires NetworkRestored()
      modifies this`routes, this`service, this`dns, this`bound
      ensures bound
      ensures dns <==> !noDns
      ensures routes <==> !noRoute
      ensures service <==> !noDns || !noRoute
    {
      if !noDns {
        dns := true;
        service := true;
      } else if !noRoute {
        service := true;
      }
      if !noRoute {
        routes := true;
      }
      bound := true;
    }

    method FreeTransfer(i: nat)
      requires i in txXfers
      modifies this`txXfers
      ensures txXfers == old(txXfers) - {i}
    {
      txXfers := txXfers - {i};
    }

    /** The bridge is set up. */
    method StartBridge(got: seq<bool>)
      requires BridgeReleased()
      modifies this`sync, this`txXfers
      ensures sync && txXfers == Allocated(got)
    {
      sync := true;
      for i := 0 to |got|
        invariant sync && forall j: nat :: j in txXfers <==> j < i && got[j]
      {
        if got[i] {
          txXfers := txXfers + {i};
        }
      }
    }

    /** And taken down, once both threads have returned. */
    method StopBridge(slots: nat)
      requires sync && forall i: nat :: i in txXfers ==> i < slots
      modifies this`sync, this`txXfers
      ensures BridgeReleased()
    {
      for i := 0 to slots
        invariant forall j: nat :: j in txXfers ==> i <= j < slots
      {
        if i in txXfers {
          FreeTransfer(i);
        }
      }
      sync := false;
    }

    /** The ways out before the network is touched. */
    method Abandon(choice: Choice, ghost device: nat)
      requires driver && !tun && BridgeReleased() && NetworkRestored()
      requires usb.Holds(device, choice)
      modifies this`driver, usb
      ensures Released()
      ensures usb.excess == old(usb.excess) + ExcessOfClose(choice)
    {
      usb.CloseDevice(choice);
      DestroyDriver();
    }

    /** From binding the network to restoring it; during is what is held while the bridge runs. */
    method Serve(p: Plan, ghost choice: Choice) returns (during: Option<Holding>)
      requires Bridges(p) && driver && tun && BridgeReleased() && NetworkRestored()
      requires choice == FoundChoice(p.bus) && usb.Holds(FirstUsable(p.bus.devices), choice)
      modifies this`routes, this`service, this`dns, this`bound, this`sync, this`txXfers
      ensures BridgeReleased() && NetworkRestored()
      ensures during == Some(HeldWhileBridging(p))
    {
      hide Finds, FirstUsable, FoundChoice;
      BindNetwork(p.noRoute, p.noDns);
      StartBridge(p.txAllocated);
      // The bridge runs here.
      during := Some(Held());
      StopBridge(|p.txAllocated|);
      Restore(p.noRoute, p.noDns);
    }

    /** run_session. It returns 1, to ask for another session, exactly if the process is still
        meant to run and either a step failed or the device went away. during is what the host holds
        while the bridge runs, if it comes to that. */
    method RunSession(p: Plan) returns (ret: int, during: Option<Holding>)
      requires Released()
      modifies this, usb
      ensures Released()
      ensures ret == if p.stillRunning && (!Bridges(p) || p.disconnected) then 1 else 0
      ensures usb.excess == old(usb.excess) + Excess(p)
      ensures during.Some? <==>
              p.driverOk && Finds(p.bus) && p.initOk && p.macOk && p.addressOk && p.tunOk && p.configureOk
      ensures during.Some? ==> Bridges(p) && during.value == HeldWhileBridging(p)
    {
      hide Usable, ExcessOfSearch, FoundChoice, Finds, ExcessOfClose, FirstUsable;
      var failed := if p.stillRunning then 1 else 0;
      if !p.driverOk {
        return failed, None;
      }
      CreateDriver();
      var found, choice := usb.Find(p.bus);
      if found < 0 {
        DestroyDriver();
        return failed, None;
      }
      ghost var device := FirstUsable(p.bus.devices);
      if !p.initOk {
        Abandon(choice, device);
        return failed, None;
      }
      if !p.macOk {
        Abandon(choice, device);
        return failed, None;
      }
      if !p.addressOk {
        Abandon(choice, device);
        return failed, None;
      }
      if !p.tunOk {
        Abandon(choice, device);
        return failed, None;
      }
      CreateTun();
      if !p.configureOk {
        CloseTun();
        Abandon(choice, device);
        return failed, None;
      }
      during := Serve(p, choice);
      CloseTun();
      Abandon(choice, device);
      return if p.disconnected && p.stillRunning then 1 else 0, during;
    }

    /** Any number of sessions, one after the other, leave nothing behind; nor does the cleanup
        that runs at exit find anything left to do. */
    method RunSessions(plans: seq<Plan>, noRoute: bool, noDns: bool)
      requires Released()
      modifies this, usb
      ensures Released()
      ensures usb.excess == old(usb.excess) + TotalExcess(plans)
    {
      for i := 0 to |plans|
        invariant Released() && usb.excess == old(usb.excess) + TotalExcess(plans[..i])
      {
        var again, during := RunSession(plans[i]);
        assert plans[..i + 1][..i] == plans[..i];
      }
      assert plans[..|plans|] == plans;
      Restore(noRoute, noDns);
    }
  }
}

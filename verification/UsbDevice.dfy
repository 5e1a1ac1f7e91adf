/** usb_device.c as a ledger of what libusb holds for us: the search for an RNDIS device over an
    arbitrary device list, and the release of the one found. */
module UsbDevice {
  import opened Bytes
  import opened Options

  datatype Alt = Alt(number: byte, bclass: byte, subclass: byte, protocol: byte)

  /** An interface is the list of its alternate settings, a configuration that of its interfaces. */
  type Config = seq<seq<Alt>>

  predicate IsRndis(a: Alt) {
    || (a.bclass == 0xE0 && a.subclass == 0x01 && a.protocol == 0x03)
    || (a.bclass == 0x02 && a.subclass == 0x02 && a.protocol == 0x03)
    || (a.bclass == 0x02 && a.subclass == 0xFF && a.protocol == 0x03)
    || (a.bclass == 0xFF && a.subclass == 0x01 && a.protocol == 0x03)
  }

  predicate IsData(a: Alt) {
    a.bclass == 0x0A
  }

  // ---- Choosing interfaces ----

  /** The settings of a configuration in the order in which the loops visit them. */
  function Flatten(config: Config): seq<Alt> {
    if config == [] then [] else Flatten(config[..|config| - 1]) + config[|config| - 1]
  }

  /** The interfaces chosen so far; -1 stands for none. */
  datatype Choice = Choice(comm: int, data: int)

  const NO_CHOICE := Choice(-1, -1)

  function Visit(c: Choice, a: Alt): Choice {
    var comm := if IsRndis(a) then a.number else c.comm;
    Choice(comm, if IsData(a) && comm >= 0 then a.number else c.data)
  }

  function VisitAll(alts: seq<Alt>): (c: Choice)
    ensures c.comm >= -1 && c.data >= -1
  {
    if alts == [] then NO_CHOICE else Visit(VisitAll(alts[..|alts| - 1]), alts[|alts| - 1])
  }

  predicate HasNumber(alts: seq<Alt>, n: int) {
    exists k :: 0 <= k < |alts| && alts[k].number == n
  }

  /** The interfaces of a configuration, with the fallback for one that has no data class. */
  function Chosen(config: Config): Choice {
    var alts := Flatten(config);
    var c := VisitAll(alts);
    if c.comm >= 0 && c.data < 0 && HasNumber(alts, c.comm + 1) then c.(data := c.comm + 1) else c
  }

  predicate LastRndis(alts: seq<Alt>, k: int) {
    0 <= k < |alts| && IsRndis(alts[k]) && forall j :: k < j < |alts| ==> !IsRndis(alts[j])
  }

  /** A data setting after some RNDIS setting. */
  predicate Paired(alts: seq<Alt>, k: int) {
    0 <= k < |alts| && IsData(alts[k]) && exists i :: 0 <= i < k && IsRndis(alts[i])
  }

  predicate LastPaired(alts: seq<Alt>, k: int) {
    Paired(alts, k) && forall j :: k < j < |alts| ==> !IsData(alts[j])
  }

  /** The communication interface is that of the last RNDIS setting, and there is one exactly if
      there is an RNDIS setting; the data interface is that of the last data setting after the
      first RNDIS setting. */
  lemma {:induction false} VisitMeaning(alts: seq<Alt>)
    ensures
      var c := VisitAll(alts);
      && (c.comm < 0 <==> forall k :: 0 <= k < |alts| ==> !IsRndis(alts[k]))
      && (c.comm >= 0 ==> exists k :: LastRndis(alts, k) && alts[k].number == c.comm)
      && (c.data < 0 <==> forall k :: !Paired(alts, k))
      && (c.data >= 0 ==> exists k :: LastPaired(alts, k) && alts[k].number == c.data)
  {
    if alts != [] {
      var n := |alts| - 1;
      var before, a := alts[..n], alts[n];
      VisitMeaning(before);
      assert forall k :: 0 <= k < n ==> alts[k] == before[k];
      assert !(IsRndis(a) && IsData(a));
      assert forall k :: 0 <= k < n ==> (Paired(before, k) <==> Paired(alts, k));
      var c := VisitAll(alts);
      if IsData(a) && c.comm >= 0 {
        var i :| LastRndis(before, i);
        assert IsRndis(alts[i]) && LastPaired(alts, n);
      } else if c.data >= 0 {
        var k :| LastPaired(before, k) && before[k].number == c.data;
        assert LastPaired(alts, k);
      }
      if c.comm >= 0 && !IsRndis(a) {
        var k :| LastRndis(before, k) && before[k].number == c.comm;
        assert LastRndis(alts, k);
      } else if c.comm >= 0 {
        assert LastRndis(alts, n);
      }
    }
  }

  lemma FlattenSnoc(config: Config, j: nat)
    requires j < |config|
    ensures Flatten(config[..j + 1]) == Flatten(config[..j]) + config[j]
  {
    assert config[..j + 1][..j] == config[..j];
  }

  lemma VisitSnoc(alts: seq<Alt>, a: Alt)
    ensures VisitAll(alts + [a]) == Visit(VisitAll(alts), a)
  {
    assert (alts + [a])[..|alts|] == alts;
  }

  /** The two passes over a configuration. */
  method ChooseInterfaces(config: Config) returns (comm: int, data: int)
    ensures Choice(comm, data) == Chosen(config)
  {
    hide IsRndis, IsData, VisitAll, Flatten, HasNumber;
    comm, data := -1, -1;
    EmptyConfig();
    assert config[..0] == [];
    for j := 0 to |config|
      invariant Choice(comm, data) == VisitAll(Flatten(config[..j]))
    {
      ghost var earlier := Flatten(config[..j]);
      assert earlier + config[j][..0] == earlier;
      for k := 0 to |config[j]|
        invariant Choice(comm, data) == VisitAll(earlier + config[j][..k])
      {
        VisitSnoc(earlier + config[j][..k], config[j][k]);
        assert earlier + config[j][..k + 1] == earlier + config[j][..k] + [config[j][k]];
        var alt := config[j][k];
        if IsRndis(alt) {
          comm := alt.number;
        }
        if IsData(alt) && comm >= 0 {
          data := alt.number;
        }
      }
      assert config[j][..|config[j]|] == config[j];
      FlattenSnoc(config, j);
    }
    assert config[..|config|] == config;
    if comm >= 0 && data < 0 {
      data := NextInterface(config, comm);
    }
  }

  lemma EmptyConfig()
    ensures Flatten([]) == [] && VisitAll([]) == NO_CHOICE
  {
  }

  lemma HasNumberSnoc(alts: seq<Alt>, a: Alt, n: int)
    ensures HasNumber(alts + [a], n) <==> HasNumber(alts, n) || a.number == n
  {
    var all := alts + [a];
    assert all[|alts|] == a;
    assert forall k :: 0 <= k < |alts| ==> all[k] == alts[k];
  }

  /** The second pass: is there an interface numbered right after the communication interface? */
  method NextInterface(config: Config, comm: int) returns (data: int)
    ensures data == if HasNumber(Flatten(config), comm + 1) then comm + 1 else -1
  {
    data := -1;
    for j := 0 to |config|
      invariant data == if HasNumber(Flatten(config[..j]), comm + 1) then comm + 1 else -1
    {
      ghost var earlier := Flatten(config[..j]);
      assert earlier + config[j][..0] == earlier;
      for k := 0 to |config[j]|
        invariant data == if HasNumber(earlier + config[j][..k], comm + 1) then comm + 1 else -1
      {
        assert earlier + config[j][..k + 1] == earlier + config[j][..k] + [config[j][k]];
        HasNumberSnoc(earlier + config[j][..k], config[j][k], comm + 1);
        if config[j][k].number == comm + 1 {
          data := config[j][k].number;
        }
      }
      assert config[j][..|config[j]|] == config[j];
      FlattenSnoc(config, j);
    }
    assert config[..|config|] == config;
  }

  // What the choice means, in the class, subclass and protocol numbers of USB.

  const RNDIS_KINDS: set<(int, int, int)> := {(0xE0, 1, 3), (2, 2, 3), (2, 0xFF, 3), (0xFF, 1, 3)}

  predicate RndisAt(alts: seq<Alt>, k: int) {
    0 <= k < |alts| && (alts[k].bclass as int, alts[k].subclass as int, alts[k].protocol as int) in RNDIS_KINDS
  }

  predicate LastKind(alts: seq<Alt>, k: int) {
    RndisAt(alts, k) && forall j :: k < j < |alts| ==> !RndisAt(alts, j)
  }

  /** A CDC data setting behind some RNDIS setting. */
  predicate DataAt(alts: seq<Alt>, k: int) {
    0 <= k < |alts| && alts[k].bclass == 10 && exists i :: 0 <= i < k && RndisAt(alts, i)
  }

  lemma KindsMeet(alts: seq<Alt>, k: int)
    ensures RndisAt(alts, k) <==> 0 <= k < |alts| && IsRndis(alts[k])
    ensures DataAt(alts, k) <==> Paired(alts, k)
    ensures LastRndis(alts, k) <==> LastKind(alts, k)
  {
    assert forall i :: 0 <= i < |alts| ==> (RndisAt(alts, i) <==> IsRndis(alts[i]));
  }

  ghost predicate LastData(alts: seq<Alt>, k: int) {
    DataAt(alts, k) && forall j :: k < j ==> !DataAt(alts, j)
  }

  ghost predicate NoneAt(alts: seq<Alt>) {
    forall k :: !RndisAt(alts, k)
  }

  ghost predicate NoData(alts: seq<Alt>) {
    forall k :: !DataAt(alts, k)
  }

  ghost predicate LastKindIs(alts: seq<Alt>, n: int) {
    exists k :: LastKind(alts, k) && alts[k].number == n
  }

  ghost predicate LastDataIs(alts: seq<Alt>, n: int) {
    exists k :: LastData(alts, k) && alts[k].number == n
  }

  lemma CommMeaning(alts: seq<Alt>)
    ensures VisitAll(alts).comm < 0 <==> NoneAt(alts)
    ensures VisitAll(alts).comm >= 0 ==> LastKindIs(alts, VisitAll(alts).comm)
  {
    hide IsRndis, IsData, RndisAt, VisitAll, Paired, LastRndis, LastKind;
    VisitMeaning(alts);
    if VisitAll(alts).comm >= 0 {
      var i := LastRndisOf(alts);
      KindsMeet(alts, i);
      LastKindAt(alts, i);
    } else {
      forall k ensures !RndisAt(alts, k) {
        KindsMeet(alts, k);
      }
    }
  }

  lemma LastKindAt(alts: seq<Alt>, k: int)
    requires LastKind(alts, k)
    ensures RndisAt(alts, k) && !NoneAt(alts)
  {
  }

  lemma DataMeaning(alts: seq<Alt>)
    ensures VisitAll(alts).data < 0 <==> NoData(alts)
    ensures VisitAll(alts).data >= 0 ==> LastDataIs(alts, VisitAll(alts).data)
  {
    hide IsRndis, IsData, DataAt, VisitAll, Paired, LastPaired;
    VisitMeaning(alts);
    forall k ensures DataAt(alts, k) <==> Paired(alts, k) {
      KindsMeet(alts, k);
    }
    if VisitAll(alts).data >= 0 {
      var k := LastPairedOf(alts);
      PairedLast(alts, k);
      assert LastData(alts, k);
    }
  }

  /** The communication interface is that of the last RNDIS setting; the data interface is that of
      the last data setting behind one, or else the one with the next number, if it exists. */
  lemma ChosenMeaning(config: Config)
    ensures
      var alts, c := Flatten(config), Chosen(config);
      && (if NoneAt(alts) then c.comm == -1 else LastKindIs(alts, c.comm))
      && (if !NoData(alts) then LastDataIs(alts, c.data)
          else c.data == if c.comm >= 0 && HasNumber(alts, c.comm + 1) then c.comm + 1 else -1)
  {
    hide VisitAll, Flatten, HasNumber, NoneAt, NoData, LastKindIs, LastDataIs;
    CommMeaning(Flatten(config));
    DataMeaning(Flatten(config));
  }

  lemma LastRndisOf(alts: seq<Alt>) returns (i: nat)
    requires VisitAll(alts).comm >= 0
    ensures LastRndis(alts, i) && i < |alts| && alts[i].number == VisitAll(alts).comm
  {
    hide VisitAll, IsRndis, IsData;
    VisitMeaning(alts);
    i :| LastRndis(alts, i) && alts[i].number == VisitAll(alts).comm;
  }

  lemma LastPairedOf(alts: seq<Alt>) returns (k: nat)
    requires VisitAll(alts).data >= 0
    ensures LastPaired(alts, k) && k < |alts| && alts[k].number == VisitAll(alts).data
  {
    hide VisitAll, IsRndis, IsData;
    VisitMeaning(alts);
    k :| LastPaired(alts, k) && alts[k].number == VisitAll(alts).data;
  }

  lemma PairedLast(alts: seq<Alt>, k: int)
    requires LastPaired(alts, k)
    ensures Paired(alts, k) && forall j :: k < j ==> !Paired(alts, j)
  {
  }

  /** One interface was chosen for both roles. */
  predicate Shared(c: Choice) {
    0 <= c.comm == c.data
  }

  lemma LastOfEach(alts: seq<Alt>, i: int, i': int, k: int, k': int)
    ensures LastRndis(alts, i) && LastRndis(alts, i') ==> i == i'
    ensures LastPaired(alts, k) && LastPaired(alts, k') ==> k == k'
    ensures LastRndis(alts, i) ==> 0 <= i < |alts| && IsRndis(alts[i])
    ensures LastPaired(alts, k) ==> 0 <= k < |alts| && Paired(alts, k)
  {
  }

  /** Setting i is the last RNDIS setting, k the last data setting behind one, and they belong to
      one interface. */
  predicate OneInterface(alts: seq<Alt>, i: int, k: int) {
    LastRndis(alts, i) && LastPaired(alts, k) && alts[i].number == alts[k].number
  }

  /** That happens exactly if those two settings are settings of one interface. */
  lemma SharedExact(config: Config)
    ensures Shared(Chosen(config)) <==> exists i, k :: OneInterface(Flatten(config), i, k)
  {
    hide VisitAll, IsRndis, IsData, Paired, LastRndis, LastPaired, HasNumber, Flatten;
    var alts := Flatten(config);
    var c := VisitAll(alts);
    VisitMeaning(alts);
    if c.comm >= 0 && c.data >= 0 {
      var i' := LastRndisOf(alts);
      var k' := LastPairedOf(alts);
      assert OneInterface(alts, i', k') <==> c.comm == c.data;
      if i, k :| OneInterface(alts, i, k) {
        LastOfEach(alts, i, i', k, k');
        assert OneInterface(alts, i', k');
        assert exists i, k :: OneInterface(Flatten(config), i, k);
      }
    } else {
      if i, k :| OneInterface(alts, i, k) {
        LastOfEach(alts, i, i, k, k);
        assert false;
      }
    }
  }

  /** For example of an interface that has one setting of each kind. */
  lemma SharedInput()
    ensures exists config :: Shared(Chosen(config))
  {
    var a, b := Alt(0, 0xE0, 0x01, 0x03), Alt(0, 0x0A, 0, 0);
    assert [[a, b]][..0] == [] && Flatten([]) == [];
    assert Flatten([[a, b]]) == [a, b];
    assert [a, b][..1] == [a] && [a][..0] == [];
    assert VisitAll([a]) == Choice(0, -1);
    assert VisitAll([a, b]) == Choice(0, 0);
    assert Shared(Chosen([[a, b]]));
  }

  // ---- The ledger ----

  /** A device on the bus, with the outcome of every call that may be made on it. */
  datatype Device = Device(
    descriptorOk: bool,
    config: Option<Config>,
    openOk: bool,
    claimCommOk: bool,
    claimDataOk: bool,
    endpointsFound: bool)

  predicate Suitable(d: Device) {
    d.descriptorOk && d.config.Some? && Chosen(d.config.value).comm >= 0 && Chosen(d.config.value).data >= 0
  }

  /** A device on which every step of the search succeeds. */
  predicate Usable(d: Device) {
    Suitable(d) && d.openOk && d.claimCommOk && d.claimDataOk && d.endpointsFound
  }

  /** Every call on the device succeeds, and it has both interfaces and both endpoints. */
  predicate WorksThroughout(d: Device) {
    && d.descriptorOk && d.config.Some? && d.openOk && d.claimCommOk && d.claimDataOk && d.endpointsFound
    && Chosen(d.config.value).comm >= 0 && Chosen(d.config.value).data >= 0
  }

  lemma UsableWorks(d: Device)
    ensures Usable(d) <==> WorksThroughout(d)
  {
  }

  lemma NoneWorks(devices: seq<Device>)
    requires FirstUsable(devices) == |devices|
    ensures forall d :: d in devices ==> !WorksThroughout(d)
  {
    hide Usable, WorksThroughout;
    forall d | d in devices ensures !WorksThroughout(d) {
      UsableWorks(d);
    }
  }

  datatype Bus = Bus(initOk: bool, listOk: bool, devices: seq<Device>)

  function FirstUsable(devices: seq<Device>): (n: nat)
    ensures n <= |devices|
    ensures forall j :: 0 <= j < n ==> !Usable(devices[j])
    ensures n < |devices| ==> Usable(devices[n])
  {
    if devices == [] || Usable(devices[0]) then 0 else 1 + FirstUsable(devices[1..])
  }

  /** The search finds a device. */
  predicate Finds(bus: Bus) {
    bus.initOk && bus.listOk && FirstUsable(bus.devices) < |bus.devices|
  }

  /** The device that the search finds, and the interfaces chosen on it. */
  function Found(bus: Bus): (d: Device)
    requires Finds(bus)
    ensures d.config.Some?
  {
    bus.devices[FirstUsable(bus.devices)]
  }

  function FoundChoice(bus: Bus): Choice
    requires Finds(bus)
  {
    Chosen(Found(bus).config.value)
  }

  /** The search claims an interface of the device twice, */
  predicate ClaimsTwice(d: Device) {
    Suitable(d) && d.openOk && d.claimCommOk && d.claimDataOk && Shared(Chosen(d.config.value))
  }

  /** and, for want of endpoints, gives it back twice. */
  predicate ReleasesTwice(d: Device) {
    ClaimsTwice(d) && !d.endpointsFound
  }

  function CountReleasedTwice(devices: seq<Device>): nat {
    if devices == [] then 0
    else CountReleasedTwice(devices[..|devices| - 1]) + if ReleasesTwice(devices[|devices| - 1]) then 1 else 0
  }

  /** How often an interface is released that is not claimed: in the search, and in closing what
      it found. */
  function ExcessOfSearch(bus: Bus): nat {
    if bus.initOk && bus.listOk then CountReleasedTwice(bus.devices[..FirstUsable(bus.devices)]) else 0
  }

  function ExcessOfClose(choice: Choice): nat {
    if choice.comm == choice.data then 1 else 0
  }

  /** What libusb holds. Opening needs that nothing is open, closing that nothing is claimed.
      Claiming an interface that is claimed and releasing one that is not have no effect in
      libusb; the second is counted. */
  class Usb {
    var context: bool
    var list: bool
    var configs: nat
    var handle: Option<nat>       // which device of the list is open
    var claims: set<int>
    var excess: nat               // releases of interfaces that were not claimed

    constructor ()
      ensures Released() && excess == 0
    {
      context, list, configs, handle, claims, excess := false, false, 0, None, {}, 0;
    }

    predicate Released()
      reads this
    {
      !context && !list && configs == 0 && handle == None && claims == {}
    }

    /** Just the device i is open, with just the interfaces of the choice claimed. */
    predicate Holds(i: nat, c: Choice)
      reads this
    {
      context && !list && configs == 0 && handle == Some(i) && claims == {c.comm, c.data}
    }

    method Open(i: nat)
      requires handle == None && claims == {}
      modifies this`handle
      ensures handle == Some(i)
    {
      handle := Some(i);
    }

    method Close()
      requires handle.Some? && claims == {}
      modifies this`handle
      ensures handle == None
    {
      handle := None;
    }

    method Claim(iface: int)
      requires handle.Some?
      modifies this`claims
      ensures claims == old(claims) + {iface}
    {
      claims := claims + {iface};
    }

    method Release(iface: int)
      requires handle.Some?
      modifies this`claims, this`excess
      ensures claims == old(claims) - {iface}
      ensures excess == old(excess) + if iface in old(claims) then 0 else 1
    {
      if iface !in claims {
        excess := excess + 1;
      }
      claims := claims - {iface};
    }

    method GetConfig()
      modifies this`configs
      ensures configs == old(configs) + 1
    {
      configs := configs + 1;
    }

    method FreeConfig()
      requires configs > 0
      modifies this`configs
      ensures configs == old(configs) - 1
    {
      configs := configs - 1;
    }

    /** One round of the search. Whatever fails, everything taken for the device is given back. */
    method TryDevice(i: nat, d: Device) returns (found: bool, choice: Choice)
      requires handle == None && claims == {} && configs == 0
      modifies this`handle, this`claims, this`configs, this`excess
      ensures found <==> Usable(d)
      ensures configs == 0
      ensures found ==> choice == Chosen(d.config.value) && handle == Some(i) && claims == {choice.comm, choice.data}
      ensures !found ==> handle == None && claims == {}
      ensures excess == old(excess) + if ReleasesTwice(d) then 1 else 0
    {
      hide Chosen;
      found, choice := false, NO_CHOICE;
      if !d.descriptorOk {
        return;
      }
      if d.config == None {
        return;
      }
      GetConfig();
      var comm, data := ChooseInterfaces(d.config.value);
      choice := Choice(comm, data);
      if comm >= 0 && data >= 0 {
        if !d.openOk {
          FreeConfig();
          return;
        }
        Open(i);
        if !d.claimCommOk {
          Close();
          FreeConfig();
          return;
        }
        Claim(comm);
        if !d.claimDataOk {
          Release(comm);
          Close();
          FreeConfig();
          return;
        }
        Claim(data);
        if d.endpointsFound {
          found := true;
        } else {
          Release(data);
          Release(comm);
          Close();
        }
      }
      FreeConfig();
    }

    /** usb_find_rndis_device: opens the first usable device, or leaves nothing held. */
    method Find(bus: Bus) returns (ret: int, choice: Choice)
      requires Released()
      modifies this
      ensures ret == if Finds(bus) then 0 else -1
      ensures ret == 0 ==> WorksThroughout(Found(bus))
      ensures ret == -1 && bus.initOk && bus.listOk ==> forall d :: d in bus.devices ==> !WorksThroughout(d)
      ensures ret == 0 ==> choice == FoundChoice(bus) && Holds(FirstUsable(bus.devices), choice)
      ensures ret == -1 ==> Released()
      ensures excess == old(excess) + ExcessOfSearch(bus)
    {
      hide Usable, Chosen, ReleasesTwice, WorksThroughout;
      choice := NO_CHOICE;
      if !bus.initOk {
        return -1, choice;
      }
      context := true;
      if !bus.listOk {
        context := false;
        return -1, choice;
      }
      list := true;
      var found := false;
      var i := 0;
      while i < |bus.devices| && !found
        invariant 0 <= i <= |bus.devices|
        invariant context && list && configs == 0
        invariant !found ==> handle == None && claims == {} && i <= FirstUsable(bus.devices)
        invariant !found ==> excess == old(excess) + CountReleasedTwice(bus.devices[..i])
        invariant found ==> i == FirstUsable(bus.devices) + 1
        invariant found ==> excess == old(excess) + CountReleasedTwice(bus.devices[..i - 1])
        invariant found ==> bus.devices[i - 1].config.Some? && choice == Chosen(bus.devices[i - 1].config.value)
        invariant found ==> handle == Some(i - 1) && claims == {choice.comm, choice.data}
      {
        found, choice := TryDevice(i, bus.devices[i]);
        UsableHasConfig(bus.devices[i]);
        assert bus.devices[..i + 1][..i] == bus.devices[..i];
        i := i + 1;
      }
      assert bus.devices[..|bus.devices|] == bus.devices;
      if found {
        UsableWorks(bus.devices[i - 1]);
      } else {
        NoneWorks(bus.devices);
      }
      list := false;
      if !found {
        context := false;
        return -1, choice;
      }
      return 0, choice;
    }

    /** usb_close_device. */
    method CloseDevice(choice: Choice)
      requires handle.Some? ==> claims == {choice.comm, choice.data} && context && !list && configs == 0
      requires handle == None ==> Released()
      modifies this
      ensures Released()
      ensures excess == old(excess) + if old(handle).Some? then ExcessOfClose(choice) else 0
    {
      if handle == None {
        return;
      }
      Release(choice.data);
      Release(choice.comm);
      Close();
      if context {
        context := false;
      }
    }
  }

  lemma UsableHasConfig(d: Device)
    ensures Usable(d) ==> d.config.Some? && !ReleasesTwice(d)
  {
  }
}

/** The DHCP option area (section 2 of RFC 2132) and the three loops of dhcp.c that read it. */
module DhcpOptions {
  import opened Bytes
  import opened Arp

  const PAD := 0
  const END := 0xFF
  const MASK := 1
  const ROUTER := 3
  const DNS := 6
  const MSG_TYPE := 53
  const SERVER_ID := 54

  datatype Opt = Opt(code: byte, value: seq<byte>)

  /** s begins with an option whose value lies inside s. */
  predicate OptionFits(s: seq<byte>) {
    |s| >= 2 && s[0] != PAD && s[0] != END && 2 + s[1] <= |s|
  }

  function First(s: seq<byte>): Opt
    requires OptionFits(s)
  {
    Opt(s[0], s[2..2 + s[1]])
  }

  /** The options of an area, up to its end marker or the first option cut short. */
  function Decode(s: seq<byte>): seq<Opt> {
    if s != [] && s[0] == PAD then Decode(s[1..])
    else if OptionFits(s) then [First(s)] + Decode(s[2 + s[1]..])
    else []
  }

  /** What is left of an area from the option whose value is cut short; empty if none is. */
  function Overrun(s: seq<byte>): (t: seq<byte>)
    ensures t != [] ==> |t| >= 2 && t[0] != PAD && t[0] != END && |t| - 2 < t[1]
  {
    if s != [] && s[0] == PAD then Overrun(s[1..])
    else if OptionFits(s) then Overrun(s[2 + s[1]..])
    else if |s| >= 2 && s[0] != END then s
    else []
  }

  // ---- dhcp_parse_options ----

  datatype Settings = Settings(gateway: Ip, netmask: Ip, dns1: Ip, dns2: Ip)

  const NO_SETTINGS := Settings(Zeros(4), Zeros(4), Zeros(4), Zeros(4))

  function Apply(st: Settings, o: Opt): Settings {
    if o.code == MASK && |o.value| >= 4 then st.(netmask := o.value[..4])
    else if o.code == ROUTER && |o.value| >= 4 then st.(gateway := o.value[..4])
    else if o.code == DNS && |o.value| >= 8 then st.(dns1 := o.value[..4], dns2 := o.value[4..8])
    else if o.code == DNS && |o.value| >= 4 then st.(dns1 := o.value[..4])
    else st
  }

  function ApplyAll(opts: seq<Opt>, st: Settings): Settings {
    if opts == [] then st else ApplyAll(opts[1..], Apply(st, opts[0]))
  }

  lemma DecodeOption(s: seq<byte>, st: Settings)
    requires OptionFits(s)
    ensures ApplyAll(Decode(s), st) == ApplyAll(Decode(s[2 + s[1]..]), Apply(st, First(s)))
  {
    assert Decode(s)[1..] == Decode(s[2 + s[1]..]);
  }

  /** The switch on one option. */
  method StoreOption(st0: Settings, opt: byte, value: seq<byte>) returns (st: Settings)
    ensures st == Apply(st0, Opt(opt, value))
  {
    st := st0;
    match opt
    case 1 =>
      if |value| >= 4 { st := st.(netmask := value[..4]); }
    case 3 =>
      if |value| >= 4 { st := st.(gateway := value[..4]); }
    case 6 =>
      if |value| >= 4 { st := st.(dns1 := value[..4]); }
      if |value| >= 8 { st := st.(dns2 := value[4..8]); }
    case _ =>
  }

  /** Every access is inside the area, the loop ends on any bytes, and its effect is that of
      the decoded options applied in order. starts is where it found them. */
  method ParseOptions(opts: seq<byte>, st0: Settings) returns (st: Settings, ghost starts: seq<nat>)
    ensures st == ApplyAll(Decode(opts), st0)
    ensures starts == ParseStarts(opts, 0)
  {
    hide Apply, Decode, ApplyAll, ParseFrom, ParsedFrom, ParseStarts;
    st, starts := st0, [];
    var i := 0;
    WholeParse(opts, st0);
    while i < |opts|
      invariant 0 <= i <= |opts|
      invariant ParseFrom(opts, 0, st0) == ParseFrom(opts, i, st)
      invariant ParsedFrom(opts, 0, []) == ParsedFrom(opts, i, starts)
      decreases |opts| - i
    {
      ghost var at := i;
      var opt := opts[i];
      i := i + 1;
      if opt == END {
        ParseLastRound(opts, at, st, starts);
        return;
      }
      if opt == PAD {
        ParsePadRound(opts, at, st, starts);
        continue;
      }
      if i >= |opts| {
        ParseLastRound(opts, at, st, starts);
        return;
      }
      var olen := opts[i];
      i := i + 1;
      if i + olen > |opts| {
        ParseLastRound(opts, at, st, starts);
        return;
      }
      ParseRound(opts, at, st, starts);
      starts := starts + [at];
      st := StoreOption(st, opt, opts[i..i + olen]);
      i := i + olen;
    }
    ParseLastRound(opts, i, st, starts);
  }

  /** What the loop returns that stands at offset i with st stored so far. */
  function ParseFrom(opts: seq<byte>, i: nat, st: Settings): Settings
    requires i <= |opts|
  {
    ApplyAll(Decode(opts[i..]), st)
  }

  function ParsedFrom(opts: seq<byte>, i: nat, starts: seq<nat>): seq<nat> {
    starts + ParseStarts(opts, i)
  }

  lemma WholeParse(opts: seq<byte>, st: Settings)
    ensures ParseFrom(opts, 0, st) == ApplyAll(Decode(opts), st)
    ensures ParsedFrom(opts, 0, []) == ParseStarts(opts, 0)
  {
    assert opts[0..] == opts;
  }

  lemma ParseRound(opts: seq<byte>, i: nat, st: Settings, starts: seq<nat>)
    requires i <= |opts| && OptionFits(opts[i..])
    ensures
      var next := i + 2 + opts[i + 1];
      && ParseFrom(opts, i, st) == ParseFrom(opts, next, Apply(st, Opt(opts[i], opts[i + 2..next])))
      && ParsedFrom(opts, i, starts) == ParsedFrom(opts, next, starts + [i])
  {
    hide Apply, ApplyAll, Decode;
    var s, next := opts[i..], i + 2 + opts[i + 1];
    DecodeOption(s, st);
    assert opts[next..] == s[2 + s[1]..] && First(s).value == opts[i + 2..next];
  }

  lemma ParsePadRound(opts: seq<byte>, i: nat, st: Settings, starts: seq<nat>)
    requires i < |opts| && opts[i] == PAD
    ensures ParseFrom(opts, i, st) == ParseFrom(opts, i + 1, st)
    ensures ParsedFrom(opts, i, starts) == ParsedFrom(opts, i + 1, starts)
  {
    hide ApplyAll;
    assert opts[i..][1..] == opts[i + 1..];
  }

  lemma ParseLastRound(opts: seq<byte>, i: nat, st: Settings, starts: seq<nat>)
    requires i <= |opts| && (i < |opts| ==> opts[i] != PAD && !OptionFits(opts[i..]))
    ensures ParseFrom(opts, i, st) == st && ParsedFrom(opts, i, starts) == starts
  {
  }

  /** Where dhcp_parse_options finds options from offset i on. */
  function ParseStarts(s: seq<byte>, i: nat): (p: seq<nat>)
    ensures forall k :: 0 <= k < |p| ==> p[k] + 1 < |s|
    decreases |s| - i
  {
    if i >= |s| || s[i] == END then []
    else if s[i] == PAD then ParseStarts(s, i + 1)
    else if i + 1 >= |s| || i + 2 + s[i + 1] > |s| then []
    else [i] + ParseStarts(s, i + 2 + s[i + 1])
  }

  datatype Field = Gateway | Netmask | Dns1 | Dns2

  function Get(f: Field, st: Settings): Ip {
    match f
    case Gateway => st.gateway
    case Netmask => st.netmask
    case Dns1 => st.dns1
    case Dns2 => st.dns2
  }

  /** The options that set a field, and the bytes they set it to. */
  predicate Sets(f: Field, o: Opt) {
    match f
    case Gateway => o.code == ROUTER && |o.value| >= 4
    case Netmask => o.code == MASK && |o.value| >= 4
    case Dns1 => o.code == DNS && |o.value| >= 4
    case Dns2 => o.code == DNS && |o.value| >= 8
  }

  function SetTo(f: Field, o: Opt): Ip
    requires Sets(f, o)
  {
    if f == Dns2 then o.value[4..8] else o.value[..4]
  }

  predicate LastSetter(f: Field, opts: seq<Opt>, k: nat) {
    && k < |opts| && Sets(f, opts[k])
    && forall j :: k < j < |opts| ==> !Sets(f, opts[j])
  }

  /** Each field ends up as the last option that sets it says. */
  lemma {:induction false} LastWriterWins(opts: seq<Opt>, st: Settings, f: Field, k: nat)
    requires LastSetter(f, opts, k)
    ensures Get(f, ApplyAll(opts, st)) == SetTo(f, opts[k])
  {
    if k > 0 {
      LastWriterWins(opts[1..], Apply(st, opts[0]), f, k - 1);
    } else {
      UntouchedUnlessSet(opts[1..], Apply(st, opts[0]), f);
    }
  }

  /** A field that no option sets keeps its value. */
  lemma {:induction false} UntouchedUnlessSet(opts: seq<Opt>, st: Settings, f: Field)
    requires forall j :: 0 <= j < |opts| ==> !Sets(f, opts[j])
    ensures Get(f, ApplyAll(opts, st)) == Get(f, st)
  {
    if opts != [] {
      UntouchedUnlessSet(opts[1..], Apply(st, opts[0]), f);
      assert !Sets(f, opts[0]);
    }
  }

  /** Router, mask and DNS servers are options 3, 1 and 6 (section 3 of RFC 2132), and addresses are
      taken from their first bytes. */
  lemma OptionsByNumber(router: Ip, mask: Ip, dns1: Ip, dns2: Ip, more: seq<byte>, st: Settings)
    ensures ApplyAll([Opt(3, router + more), Opt(1, mask + more), Opt(6, dns1 + dns2 + more)], st)
         == Settings(router, mask, dns1, dns2)
  {
    var a, b, c := Opt(3, router + more), Opt(1, mask + more), Opt(6, dns1 + dns2 + more);
    assert a.value[..4] == router && b.value[..4] == mask && c.value[..4] == dns1 && c.value[4..8] == dns2;
    assert [a, b, c][1..] == [b, c] && [b, c][1..] == [c] && [c][1..] == [];
    var s1, s2 := st.(gateway := router), st.(gateway := router, netmask := mask);
    assert ApplyAll([c], s2) == Settings(router, mask, dns1, dns2);
    assert ApplyAll([b, c], s1) == ApplyAll([c], s2);
  }

  /** Which options set which field, by their numbers and lengths; all others set none. */
  lemma SettersByNumber(o: Opt)
    ensures Sets(Gateway, o) <==> o.code == 3 && |o.value| >= 4
    ensures Sets(Netmask, o) <==> o.code == 1 && |o.value| >= 4
    ensures Sets(Dns1, o) <==> o.code == 6 && |o.value| >= 4
    ensures Sets(Dns2, o) <==> o.code == 6 && |o.value| >= 8
  {
  }

  /** The two DNS servers come from one option exactly when the last DNS option is long enough
      to carry both; otherwise the second is left over from an earlier option. */
  lemma DnsFromOneOption(opts: seq<Opt>, k1: nat, k2: nat)
    requires LastSetter(Dns1, opts, k1) && LastSetter(Dns2, opts, k2)
    ensures k2 <= k1
    ensures k1 == k2 <==> |opts[k1].value| >= 8
  {
  }

  /** They need not: after a list of two servers and then one of one, the first server is from the
      second option and the second server from the first. */
  lemma DnsFromTwoOptions(a: Ip, b: Ip, c: Ip, st: Settings)
    ensures
      var opts := [Opt(DNS, a + b), Opt(DNS, c)];
      && LastSetter(Dns1, opts, 1) && LastSetter(Dns2, opts, 0)
      && ApplyAll(opts, st) == st.(dns1 := c, dns2 := b)
  {
    var o, p := Opt(DNS, a + b), Opt(DNS, c);
    assert (a + b)[..4] == a && (a + b)[4..8] == b && c[..4] == c;
    assert [o, p][1..] == [p] && [p][1..] == [];
    assert ApplyAll([p], st.(dns1 := a, dns2 := b)) == st.(dns1 := c, dns2 := b);
  }

  // ---- The inline scanners of dhcp_discover ----

  datatype Scanned = Scanned(msgType: nat, server: Ip)

  function Note(sc: Scanned, o: Opt): Scanned {
    if o.code == MSG_TYPE && |o.value| >= 1 then sc.(msgType := o.value[0])
    else if o.code == SERVER_ID && |o.value| >= 4 then sc.(server := o.value[..4])
    else sc
  }

  function NoteAll(opts: seq<Opt>, sc: Scanned): Scanned {
    if opts == [] then sc else NoteAll(opts[1..], Note(sc, opts[0]))
  }

  /** The scanners do not check that a value fits, so they also see an option cut short. */
  function Seen(s: seq<byte>): seq<Opt> {
    var t := Overrun(s);
    Decode(s) + if t == [] then [] else [Opt(t[0], t[2..])]
  }

  /** The hypothesis of the scanners: the option cut short, if there is one, still holds the
      bytes they read from it. Only the scanner for offers reads option 54. */
  predicate ScanInside(s: seq<byte>, forOffer: bool) {
    var t := Overrun(s);
    t != [] ==> !(t[0] == MSG_TYPE && |t| < 3) && !(forOffer && t[0] == SERVER_ID && t[1] >= 4 && |t| < 6)
  }

  /** How many bytes from the start of an option a scanner looks at. */
  function Touched(code: byte, olen: byte, forOffer: bool): nat {
    if code == MSG_TYPE && olen >= 1 then 3
    else if forOffer && code == SERVER_ID && olen >= 4 then 6
    else 2
  }

  /** How many bytes from the start of the area a scanner's loop looks at in all. */
  function Reach(s: seq<byte>, forOffer: bool): nat {
    if s == [] then 0
    else if s[0] == END || |s| == 1 then 1
    else if s[0] == PAD then 1 + Reach(s[1..], forOffer)
    else
      var touched := Touched(s[0], s[1], forOffer);
      var olen: int := s[1];
      var next := 2 + olen;
      var later := if next < |s| then Reach(s[next..], forOffer) else 0;
      if later == 0 then touched else next + later
  }

  /** The scanners stay inside the area if and only if the hypothesis holds. */
  lemma {:induction false} ScanInsideExact(s: seq<byte>, forOffer: bool)
    ensures Reach(s, forOffer) <= |s| <==> ScanInside(s, forOffer)
  {
    if s == [] || s[0] == END {
    } else if s[0] == PAD {
      ScanInsideExact(s[1..], forOffer);
    } else if |s| >= 2 && 2 + s[1] <= |s| {
      assert s[1..] != [];
      ScanInsideExact(s[2 + s[1]..], forOffer);
      ReachesSomething(s[2 + s[1]..], forOffer);
    }
  }

  lemma ReachesSomething(s: seq<byte>, forOffer: bool)
    ensures Reach(s, forOffer) == 0 <==> s == []
  {
  }

  /** Areas on which they do not, of which dhcp_parse_options reads nothing outside. */
  lemma ScannersReadOutside()
    ensures Reach([53, 1], true) == 3 && Reach([53, 1], false) == 3
    ensures Reach([54, 4, 192, 168], true) == 6 && Reach([54, 4, 192, 168], false) == 2
  {
  }

  lemma FirstOption(s: seq<byte>)
    requires OptionFits(s)
    ensures Decode(s) == [First(s)] + Decode(s[2 + s[1]..])
    ensures Overrun(s) == Overrun(s[2 + s[1]..])
  {
  }

  /** The value of the option at i, or what there is of it. */
  function ValueAt(opts: seq<byte>, i: nat): seq<byte>
    requires i + 2 <= |opts|
  {
    var next := i + 2 + opts[i + 1];
    opts[i + 2..if next <= |opts| then next else |opts|]
  }

  lemma ScanOption(opts: seq<byte>, i: nat, sc: Scanned)
    requires i + 1 < |opts| && opts[i] != PAD && opts[i] != END
    ensures
      var s, next, noted := opts[i..], i + 2 + opts[i + 1], Note(sc, Opt(opts[i], ValueAt(opts, i)));
      if next <= |opts| then
        Overrun(s) == Overrun(opts[next..]) && NoteAll(Seen(s), sc) == NoteAll(Seen(opts[next..]), noted)
      else
        Overrun(s) == s && NoteAll(Seen(s), sc) == noted
  {
    hide Note;
    var s, next := opts[i..], i + 2 + opts[i + 1];
    if next <= |opts| {
      hide Decode, Overrun;
      FirstOption(s);
      assert opts[next..] == s[2 + s[1]..] && ValueAt(opts, i) == First(s).value;
      assert Seen(s)[1..] == Seen(opts[next..]);
    } else {
      assert ValueAt(opts, i) == s[2..];
      assert Seen(s) == [Opt(s[0], s[2..])] && Seen(s)[1..] == [];
    }
  }

  /** What a scanner returns that stands at offset i with sc noted so far. */
  function ScanFrom(opts: seq<byte>, i: nat, sc: Scanned): Scanned {
    if i <= |opts| then NoteAll(Seen(opts[i..]), sc) else sc
  }

  function FoundFrom(opts: seq<byte>, i: nat, starts: seq<nat>): seq<nat> {
    starts + ScanStarts(opts, i)
  }

  /** One round of the loop over an option. */
  lemma ScanRound(opts: seq<byte>, i: nat, sc: Scanned, starts: seq<nat>)
    requires i + 1 < |opts| && opts[i] != PAD && opts[i] != END
    ensures
      var next := i + 2 + opts[i + 1];
      && ScanFrom(opts, i, sc) == ScanFrom(opts, next, Note(sc, Opt(opts[i], ValueAt(opts, i))))
      && FoundFrom(opts, i, starts) == FoundFrom(opts, next, starts + [i])
      && Overrun(opts[i..]) == if next <= |opts| then Overrun(opts[next..]) else opts[i..]
  {
    hide Seen, NoteAll, Note, Overrun, ValueAt;
    ScanOption(opts, i, sc);
  }

  lemma ScanPadRound(opts: seq<byte>, i: nat, sc: Scanned, starts: seq<nat>)
    requires i < |opts| && opts[i] == PAD
    ensures ScanFrom(opts, i, sc) == ScanFrom(opts, i + 1, sc)
    ensures FoundFrom(opts, i, starts) == FoundFrom(opts, i + 1, starts)
    ensures Overrun(opts[i..]) == Overrun(opts[i + 1..])
  {
    hide Seen, NoteAll, Overrun;
    ScanPad(opts, i);
  }

  lemma ScanLastRound(opts: seq<byte>, i: nat, sc: Scanned, starts: seq<nat>)
    requires i >= |opts| || opts[i] == END || (i + 1 == |opts| && opts[i] != PAD)
    ensures ScanFrom(opts, i, sc) == sc && FoundFrom(opts, i, starts) == starts
  {
    hide Seen, NoteAll;
    if i <= |opts| {
      ScanEnds(opts[i..], sc);
    }
  }

  lemma WholeScan(opts: seq<byte>, sc: Scanned)
    ensures ScanFrom(opts, 0, sc) == NoteAll(Seen(opts), sc)
    ensures FoundFrom(opts, 0, []) == ScanStarts(opts, 0)
  {
    assert opts[0..] == opts;
  }

  lemma ScanPad(opts: seq<byte>, i: nat)
    requires i < |opts| && opts[i] == PAD
    ensures Overrun(opts[i..]) == Overrun(opts[i + 1..])
    ensures Seen(opts[i..]) == Seen(opts[i + 1..])
  {
    assert opts[i..][1..] == opts[i + 1..];
  }

  lemma ScanEnds(s: seq<byte>, sc: Scanned)
    requires s == [] || s[0] == END || (|s| == 1 && s[0] != PAD)
    ensures NoteAll(Seen(s), sc) == sc
  {
  }

  /** The tests on one option, whose value starts at i + 2 and may reach past the area. */
  method NoteOption(sc0: Scanned, opts: seq<byte>, i: nat, olen: byte) returns (sc: Scanned)
    requires i + 2 <= |opts| && olen == opts[i + 1]
    requires opts[i] == MSG_TYPE && olen >= 1 ==> i + 2 < |opts|
    requires opts[i] == SERVER_ID && olen >= 4 ==> i + 6 <= |opts|
    ensures sc == Note(sc0, Opt(opts[i], ValueAt(opts, i)))
  {
    sc := sc0;
    if opts[i] == MSG_TYPE && olen >= 1 {
      sc := sc.(msgType := opts[i + 2]);
    }
    if opts[i] == SERVER_ID && olen >= 4 {
      sc := sc.(server := opts[i + 2..i + 6]);
    }
  }

  /** Where the scanners find options from offset i on. */
  function ScanStarts(s: seq<byte>, i: nat): (p: seq<nat>)
    ensures forall k :: 0 <= k < |p| ==> p[k] + 1 < |s|
    decreases |s| - i
  {
    if i >= |s| || s[i] == END then []
    else if s[i] == PAD then ScanStarts(s, i + 1)
    else if i + 1 >= |s| then []
    else [i] + ScanStarts(s, i + 2 + s[i + 1])
  }

  lemma NoteType(opts: seq<byte>, i: nat, sc: Scanned)
    requires i + 2 <= |opts|
    requires opts[i] == MSG_TYPE && opts[i + 1] >= 1 ==> i + 2 < |opts|
    ensures Note(sc, Opt(opts[i], ValueAt(opts, i))).msgType ==
            if opts[i] == MSG_TYPE && opts[i + 1] >= 1 then opts[i + 2] else sc.msgType
  {
  }

  /** The scan over an offer. */
  method ScanOptions(opts: seq<byte>, server: Ip) returns (sc: Scanned, ghost starts: seq<nat>)
    requires ScanInside(opts, true)
    ensures sc == NoteAll(Seen(opts), Scanned(0, server))
    ensures starts == ScanStarts(opts, 0)
  {
    hide Note, Seen, Overrun, NoteAll, ValueAt, ScanFrom, FoundFrom, ScanStarts;
    sc, starts := Scanned(0, server), [];
    var i := 0;
    assert opts[0..] == opts;
    while i < |opts|
      invariant 0 <= i && (i <= |opts| ==> Overrun(opts) == Overrun(opts[i..]))
      invariant ScanFrom(opts, 0, Scanned(0, server)) == ScanFrom(opts, i, sc)
      invariant FoundFrom(opts, 0, []) == FoundFrom(opts, i, starts)
      decreases |opts| - i
    {
      if opts[i] == END {
        break;
      }
      if opts[i] == PAD {
        ScanPadRound(opts, i, sc, starts);
        i := i + 1;
        continue;
      }
      if i + 1 >= |opts| {
        break;
      }
      var olen := opts[i + 1];
      ScanRound(opts, i, sc, starts);
      sc := NoteOption(sc, opts, i, olen);
      starts := starts + [i];
      i := i + 2 + olen;
    }
    ScanLastRound(opts, i, sc, starts);
    WholeScan(opts, Scanned(0, server));
  }

  /** The scan over an acknowledgement, which looks for the type only. */
  method ScanType(opts: seq<byte>) returns (msgType: nat, ghost starts: seq<nat>)
    requires ScanInside(opts, false)
    ensures msgType == TypeIn(opts)
    ensures starts == ScanStarts(opts, 0)
  {
    hide Note, Seen, Overrun, NoteAll, ValueAt, ScanFrom, FoundFrom, ScanStarts;
    msgType, starts := 0, [];
    ghost var sc := Scanned(0, Zeros(4));
    var i := 0;
    assert opts[0..] == opts;
    while i < |opts|
      invariant 0 <= i && (i <= |opts| ==> Overrun(opts) == Overrun(opts[i..]))
      invariant ScanFrom(opts, 0, Scanned(0, Zeros(4))) == ScanFrom(opts, i, sc) && sc.msgType == msgType
      invariant FoundFrom(opts, 0, []) == FoundFrom(opts, i, starts)
      decreases |opts| - i
    {
      if opts[i] == END {
        break;
      }
      if opts[i] == PAD {
        ScanPadRound(opts, i, sc, starts);
        i := i + 1;
        continue;
      }
      if i + 1 >= |opts| {
        break;
      }
      var olen := opts[i + 1];
      ScanRound(opts, i, sc, starts);
      NoteType(opts, i, sc);
      sc := Note(sc, Opt(opts[i], ValueAt(opts, i)));
      if opts[i] == MSG_TYPE && olen >= 1 {
        msgType := opts[i + 2];
      }
      starts := starts + [i];
      i := i + 2 + olen;
    }
    ScanLastRound(opts, i, sc, starts);
    WholeScan(opts, Scanned(0, Zeros(4)));
  }

  /** The message type that a scan finds. */
  function TypeIn(s: seq<byte>): nat {
    NoteAll(Seen(s), Scanned(0, Zeros(4))).msgType
  }

  predicate LastOf(code: byte, least: nat, opts: seq<Opt>, k: nat) {
    && k < |opts| && opts[k].code == code && |opts[k].value| >= least
    && NoneOf(code, least, opts[k + 1..])
  }

  predicate NoneOf(code: byte, least: nat, opts: seq<Opt>) {
    forall j :: 0 <= j < |opts| ==> !(opts[j].code == code && |opts[j].value| >= least)
  }

  /** A scan returns the type in the last option 53. */
  lemma {:induction false} ScanTakesLastType(opts: seq<Opt>, sc: Scanned, k: nat)
    requires LastOf(MSG_TYPE, 1, opts, k)
    ensures NoteAll(opts, sc).msgType == opts[k].value[0]
  {
    if k > 0 {
      ScanTakesLastType(opts[1..], Note(sc, opts[0]), k - 1);
    } else {
      ScanUntouched(opts[1..], Note(sc, opts[0]));
    }
  }

  /** A scan returns the server in the last option 54 that holds an address. */
  lemma {:induction false} ScanTakesLastServer(opts: seq<Opt>, sc: Scanned, k: nat)
    requires LastOf(SERVER_ID, 4, opts, k)
    ensures NoteAll(opts, sc).server == opts[k].value[..4]
  {
    if k > 0 {
      ScanTakesLastServer(opts[1..], Note(sc, opts[0]), k - 1);
    } else {
      ScanUntouched(opts[1..], Note(sc, opts[0]));
    }
  }

  lemma {:induction false} ScanUntouched(opts: seq<Opt>, sc: Scanned)
    ensures NoneOf(MSG_TYPE, 1, opts) ==> NoteAll(opts, sc).msgType == sc.msgType
    ensures NoneOf(SERVER_ID, 4, opts) ==> NoteAll(opts, sc).server == sc.server
  {
    if opts != [] {
      ScanUntouched(opts[1..], Note(sc, opts[0]));
      assert NoneOf(MSG_TYPE, 1, opts) ==>
               NoneOf(MSG_TYPE, 1, opts[1..]) && !(opts[0].code == MSG_TYPE && |opts[0].value| >= 1);
      assert NoneOf(SERVER_ID, 4, opts) ==>
               NoneOf(SERVER_ID, 4, opts[1..]) && !(opts[0].code == SERVER_ID && |opts[0].value| >= 4);
    }
  }

  lemma {:induction false} NotesIndependent(opts: seq<Opt>, t: nat, a: Ip, b: Ip)
    ensures NoteAll(opts, Scanned(t, a)).msgType == NoteAll(opts, Scanned(t, b)).msgType
  {
    if opts != [] {
      var x, y := Note(Scanned(t, a), opts[0]), Note(Scanned(t, b), opts[0]);
      NotesIndependent(opts[1..], x.msgType, x.server, y.server);
    }
  }

  // ---- What the loops agree on ----

  predicate ValueFits(s: seq<byte>, p: nat)
    requires p + 1 < |s|
  {
    p + 2 + s[p + 1] <= |s|
  }

  function OptionAt(s: seq<byte>, p: nat): Opt
    requires p + 1 < |s| && ValueFits(s, p)
  {
    Opt(s[p], s[p + 2..p + 2 + s[p + 1]])
  }

  predicate AllFit(s: seq<byte>, p: seq<nat>) {
    forall k :: 0 <= k < |p| ==> p[k] + 1 < |s| && ValueFits(s, p[k])
  }

  /** The options are those that stand at the offsets. */
  predicate StandAt(s: seq<byte>, opts: seq<Opt>, p: seq<nat>) {
    |opts| == |p| && AllFit(s, p) && forall k :: 0 <= k < |p| ==> opts[k] == OptionAt(s, p[k])
  }

  lemma FitCons(s: seq<byte>, i: nat, p: seq<nat>)
    requires i + 1 < |s|
    ensures AllFit(s, [i] + p) <==> ValueFits(s, i) && AllFit(s, p)
  {
    var q := [i] + p;
    assert q[0] == i && forall k :: 0 <= k < |p| ==> q[k + 1] == p[k];
  }

  lemma StandCons(s: seq<byte>, i: nat, opts: seq<Opt>, p: seq<nat>)
    requires i + 1 < |s| && ValueFits(s, i) && StandAt(s, opts, p)
    ensures StandAt(s, [OptionAt(s, i)] + opts, [i] + p)
  {
  }

  lemma ConsPrefix(i: nat, p: seq<nat>, q: seq<nat>)
    ensures [i] + p == [i] + q <==> p == q
    ensures p <= q ==> [i] + p <= [i] + q
  {
    assert ([i] + p)[1..] == p && ([i] + q)[1..] == q;
  }

  /** The scanners and dhcp_parse_options find options at the same offsets if and only if every
      value that the scanners come to fits; otherwise the scanners find just one more. */
  lemma {:induction false} StartsAgree(s: seq<byte>, i: nat)
    ensures
      var scanned, parsed := ScanStarts(s, i), ParseStarts(s, i);
      && (scanned == parsed <==> AllFit(s, scanned))
      && (scanned != parsed ==> |scanned| == |parsed| + 1 && parsed <= scanned)
    decreases |s| - i
  {
    hide AllFit;
    assert AllFit(s, []) by { NoneFits(s); }
    if i < |s| && s[i] == PAD {
      StartsAgree(s, i + 1);
    } else if i + 1 < |s| && s[i] != END {
      var next := i + 2 + s[i + 1];
      FitCons(s, i, ScanStarts(s, next));
      if next <= |s| {
        StartsAgree(s, next);
        ConsPrefix(i, ParseStarts(s, next), ScanStarts(s, next));
      } else {
        assert ScanStarts(s, next) == [];
      }
    }
  }

  lemma NoneFits(s: seq<byte>)
    ensures AllFit(s, [])
  {
  }

  /** What is decoded is what stands at those offsets, and a value is cut short exactly if the
      scanners come to one that does not fit. */
  lemma {:induction false} DecodedAtStarts(s: seq<byte>, i: nat)
    requires i <= |s|
    ensures StandAt(s, Decode(s[i..]), ParseStarts(s, i))
    ensures Overrun(s[i..]) == [] <==> ScanStarts(s, i) == ParseStarts(s, i)
    decreases |s| - i
  {
    hide Decode, Overrun, StandAt;
    if i < |s| && s[i] == PAD {
      DecodedAtStarts(s, i + 1);
      PadAt(s, i);
    } else if OptionFits(s[i..]) {
      var next := i + 2 + s[i + 1];
      DecodedAtStarts(s, next);
      OptionDecodedAt(s, i);
      StandCons(s, i, Decode(s[next..]), ParseStarts(s, next));
      ConsPrefix(i, ScanStarts(s, next), ParseStarts(s, next));
    } else {
      NoOptionAt(s, i);
    }
  }

  lemma PadAt(s: seq<byte>, i: nat)
    requires i < |s| && s[i] == PAD
    ensures Decode(s[i..]) == Decode(s[i + 1..]) && Overrun(s[i..]) == Overrun(s[i + 1..])
  {
    assert s[i..][1..] == s[i + 1..];
  }

  lemma OptionDecodedAt(s: seq<byte>, i: nat)
    requires i <= |s| && OptionFits(s[i..])
    ensures
      var next := i + 2 + s[i + 1];
      Decode(s[i..]) == [OptionAt(s, i)] + Decode(s[next..]) && Overrun(s[i..]) == Overrun(s[next..])
  {
    hide Decode, Overrun;
    var rest, next := s[i..], i + 2 + s[i + 1];
    FirstOption(rest);
    assert rest[2 + rest[1]..] == s[next..] && First(rest) == OptionAt(s, i);
  }

  lemma NoOptionAt(s: seq<byte>, i: nat)
    requires i <= |s| && (i < |s| ==> s[i] != PAD) && !OptionFits(s[i..])
    ensures StandAt(s, Decode(s[i..]), ParseStarts(s, i))
    ensures Overrun(s[i..]) == [] <==> ScanStarts(s, i) == ParseStarts(s, i)
  {
  }

  // ---- Areas as a server builds them ----

  /** An option behind any number of pad bytes. */
  datatype Padded = Padded(pads: nat, opt: Opt)

  predicate Encodable(o: Opt) {
    o.code != PAD && o.code != END && |o.value| < 256
  }

  predicate AllEncodable(items: seq<Padded>) {
    forall it :: it in items ==> Encodable(it.opt)
  }

  function Tlv(o: Opt): seq<byte>
    requires Encodable(o)
  {
    [o.code, |o.value|] + o.value
  }

  function EncodeOptions(items: seq<Padded>): seq<byte>
    requires AllEncodable(items)
  {
    if items == [] then [] else Zeros(items[0].pads) + (Tlv(items[0].opt) + EncodeOptions(items[1..]))
  }

  /** The options, more pad bytes, the end marker, and anything behind it. */
  function Area(items: seq<Padded>, pads: nat, tail: seq<byte>): seq<byte>
    requires AllEncodable(items)
  {
    EncodeOptions(items) + (Zeros(pads) + ([END] + tail))
  }

  function OptsOf(items: seq<Padded>): (opts: seq<Opt>)
    ensures |opts| == |items|
  {
    if items == [] then [] else [items[0].opt] + OptsOf(items[1..])
  }

  lemma DecodeEnd(s: seq<byte>)
    requires s != [] && s[0] == END
    ensures Decode(s) == [] && Overrun(s) == []
  {
  }

  lemma DecodeAfter(tlv: seq<byte>, rest: seq<byte>)
    requires OptionFits(tlv) && |tlv| - 2 == tlv[1]
    ensures Decode(tlv + rest) == [Opt(tlv[0], tlv[2..])] + Decode(rest)
    ensures Overrun(tlv + rest) == Overrun(rest)
  {
    var s := tlv + rest;
    assert s[2 + s[1]..] == rest && First(s).value == tlv[2..];
  }

  lemma {:induction false} DecodePads(n: nat, rest: seq<byte>)
    ensures Decode(Zeros(n) + rest) == Decode(rest) && Overrun(Zeros(n) + rest) == Overrun(rest)
  {
    if n == 0 {
      assert Zeros(n) + rest == rest;
    } else {
      DecodePads(n - 1, rest);
      assert (Zeros(n) + rest)[1..] == Zeros(n - 1) + rest;
    }
  }

  /** Round trip: whatever list of options a server encodes, with pads wherever it likes and any
      bytes behind the end marker, all three loops find exactly that list. */
  lemma {:induction false} DecodeUndoesEncode(items: seq<Padded>, pads: nat, tail: seq<byte>)
    requires AllEncodable(items)
    ensures var area := Area(items, pads, tail);
      Decode(area) == Seen(area) == OptsOf(items) && Overrun(area) == []
  {
    hide Decode, Overrun;
    var area := Area(items, pads, tail);
    if items == [] {
      assert area == Zeros(pads) + ([END] + tail);
      DecodePads(pads, [END] + tail);
      DecodeEnd([END] + tail);
    } else {
      var it, tlv, rest := items[0], Tlv(items[0].opt), Area(items[1..], pads, tail);
      assert it in items;
      assert area == Zeros(it.pads) + (tlv + rest);
      DecodePads(it.pads, tlv + rest);
      assert tlv[2..] == it.opt.value;
      DecodeAfter(tlv, rest);
      DecodeUndoesEncode(items[1..], pads, tail);
    }
  }
}

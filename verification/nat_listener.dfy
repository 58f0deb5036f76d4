/** How IPACM_ConntrackListener.cpp routes conntrack events and WAN events to the NAT cache. */
module ConntrackListener {
  import opened NatModel
  import opened NatSteps
  import opened NatSnapshots
  import opened NatApplication
  import opened StaClients
  import opened NatTheorems

  const MAX_IFACE_ADDRESS := 50
  const TCP := 6
  const UDP := 17

  datatype TcpState = Established | FinWait | OtherState
  datatype MsgType = New | Update | Destroy

  /** A conntrack event after PopulateTCPorUDPEntry; the public address is not filled in yet. */
  datatype Event = Event(rule: Entry, tcpState: TcpState, kind: MsgType)

  /** What is to be done with an event's connection: nothing, or its final form and whether it has to wait. */
  datatype Routing = Ignored | Routed(rule: Entry, isTemp: bool)

  /** One of the recorded addresses is an end of the connection; 0 marks an empty place. */
  predicate Matches(addresses: seq<int>, t: Tuple) {
    exists i :: 0 <= i < |addresses| && addresses[i] != 0 && (t.privateIp == addresses[i] || t.targetIp == addresses[i])
  }

  /** The form in which a connection that bypasses the NAT is stored. */
  function Dummy(rule: Entry): Entry {
    rule.(tuple := rule.tuple.(privateIp := rule.publicIp, privatePort := rule.publicPort))
  }

  /** What the listener knows when it routes a connection: the WAN address, the addresses of the interfaces behind
      the NAT and of the others, the STA-mode clients, and in passthrough mode the address that IPACM_Wan
      reports. */
  datatype Network = Network(wanIp: int, isSta: bool, natAddrs: seq<int>, nonNatAddrs: seq<int>, sta: Sta,
                             passthrough: bool, reportedIp: int, isPrivate: int -> bool)

  function RouteIface(rule: Entry, net: Network): Routing {
    if net.passthrough && rule.tuple.privateIp == net.reportedIp then Routed(rule, false)
    else if Matches(net.natAddrs, rule.tuple) then Routed(rule, false)
    else if !net.isSta && Matches(net.nonNatAddrs, rule.tuple) then Routed(Dummy(rule), false)
    else if net.isPrivate(rule.tuple.privateIp) || net.isPrivate(rule.tuple.targetIp) then Routed(rule, true)
    else Ignored
  }

  /** Embedded connections, of the WAN address itself, get the public port as their private one. In STA mode a
      connection has to wait unless its target is a known client. */
  function Route(rule: Entry, net: Network): Routing {
    var r := rule.(publicIp := net.wanIp);
    var x :=
      if r.tuple.privateIp != net.wanIp then RouteIface(r, net)
      else if net.isSta then Ignored
      else Routed(r.(tuple := r.tuple.(privatePort := r.publicPort)), false);
    if x.Routed? && Waits(net.sta, net.isSta, x.rule.tuple.targetIp) then x.(isTemp := true) else x
  }

  /** Only a message without addresses can lead to a waiting connection without one: if the address 0 counts as
      private, or in passthrough mode while no WAN address is reported. */
  lemma BlankWaits(rule: Entry, net: Network)
    ensures var x := Route(rule, net);
      && (x.Routed? && x.isTemp ==> x.rule.publicIp == net.wanIp)
      && (x.Routed? && x.isTemp && IsBlank(x.rule) ==>
          IsBlank(rule) && (net.isPrivate(0) || (net.passthrough && net.reportedIp == 0)))
  {
  }

  predicate Opens(protocol: int, e: Event) {
    (protocol == TCP && e.tcpState.Established?) || (protocol == UDP && e.kind.New?)
  }

  predicate Closes(protocol: int, e: Event) {
    || (protocol == TCP && !e.tcpState.Established? && (e.tcpState.FinWait? || e.kind.Destroy?))
    || (protocol == UDP && e.kind.Destroy?)
  }

  /** Where a new connection goes. */
  datatype Door = ToCache | ToTemp | ToTable

  function DoorOf(wanUp: bool, isTemp: bool): Door {
    if !wanUp then ToCache else if isTemp then ToTemp else ToTable
  }

  /** A connection has opened. */
  ghost predicate Opened(n: Snapshot, n': Snapshot, rule: Entry, door: Door, alg: seq<(int, int)>) {
    match door
    case ToCache => n' == if Fits(n, rule) then Filled(n, Stored(rule, rule.publicIp, false, 0)) else n
    case ToTemp =>
      n' == if UsesAlg(rule.tuple, alg) || Cached(n.cache, rule.tuple) then n else n.(temp := TempAdd(n.temp, rule))
    case ToTable => Answered(n, n', rule, 0, alg) || Answered(n, n', rule, -1, alg)
  }

  /** In any case it was ignored, stored in the first free slot, or put in the temp table. */
  ghost predicate Grown(n: Snapshot, n': Snapshot, rule: Entry) {
    && n'.stuck == n.stuck && n'.leaked == n.leaked
    && (|| (n'.cache == n.cache && n'.count == n.count && n'.rules == n.rules
        && (n'.temp == n.temp || n'.temp == TempAdd(n.temp, rule)))
        || (var i := FirstFree(n.cache);
            && i < |n.cache| && |n'.cache| == |n.cache| && Complete(rule.tuple) && n'.temp == n.temp
            && n'.cache[i].tuple == rule.tuple && n'.cache == n.cache[i := n'.cache[i]] && n'.count == n.count + 1
            && n'.rules == (if n'.cache[i].enabled then n.rules[n'.cache[i].ruleHdl := RuleOf(rule)] else n.rules)
            && (n'.cache[i].enabled ==> n'.cache[i].ruleHdl !in n.rules)))
  }

  lemma OpenedGrows(n: Snapshot, n': Snapshot, rule: Entry, door: Door, alg: seq<(int, int)>)
    requires Opened(n, n', rule, door, alg)
    ensures Grown(n, n', rule)
  {
  }

  /** A connection has closed: its cache and temp entries are gone, and so is its rule if the driver deletes it. */
  ghost predicate Closed(n: Snapshot, n': Snapshot, t: Tuple) {
    && n'.hdl == n.hdl && n'.pre == n.pre && n'.pwr == n.pwr && n'.refused == n.refused
    && |n'.cache| == |n.cache|
    && (forall i :: 0 <= i < |n.cache| ==> n'.cache[i] == if n.cache[i].tuple == t then ZERO else n.cache[i])
    && n'.temp == TempDrop(n.temp, t)
    && n'.count == n.count - (if Cached(n.cache, t) then 1 else 0)
    && (t !in Active(n.cache) ==> n'.rules == n.rules && n'.stuck == n.stuck && n'.leaked == n.leaked)
    && (forall i :: 0 <= i < |n.cache| && n.cache[i].enabled && n.cache[i].tuple == t ==>
          DeletedOrStuck(n, n', n.cache[i].ruleHdl))
  }

  /** What AddORDeleteNatEntry does with an event. */
  ghost predicate Handled(rule: Entry, isTemp: bool, e: Event, n: Snapshot, n': Snapshot, wanUp: bool,
                          alg: seq<(int, int)>)
  {
    if Opens(rule.tuple.protocol, e) then Opened(n, n', rule, DoorOf(wanUp, isTemp), alg)
    else if Closes(rule.tuple.protocol, e) then Closed(n, n', rule.tuple)
    else n' == n
  }

  /** A connection without addresses gets a place in the temp table. */
  predicate PutsBlank(r: Routing, e: Event, n: Snapshot, wanUp: bool, alg: seq<(int, int)>) {
    && r.Routed? && r.isTemp && wanUp && Opens(r.rule.tuple.protocol, e) && IsBlank(r.rule)
    && !UsesAlg(r.rule.tuple, alg) && !Cached(n.cache, r.rule.tuple) && First(n.temp, IsBlank) < |n.temp|
  }

  lemma IgnoredTemp(r: Routing, e: Event, n: Snapshot, wanUp: bool, alg: seq<(int, int)>)
    ensures r.Ignored? ==> !PutsBlank(r, e, n, wanUp, alg)
  {
  }

  lemma PutsNothing(r: Routing, e: Event, n: Snapshot, alg: seq<(int, int)>)
    ensures !PutsBlank(r, e, n, false, alg)
  {
  }

  /** The temp table holds connections with an address only, until an event puts one without into it. */
  lemma HandledTemp(n: Snapshot, n': Snapshot, r: Routing, e: Event, wanUp: bool, alg: seq<(int, int)>)
    requires r.Routed? && r.rule.tuple.protocol != 0 && Handled(r.rule, r.isTemp, e, n, n', wanUp, alg)
    requires TempOk(n.temp)
    requires wanUp && r.isTemp ==> r.rule.publicIp != 0
    ensures TempOk(n'.temp) <==> !PutsBlank(r, e, n, wanUp, alg)
  {
    hide Fits, UsesAlg, Asleep, Complete;
    if Opens(r.rule.tuple.protocol, e) {
      hide Closed;
      if wanUp && r.isTemp && !UsesAlg(r.rule.tuple, alg) && !Cached(n.cache, r.rule.tuple) {
        WaitingTemp(n.temp, r.rule);
      }
    } else if Closes(r.rule.tuple.protocol, e) {
      TempDropOk(n.temp, r.rule.tuple);
    }
  }

  lemma WaitingTemp(temp: seq<Entry>, e: Entry)
    requires TempOk(temp) && e.publicIp != 0 && e.tuple.protocol != 0
    ensures TempOk(TempAdd(temp, e)) <==> !(IsBlank(e) && First(temp, IsBlank) < |temp|)
  {
    var i := First(temp, IsBlank);
    if IsBlank(e) && i < |temp| {
      assert !Cached(temp, e.tuple);
      assert TempAdd(temp, e)[i] == e && !WaitsOk(e);
    } else if !IsBlank(e) {
      TempAddOk(temp, e);
    }
  }

  /** A waiting connection without addresses counts for nothing: the next new one takes its place. */
  lemma BlankIsOverwritten(temp: seq<Entry>, blank: Entry, e: Entry)
    requires TempOk(temp) && IsBlank(blank) && !Cached(temp, blank.tuple)
    requires e.tuple != ZERO_TUPLE && !Cached(TempAdd(temp, blank), e.tuple)
    ensures TempAdd(TempAdd(temp, blank), e) == TempAdd(temp, e)
  {
    var i, t := First(temp, IsBlank), TempAdd(temp, blank);
    if i < |temp| {
      IsFirst(t, IsBlank, i);
      assert forall j :: 0 <= j < |temp| && j != i ==> t[j] == temp[j];
      assert forall j :: 0 <= j < |temp| ==> temp[j].tuple != e.tuple by {
        forall j | 0 <= j < |temp| && temp[j].tuple == e.tuple ensures j == i { if j != i { CachedAt(t, j); } }
      }
    }
  }

  predicate DeletedOrStuck(n: Snapshot, n': Snapshot, hdl: int) {
    if n'.stuck == n.stuck then n'.rules == n.rules - {hdl} && n'.leaked == n.leaked
    else n'.stuck == n.stuck + [hdl] && n'.rules == n.rules && n'.leaked == n.leaked + {hdl}
  }

  class Listener {
    const app: NatApp
    const natIfaces: array<int>
    const nonNatIfaces: array<int>
    const staClients: array<int>
    const isPrivateSubnet: int -> bool
    const passthrough: bool
    var wanUp: bool
    var isStaMode: bool
    var wanIp: int
    var staClntCnt: int

    ghost predicate Sound()
      reads this, staClients, app, app.driver, app.cache, app.temp, app.pwrSaveIfs
    {
      && app.Valid()
      && natIfaces.Length == nonNatIfaces.Length == MAX_IFACE_ADDRESS && staClients.Length == MAX_STA_CLNT_IFACES
      && staClients != natIfaces && staClients != nonNatIfaces && staClients != app.pwrSaveIfs
      && Counted(Sta(staClients[..], staClntCnt))
      && (wanUp ==> wanIp != 0)
    }

    /** Moreover the temp table holds nothing but connections with an address. */
    ghost predicate Valid()
      reads this, staClients, app, app.driver, app.cache, app.temp, app.pwrSaveIfs
    {
      Sound() && TempOk(app.temp[..])
    }

    ghost function Net(reportedIp: int): Network
      reads this, staClients, natIfaces, nonNatIfaces
    {
      Network(wanIp, isStaMode, natIfaces[..], nonNatIfaces[..], Sta(staClients[..], staClntCnt), passthrough,
        reportedIp, isPrivateSubnet)
    }

    constructor (app: NatApp, isPrivateSubnet: int -> bool, passthrough: bool)
      requires app.Valid() && TempOk(app.temp[..])
      ensures Valid() && this.app == app && !wanUp && !isStaMode && fresh(natIfaces) && fresh(nonNatIfaces)
      ensures fresh(staClients)
      ensures natIfaces[..] == nonNatIfaces[..] == seq(MAX_IFACE_ADDRESS, _ => 0)
      ensures Packed(Sta(staClients[..], staClntCnt)) && staClntCnt == 0
    {
      this.app, this.isPrivateSubnet, this.passthrough := app, isPrivateSubnet, passthrough;
      natIfaces := new int[MAX_IFACE_ADDRESS](_ => 0);
      nonNatIfaces := new int[MAX_IFACE_ADDRESS](_ => 0);
      staClients := new int[MAX_STA_CLNT_IFACES](_ => 0);
      wanUp, isStaMode, wanIp, staClntCnt := false, false, 0, 0;
      new;
      assert Listed(staClients[..]) == {};
    }

    method Match(addresses: array<int>, t: Tuple) returns (r: bool)
      ensures r <==> Matches(addresses[..], t)
    {
      var cnt := 0;
      while cnt < addresses.Length
        invariant 0 <= cnt <= addresses.Length
        invariant forall i :: 0 <= i < cnt ==>
          addresses[i] == 0 || (t.privateIp != addresses[i] && t.targetIp != addresses[i])
      {
        if addresses[cnt] != 0 {
          if t.privateIp == addresses[cnt] || t.targetIp == addresses[cnt] {
            assert addresses[..][cnt] == addresses[cnt];
            return true;
          }
        }
        cnt := cnt + 1;
      }
      return false;
    }

    method AddIface(rule: Entry, reportedIp: int) returns (add: bool, isTemp: bool, rule': Entry)
      ensures (if add then Routed(rule', isTemp) else Ignored) == RouteIface(rule, Net(reportedIp))
    {
      isTemp, rule' := false, rule;
      if passthrough {
        if rule.tuple.privateIp == reportedIp { return true, false, rule; }
      }
      var matched := Match(natIfaces, rule.tuple);
      if matched { return true, false, rule; }
      if !isStaMode {
        matched := Match(nonNatIfaces, rule.tuple);
        if matched { return true, false, Dummy(rule); }
      }
      if isPrivateSubnet(rule.tuple.privateIp) || isPrivateSubnet(rule.tuple.targetIp) { return true, true, rule; }
      return false, false, rule;
    }

    method CheckSTAClient(rule: Entry, isTemp: bool) returns (isTemp': bool)
      requires Sound()
      ensures isTemp' == (isTemp || Waits(Sta(staClients[..], staClntCnt), isStaMode, rule.tuple.targetIp))
    {
      if !isStaMode || staClntCnt == 0 { return isTemp; }
      if Subnet(staClients[0]) != Subnet(rule.tuple.targetIp) { return isTemp; }
      var cnt := 0;
      while cnt < staClntCnt
        invariant 0 <= cnt <= staClntCnt
        invariant rule.tuple.targetIp !in staClients[..cnt]
      {
        if rule.tuple.targetIp == staClients[cnt] {
          assert staClients[..staClntCnt][cnt] == rule.tuple.targetIp;
          return isTemp;
        }
        cnt := cnt + 1;
      }
      assert staClients[..][..staClntCnt] == staClients[..staClntCnt];
      return true;
    }

    /** Established or new connections are opened, finished ones closed. A TCP connection that is reported
        as destroyed while still established counts as established. */
    method AddOrDeleteNatEntry(rule: Entry, isTemp: bool, e: Event)
      requires Sound() && rule.tuple != ZERO_TUPLE
      modifies app, app.driver, app.cache, app.temp
      ensures Sound()
      ensures Handled(rule, isTemp, e, old(Snap(app)), Snap(app), wanUp, app.algPorts)
    {
      hide Opened, Closed, Complete;
      if rule.tuple.protocol == TCP {
        if e.tcpState.Established? {
          Open(rule, isTemp);
        } else if e.tcpState.FinWait? || e.kind.Destroy? {
          Close(rule);
        }
      } else if rule.tuple.protocol == UDP {
        if e.kind.New? {
          Open(rule, isTemp);
        } else if e.kind.Destroy? {
          Close(rule);
        }
      }
    }

    method Open(rule: Entry, isTemp: bool)
      requires Sound()
      modifies app, app.driver, app.cache, app.temp
      ensures Sound()
      ensures Opened(old(Snap(app)), Snap(app), rule, DoorOf(wanUp, isTemp), app.algPorts)
    {
      hide SlotsOk, HwOk, UsedSlots, Conns, Active, Cached, Distinct, Asleep, UsesAlg, TempOk, Counted, Answered;
      RoomLeft(app.cache[..]);
      if !wanUp {
        app.CacheEntry(rule);
      } else if isTemp {
        app.AddTempEntry(rule);
      } else {
        var ret := app.AddEntry(rule);
      }
    }

    method Close(rule: Entry)
      requires Sound() && rule.tuple != ZERO_TUPLE
      modifies app, app.driver, app.cache, app.temp
      ensures Sound()
      ensures Closed(old(Snap(app)), Snap(app), rule.tuple)
    {
      hide SlotsOk, HwOk, Conns, Active, Distinct, TempOk, Counted;
      ghost var n := Snap(app);
      var ret := app.DeleteEntry(rule);
      CountAfter(n.cache, app.cache[..], rule.tuple);
      app.DeleteTempEntry(rule);
    }

    /** ProcessTCPorUDPMsg, from the filled-in rule on. */
    method ProcessMsg(e: Event, reportedIp: int)
      requires Sound() && e.rule.tuple.protocol != 0
      modifies app, app.driver, app.cache, app.temp
      ensures Sound()
      ensures var r := Route(e.rule, Net(reportedIp));
        if r.Ignored? then Snap(app) == old(Snap(app))
        else Handled(r.rule, r.isTemp, e, old(Snap(app)), Snap(app), wanUp, app.algPorts)
      ensures old(Valid()) ==>
        (Valid() <==> !PutsBlank(Route(e.rule, Net(reportedIp)), e, old(Snap(app)), wanUp, app.algPorts))
    {
      hide Handled, Route, PutsBlank, TempOk, Counted;
      RouteSame(e.rule, e.rule, Net(reportedIp));
      BlankWaits(e.rule, Net(reportedIp));
      ghost var n, r := Snap(app), Route(e.rule, Net(reportedIp));
      var add, isTemp, rule := RouteMsg(e.rule, reportedIp);
      if add {
        AddOrDeleteNatEntry(rule, isTemp, e);
        if TempOk(n.temp) { HandledTemp(n, Snap(app), r, e, wanUp, app.algPorts); }
      } else {
        IgnoredTemp(r, e, n, wanUp, app.algPorts);
      }
    }

    method RouteMsg(msg: Entry, reportedIp: int) returns (add: bool, isTemp: bool, rule: Entry)
      requires Sound()
      ensures (if add then Routed(rule, isTemp) else Ignored) == Route(msg, Net(reportedIp))
    {
      hide Matches, Waits, TempOk, Counted, RouteIface;
      rule := msg.(publicIp := wanIp);
      isTemp := false;
      if rule.tuple.privateIp != wanIp {
        add, isTemp, rule := AddIface(rule, reportedIp);
        if !add { return; }
      } else {
        if isStaMode { return false, false, rule; }
        rule := rule.(tuple := rule.tuple.(privatePort := rule.publicPort));
      }
      isTemp := CheckSTAClient(rule, isTemp);
      add := true;
    }

    /** A connection that opens and closes, the events routed alike, leaves no trace: whichever table took it,
        cache, temp table and count are as before; and so is the hardware, exactly when the driver deletes the
        rule. */
    method OpenThenClose(opens: Event, closes: Event, reportedIp: int)
      requires Valid() && opens.rule.tuple == closes.rule.tuple && opens.rule.publicPort == closes.rule.publicPort
      requires opens.rule.tuple.protocol != 0
      requires Opens(opens.rule.tuple.protocol, opens) && Closes(closes.rule.tuple.protocol, closes)
      requires var r := Route(opens.rule, Net(reportedIp));
        r.Routed? ==> !Cached(app.cache[..], r.rule.tuple) && !Cached(app.temp[..], r.rule.tuple)
      modifies app, app.driver, app.cache, app.temp
      ensures Valid()
      ensures app.cache[..] == old(app.cache[..]) && app.temp[..] == old(app.temp[..]) && app.curCnt == old(app.curCnt)
      ensures app.driver.rules == old(app.driver.rules) <==> app.driver.stuck == old(app.driver.stuck)
      ensures app.driver.stuck == old(app.driver.stuck) ==> app.leaked == old(app.leaked)
    {
      hide Opened, Closed, Grown, Matches, Opens, Closes, Cached, Route, TempOk, Counted;
      ghost var n := Snap(app);
      SnapOk(app);
      ghost var net := Net(reportedIp);
      ghost var r := Route(opens.rule, net);
      RouteSame(opens.rule, closes.rule, net);
      ClosesNotOpens(closes.rule.tuple.protocol, closes);
      ProcessMsg(opens, reportedIp);
      ghost var n1 := Snap(app);
      assert Net(reportedIp) == net;
      ProcessMsg(closes, reportedIp);
      if r.Routed? {
        OpenedGrows(n, n1, r.rule, DoorOf(wanUp, r.isTemp), app.algPorts);
        OpenCloseRestores(n, n1, Snap(app), r.rule);
      }
    }

    // ---------- STA-mode clients ----------

    method HandleSTAClientAddEvt(ip: int) returns (ghost trace: seq<Snapshot>)
      requires Sound()
      modifies `staClntCnt, staClients, app, app.driver, app.cache, app.temp
      ensures Sound() && (old(Valid()) ==> Valid())
      ensures Sta(staClients[..], staClntCnt) == StaAdd(Sta(old(staClients[..]), old(staClntCnt)), ip)
      ensures if old(staClntCnt) >= MAX_STA_CLNT_IFACES then Snap(app) == old(Snap(app))
        else Flushes(trace, old(Snap(app)), Snap(app), Flush(ip, true, false, app.pubIpAddr), app.algPorts)
    {
      hide SlotsOk, HwOk, Ok, Distinct, TempOk, Flushes;
      ghost var s, n := Sta(staClients[..], staClntCnt), Snap(app);
      trace := [];
      AddKeepsCounted(s, ip);
      if staClntCnt >= MAX_STA_CLNT_IFACES { return; }
      EnterClient(ip);
      trace := app.FlushTempEntries(ip, true, false);
      if TempOk(n.temp) { FlushKeepsTempOk(trace, n, Snap(app), Flush(ip, true, false, app.pubIpAddr), app.algPorts); }
    }

    method EnterClient(ip: int)
      requires staClients.Length == MAX_STA_CLNT_IFACES && staClntCnt < MAX_STA_CLNT_IFACES
      modifies `staClntCnt, staClients
      ensures Sta(staClients[..], staClntCnt) == StaAdd(Sta(old(staClients[..]), old(staClntCnt)), ip)
    {
      ghost var list := staClients[..];
      var cnt := 0;
      while cnt < MAX_STA_CLNT_IFACES
        invariant 0 <= cnt <= MAX_STA_CLNT_IFACES
        invariant staClients[..] == list && staClntCnt == old(staClntCnt)
        invariant forall i :: 0 <= i < cnt ==> list[i] != 0 && list[i] != ip
      {
        if staClients[cnt] != 0 && staClients[cnt] == ip { break; }
        if staClients[cnt] == 0 {
          IsFirst(list, (x: int) => x == 0 || x == ip, cnt);
          staClients[cnt] := ip;
          staClntCnt := staClntCnt + 1;
          assert staClients[..] == list[cnt := ip];
          return;
        }
        cnt := cnt + 1;
      }
      IsFirst(list, (x: int) => x == 0 || x == ip, cnt);
    }

    /** The client's connections are forgotten, unless the driver fails to delete their rules. */
    method HandleSTAClientDelEvt(ip: int)
      requires Sound()
      modifies `staClntCnt, staClients, app, app.driver, app.cache, app.temp
      ensures Sound() && (old(Valid()) ==> Valid())
      ensures Sta(staClients[..], staClntCnt) == StaDel(Sta(old(staClients[..]), old(staClntCnt)), ip)
      ensures app.temp[..] == TempFlush(old(app.temp[..]), ip) && old(app.driver.stuck) <= app.driver.stuck
      ensures if ip != 0 && ip in old(staClients[..])
        then Dropping(old(app.cache[..]), app.cache[..], app.driver.stuck[|old(app.driver.stuck)|..], Targets(ip),
          Forget, app.cache.Length)
        else (
          && app.cache[..] == old(app.cache[..]) && app.driver.rules == old(app.driver.rules)
          && app.driver.stuck == old(app.driver.stuck))
    {
      hide SlotsOk, HwOk, Ok, Distinct, TempOk, Flushes, Dropping;
      DelKeepsCounted(Sta(staClients[..], staClntCnt), ip);
      ghost var temp := app.temp[..];
      LeaveClient(ip);
      ghost var n := Snap(app);
      ghost var trace := app.FlushTempEntries(ip, false, false);
      if TempOk(n.temp) { FlushKeepsTempOk(trace, n, Snap(app), Flush(ip, false, false, app.pubIpAddr), app.algPorts); }
      FlushAway(trace, n, Snap(app), Flush(ip, false, false, app.pubIpAddr), app.algPorts);
    }

    method LeaveClient(ip: int)
      requires app.Valid() && staClients.Length == MAX_STA_CLNT_IFACES && staClients != app.pwrSaveIfs
      modifies `staClntCnt, staClients, app, app.driver, app.cache
      ensures app.Valid() && Sta(staClients[..], staClntCnt) == StaDel(Sta(old(staClients[..]), old(staClntCnt)), ip)
      ensures old(app.driver.stuck) <= app.driver.stuck
      ensures if ip != 0 && ip in old(staClients[..])
        then Dropping(old(app.cache[..]), app.cache[..], app.driver.stuck[|old(app.driver.stuck)|..], Targets(ip),
          Forget, app.cache.Length)
        else Snap(app) == old(Snap(app))
    {
      hide SlotsOk, HwOk, Ok, Distinct, Dropping;
      ghost var list := staClients[..];
      var cnt := 0;
      while cnt < MAX_STA_CLNT_IFACES
        invariant 0 <= cnt <= MAX_STA_CLNT_IFACES
        invariant staClients[..] == list && staClntCnt == old(staClntCnt) && app.Valid() && Snap(app) == old(Snap(app))
        invariant forall i :: 0 <= i < cnt ==> list[i] == 0 || list[i] != ip
      {
        if staClients[cnt] != 0 && staClients[cnt] == ip {
          IsFirst(list, (x: int) => x != 0 && x == ip, cnt);
          staClients[cnt] := 0;
          assert staClients[..] == list[cnt := 0];
          var ret := app.DelEntriesOnSTAClntDiscon(ip);
          staClntCnt := staClntCnt - 1;
          return;
        }
        cnt := cnt + 1;
      }
      IsFirst(list, (x: int) => x != 0 && x == ip, cnt);
    }

    // ---------- WAN ----------

    method TriggerWanDown(ip: int) returns (ret: int)
      requires Sound()
      modifies `wanUp, app, app.driver, app.cache
      ensures Sound() && !wanUp && app.driver.refused == old(app.driver.refused)
      ensures ret == 0 ==>
        && app.natTableHdl == 0 && app.pubIpAddrPre == ip && app.driver.rules == map[]
        && Conns(app.cache[..]) == Conns(old(app.cache[..])) && Active(app.cache[..]) == {}
    {
      wanUp := false;
      ret := app.DeleteTable(ip);
    }

    method TriggerWanUp(ip: int, sta: bool) returns (ret: int)
      requires Sound()
      modifies `wanUp, `isStaMode, `wanIp, app, app.driver, app.cache
      ensures Sound() && old(app.driver.refused) <= app.driver.refused && app.leaked == old(app.leaked)
      ensures ip == 0 ==> ret == -1 && Snap(app) == old(Snap(app)) && wanUp == old(wanUp)
      ensures ip != 0 ==> wanUp && isStaMode == sta && wanIp == ip
      ensures ret == 0 ==> if ip == old(app.pubIpAddrPre)
        then Adding(old(app.cache[..]), app.cache[..], app.driver.refused[|old(app.driver.refused)|..], HasAddress,
          app.cache.Length)
        else app.cache[..] == old(app.cache[..]) && app.driver.rules == map[]
    {
      if ip == 0 { return -1; }
      wanUp, isStaMode, wanIp := true, sta, ip;
      ret := app.AddTable(ip);
    }

    /** The whole way through the listener: WAN down, any conntrack events, WAN up. With the old address the
        hardware then holds exactly one rule for each connection known by then that the driver accepts. */
    method WanFlap(ip: int, es: seq<Event>, newIp: int, sta: bool, reportedIp: int) returns (down: int, up: int)
      requires Valid() && forall i :: 0 <= i < |es| ==> es[i].rule.tuple.protocol != 0
      modifies `wanUp, `isStaMode, `wanIp, app, app.driver, app.cache, app.temp
      ensures Valid()
      ensures down == 0 && up == 0 ==>
        var ops := OpsOf(es, old(Net(reportedIp)));
        var known, conns := AfterOps(Conns(old(app.cache[..])), ops, app.cache.Length), Conns(app.cache[..]);
        && old(app.driver.refused) <= app.driver.refused
        && if newIp == ip then Restored(known, conns, app.driver.rules, app.driver.refused[|old(app.driver.refused)|..])
           else conns == known && app.driver.rules == map[]
    {
      hide Conns, Active, Adding, SlotsOk, HwOk, UsedSlots, Handled, OpOf, Distinct, Restored;
      up := -1;
      ghost var conns0, net := Conns(app.cache[..]), Net(reportedIp);
      down := TriggerWanDown(ip);
      if down != 0 { return; }
      var i := 0;
      while i < |es|
        invariant 0 <= i <= |es| && Valid() && !wanUp && Net(reportedIp) == net
        invariant app.natTableHdl == 0 && app.pubIpAddrPre == ip && app.driver.refused == old(app.driver.refused)
        invariant app.driver.rules == map[] && Active(app.cache[..]) == {}
        invariant Conns(app.cache[..]) == AfterOps(conns0, OpsOf(es[..i], net), app.cache.Length)
      {
        ProcessWhileDown(es[i], reportedIp);
        OpsOfNext(conns0, es, i, net, app.cache.Length);
        i := i + 1;
      }
      assert es[..i] == es;
      ghost var s1 := app.cache[..];
      NoRulesNoneLive(s1, app.leaked);
      up := TriggerWanUp(newIp, sta);
      if up == 0 && newIp == ip { RestoredBy(app, s1, app.driver.refused[|old(app.driver.refused)|..]); }
    }

    method ProcessWhileDown(e: Event, reportedIp: int)
      requires Valid() && !wanUp && e.rule.tuple.protocol != 0 && app.driver.rules == map[]
      requires Active(app.cache[..]) == {}
      modifies app, app.driver, app.cache, app.temp
      ensures Valid() && app.driver.rules == map[] && Active(app.cache[..]) == {}
      ensures Net(reportedIp) == old(Net(reportedIp))
      ensures app.natTableHdl == old(app.natTableHdl) && app.pubIpAddrPre == old(app.pubIpAddrPre)
      ensures app.driver.refused == old(app.driver.refused)
      ensures Conns(app.cache[..]) == AfterOps(Conns(old(app.cache[..])), OpOf(e, Net(reportedIp)), app.cache.Length)
    {
      hide Conns, Active, SlotsOk, HwOk, UsedSlots, Handled, Distinct, Route, TempOk, Counted;
      PutsNothing(Route(e.rule, Net(reportedIp)), e, Snap(app), app.algPorts);
      ghost var n, net := Snap(app), Net(reportedIp);
      SnapOk(app);
      ProcessMsg(e, reportedIp);
      SnapOk(app);
      RouteSame(e.rule, e.rule, net);
      ghost var r := Route(e.rule, net);
      if r.Routed? { DownStep(n, Snap(app), e, r, app.algPorts); }
      OneOp(Conns(n.cache), e, r, app.cache.Length);
    }
  }

  /** What an event amounts to while the WAN is down. */
  function OpOf(e: Event, net: Network): seq<Op> { RoutedOp(e, Route(e.rule, net)) }

  function RoutedOp(e: Event, r: Routing): seq<Op> {
    if r.Ignored? then []
    else if Opens(r.rule.tuple.protocol, e) then [Cache(r.rule)]
    else if Closes(r.rule.tuple.protocol, e) then [Op.Close(r.rule)]
    else []
  }

  function OpsOf(es: seq<Event>, net: Network): seq<Op> {
    if es == [] then []
    else
      var n := |es| - 1;
      OpsOf(es[..n], net) + OpOf(es[n], net)
  }

  lemma OpsOfNext(conns: map<Tuple, Conn>, es: seq<Event>, i: nat, net: Network, max: nat)
    requires i < |es|
    ensures AfterOps(conns, OpsOf(es[..i + 1], net), max) ==
      AfterOps(AfterOps(conns, OpsOf(es[..i], net), max), OpOf(es[i], net), max)
  {
    hide OpOf;
    assert es[..i + 1][..i] == es[..i];
    AfterOpsConcat(conns, OpsOf(es[..i], net), OpOf(es[i], net), max);
  }

  lemma {:induction false} AfterOpsConcat(conns: map<Tuple, Conn>, a: seq<Op>, b: seq<Op>, max: nat)
    ensures AfterOps(conns, a + b, max) == AfterOps(AfterOps(conns, a, max), b, max)
    decreases |b|
  {
    if b == [] {
      assert a + b == a;
    } else {
      assert (a + b)[..|a + b| - 1] == a + b[..|b| - 1];
      AfterOpsConcat(conns, a, b[..|b| - 1], max);
    }
  }

  lemma OneOp(conns: map<Tuple, Conn>, e: Event, r: Routing, max: nat)
    ensures AfterOps(conns, RoutedOp(e, r), max) ==
      if RoutedOp(e, r) == [] then conns else AfterOp(conns, RoutedOp(e, r)[0], max)
  {
    assert RoutedOp(e, r) != [] ==> RoutedOp(e, r)[..0] == [];
  }

  lemma SnapOk(app: NatApp)
    requires app.Valid()
    ensures SlotsOk(Snap(app).cache) && Snap(app).count == |UsedSlots(Snap(app).cache)|
  {
  }

  /** An event while there is no WAN does to the cache what it amounts to, and nothing to the hardware. */
  lemma DownStep(n: Snapshot, n': Snapshot, e: Event, r: Routing, alg: seq<(int, int)>)
    requires r.Routed? && r.rule.tuple.protocol != 0 && Handled(r.rule, r.isTemp, e, n, n', false, alg)
    requires SlotsOk(n.cache) && n.count == |UsedSlots(n.cache)| && Active(n.cache) == {} && SlotsOk(n'.cache)
    ensures Conns(n'.cache) ==
      if RoutedOp(e, r) == [] then Conns(n.cache) else AfterOp(Conns(n.cache), RoutedOp(e, r)[0], |n.cache|)
    ensures Active(n'.cache) == {} && n'.rules == n.rules && n'.refused == n.refused && n'.hdl == n.hdl
    ensures n'.pre == n.pre
    ensures |n'.cache| == |n.cache|
  {
    var rule := r.rule;
    if Opens(rule.tuple.protocol, e) {
      hide Closed;
      DownOpen(n, rule);
    } else if Closes(rule.tuple.protocol, e) {
      hide Opened;
      DownClose(n.cache, n'.cache, rule.tuple);
    }
  }

  lemma DownOpen(n: Snapshot, rule: Entry)
    requires SlotsOk(n.cache) && n.count == |UsedSlots(n.cache)| && rule.tuple.protocol != 0
    ensures var s' := if Fits(n, rule) then Filled(n, Stored(rule, rule.publicIp, false, 0)).cache else n.cache;
      && SlotsOk(s') && Conns(s') == AfterOp(Conns(n.cache), Cache(rule), |n.cache|)
      && Active(s') == Active(n.cache)
  {
    var s := n.cache;
    RoomLeft(s);
    CountIsConns(s);
    CachedIsKnown(s, rule.tuple);
    hide SlotsOk, Conns, UsedSlots, Active;
    if Fits(n, rule) {
      var i, e := FirstFree(s), Stored(rule, rule.publicIp, false, 0);
      NotIn(s, rule.tuple);
      FillSlot(s, i, e);
      FillActive(s, i, e);
    }
  }

  lemma DownClose(s: seq<Entry>, s': seq<Entry>, t: Tuple)
    requires SlotsOk(s) && |s'| == |s| && t != ZERO_TUPLE
    requires forall i :: 0 <= i < |s| ==> s'[i] == if s[i].tuple == t then ZERO else s[i]
    ensures SlotsOk(s') && Conns(s') == Conns(s) - {t} && Active(s') == Active(s) - {t}
  {
    if i :| 0 <= i < |s| && s[i].tuple == t {
      OnlyMatch(s, i);
      assert s' == s[i := ZERO];
      assert Used(s, i);
      hide Conns, Active;
      ClearSlot(s, i);
      DisableActive(s, i, ZERO);
    } else {
      assert s' == s;
      NotCached(s, t);
    }
  }

  /** Of the known connections those are left whose rules were not refused, and their rules are the hardware. */
  ghost predicate Restored(known: map<Tuple, Conn>, conns: map<Tuple, Conn>, rules: map<int, HwRule>,
                           refused: seq<HwRule>)
  {
    && (forall t :: t in conns <==> t in known && HwRule(t, known[t].publicPort) !in refused)
    && (forall t :: t in conns ==> conns[t] == known[t])
    && rules.Values == Rules(conns, conns.Keys) && |rules| == |conns|
  }

  lemma RestoredBy(app: NatApp, s: seq<Entry>, refused: seq<HwRule>)
    requires app.Valid() && app.leaked == {} && SlotsOk(s) && |s| == app.cache.Length
    requires Adding(s, app.cache[..], refused, HasAddress, app.cache.Length)
    ensures Restored(Conns(s), Conns(app.cache[..]), app.driver.rules, refused)
  {
    hide Adding, Conns, Active;
    AddingAll(s, app.cache[..], refused);
    HardwareIsActive(app.cache[..], app.driver.rules);
    KeysCount(Conns(app.cache[..]));
  }

  /** The route depends on the tuple and the public port only. */
  lemma RouteSame(r: Entry, r2: Entry, net: Network)
    requires r.tuple == r2.tuple && r.publicPort == r2.publicPort
    ensures var x, y := Route(r, net), Route(r2, net);
      && x.Routed? == y.Routed?
      && (x.Routed? ==>
          x.rule.tuple == y.rule.tuple && x.isTemp == y.isTemp && x.rule.tuple.protocol == r.tuple.protocol)
  {
    hide Matches, Waits;
  }

  lemma ClosesNotOpens(protocol: int, e: Event)
    requires Closes(protocol, e)
    ensures !Opens(protocol, e)
  {
  }

  lemma CountAfter(s: seq<Entry>, s': seq<Entry>, t: Tuple)
    requires SlotsOk(s) && |s'| == |s| && t != ZERO_TUPLE
    requires forall i :: 0 <= i < |s| ==> s'[i] == if s[i].tuple == t then ZERO else s[i]
    ensures |UsedSlots(s')| == |UsedSlots(s)| - if Cached(s, t) then 1 else 0
  {
    if i :| 0 <= i < |s| && s[i].tuple == t {
      assert Used(s, i);
      ClearSlot(s, i);
      OnlyMatch(s, i);
      assert s' == s[i := ZERO];
    } else {
      assert s' == s;
    }
  }

  lemma NotCachedNotActive(s: seq<Entry>, t: Tuple)
    requires !Cached(s, t)
    ensures t !in Active(s)
  {
  }

  lemma OpenCloseCache(n: Snapshot, n1: Snapshot, n2: Snapshot, rule: Entry)
    requires SlotsOk(n.cache) && !Cached(n.cache, rule.tuple)
    requires Grown(n, n1, rule) && Closed(n1, n2, rule.tuple)
    ensures n2.cache == n.cache && n2.count == n.count
  {
    if n1.cache != n.cache {
      CachedAt(n1.cache, FirstFree(n.cache));
      assert n.cache[FirstFree(n.cache)] == ZERO;
    }
  }

  lemma OpenCloseRules(n: Snapshot, n1: Snapshot, n2: Snapshot, rule: Entry)
    requires !Cached(n.cache, rule.tuple)
    requires Grown(n, n1, rule) && Closed(n1, n2, rule.tuple)
    ensures n2.rules == n.rules <==> n2.stuck == n.stuck
    ensures n2.stuck == n.stuck ==> n2.leaked == n.leaked
  {
    NotCachedNotActive(n.cache, rule.tuple);
    if n1.cache != n.cache {
      var i := FirstFree(n.cache);
      if n1.cache[i].enabled {
        var h := n1.cache[i].ruleHdl;
        assert DeletedOrStuck(n1, n2, h);
        assert n.rules[h := RuleOf(rule)] - {h} == n.rules;
      } else {
        assert rule.tuple !in Active(n1.cache);
      }
    }
  }

  /** Opening and closing a connection that was not there before. */
  lemma OpenCloseRestores(n: Snapshot, n1: Snapshot, n2: Snapshot, rule: Entry)
    requires SlotsOk(n.cache) && !Cached(n.cache, rule.tuple) && TempOk(n.temp) && !Cached(n.temp, rule.tuple)
    requires Grown(n, n1, rule) && Closed(n1, n2, rule.tuple)
    ensures n2.cache == n.cache && n2.temp == n.temp && n2.count == n.count
    ensures n2.rules == n.rules <==> n2.stuck == n.stuck
    ensures n2.stuck == n.stuck ==> n2.leaked == n.leaked
  {
    OpenCloseCache(n, n1, n2, rule);
    OpenCloseRules(n, n1, n2, rule);
    TempUntouched(n.temp, rule.tuple);
    TempRestored(n.temp, rule);
  }
}

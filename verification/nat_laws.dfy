/** What the NAT cache and its listener do, in the fields of connections, events and addresses themselves. */
module NatLaws {
  import opened NatModel
  import opened NatSteps
  import opened NatSnapshots
  import opened NatApplication
  import opened NatTheorems
  import opened NatWaiting
  import opened StaClients
  import opened ConntrackListener

  // ---------- One connection ----------

  predicate Whole(t: Tuple) {
    t.privateIp != 0 && t.targetIp != 0 && t.privatePort != 0 && t.targetPort != 0 && t.protocol != 0
  }

  predicate NoAlg(t: Tuple, alg: seq<(int, int)>) {
    (t.protocol, t.privatePort) !in alg && (t.protocol, t.targetPort) !in alg
  }

  /** Both ends are out of power save. */
  predicate BothAwake(t: Tuple, pwr: seq<int>) { t.privateIp !in pwr && t.targetIp !in pwr }

  ghost predicate Tidy(n: Snapshot) { SlotsOk(n.cache) && n.count == |UsedSlots(n.cache)| }

  /** Nothing speaks against storing the connection: it has all its fields, it is new, and there is room. */
  ghost predicate Storable(n: Snapshot, t: Tuple)
    requires SlotsOk(n.cache)
  {
    Whole(t) && t !in Conns(n.cache) && n.count < |n.cache|
  }

  /** A connection is added: known and installed afterwards, or only known while one of its ends sleeps. What the driver
      refuses, what has no table, uses an ALG port or cannot be stored changes nothing else. */
  ghost predicate Installs(n: Snapshot, n': Snapshot, rule: Entry, ret: int, alg: seq<(int, int)>)
    requires SlotsOk(n.cache) && SlotsOk(n'.cache)
  {
    var t := rule.tuple;
    if n.hdl == 0 || !NoAlg(t, alg) then n' == n && ret == -1
    else if !Storable(n, t) then n' == n && ret == (if Whole(t) then -1 else 0)
    else if !BothAwake(t, n.pwr) then
      && ret == 0 && Conns(n'.cache) == Conns(n.cache)[t := Conn(0, rule.publicPort, rule.dstNat, 0)]
      && Active(n'.cache) == Active(n.cache) && n'.rules == n.rules && n'.refused == n.refused && n'.temp == n.temp
    else if n'.refused == n.refused then
      && ret == 0 && Conns(n'.cache) == Conns(n.cache)[t := Conn(0, rule.publicPort, rule.dstNat, 0)]
      && Active(n'.cache) == Active(n.cache) + {t} && n'.temp == n.temp
      && exists h :: h !in n.rules && n'.rules == n.rules[h := HwRule(t, rule.publicPort)]
    else
      ret == -1 && n' == n.(refused := n.refused + [HwRule(t, rule.publicPort)])
  }

  lemma StorableFits(n: Snapshot, rule: Entry)
    requires Tidy(n)
    ensures Fits(n, rule) <==> Storable(n, rule.tuple)
  {
    RoomLeft(n.cache);
    if Whole(rule.tuple) { KnownIsCached(n.cache, rule.tuple); }
  }

  lemma FilledWith(n: Snapshot, e: Entry)
    requires SlotsOk(n.cache) && Fits(n, e)
    ensures var s := Filled(n, e).cache;
      && SlotsOk(s) && Conns(s) == Conns(n.cache)[e.tuple := ConnOf(e)]
      && Active(s) == Active(n.cache) + if e.enabled then {e.tuple} else {}
  {
    hide SlotsOk, Conns, Active, UsedSlots;
    NotIn(n.cache, e.tuple);
    FillSlot(n.cache, FirstFree(n.cache), e);
    FillActive(n.cache, FirstFree(n.cache), e);
  }

  lemma AnswerInstalls(n: Snapshot, n': Snapshot, rule: Entry, ret: int, alg: seq<(int, int)>)
    requires Tidy(n) && Answered(n, n', rule, ret, alg)
    ensures SlotsOk(n'.cache) && Installs(n, n', rule, ret, alg)
  {
    hide SlotsOk, Conns, Active, UsedSlots;
    StorableFits(n, rule);
    if Fits(n, rule) {
      var hdl := if FirstFree(n.cache) < |n'.cache| then n'.cache[FirstFree(n.cache)].ruleHdl else 0;
      FilledWith(n, Stored(rule, 0, false, 0));
      FilledWith(n, Stored(rule, 0, true, hdl));
      hide Fits, Storable;
    }
  }

  /** While there is no WAN, a connection is stored with its public address, and not installed. */
  ghost predicate Caches(n: Snapshot, n': Snapshot, rule: Entry)
    requires SlotsOk(n.cache) && SlotsOk(n'.cache)
  {
    var t := rule.tuple;
    && (!Storable(n, t) ==> n' == n)
    && (Storable(n, t) ==>
        && Conns(n'.cache) == Conns(n.cache)[t := Conn(rule.publicIp, rule.publicPort, rule.dstNat, 0)]
        && Active(n'.cache) == Active(n.cache) && n' == n.(cache := n'.cache, count := n.count + 1))
  }

  lemma OpenCaches(n: Snapshot, n': Snapshot, rule: Entry, alg: seq<(int, int)>)
    requires Tidy(n) && Opened(n, n', rule, ToCache, alg)
    ensures SlotsOk(n'.cache) && Caches(n, n', rule)
  {
    hide SlotsOk, Conns, Active, UsedSlots;
    StorableFits(n, rule);
    if Fits(n, rule) { FilledWith(n, Stored(rule, rule.publicIp, false, 0)); }
  }

  /** The first place without addresses, or the length. */
  predicate FirstPlace(temp: seq<Entry>, i: int) {
    && 0 <= i <= |temp|
    && (i < |temp| ==> temp[i].tuple.privateIp == 0 && temp[i].tuple.targetIp == 0)
    && forall j :: 0 <= j < i ==> temp[j].tuple.privateIp != 0 || temp[j].tuple.targetIp != 0
  }

  /** A connection has to wait: it takes the first place without addresses, unless it uses an ALG port, is known or
      waits already. */
  ghost predicate Queues(n: Snapshot, n': Snapshot, rule: Entry, alg: seq<(int, int)>)
    requires SlotsOk(n.cache)
  {
    var t := rule.tuple;
    if !NoAlg(t, alg) || t in Conns(n.cache) || exists i :: 0 <= i < |n.temp| && n.temp[i].tuple == t then n' == n
    else exists i :: FirstPlace(n.temp, i) && n' == if i < |n.temp| then n.(temp := n.temp[i := rule]) else n
  }

  lemma OpenQueues(n: Snapshot, n': Snapshot, rule: Entry, alg: seq<(int, int)>)
    requires Tidy(n) && Opened(n, n', rule, ToTemp, alg) && rule.tuple != ZERO_TUPLE
    ensures Queues(n, n', rule, alg)
  {
    hide SlotsOk, Conns, UsedSlots;
    KnownIsCached(n.cache, rule.tuple);
    assert FirstPlace(n.temp, First(n.temp, IsBlank));
    assert n.(temp := n.temp) == n;
  }

  /** The handle is that of the connection's rule. */
  predicate IsRuleOf(s: seq<Entry>, t: Tuple, h: int) {
    exists i :: 0 <= i < |s| && s[i].enabled && s[i].tuple == t && s[i].ruleHdl == h
  }

  /** The first place with this tuple. */
  predicate IsPlaceOf(temp: seq<Entry>, t: Tuple, i: int)
    requires 0 <= i < |temp|
  {
    temp[i].tuple == t && forall j :: 0 <= j < i ==> temp[j].tuple != t
  }

  /** A connection has closed: it is not known any more, nor installed. Its rule has gone with it unless the driver
      failed to delete it, and it does not wait any more. All others are as before. */
  ghost predicate Ends(n: Snapshot, n': Snapshot, t: Tuple)
    requires SlotsOk(n.cache) && SlotsOk(n'.cache)
  {
    && Conns(n'.cache) == Conns(n.cache) - {t} && Active(n'.cache) == Active(n.cache) - {t}
    && n'.refused == n.refused && n'.hdl == n.hdl && n'.pwr == n.pwr
    && |n'.temp| == |n.temp|
    && (forall i :: 0 <= i < |n.temp| ==>
        n'.temp[i] == if IsPlaceOf(n.temp, t, i) then ZERO else n.temp[i])
    && (n'.stuck == n.stuck ==>
        n'.leaked == n.leaked && forall h :: h in n'.rules <==> h in n.rules && !IsRuleOf(n.cache, t, h))
    && (forall h :: h in n'.rules ==> h in n.rules && n'.rules[h] == n.rules[h])
  }

  lemma CloseTemp(temp: seq<Entry>, t: Tuple)
    ensures |TempDrop(temp, t)| == |temp|
    ensures forall i :: 0 <= i < |temp| ==>
      TempDrop(temp, t)[i] == if IsPlaceOf(temp, t, i) then ZERO else temp[i]
  {
    var k := First(temp, Is(t));
    assert k < |temp| ==> temp[k].tuple == t;
    assert forall j :: 0 <= j < k ==> temp[j].tuple != t by {
      forall j | 0 <= j < k ensures temp[j].tuple != t { assert !Is(t)(temp[j]); }
    }
  }

  lemma CloseRules(n: Snapshot, n': Snapshot, t: Tuple)
    requires SlotsOk(n.cache) && Closed(n, n', t) && t != ZERO_TUPLE
    ensures n'.stuck == n.stuck ==>
      n'.leaked == n.leaked && forall h :: h in n'.rules <==> h in n.rules && !IsRuleOf(n.cache, t, h)
    ensures forall h :: h in n'.rules ==> h in n.rules && n'.rules[h] == n.rules[h]
  {
    if i :| 0 <= i < |n.cache| && n.cache[i].enabled && n.cache[i].tuple == t {
      OnlyMatch(n.cache, i);
      assert DeletedOrStuck(n, n', n.cache[i].ruleHdl);
    } else {
      assert t !in Active(n.cache);
    }
  }

  lemma CloseEnds(n: Snapshot, n': Snapshot, t: Tuple)
    requires SlotsOk(n.cache) && Closed(n, n', t) && t != ZERO_TUPLE
    ensures SlotsOk(n'.cache) && Ends(n, n', t)
  {
    DownClose(n.cache, n'.cache, t);
    CloseTemp(n.temp, t);
    CloseRules(n, n', t);
    hide SlotsOk, Conns, Active, TempDrop, DeletedOrStuck;
  }

  // ---------- Which events do what ----------

  /** What an event does with a connection in its final form (6 is TCP and 17 UDP): established TCP and new UDP ones are
      added, cached or have to wait; finished and destroyed ones, if TCP then not while they count as established, have
      ended; all other events change nothing. */
  ghost predicate Takes(n: Snapshot, n': Snapshot, rule: Entry, isTemp: bool, e: Event, wanUp: bool,
                        alg: seq<(int, int)>)
    requires SlotsOk(n.cache) && SlotsOk(n'.cache)
  {
    var proto, tcp := rule.tuple.protocol, e.tcpState;
    if (proto == 6 && tcp == Established) || (proto == 17 && e.kind == New) then
      if !wanUp then Caches(n, n', rule)
      else if isTemp then Queues(n, n', rule, alg)
      else Installs(n, n', rule, 0, alg) || Installs(n, n', rule, -1, alg)
    else if (proto == 6 && (tcp == FinWait || e.kind == Destroy)) || (proto == 17 && e.kind == Destroy) then
      Ends(n, n', rule.tuple)
    else
      n' == n
  }

  lemma HandledTakes(n: Snapshot, n': Snapshot, rule: Entry, isTemp: bool, e: Event, wanUp: bool, alg: seq<(int, int)>)
    requires Tidy(n) && Handled(rule, isTemp, e, n, n', wanUp, alg) && rule.tuple.protocol != 0
    ensures SlotsOk(n'.cache) && Takes(n, n', rule, isTemp, e, wanUp, alg)
  {
    hide SlotsOk, UsedSlots, Installs, Caches, Queues, Ends, Closed, Answered;
    if Opens(rule.tuple.protocol, e) {
      if !wanUp {
        OpenCaches(n, n', rule, alg);
      } else if isTemp {
        OpenQueues(n, n', rule, alg);
      } else if Answered(n, n', rule, 0, alg) {
        AnswerInstalls(n, n', rule, 0, alg);
      } else {
        AnswerInstalls(n, n', rule, -1, alg);
      }
    } else if Closes(rule.tuple.protocol, e) {
      CloseEnds(n, n', rule.tuple);
    }
  }

  // ---------- Which connections go where ----------

  /** An end of the connection is one of the recorded addresses. */
  predicate Touches(addresses: seq<int>, t: Tuple) {
    (t.privateIp != 0 && t.privateIp in addresses) || (t.targetIp != 0 && t.targetIp in addresses)
  }

  /** The target lies in the first client's subnet of 256 addresses, and is not among the first places of the list. */
  predicate HeldBack(net: Network, target: int) {
    var base := target - target % 256;
    && net.isSta && 0 < net.sta.cnt <= |net.sta.list| && base <= net.sta.list[0] < base + 256
    && forall i :: 0 <= i < net.sta.cnt ==> net.sta.list[i] != target
  }

  /** Where a connection goes. With an end behind the NAT, or passed through, it goes on as it is, and waits at most for
      its STA client. Outside STA mode one whose end is another interface's goes on from the public address and port,
      and one of the WAN address itself from the public port. What is left waits if an end is private and is ignored
      otherwise. */
  lemma RouteIs(rule: Entry, net: Network)
    ensures var t, r, x := rule.tuple, rule.(publicIp := net.wanIp), Route(rule, net);
      var own := t.privateIp == net.wanIp;
      var behind := Touches(net.natAddrs, t) || (net.passthrough && t.privateIp == net.reportedIp);
      var other := !net.isSta && Touches(net.nonNatAddrs, t);
      && (own && net.isSta ==> x == Ignored)
      && (own && !net.isSta ==>
          x == Routed(r.(tuple := Tuple(t.privateIp, t.targetIp, rule.publicPort, t.targetPort, t.protocol)), false))
      && (!own && behind ==> x == Routed(r, HeldBack(net, t.targetIp)))
      && (!own && !behind && other ==>
          x == Routed(r.(tuple := Tuple(net.wanIp, t.targetIp, rule.publicPort, t.targetPort, t.protocol)), false))
      && (!own && !behind && !other ==>
          x == if net.isPrivate(t.privateIp) || net.isPrivate(t.targetIp) then Routed(r, true) else Ignored)
  {
    MatchesTouches(net.natAddrs, rule.tuple);
    MatchesTouches(net.nonNatAddrs, rule.tuple);
    WaitsHeldBack(net, rule.tuple.targetIp);
    hide Matches, Touches, Waits, HeldBack, Subnet;
  }

  lemma MatchesTouches(addresses: seq<int>, t: Tuple)
    ensures Matches(addresses, t) <==> Touches(addresses, t)
  {
    if t.privateIp != 0 && t.privateIp in addresses {
      var i :| 0 <= i < |addresses| && addresses[i] == t.privateIp;
    }
    if t.targetIp != 0 && t.targetIp in addresses {
      var i :| 0 <= i < |addresses| && addresses[i] == t.targetIp;
    }
  }

  /** Two addresses are in the same subnet exactly if they differ in the last octet at most. */
  lemma SubnetIsOctets(a1: int, a2: int, a3: int, a4: int, b1: int, b2: int, b3: int, b4: int)
    requires 0 <= a1 < 256 && 0 <= a2 < 256 && 0 <= a3 < 256 && 0 <= a4 < 256
    requires 0 <= b1 < 256 && 0 <= b2 < 256 && 0 <= b3 < 256 && 0 <= b4 < 256
    ensures Subnet(((a1 * 256 + a2) * 256 + a3) * 256 + a4) == Subnet(((b1 * 256 + b2) * 256 + b3) * 256 + b4) <==>
      a1 == b1 && a2 == b2 && a3 == b3
  {
    var x, y := (a1 * 256 + a2) * 256 + a3, (b1 * 256 + b2) * 256 + b3;
    assert (x * 256 + a4) / 256 == x && (y * 256 + b4) / 256 == y;
  }

  lemma WaitsHeldBack(net: Network, target: int)
    ensures Waits(net.sta, net.isSta, target) <==> HeldBack(net, target)
    ensures !net.isSta ==> !HeldBack(net, target)
  {
    var s := net.sta;
    if 0 < s.cnt <= |s.list| {
      var base := target - target % 256;
      assert base == 256 * (target / 256);
      assert Subnet(s.list[0]) == Subnet(target) <==> base <= s.list[0] < base + 256;
      assert forall i :: 0 <= i < s.cnt ==> s.list[..s.cnt][i] == s.list[i];
    }
  }

  /** What an event comes to, by its addresses. */
  ghost predicate Heard(n: Snapshot, n': Snapshot, e: Event, net: Network, wanUp: bool, alg: seq<(int, int)>)
    requires SlotsOk(n.cache) && SlotsOk(n'.cache)
  {
    var t, r := e.rule.tuple, e.rule.(publicIp := net.wanIp);
    var behind := Touches(net.natAddrs, t) || (net.passthrough && t.privateIp == net.reportedIp);
    if t.privateIp == net.wanIp then
      if net.isSta then n' == n
      else
        var own := r.(tuple := Tuple(t.privateIp, t.targetIp, r.publicPort, t.targetPort, t.protocol));
        Takes(n, n', own, false, e, wanUp, alg)
    else if behind then Takes(n, n', r, HeldBack(net, t.targetIp), e, wanUp, alg)
    else if !net.isSta && Touches(net.nonNatAddrs, t) then
      var bypassing := r.(tuple := Tuple(net.wanIp, t.targetIp, r.publicPort, t.targetPort, t.protocol));
      Takes(n, n', bypassing, false, e, wanUp, alg)
    else if net.isPrivate(t.privateIp) || net.isPrivate(t.targetIp) then Takes(n, n', r, true, e, wanUp, alg)
    else n' == n
  }

  lemma MessageHeard(n: Snapshot, n': Snapshot, e: Event, net: Network, wanUp: bool, alg: seq<(int, int)>)
    requires Tidy(n) && e.rule.tuple.protocol != 0
    requires var x := Route(e.rule, net);
      if x.Ignored? then n' == n else Handled(x.rule, x.isTemp, e, n, n', wanUp, alg)
    ensures SlotsOk(n'.cache) && Heard(n, n', e, net, wanUp, alg)
  {
    hide SlotsOk, UsedSlots, Takes, Handled, Route, Touches, HeldBack;
    RouteIs(e.rule, net);
    var x := Route(e.rule, net);
    if x.Routed? { HandledTakes(n, n', x.rule, x.isTemp, e, wanUp, alg); }
  }

  /** Any event, through the listener. */
  method Hear(l: Listener, e: Event, reportedIp: int)
    requires l.Sound() && e.rule.tuple.protocol != 0
    modifies l.app, l.app.driver, l.app.cache, l.app.temp
    ensures l.Sound() && SlotsOk(old(l.app.cache[..])) && SlotsOk(l.app.cache[..])
    ensures l.Net(reportedIp) == old(l.Net(reportedIp))
    ensures Heard(old(Snap(l.app)), Snap(l.app), e, l.Net(reportedIp), l.wanUp, l.app.algPorts)
  {
    hide Route, Handled, PutsBlank, Heard, SlotsOk, HwOk, UsedSlots, TempOk, Counted, Distinct;
    SnapTidy(l.app);
    ghost var n, net := Snap(l.app), l.Net(reportedIp);
    l.ProcessMsg(e, reportedIp);
    MessageHeard(n, Snap(l.app), e, net, l.wanUp, l.app.algPorts);
  }

  lemma SnapTidy(app: NatApp)
    requires app.Valid()
    ensures Tidy(Snap(app)) && SlotsOk(app.cache[..]) && Snap(app).cache == app.cache[..]
  {
  }

  /** A client behind the NAT connects: TCP when it is established, UDP with its first message. With the WAN up, a table
      and room, its new connection is known and in the hardware, unless the driver refuses it. */
  method ClientConnects(l: Listener, e: Event, reportedIp: int, i: nat)
    requires l.Sound() && l.wanUp && !l.isStaMode && i < l.natIfaces.Length
    requires var t := e.rule.tuple;
      && l.natIfaces[i] != 0 && (t.privateIp == l.natIfaces[i] || t.targetIp == l.natIfaces[i])
      && t.privateIp != l.wanIp
      && t.privateIp != 0 && t.targetIp != 0 && t.privatePort != 0 && t.targetPort != 0
      && ((t.protocol == 6 && e.tcpState == Established) || (t.protocol == 17 && e.kind == New))
      && (t.protocol, t.privatePort) !in l.app.algPorts && (t.protocol, t.targetPort) !in l.app.algPorts
      && t.privateIp !in l.app.pwrSaveIfs[..] && t.targetIp !in l.app.pwrSaveIfs[..]
      && (forall k :: 0 <= k < l.app.cache.Length ==> l.app.cache[k].tuple != t)
      && l.app.curCnt < l.app.cache.Length && l.app.natTableHdl != 0
    modifies l.app, l.app.driver, l.app.cache, l.app.temp
    ensures l.Sound() && l.app.temp[..] == old(l.app.temp[..])
    ensures l.app.driver.refused == old(l.app.driver.refused) ==>
      && Conns(l.app.cache[..]) ==
          Conns(old(l.app.cache[..]))[e.rule.tuple := Conn(0, e.rule.publicPort, e.rule.dstNat, 0)]
      && Active(l.app.cache[..]) == Active(old(l.app.cache[..])) + {e.rule.tuple}
      && HwRule(e.rule.tuple, e.rule.publicPort) in l.app.driver.rules.Values
    ensures l.app.driver.refused != old(l.app.driver.refused) ==>
      l.app.cache[..] == old(l.app.cache[..]) && l.app.driver.rules == old(l.app.driver.rules)
  {
    hide SlotsOk, HwOk, UsedSlots, TempOk, Counted, Distinct, Conns, Active, Queues, Ends, Caches;
    ghost var n, net, t := Snap(l.app), l.Net(reportedIp), e.rule.tuple;
    SnapTidy(l.app);
    KnownIsCached(n.cache, t);
    assert net.natAddrs[i] == l.natIfaces[i];
    assert Touches(net.natAddrs, t);
    NotHeldBack(net, t.targetIp);
    hide Touches, HeldBack;
    Hear(l, e, reportedIp);
    ghost var n' := Snap(l.app);
    assert Takes(n, n', e.rule.(publicIp := net.wanIp), false, e, true, l.app.algPorts);
    if n'.refused == n.refused { InValues(n.rules, n'.rules, HwRule(t, e.rule.publicPort)); }
  }

  lemma NotHeldBack(net: Network, target: int)
    ensures !net.isSta ==> !HeldBack(net, target)
  {
  }

  lemma InValues(rules: map<int, HwRule>, rules': map<int, HwRule>, r: HwRule)
    requires exists h :: h !in rules && rules' == rules[h := r]
    ensures r in rules'.Values
  {
    var h :| h !in rules && rules' == rules[h := r];
    assert h in rules' && rules'[h] == r;
  }

  /** It disconnects: TCP when it finishes, or is destroyed without being established, UDP when it is destroyed. It is
      not known any more and, without leaks, no rule is left for it. */
  method ClientDisconnects(l: Listener, e: Event, reportedIp: int, i: nat)
    requires l.Sound() && i < l.natIfaces.Length
    requires var t := e.rule.tuple;
      && l.natIfaces[i] != 0 && (t.privateIp == l.natIfaces[i] || t.targetIp == l.natIfaces[i])
      && t.privateIp != l.wanIp
      && ((t.protocol == 6 && (e.tcpState == FinWait || (e.tcpState == OtherState && e.kind == Destroy)))
          || (t.protocol == 17 && e.kind == Destroy))
    modifies l.app, l.app.driver, l.app.cache, l.app.temp
    ensures l.Sound()
    ensures Conns(l.app.cache[..]) == Conns(old(l.app.cache[..])) - {e.rule.tuple}
    ensures Active(l.app.cache[..]) == Active(old(l.app.cache[..])) - {e.rule.tuple}
    ensures l.app.leaked == {} ==> forall h :: h in l.app.driver.rules ==> l.app.driver.rules[h].tuple != e.rule.tuple
  {
    hide SlotsOk, HwOk, UsedSlots, TempOk, Counted, Distinct, Conns, Active, Queues, Installs, Caches;
    ghost var n, net, t := Snap(l.app), l.Net(reportedIp), e.rule.tuple;
    assert net.natAddrs[i] == l.natIfaces[i];
    assert Touches(net.natAddrs, t);
    hide Touches, HeldBack;
    Hear(l, e, reportedIp);
    ghost var n' := Snap(l.app);
    assert Takes(n, n', e.rule.(publicIp := net.wanIp), HeldBack(net, t.targetIp), e, l.wanUp, l.app.algPorts);
    if l.app.leaked == {} { RuleIsActive(l.app); }
  }

  lemma RuleIsActive(app: NatApp)
    requires app.Valid() && app.leaked == {}
    ensures forall h :: h in app.driver.rules ==> app.driver.rules[h].tuple in Active(app.cache[..])
  {
    var s := app.cache[..];
    forall h | h in app.driver.rules ensures app.driver.rules[h].tuple in Active(s) {
      assert h in Handles(s);
      var i :| 0 <= i < |s| && Live(s, i) && s[i].ruleHdl == h;
    }
  }

  /** Events of other protocols, and those of UDP and TCP that neither open nor close a connection, change nothing. */
  method OthersAreIgnored(l: Listener, e: Event, reportedIp: int)
    requires l.Sound() && e.rule.tuple.protocol != 0
    requires e.rule.tuple.protocol == 6 ==> e.tcpState == OtherState && e.kind != Destroy
    requires e.rule.tuple.protocol == 17 ==> e.kind == Update
    modifies l.app, l.app.driver, l.app.cache, l.app.temp
    ensures l.Sound() && Snap(l.app) == old(Snap(l.app))
  {
    hide SlotsOk, HwOk, UsedSlots, TempOk, Counted, Distinct, Conns, Active, Queues, Installs, Caches, Ends, Touches;
    Hear(l, e, reportedIp);
  }

  // ---------- Flushing the temp table ----------

  /** The tuple under which a waiting connection is added. */
  function FinalTuple(e: Entry, isDummy: bool): Tuple {
    var t := e.tuple;
    if isDummy then Tuple(e.publicIp, t.targetIp, e.publicPort, t.targetPort, t.protocol) else t
  }

  predicate HasEnd(e: Entry, ip: int) { e.tuple.privateIp == ip || e.tuple.targetIp == ip }

  /** A waiting connection of this address and of the current public address is to be added as t. */
  predicate IsDue(e: Entry, t: Tuple, ip: int, isDummy: bool, pubIp: int, alg: seq<(int, int)>) {
    HasEnd(e, ip) && e.publicIp == pubIp && t == FinalTuple(e, isDummy) && Whole(t) && NoAlg(t, alg)
  }

  /** One of the waiting connections is. */
  predicate SomeDue(temp: seq<Entry>, t: Tuple, ip: int, isDummy: bool, pubIp: int, alg: seq<(int, int)>) {
    exists i :: 0 <= i < |temp| && IsDue(temp[i], t, ip, isDummy, pubIp, alg)
  }

  lemma DueIsComing(temp: seq<Entry>, t: Tuple, ip: int, isDummy: bool, pubIp: int, alg: seq<(int, int)>)
    ensures SomeDue(temp, t, ip, isDummy, pubIp, alg) <==>
      t in Coming(temp, |temp|, Flush(ip, true, isDummy, pubIp), alg)
  {
    var f := Flush(ip, true, isDummy, pubIp);
    forall i | 0 <= i < |temp|
      ensures IsDue(temp[i], t, ip, isDummy, pubIp, alg) <==>
        Joins(temp[i], f, alg) && Offered(temp[i], isDummy).tuple == t
    {
    }
    hide IsDue, Joins, Offered;
  }

  /** An interface with this address is up: with a table, room to the end and no refusal, the known connections
      afterwards are those before and the ones that were due, and of these the new ones are installed whose ends are
      awake. */
  lemma FlushAdds(trace: seq<Snapshot>, n: Snapshot, n': Snapshot, ip: int, isDummy: bool, pubIp: int,
                  alg: seq<(int, int)>)
    requires Flushes(trace, n, n', Flush(ip, true, isDummy, pubIp), alg) && Tidy(n) && Tidy(n')
    requires n.hdl != 0 && n'.count < |n'.cache| && n'.refused == n.refused
    ensures forall t :: t in Conns(n'.cache) <==> t in Conns(n.cache) || SomeDue(n.temp, t, ip, isDummy, pubIp, alg)
    ensures forall t :: t in Active(n'.cache) <==>
      || t in Active(n.cache)
      || (SomeDue(n.temp, t, ip, isDummy, pubIp, alg) && t !in Conns(n.cache) && BothAwake(t, n.pwr))
  {
    hide Flushing, Conns, Active, SlotsOk, UsedSlots, Coming;
    var f := Flush(ip, true, isDummy, pubIp);
    RoomLeft(n'.cache);
    FlushInstalls(trace, n, n', f, alg);
    var ts := Coming(n.temp, |n.temp|, f, alg);
    forall t ensures SomeDue(n.temp, t, ip, isDummy, pubIp, alg) <==> t in ts {
      DueIsComing(n.temp, t, ip, isDummy, pubIp, alg);
    }
    forall t | t in ts ensures BothAwake(t, n.pwr) <==> !Asleep(t, n.pwr) {
      assert SomeDue(n.temp, t, ip, isDummy, pubIp, alg);
    }
    hide SomeDue, Asleep, BothAwake;
    assert Conns(n'.cache).Keys == Conns(n.cache).Keys + ts;
  }

  /** What happens to the places: those of other addresses stay; those with another public address are emptied; of the
      rest each is emptied or keeps its connection in the form in which it was offered. */
  lemma FlushPlaces(trace: seq<Snapshot>, n: Snapshot, n': Snapshot, ip: int, isDummy: bool, pubIp: int,
                    alg: seq<(int, int)>, i: nat)
    requires Flushes(trace, n, n', Flush(ip, true, isDummy, pubIp), alg) && i < |n.temp|
    ensures |n'.temp| == |n.temp|
    ensures !HasEnd(n.temp[i], ip) ==> n'.temp[i] == n.temp[i]
    ensures HasEnd(n.temp[i], ip) && n.temp[i].publicIp != pubIp ==> n'.temp[i] == ZERO
    ensures HasEnd(n.temp[i], ip) && n.temp[i].publicIp == pubIp ==>
      n'.temp[i] == ZERO || n'.temp[i] == n.temp[i].(tuple := FinalTuple(n.temp[i], isDummy))
  {
    hide Answered;
    FlushSettles(trace, n, n', Flush(ip, true, isDummy, pubIp), alg, i);
  }

  /** An interface's address is gone: the places of connections with that end are emptied, and nothing else happens. */
  lemma FlushRemoves(trace: seq<Snapshot>, n: Snapshot, n': Snapshot, ip: int, isDummy: bool, pubIp: int,
                     alg: seq<(int, int)>)
    requires Flushes(trace, n, n', Flush(ip, false, isDummy, pubIp), alg)
    ensures n' == n.(temp := n'.temp) && |n'.temp| == |n.temp|
    ensures forall i :: 0 <= i < |n.temp| ==>
      n'.temp[i] == if n.temp[i].tuple.privateIp == ip || n.temp[i].tuple.targetIp == ip then ZERO else n.temp[i]
  {
    FlushAway(trace, n, n', Flush(ip, false, isDummy, pubIp), alg);
  }

  /** An interface behind the NAT, or beside it (isDummy), gets its address. */
  method InterfaceUp(app: NatApp, ip: int, isDummy: bool)
    requires app.Valid()
    modifies app`curCnt, app.driver, app.cache, app.temp
    ensures app.Valid()
    ensures app.natTableHdl != 0 && app.curCnt < app.cache.Length && app.driver.refused == old(app.driver.refused) ==>
      && (forall t :: t in Conns(app.cache[..]) <==>
          || t in Conns(old(app.cache[..]))
          || SomeDue(old(app.temp[..]), t, ip, isDummy, app.pubIpAddr, app.algPorts))
      && (forall t :: t in Active(app.cache[..]) <==>
          || t in Active(old(app.cache[..]))
          || (SomeDue(old(app.temp[..]), t, ip, isDummy, app.pubIpAddr, app.algPorts)
              && t !in Conns(old(app.cache[..])) && BothAwake(t, app.pwrSaveIfs[..])))
    ensures forall i :: 0 <= i < MAX_TEMP_ENTRIES && !HasEnd(old(app.temp[i]), ip) ==> app.temp[i] == old(app.temp[i])
  {
    hide Flushes, Conns, Active, SlotsOk, HwOk, UsedSlots, Distinct, SomeDue, HasEnd, BothAwake, Tidy;
    SnapTidy(app);
    ghost var n := Snap(app);
    ghost var trace := app.FlushTempEntries(ip, true, isDummy);
    SnapTidy(app);
    ghost var n' := Snap(app);
    FlushStays(trace, n, n', ip, isDummy, app.pubIpAddr, app.algPorts);
    if app.natTableHdl != 0 && app.curCnt < app.cache.Length && app.driver.refused == n.refused {
      FlushAdds(trace, n, n', ip, isDummy, app.pubIpAddr, app.algPorts);
    }
  }

  lemma FlushStays(trace: seq<Snapshot>, n: Snapshot, n': Snapshot, ip: int, isDummy: bool, pubIp: int,
                   alg: seq<(int, int)>)
    requires Flushes(trace, n, n', Flush(ip, true, isDummy, pubIp), alg)
    ensures |n'.temp| == |n.temp|
    ensures forall i :: 0 <= i < |n.temp| && !HasEnd(n.temp[i], ip) ==> n'.temp[i] == n.temp[i]
  {
    FlushFrame(trace, 0, |n.temp|, Flush(ip, true, isDummy, pubIp), alg);
    hide Flushes, Flushing, HasEnd;
    forall i | 0 <= i < |n.temp| && !HasEnd(n.temp[i], ip) ensures n'.temp[i] == n.temp[i] {
      FlushPlaces(trace, n, n', ip, isDummy, pubIp, alg, i);
    }
  }

  /** An interface loses its address: no connection waits for it any more. */
  method InterfaceDown(app: NatApp, ip: int)
    requires app.Valid()
    modifies app`curCnt, app.driver, app.cache, app.temp
    ensures app.Valid() && app.cache[..] == old(app.cache[..]) && app.driver.rules == old(app.driver.rules)
    ensures forall i :: 0 <= i < MAX_TEMP_ENTRIES ==>
      var t := old(app.temp[i]).tuple;
      app.temp[i] == if t.privateIp == ip || t.targetIp == ip then ZERO else old(app.temp[i])
    ensures ip != 0 ==> forall i :: 0 <= i < MAX_TEMP_ENTRIES ==>
      app.temp[i].tuple.privateIp != ip && app.temp[i].tuple.targetIp != ip
  {
    hide Flushes, SlotsOk, HwOk, UsedSlots, Distinct;
    ghost var n := Snap(app);
    ghost var trace := app.FlushTempEntries(ip, false, false);
    FlushRemoves(trace, n, Snap(app), ip, false, app.pubIpAddr, app.algPorts);
    assert forall i :: 0 <= i < MAX_TEMP_ENTRIES ==> app.temp[i] == Snap(app).temp[i] && old(app.temp[i]) == n.temp[i];
  }

  /** A client of the STA-mode bridge arrives: the connections that have been waiting for it as their target are known
      afterwards, and installed if they are new and no end sleeps. */
  method TargetArrives(l: Listener, ip: int)
    requires l.Sound() && l.staClntCnt < MAX_STA_CLNT_IFACES
    modifies l`staClntCnt, l.staClients, l.app, l.app.driver, l.app.cache, l.app.temp
    ensures l.Sound()
    ensures
      (&& l.app.natTableHdl != 0 && l.app.curCnt < l.app.cache.Length
       && l.app.driver.refused == old(l.app.driver.refused)) ==>
      forall i :: 0 <= i < MAX_TEMP_ENTRIES ==>
        var e := old(l.app.temp[i]);
        e.tuple.targetIp == ip && e.publicIp == l.app.pubIpAddr && Whole(e.tuple) && NoAlg(e.tuple, l.app.algPorts) ==>
          && e.tuple in Conns(l.app.cache[..])
          && (e.tuple !in Conns(old(l.app.cache[..])) && BothAwake(e.tuple, l.app.pwrSaveIfs[..]) ==>
              e.tuple in Active(l.app.cache[..]))
  {
    hide Flushes, Conns, Active, SlotsOk, HwOk, UsedSlots, Distinct, BothAwake, Tidy, Counted, TempOk, Whole, NoAlg;
    SnapTidy(l.app);
    ghost var n := Snap(l.app);
    ghost var trace := l.HandleSTAClientAddEvt(ip);
    SnapTidy(l.app);
    ghost var n', pubIp := Snap(l.app), l.app.pubIpAddr;
    if l.app.natTableHdl != 0 && l.app.curCnt < l.app.cache.Length && l.app.driver.refused == n.refused {
      FlushHandle(trace, n, n', ip, pubIp, l.app.algPorts);
      FlushAdds(trace, n, n', ip, false, pubIp, l.app.algPorts);
      forall i | 0 <= i < MAX_TEMP_ENTRIES && n.temp[i].tuple.targetIp == ip && n.temp[i].publicIp == pubIp
          && Whole(n.temp[i].tuple) && NoAlg(n.temp[i].tuple, l.app.algPorts)
        ensures SomeDue(n.temp, n.temp[i].tuple, ip, false, pubIp, l.app.algPorts)
      {
        assert IsDue(n.temp[i], n.temp[i].tuple, ip, false, pubIp, l.app.algPorts);
      }
      hide SomeDue;
      assert forall i :: 0 <= i < MAX_TEMP_ENTRIES ==> old(l.app.temp[i]) == n.temp[i];
    }
  }

  lemma FlushHandle(trace: seq<Snapshot>, n: Snapshot, n': Snapshot, ip: int, pubIp: int, alg: seq<(int, int)>)
    requires Flushes(trace, n, n', Flush(ip, true, false, pubIp), alg)
    ensures n'.hdl == n.hdl
  {
    FlushFrame(trace, 0, |n.temp|, Flush(ip, true, false, pubIp), alg);
  }

  // ---------- Clients that sleep, wake up and leave ----------

  /** Of the slots with this address and an enabled entry, each is disabled or has its rule among those that the driver
      failed to delete; all other slots are as before. */
  predicate Withdrawn(s: seq<Entry>, s': seq<Entry>, ip: int, stuck: seq<int>) {
    && |s'| == |s|
    && forall i :: 0 <= i < |s| ==>
         if s[i].tuple.privateIp == ip && s[i].enabled && s[i].ruleHdl !in stuck
         then s'[i] == s[i].(enabled := false, ruleHdl := s'[i].ruleHdl) else s'[i] == s[i]
  }

  lemma DroppingWithdraws(s: seq<Entry>, s': seq<Entry>, ip: int, stuck: seq<int>, off: Entry -> Entry)
    requires Dropping(s, s', stuck, Installed(ip), off, |s|)
    requires forall e :: off(e) == e.(enabled := false, ruleHdl := off(e).ruleHdl)
    ensures Withdrawn(s, s', ip, stuck)
  {
  }

  /** The connections are known as before; if the driver failed no deletion, exactly those of the address are not
      installed any more. */
  lemma WithdrawnConns(s: seq<Entry>, s': seq<Entry>, ip: int, stuck: seq<int>)
    requires SlotsOk(s) && SlotsOk(s') && Withdrawn(s, s', ip, stuck)
    ensures Conns(s') == Conns(s)
    ensures stuck == [] ==> forall t :: t in Active(s') <==> t in Active(s) && t.privateIp != ip
  {
    assert forall j :: 0 <= j < |s| ==> s'[j].tuple == s[j].tuple && ConnOf(s'[j]) == ConnOf(s[j]);
    SameConns(s, s');
    if stuck == [] {
      forall t | t in Active(s) && t.privateIp != ip ensures t in Active(s') {
        var i :| 0 <= i < |s| && Live(s, i) && s[i].tuple == t;
        assert Live(s', i) && s'[i].tuple == t;
      }
      forall t | t in Active(s') ensures t in Active(s) && t.privateIp != ip {
        var i :| 0 <= i < |s'| && Live(s', i) && s'[i].tuple == t;
        assert Live(s, i) && s[i].tuple == t;
      }
    }
  }

  lemma WithdrawnSlots(s: seq<Entry>, s': seq<Entry>, ip: int, stuck: seq<int>)
    requires Withdrawn(s, s', ip, stuck)
    ensures |s'| == |s| && forall i :: 0 <= i < |s| && s[i].tuple.privateIp != ip ==> s'[i] == s[i]
    ensures stuck == [] ==> forall i :: 0 <= i < |s'| && s'[i].tuple.privateIp == ip ==> !s'[i].enabled
  {
  }

  /** Every rule of the hardware is an installed connection's. */
  lemma NoRulesFor(app: NatApp, ip: int)
    requires app.Valid() && app.leaked == {} && forall t :: t in Active(app.cache[..]) ==> t.privateIp != ip
    ensures forall h :: h in app.driver.rules ==> app.driver.rules[h].tuple.privateIp != ip
  {
    hide NatApp.Valid, Active;
    RuleIsActive(app);
  }

  /** A client goes to power save: it is remembered if there is a place, its connections stay known, and if the driver
      fails no deletion, none of them is installed any more and, without leaks, no rule of the client is left. */
  method ClientSleeps(app: NatApp, ip: int)
    requires app.Valid() && ip != 0 && ip !in app.pwrSaveIfs[..]
    modifies app`curCnt, app.driver, app.cache, app.pwrSaveIfs
    ensures app.Valid() && Conns(app.cache[..]) == Conns(old(app.cache[..]))
    ensures forall x :: x != 0 ==>
      (x in app.pwrSaveIfs[..] <==> x in old(app.pwrSaveIfs[..]) || (x == ip && 0 in old(app.pwrSaveIfs[..])))
    ensures forall i :: 0 <= i < app.cache.Length && old(app.cache[i]).tuple.privateIp != ip ==>
      app.cache[i] == old(app.cache[i])
    ensures old(app.driver.stuck) <= app.driver.stuck
    ensures Withdrawn(old(app.cache[..]), app.cache[..], ip, app.driver.stuck[|old(app.driver.stuck)|..])
    ensures app.driver.stuck == old(app.driver.stuck) ==>
      && (forall i :: 0 <= i < app.cache.Length && app.cache[i].tuple.privateIp == ip ==> !app.cache[i].enabled)
      && (forall t :: t in Active(app.cache[..]) <==> t in Active(old(app.cache[..])) && t.privateIp != ip)
      && (app.leaked == {} ==>
          forall h :: h in app.driver.rules ==> app.driver.rules[h].tuple.privateIp != ip)
  {
    hide SlotsOk, HwOk, UsedSlots, Conns, Active, Distinct, Dropping, PwrAdd;
    SnapTidy(app);
    ghost var s, p, stuck := app.cache[..], app.pwrSaveIfs[..], app.driver.stuck;
    var ret := app.UpdatePwrSaveIf(ip);
    SnapTidy(app);
    DroppingWithdraws(s, app.cache[..], ip, app.driver.stuck[|stuck|..], Park);
    WithdrawnConns(s, app.cache[..], ip, app.driver.stuck[|stuck|..]);
    WithdrawnSlots(s, app.cache[..], ip, app.driver.stuck[|stuck|..]);
    hide Withdrawn;
    PwrAdded(p, ip);
    assert forall i :: 0 <= i < app.cache.Length ==> app.cache[i] == app.cache[..][i] && old(app.cache[i]) == s[i];
    if app.driver.stuck == stuck && app.leaked == {} { NoRulesFor(app, ip); }
  }

  lemma PwrAdded(p: seq<int>, ip: int)
    requires ip != 0
    ensures forall x :: x != 0 ==> (x in PwrAdd(p, ip) <==> x in p || (x == ip && 0 in p))
  {
    var i, p' := FirstZero(p), PwrAdd(p, ip);
    if ip !in p && i < |p| {
      assert p[i] == 0 && p'[i] == ip;
      forall x | x != 0 && x in p ensures x in p' {
        var j :| 0 <= j < |p| && p[j] == x;
        assert p'[j] == x;
      }
    }
  }

  lemma PwrDropped(p: seq<int>, ip: int)
    requires ip != 0
    ensures forall x :: x != 0 ==> (x in PwrDrop(p, ip) <==> x in p && x != ip)
  {
    var p' := PwrDrop(p, ip);
    forall x | x in p && x != ip ensures x in p' {
      var j :| 0 <= j < |p| && p[j] == x;
      assert p'[j] == x;
    }
  }

  /** A client leaves: the same, and it is in power save no more. */
  method ClientLeaves(app: NatApp, ip: int)
    requires app.Valid() && ip != 0
    modifies app`curCnt, app.driver, app.cache, app.pwrSaveIfs
    ensures app.Valid() && Conns(app.cache[..]) == Conns(old(app.cache[..]))
    ensures forall x :: x != 0 ==> (x in app.pwrSaveIfs[..] <==> x in old(app.pwrSaveIfs[..]) && x != ip)
    ensures forall i :: 0 <= i < app.cache.Length && old(app.cache[i]).tuple.privateIp != ip ==>
      app.cache[i] == old(app.cache[i])
    ensures old(app.driver.stuck) <= app.driver.stuck
    ensures Withdrawn(old(app.cache[..]), app.cache[..], ip, app.driver.stuck[|old(app.driver.stuck)|..])
    ensures app.driver.stuck == old(app.driver.stuck) ==>
      && (forall i :: 0 <= i < app.cache.Length && app.cache[i].tuple.privateIp == ip ==> !app.cache[i].enabled)
      && (forall t :: t in Active(app.cache[..]) <==> t in Active(old(app.cache[..])) && t.privateIp != ip)
      && (app.leaked == {} ==>
          forall h :: h in app.driver.rules ==> app.driver.rules[h].tuple.privateIp != ip)
  {
    hide SlotsOk, HwOk, UsedSlots, Conns, Active, Distinct, Dropping, PwrDrop;
    SnapTidy(app);
    ghost var s, p, stuck := app.cache[..], app.pwrSaveIfs[..], app.driver.stuck;
    var ret := app.DelEntriesOnClntDiscon(ip);
    SnapTidy(app);
    DroppingWithdraws(s, app.cache[..], ip, app.driver.stuck[|stuck|..], Disable);
    WithdrawnConns(s, app.cache[..], ip, app.driver.stuck[|stuck|..]);
    WithdrawnSlots(s, app.cache[..], ip, app.driver.stuck[|stuck|..]);
    hide Withdrawn;
    PwrDropped(p, ip);
    assert forall i :: 0 <= i < app.cache.Length ==> app.cache[i] == app.cache[..][i] && old(app.cache[i]) == s[i];
    if app.driver.stuck == stuck && app.leaked == {} { NoRulesFor(app, ip); }
  }

  /** A client wakes up: each of its connections is installed, or forgotten because the driver refused its rule; all
      others are as before. */
  method ClientWakes(app: NatApp, ip: int)
    requires app.Valid() && ip != 0
    modifies app`curCnt, app.driver, app.cache, app.pwrSaveIfs
    ensures app.Valid() && old(app.driver.refused) <= app.driver.refused
    ensures forall x :: x != 0 ==> (x in app.pwrSaveIfs[..] <==> x in old(app.pwrSaveIfs[..]) && x != ip)
    ensures forall i :: 0 <= i < app.cache.Length ==>
      var e := old(app.cache[i]);
      if e.tuple.privateIp == ip && !e.enabled then
        || app.cache[i] == e.(enabled := true, ruleHdl := app.cache[i].ruleHdl)
        || (app.cache[i] == ZERO && HwRule(e.tuple, e.publicPort) in app.driver.refused[|old(app.driver.refused)|..])
      else app.cache[i] == e
    ensures app.driver.refused == old(app.driver.refused) ==>
      && Conns(app.cache[..]) == Conns(old(app.cache[..]))
      && forall t :: t in Active(app.cache[..]) <==>
           || t in Active(old(app.cache[..]))
           || (t in Conns(old(app.cache[..])) && t.privateIp == ip)
  {
    hide SlotsOk, HwOk, UsedSlots, Conns, Active, Distinct, Adding, PwrDrop;
    SnapTidy(app);
    ghost var s, p, refused := app.cache[..], app.pwrSaveIfs[..], app.driver.refused;
    var ret := app.ResetPwrSaveIf(ip);
    SnapTidy(app);
    AddingRestores(s, app.cache[..], ip, app.driver.refused[|refused|..]);
    if app.driver.refused == refused { RestoredConns(s, app.cache[..], ip); }
    PwrDropped(p, ip);
    assert forall i :: 0 <= i < app.cache.Length ==> app.cache[i] == app.cache[..][i] && old(app.cache[i]) == s[i];
  }

  predicate InstalledAgain(s: seq<Entry>, s': seq<Entry>, ip: int, refused: seq<HwRule>) {
    && |s'| == |s|
    && forall i :: 0 <= i < |s| ==>
         if s[i].tuple.privateIp == ip && !s[i].enabled then
           || s'[i] == s[i].(enabled := true, ruleHdl := s'[i].ruleHdl)
           || (s'[i] == ZERO && HwRule(s[i].tuple, s[i].publicPort) in refused)
         else s'[i] == s[i]
  }

  lemma AddingRestores(s: seq<Entry>, s': seq<Entry>, ip: int, refused: seq<HwRule>)
    requires Adding(s, s', refused, Parked(ip), |s|)
    ensures InstalledAgain(s, s', ip, refused)
  {
  }

  lemma RestoredConns(s: seq<Entry>, s': seq<Entry>, ip: int)
    requires SlotsOk(s) && SlotsOk(s') && InstalledAgain(s, s', ip, []) && ip != 0
    ensures Conns(s') == Conns(s)
    ensures forall t :: t in Active(s') <==> t in Active(s) || (t in Conns(s) && t.privateIp == ip)
  {
    assert forall j :: 0 <= j < |s| ==> s'[j].tuple == s[j].tuple && ConnOf(s'[j]) == ConnOf(s[j]);
    SameConns(s, s');
    ActiveIsCached(s);
    forall t ensures t in Active(s') <==> t in Active(s) || (t in Conns(s) && t.privateIp == ip) {
      RestoredOne(s, s', ip, t);
    }
  }

  lemma RestoredOne(s: seq<Entry>, s': seq<Entry>, ip: int, t: Tuple)
    requires SlotsOk(s) && SlotsOk(s') && InstalledAgain(s, s', ip, []) && ip != 0 && Active(s) <= Conns(s).Keys
    ensures t in Active(s') <==> t in Active(s) || (t in Conns(s) && t.privateIp == ip)
  {
    if t in Active(s') {
      var i :| 0 <= i < |s'| && Live(s', i) && s'[i].tuple == t;
      assert Used(s, i) && s[i].tuple == t;
      if s[i].enabled { assert Live(s, i); }
    } else if t in Conns(s) {
      var i :| 0 <= i < |s| && Used(s, i) && s[i].tuple == t;
      assert !Live(s', i);
      if j :| Live(s, j) && s[j].tuple == t { assert false; }
    }
  }

  /** A client of the STA-mode bridge leaves: if the driver fails no deletion, exactly the connections with it as their
      target are forgotten. */
  method TargetLeaves(app: NatApp, ip: int)
    requires app.Valid() && ip != 0
    modifies app`curCnt, app.driver, app.cache
    ensures app.Valid()
    ensures forall i :: 0 <= i < app.cache.Length && old(app.cache[i]).tuple.targetIp != ip ==>
      app.cache[i] == old(app.cache[i])
    ensures old(app.driver.stuck) <= app.driver.stuck
    ensures Forgotten(old(app.cache[..]), app.cache[..], ip, app.driver.stuck[|old(app.driver.stuck)|..])
    ensures app.driver.stuck == old(app.driver.stuck) ==>
      && (forall t :: t in Conns(app.cache[..]) <==> t in Conns(old(app.cache[..])) && t.targetIp != ip)
      && (forall t :: t in Active(app.cache[..]) <==> t in Active(old(app.cache[..])) && t.targetIp != ip)
      && (app.leaked == {} ==> forall h :: h in app.driver.rules ==> app.driver.rules[h].tuple.targetIp != ip)
  {
    hide SlotsOk, HwOk, UsedSlots, Conns, Active, Distinct, Dropping;
    SnapTidy(app);
    ghost var s, stuck := app.cache[..], app.driver.stuck;
    var ret := app.DelEntriesOnSTAClntDiscon(ip);
    SnapTidy(app);
    DroppingForgets(s, app.cache[..], ip, app.driver.stuck[|stuck|..]);
    assert forall i :: 0 <= i < app.cache.Length ==> app.cache[i] == app.cache[..][i] && old(app.cache[i]) == s[i];
    if app.driver.stuck == stuck {
      ForgottenConns(s, app.cache[..], ip);
      if app.leaked == {} { RuleIsActive(app); }
    }
  }

  predicate Forgotten(s: seq<Entry>, s': seq<Entry>, ip: int, stuck: seq<int>) {
    && |s'| == |s|
    && forall i :: 0 <= i < |s| ==>
         s'[i] == if s[i].tuple.targetIp == ip && !(s[i].enabled && s[i].ruleHdl in stuck) then ZERO else s[i]
  }

  lemma DroppingForgets(s: seq<Entry>, s': seq<Entry>, ip: int, stuck: seq<int>)
    requires Dropping(s, s', stuck, Targets(ip), Forget, |s|)
    ensures Forgotten(s, s', ip, stuck)
  {
  }

  lemma ForgottenConns(s: seq<Entry>, s': seq<Entry>, ip: int)
    requires SlotsOk(s) && SlotsOk(s') && Forgotten(s, s', ip, []) && ip != 0
    ensures forall t :: t in Conns(s') <==> t in Conns(s) && t.targetIp != ip
    ensures forall t :: t in Active(s') <==> t in Active(s) && t.targetIp != ip
  {
    forall i ensures Used(s', i) <==> Used(s, i) && s[i].tuple.targetIp != ip {}
    forall i ensures Live(s', i) <==> Live(s, i) && s[i].tuple.targetIp != ip {}
    forall t | t in Conns(s) && t.targetIp != ip ensures t in Conns(s') {
      var i :| 0 <= i < |s| && Used(s, i) && s[i].tuple == t;
      assert Used(s', i);
    }
    forall t | t in Active(s) && t.targetIp != ip ensures t in Active(s') {
      var i :| 0 <= i < |s| && Live(s, i) && s[i].tuple == t;
      assert Live(s', i);
    }
  }
}

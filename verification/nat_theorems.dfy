/** What the NAT cache promises over several calls. */
module NatTheorems {
  import opened NatModel
  import opened NatSteps
  import opened NatSnapshots
  import opened NatApplication

  // ---------- The cache and the hardware ----------

  /** As long as no deletion has failed, the hardware holds exactly one rule for each installed connection and
      nothing else; the count is the number of connections and stays within the size. */
  lemma CacheMirrorsHardware(app: NatApp)
    requires app.Valid()
    ensures app.curCnt == |Conns(app.cache[..])| && 0 <= app.curCnt <= app.cache.Length
    ensures app.driver.stuck == [] ==>
      && Active(app.cache[..]) <= Conns(app.cache[..]).Keys
      && app.driver.rules.Values == Rules(Conns(app.cache[..]), Active(app.cache[..]))
      && |app.driver.rules| == |Active(app.cache[..])|
  {
    var s := app.cache[..];
    CountIsConns(s);
    FreeSlotLeft(s);
    if app.driver.stuck == [] { HardwareIsActive(s, app.driver.rules); }
  }

  // ---------- WAN down and up ----------

  /** After a new table for the old address: what the driver refused is forgotten, everything else installed. */
  lemma AddingAll(s: seq<Entry>, s': seq<Entry>, refused: seq<HwRule>)
    requires SlotsOk(s) && SlotsOk(s') && Adding(s, s', refused, HasAddress, |s|)
    ensures forall t :: t in Conns(s') <==> t in Conns(s) && HwRule(t, Conns(s)[t].publicPort) !in refused
    ensures forall t :: t in Conns(s') ==> Conns(s')[t] == Conns(s)[t]
    ensures Active(s') == Conns(s').Keys
  {
    forall t | t in Conns(s')
      ensures t in Conns(s) && Conns(s')[t] == Conns(s)[t] && HwRule(t, Conns(s)[t].publicPort) !in refused
      ensures t in Active(s')
    {
      var i :| 0 <= i < |s'| && Used(s', i) && s'[i].tuple == t;
      assert Used(s, i) && s[i].tuple == t;
      assert Live(s', i);
    }
    forall t | t in Conns(s) && HwRule(t, Conns(s)[t].publicPort) !in refused ensures t in Conns(s') {
      var i :| 0 <= i < |s| && Used(s, i) && s[i].tuple == t;
      assert Used(s', i) && s'[i].tuple == t;
    }
    ActiveIsCached(s');
  }

  /** What can happen while the WAN is down. */
  datatype Op = Cache(rule: Entry) | Close(rule: Entry)

  /** The connections known after the operations, in a cache of `max` slots. */
  ghost function AfterOps(conns: map<Tuple, Conn>, ops: seq<Op>, max: nat): map<Tuple, Conn> {
    if ops == [] then conns else AfterOp(AfterOps(conns, ops[..|ops| - 1], max), ops[|ops| - 1], max)
  }

  ghost function AfterOp(conns: map<Tuple, Conn>, op: Op, max: nat): map<Tuple, Conn> {
    match op
    case Cache(rule) =>
      if Complete(rule.tuple) && rule.tuple !in conns && |conns| < max
      then conns[rule.tuple := ConnOf(Stored(rule, rule.publicIp, false, 0))] else conns
    case Close(rule) => conns - {rule.tuple}
  }

  lemma CachedIsKnown(s: seq<Entry>, t: Tuple)
    requires SlotsOk(s) && t != ZERO_TUPLE
    ensures Cached(s, t) <==> t in Conns(s)
  {
    if Cached(s, t) {
      var i :| 0 <= i < |s| && s[i].tuple == t;
      assert Used(s, i);
    }
  }

  method RunOp(app: NatApp, op: Op)
    requires app.Valid() && app.driver.rules == map[] && Active(app.cache[..]) == {}
    requires op.rule.tuple != ZERO_TUPLE
    modifies app`curCnt, app`leaked, app.driver, app.cache
    ensures app.Valid() && app.driver.rules == map[] && Active(app.cache[..]) == {}
    ensures app.driver.open == old(app.driver.open) && app.driver.stuck == old(app.driver.stuck)
    ensures app.driver.refused == old(app.driver.refused)
    ensures Conns(app.cache[..]) == AfterOp(Conns(old(app.cache[..])), op, app.cache.Length)
  {
    hide SlotsOk, HwOk, UsedSlots, Conns, Active, Cached;
    ghost var s := app.cache[..];
    match op
    case Cache(rule) =>
      CountIsConns(s);
      CachedIsKnown(s, rule.tuple);
      FreeSlotLeft(s);
      app.CacheEntry(rule);
    case Close(rule) =>
      var ret := app.DeleteEntry(rule);
      EmptyMinus(rule.tuple);
  }

  lemma EmptyMinus(t: Tuple)
    ensures {} - {t} == {}
  {
  }

  /** WAN down, any conntrack traffic, WAN up. With the old address the hardware then holds exactly one rule for
      each connection known by then that the driver accepts, and the others are forgotten. With another
      address nothing is installed, though everything stays cached. */
  method WanBounce(app: NatApp, ip: int, ops: seq<Op>, newIp: int) returns (down: int, up: int)
    requires app.Valid()
    requires forall i :: 0 <= i < |ops| ==> ops[i].rule.tuple != ZERO_TUPLE
    modifies app, app.driver, app.cache
    ensures app.Valid()
    ensures down == 0 && up == 0 && newIp == ip ==>
      var known, conns := AfterOps(Conns(old(app.cache[..])), ops, app.cache.Length), Conns(app.cache[..]);
      && old(app.driver.refused) <= app.driver.refused
      && (forall t :: t in conns <==>
          t in known && HwRule(t, known[t].publicPort) !in app.driver.refused[|old(app.driver.refused)|..])
      && (forall t :: t in conns ==> conns[t] == known[t])
      && app.driver.rules.Values == Rules(conns, conns.Keys) && |app.driver.rules| == |conns|
    ensures down == 0 && up == 0 && newIp != ip ==>
      && app.driver.rules == map[] && app.driver.refused == old(app.driver.refused)
      && Conns(app.cache[..]) == AfterOps(Conns(old(app.cache[..])), ops, app.cache.Length)
  {
    hide SlotsOk, HwOk, UsedSlots, Conns, Active, Adding;
    up := -1;
    ghost var s0 := app.cache[..];
    down := app.DeleteTable(ip);
    if down != 0 { return; }
    var i := 0;
    while i < |ops|
      invariant 0 <= i <= |ops|
      invariant app.Valid() && app.driver.rules == map[] && Active(app.cache[..]) == {}
      invariant app.natTableHdl == 0 && app.pubIpAddrPre == ip
      invariant app.driver.refused == old(app.driver.refused)
      invariant Conns(app.cache[..]) == AfterOps(Conns(s0), ops[..i], app.cache.Length)
    {
      RunOp(app, ops[i]);
      assert ops[..i + 1][..i] == ops[..i];
      i := i + 1;
    }
    assert ops[..i] == ops;
    ghost var s1 := app.cache[..];
    NoRulesNoneLive(s1, app.leaked);
    up := app.AddTable(newIp);
    if up == 0 && newIp == ip {
      AddingAll(s1, app.cache[..], app.driver.refused[|old(app.driver.refused)|..]);
      HardwareIsActive(app.cache[..], app.driver.rules);
      KeysCount(Conns(app.cache[..]));
    }
  }

  /** The address is compared with that of the last table only. So connections cached under the address p come back into
      the hardware under another address q, once the WAN has bounced under q as well. */
  method TwoBounces(app: NatApp, p: int, ops: seq<Op>, q: int, ops2: seq<Op>)
    returns (down: int, up: int, down2: int, up2: int)
    requires app.Valid() && p != q
    requires forall i :: 0 <= i < |ops| ==> ops[i].rule.tuple != ZERO_TUPLE
    requires forall i :: 0 <= i < |ops2| ==> ops2[i].rule.tuple != ZERO_TUPLE
    modifies app, app.driver, app.cache
    ensures app.Valid()
    ensures down == 0 && up == 0 && down2 == 0 && up2 == 0 ==>
      var known := AfterOps(AfterOps(Conns(old(app.cache[..])), ops, app.cache.Length), ops2, app.cache.Length);
      var conns := Conns(app.cache[..]);
      && old(app.driver.refused) <= app.driver.refused
      && (forall t :: t in conns <==>
          t in known && HwRule(t, known[t].publicPort) !in app.driver.refused[|old(app.driver.refused)|..])
      && (forall t :: t in conns ==> conns[t] == known[t])
      && app.driver.rules.Values == Rules(conns, conns.Keys) && |app.driver.rules| == |conns|
  {
    hide SlotsOk, HwOk, UsedSlots, Conns, Active, AfterOps;
    down2, up2 := -1, -1;
    down, up := WanBounce(app, p, ops, q);
    if down != 0 || up != 0 { return; }
    down2, up2 := WanBounce(app, q, ops2, q);
  }

  lemma KeysCount(conns: map<Tuple, Conn>)
    ensures |conns.Keys| == |conns|
  {
  }

  // ---------- Power save and back ----------

  lemma PowerSaveSlots(s0: seq<Entry>, s1: seq<Entry>, s2: seq<Entry>, stuck: seq<int>, refused: seq<HwRule>, ip: int)
    requires forall i :: 0 <= i < |s0| && s0[i].tuple.privateIp == ip ==> s0[i].enabled
    requires Dropping(s0, s1, stuck, Installed(ip), Park, |s0|) && Adding(s1, s2, refused, Parked(ip), |s1|)
    ensures |s2| == |s0|
    ensures forall i :: 0 <= i < |s0| ==>
      || s2[i] == s0[i].(ruleHdl := s2[i].ruleHdl)
      || (s2[i] == ZERO && s0[i].tuple.privateIp == ip && RuleOf(s0[i]) in refused)
  {
  }

  /** Slots that differ in their handles at most stand for the same connections, installed alike. */
  lemma SameButHandles(s: seq<Entry>, s': seq<Entry>)
    requires SlotsOk(s) && SlotsOk(s') && |s'| == |s|
    requires forall i :: 0 <= i < |s| ==> s'[i] == s[i].(ruleHdl := s'[i].ruleHdl)
    ensures Conns(s') == Conns(s) && Active(s') == Active(s)
  {
    assert forall j :: 0 <= j < |s| ==> s'[j].tuple == s[j].tuple && ConnOf(s'[j]) == ConnOf(s[j]);
    SameConns(s, s');
    assert forall j :: Live(s', j) == Live(s, j);
    forall t | t in Active(s) ensures t in Active(s') {
      var j :| 0 <= j < |s| && Live(s, j) && s[j].tuple == t;
      assert Live(s', j) && s'[j].tuple == t;
    }
    forall t | t in Active(s') ensures t in Active(s) {
      var j :| 0 <= j < |s'| && Live(s', j) && s'[j].tuple == t;
      assert Live(s, j) && s[j].tuple == t;
    }
  }

  lemma PwrRestored(p: seq<int>, ip: int)
    requires ip != 0 && ip !in p
    ensures PwrDrop(PwrAdd(p, ip), ip) == p
  {
  }

  /** A client whose connections are all installed goes to power save and comes back. Each of its slots is as
      before, up to the handle, or emptied because the driver refused its rule; if the driver refused none, the
      hardware holds the same rules as before, even if it failed to delete some of them in between. */
  method PowerSaveRoundTrip(app: NatApp, ip: int)
    requires app.Valid() && ip != 0 && ip !in app.pwrSaveIfs[..]
    requires forall i :: 0 <= i < app.cache.Length && app.cache[i].tuple.privateIp == ip ==> app.cache[i].enabled
    modifies app`curCnt, app.driver, app.cache, app.pwrSaveIfs
    ensures app.Valid() && app.pwrSaveIfs[..] == old(app.pwrSaveIfs[..])
    ensures old(app.driver.refused) <= app.driver.refused
    ensures forall i :: 0 <= i < app.cache.Length ==>
      || app.cache[i] == old(app.cache[i]).(ruleHdl := app.cache[i].ruleHdl)
      || (app.cache[i] == ZERO && old(app.cache[i]).tuple.privateIp == ip
          && RuleOf(old(app.cache[i])) in app.driver.refused[|old(app.driver.refused)|..])
    ensures app.driver.refused == old(app.driver.refused) ==>
      && Conns(app.cache[..]) == Conns(old(app.cache[..])) && Active(app.cache[..]) == Active(old(app.cache[..]))
      && app.curCnt == old(app.curCnt)
      && (app.leaked == {} ==>
          app.driver.rules.Values == old(app.driver.rules.Values) && |app.driver.rules| == |old(app.driver.rules)|)
  {
    hide SlotsOk, HwOk, UsedSlots, Conns, Active, Adding, Dropping, PwrAdd, PwrDrop, Distinct;
    ghost var s0, rules0 := app.cache[..], app.driver.rules;
    ghost var p, refused0, stuck0 := app.pwrSaveIfs[..], app.driver.refused, app.driver.stuck;
    CountIsConns(s0);
    var ret := app.UpdatePwrSaveIf(ip);
    ghost var s1 := app.cache[..];
    ghost var stuck := app.driver.stuck[|stuck0|..];
    ret := app.ResetPwrSaveIf(ip);
    ghost var s2, refused := app.cache[..], app.driver.refused[|refused0|..];
    PwrRestored(p, ip);
    PowerSaveSlots(s0, s1, s2, stuck, refused, ip);
    assert forall i :: 0 <= i < app.cache.Length ==> app.cache[i] == s2[i] && old(app.cache[i]) == s0[i];
    if app.driver.refused == refused0 {
      SameButHandles(s0, s2);
      CountIsConns(s2);
      if app.leaked == {} {
        HardwareIsActive(s0, rules0);
        HardwareIsActive(s2, app.driver.rules);
      }
    }
  }
}

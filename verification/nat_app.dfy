/** NatApp of IPACM_Conntrack_NATApp.cpp over an abstract NAT driver. */
module NatApplication {
  import opened NatModel
  import opened NatSteps
  import opened NatSnapshots

  const MAX_TEMP_ENTRIES := 25
  const MAX_WIFI_CLIENTS := 32
  const EINVAL := 22

  /** The driver holds one table at most; any request to it may fail. It logs what it refused to add and
      what it failed to delete. */
  class NatDriver {
    var open: bool
    var rules: map<int, HwRule>
    ghost var refused: seq<HwRule>
    ghost var stuck: seq<int>

    constructor ()
      ensures !open && rules == map[] && refused == [] && stuck == []
    {
      open, rules, refused, stuck := false, map[], [], [];
    }

    /** ipa_nat_add_ipv4_tbl; the number of entries is passed as 16 bits. */
    method AddTable(entries: int, hdl: int) returns (ret: int, hdl': int)
      modifies `open, `rules
      ensures ret == 0 || ret == -EINVAL
      ensures ret != 0 ==> open == old(open) && rules == old(rules) && (hdl' == hdl || hdl' == 0)
      ensures ret == 0 ==> entries % 0x1_0000 != 0 && !old(open) && open && rules == map[] && hdl' == 1
    {
      if entries % 0x1_0000 == 0 { return -EINVAL, hdl; }
      var fails: bool := *;
      if open || fails { return -EINVAL, 0; }
      open, rules := true, map[];
      return 0, 1;
    }

    /** ipa_nat_del_ipv4_tbl */
    method DeleteTable(hdl: int) returns (ret: int)
      modifies `open, `rules
      ensures ret != 0 ==> open == old(open) && rules == old(rules)
      ensures ret == 0 ==> old(open) && hdl == 1 && !open && rules == map[]
    {
      var fails: bool := *;
      if hdl != 1 || !open || fails { return -EINVAL; }
      open, rules := false, map[];
      return 0;
    }

    /** ipa_nat_add_ipv4_rule */
    method AddRule(tbl: int, rule: HwRule, hdl: int) returns (ret: int, hdl': int)
      modifies `rules, `refused
      ensures ret < 0 ==> hdl' == hdl && rules == old(rules) && refused == old(refused) + [rule]
      ensures ret >= 0 ==>
        tbl == 1 && open && hdl' !in old(rules) && rules == old(rules)[hdl' := rule] && refused == old(refused)
    {
      var fails: bool, h: int := *, *;
      if tbl != 1 || !open || fails || h in rules {
        refused := refused + [rule];
        return -EINVAL, hdl;
      }
      rules := rules[h := rule];
      return 0, h;
    }

    /** ipa_nat_del_ipv4_rule */
    method DeleteRule(tbl: int, hdl: int) returns (ret: int)
      modifies `rules, `stuck
      ensures ret < 0 ==> rules == old(rules) && stuck == old(stuck) + [hdl]
      ensures ret >= 0 ==> tbl != 0 && hdl in old(rules) && rules == old(rules) - {hdl} && stuck == old(stuck)
    {
      var fails: bool := *;
      if tbl == 0 || hdl !in rules || fails {
        stuck := stuck + [hdl];
        return -EINVAL;
      }
      rules := rules - {hdl};
      return 0;
    }
  }

  ghost function Snap(app: NatApp): Snapshot
    reads app, app.driver, app.cache, app.temp, app.pwrSaveIfs
  {
    Snapshot(app.natTableHdl, app.pubIpAddrPre, app.cache[..], app.temp[..], app.pwrSaveIfs[..], app.curCnt,
             app.driver.rules, app.leaked, app.driver.stuck, app.driver.refused)
  }

  class NatApp {
    const driver: NatDriver
    const cache: array<Entry>
    const temp: array<Entry>
    const pwrSaveIfs: array<int>
    const algPorts: seq<(int, int)>
    var pubIpAddr: int
    var pubIpAddrPre: int
    var natTableHdl: int
    var curCnt: int
    ghost var leaked: set<int>

    ghost predicate Shape() {
      cache != temp && temp.Length == MAX_TEMP_ENTRIES && pwrSaveIfs.Length == MAX_WIFI_CLIENTS
    }

    ghost predicate TableOk()
      reads `natTableHdl, `leaked, driver
    {
      && (natTableHdl != 0 ==> natTableHdl == 1 && driver.open)
      && (!driver.open ==> driver.rules == map[])
      && (driver.stuck == [] ==> leaked == {})
    }

    ghost predicate Valid()
      reads this, driver, cache, temp, pwrSaveIfs
    {
      && Shape()
      && Ok(cache[..], driver.rules, leaked, curCnt)
      && TableOk()
      && Distinct(pwrSaveIfs[..])
    }

    constructor (maxEntries: nat, alg: seq<(int, int)>)
      ensures Valid() && fresh(driver) && fresh(cache) && fresh(temp) && fresh(pwrSaveIfs)
      ensures cache.Length == maxEntries && algPorts == alg && curCnt == 0
      ensures forall i :: 0 <= i < maxEntries ==> cache[i] == ZERO
      ensures forall i :: 0 <= i < MAX_TEMP_ENTRIES ==> temp[i] == ZERO
    {
      driver := new NatDriver();
      cache := new Entry[maxEntries](_ => ZERO);
      temp := new Entry[MAX_TEMP_ENTRIES](_ => ZERO);
      pwrSaveIfs := new int[MAX_WIFI_CLIENTS](_ => 0);
      algPorts := alg;
      pubIpAddr, pubIpAddrPre, natTableHdl, curCnt, leaked := 0, 0, 0, 0, {};
      new;
      assert UsedSlots(cache[..]) == {} && Handles(cache[..]) == {};
    }

    method IsPwrSaveIf(ip: int) returns (r: bool)
      requires Shape()
      ensures r <==> ip != 0 && ip in pwrSaveIfs[..]
    {
      var cnt := 0;
      while cnt < MAX_WIFI_CLIENTS
        invariant 0 <= cnt <= MAX_WIFI_CLIENTS
        invariant ip == 0 || ip !in pwrSaveIfs[..cnt]
      {
        if 0 != pwrSaveIfs[cnt] && ip == pwrSaveIfs[cnt] { return true; }
        cnt := cnt + 1;
      }
      assert pwrSaveIfs[..cnt] == pwrSaveIfs[..];
      return false;
    }

    method IsAlgPort(proto: int, port: int) returns (r: bool)
      ensures r <==> (proto, port) in algPorts
    {
      var cnt := 0;
      while cnt < |algPorts|
        invariant 0 <= cnt <= |algPorts|
        invariant (proto, port) !in algPorts[..cnt]
      {
        if proto == algPorts[cnt].0 && port == algPorts[cnt].1 {
          assert algPorts[cnt] == (proto, port);
          return true;
        }
        cnt := cnt + 1;
      }
      return false;
    }

    method ChkForDup(rule: Entry) returns (r: bool)
      ensures r <==> Cached(cache[..], rule.tuple)
    {
      var cnt := 0;
      while cnt < cache.Length
        invariant 0 <= cnt <= cache.Length
        invariant forall i :: 0 <= i < cnt ==> cache[i].tuple != rule.tuple
      {
        if cache[cnt].tuple == rule.tuple {
          assert cache[..][cnt].tuple == rule.tuple;
          return true;
        }
        cnt := cnt + 1;
      }
      return false;
    }

    method FindFree() returns (cnt: int)
      ensures cnt == FirstFree(cache[..])
    {
      cnt := 0;
      while cnt < cache.Length
        invariant 0 <= cnt <= cache.Length
        invariant forall i :: 0 <= i < cnt ==> cache[i].tuple != ZERO_TUPLE
      {
        if cache[cnt].tuple == ZERO_TUPLE { break; }
        cnt := cnt + 1;
      }
      IsFirst(cache[..], (e: Entry) => e.tuple == ZERO_TUPLE, cnt);
    }

    // ---------- One slot and the driver ----------

    /** Offers the rule of a slot to the driver; a refused connection is forgotten. */
    method Offer(cnt: int) returns (added: bool)
      requires Shape() && Ok(cache[..], driver.rules, leaked, curCnt) && TableOk()
      requires Used(cache[..], cnt) && !cache[cnt].enabled
      modifies `curCnt, driver`rules, driver`refused, cache
      ensures Ok(cache[..], driver.rules, leaked, curCnt) && TableOk()
      ensures driver.refused == old(driver.refused) + (if added then [] else [RuleOf(old(cache[cnt]))])
      ensures natTableHdl == 0 ==> !added
      ensures cache[..] ==
        old(cache[..])[cnt := if added then old(cache[cnt]).(enabled := true, ruleHdl := cache[cnt].ruleHdl) else ZERO]
    {
      hide SlotsOk, HwOk;
      ghost var s, rules := cache[..], driver.rules;
      var r, hdl := driver.AddRule(natTableHdl, RuleOf(cache[cnt]), cache[cnt].ruleHdl);
      added := r >= 0;
      if r < 0 {
        cache[cnt] := ZERO;
        curCnt := curCnt - 1;
        OkClear(s, cnt, rules, leaked, curCnt + 1, driver.rules, leaked);
      } else {
        cache[cnt] := cache[cnt].(enabled := true, ruleHdl := hdl);
        OkOn(s, cnt, cache[cnt], rules, leaked, curCnt);
      }
      assert cache[..] == s[cnt := cache[cnt]];
    }

    /** Has the rule of a slot deleted; if that works, the slot becomes e: disabled, or empty. */
    method Withdraw(cnt: int, e: Entry) returns (done: bool)
      requires Shape() && Ok(cache[..], driver.rules, leaked, curCnt) && TableOk()
      requires 0 <= cnt < cache.Length && cache[cnt].enabled
      requires e == ZERO || e == cache[cnt].(enabled := false, ruleHdl := e.ruleHdl)
      modifies `curCnt, driver`rules, driver`stuck, cache
      ensures Ok(cache[..], driver.rules, leaked, curCnt) && TableOk()
      ensures driver.stuck == old(driver.stuck) + (if done then [] else [old(cache[cnt]).ruleHdl])
      ensures cache[..] == if done then old(cache[..])[cnt := e] else old(cache[..])
      ensures curCnt == old(curCnt) - (if done && e == ZERO then 1 else 0)
    {
      hide SlotsOk, HwOk, UsedSlots;
      ghost var s, rules := cache[..], driver.rules;
      EnabledIsUsed(s, cnt, rules, leaked, curCnt);
      var r := driver.DeleteRule(natTableHdl, cache[cnt].ruleHdl);
      done := r >= 0;
      if done {
        cache[cnt] := e;
        assert cache[..] == s[cnt := e];
        if e == ZERO {
          curCnt := curCnt - 1;
          OkClear(s, cnt, rules, leaked, curCnt + 1, driver.rules, leaked);
        } else {
          OkOff(s, cnt, e, rules, leaked, curCnt);
        }
      }
    }

    /** One round of a loop that offers the picked slots of s0; `refused` are the rules refused so far. */
    method OfferNext(cnt: int, picked: bool, ghost s0: seq<Entry>, ghost picks: Pick, ghost before: seq<HwRule>,
                     ghost refused: seq<HwRule>)
      returns (ghost refused': seq<HwRule>)
      requires Shape() && Ok(cache[..], driver.rules, leaked, curCnt) && TableOk() && SlotsOk(s0) && OnlyUsed(s0, picks)
      requires 0 <= cnt < cache.Length && Adding(s0, cache[..], refused, picks, cnt)
      requires driver.refused == before + refused
      requires picked == picks(cache[cnt]) && (picked ==> !cache[cnt].enabled)
      modifies `curCnt, driver`rules, driver`refused, cache
      ensures Ok(cache[..], driver.rules, leaked, curCnt) && TableOk()
      ensures Adding(s0, cache[..], refused', picks, cnt + 1) && driver.refused == before + refused'
      ensures natTableHdl == 0 && Emptied(s0, old(cache[..]), picks, cnt) ==> Emptied(s0, cache[..], picks, cnt + 1)
    {
      hide SlotsOk, HwOk, Ok, Adding, Emptied;
      ghost var s := cache[..];
      refused' := refused;
      AddingAhead(s0, s, refused, picks, cnt);
      if picked {
        PickedIsUsed(s0, s, cnt, picks);
        var added := Offer(cnt);
        AddingStep(s0, s, refused, picks, cnt, added, cache[cnt]);
        if natTableHdl == 0 && Emptied(s0, s, picks, cnt) { EmptiedNext(s0, s, picks, cnt, ZERO); }
        refused' := refused + if added then [] else [RuleOf(s0[cnt])];
      } else {
        AddingSkips(s0, s, refused, picks, cnt);
        if Emptied(s0, s, picks, cnt) { EmptiedNext(s0, s, picks, cnt, s[cnt]); }
      }
    }

    /** One round of a loop that withdraws the picked slots; `stuck` are the handles not deleted so far. */
    method WithdrawNext(cnt: int, picked: bool, e: Entry, ghost s0: seq<Entry>, ghost rules0: map<int, HwRule>,
                        ghost picks: Pick,
                        ghost off: Entry -> Entry, ghost before: seq<int>, ghost stuck: seq<int>)
      returns (ghost stuck': seq<int>)
      requires Shape() && Ok(cache[..], driver.rules, leaked, curCnt) && TableOk() && HwOk(s0, rules0, leaked)
      requires 0 <= cnt < cache.Length && Dropping(s0, cache[..], stuck, picks, off, cnt)
      requires driver.stuck == before + stuck
      requires picked == picks(cache[cnt]) && e == off(cache[cnt])
      requires picked ==>
        Used(cache[..], cnt)
          && (e == ZERO || (cache[cnt].enabled && e == cache[cnt].(enabled := false, ruleHdl := e.ruleHdl)))
      modifies `curCnt, driver`rules, driver`stuck, cache
      ensures Ok(cache[..], driver.rules, leaked, curCnt) && TableOk()
      ensures Dropping(s0, cache[..], stuck', picks, off, cnt + 1) && driver.stuck == before + stuck'
      ensures !picked || e != ZERO ==> curCnt == old(curCnt)
    {
      hide SlotsOk, HwOk, Ok, Dropping;
      ghost var s := cache[..];
      stuck' := stuck;
      DroppingAhead(s0, s, stuck, picks, off, cnt);
      if !picked {
        DroppingSkips(s0, s, stuck, picks, off, cnt);
      } else if cache[cnt].enabled {
        var done := Withdraw(cnt, e);
        DroppingStep(s0, s, stuck, picks, off, cnt, done, rules0, leaked);
        stuck' := stuck + if done then [] else [s0[cnt].ruleHdl];
      } else {
        cache[cnt] := e;
        curCnt := curCnt - 1;
        assert cache[..] == s[cnt := e];
        DroppingDone(s0, s, stuck, picks, off, cnt);
        OkClear(s, cnt, driver.rules, leaked, curCnt + 1, driver.rules, leaked);
      }
    }

    // ---------- The table ----------

    /** The loop of AddTable: every cached connection is offered to the new table. */
    method Restore()
      requires Valid() && driver.rules == map[]
      modifies `curCnt, driver`rules, driver`refused, cache
      ensures Valid() && old(driver.refused) <= driver.refused
      ensures Adding(old(cache[..]), cache[..], driver.refused[|old(driver.refused)|..], HasAddress, cache.Length)
    {
      OkParts(cache[..], driver.rules, leaked, curCnt);
      hide SlotsOk, HwOk, Ok, Adding, Distinct, TableOk;
      ghost var s0, refused0 := cache[..], driver.refused;
      NoRulesNoneLive(s0, leaked);
      var cnt := 0;
      ghost var refused: seq<HwRule> := [];
      AddingNone(s0, HasAddress);
      AddressesUsed(s0);
      while cnt < cache.Length
        invariant 0 <= cnt <= cache.Length
        invariant Ok(cache[..], driver.rules, leaked, curCnt) && TableOk()
        invariant driver.refused == refused0 + refused
        invariant Adding(s0, cache[..], refused, HasAddress, cnt)
      {
        AddingAhead(s0, cache[..], refused, HasAddress, cnt);
        refused := OfferNext(cnt, cache[cnt].tuple.privateIp != 0, s0, HasAddress, refused0, refused);
        cnt := cnt + 1;
      }
    }

    /** A new table starts empty. Every cached connection is offered to it if it belongs to the address the
        last table had, whether or not its client is in power save, and forgotten if the driver refuses it. */
    method AddTable(pubIp: int) returns (ret: int)
      requires Valid()
      modifies `natTableHdl, `pubIpAddr, `curCnt, driver, cache
      ensures Valid() && driver.stuck == old(driver.stuck) && old(driver.refused) <= driver.refused
      ensures ret != 0 ==>
        && cache[..] == old(cache[..]) && driver.rules == old(driver.rules)
        && pubIpAddr == old(pubIpAddr) && (natTableHdl == old(natTableHdl) || natTableHdl == 0)
      ensures ret == 0 ==> !old(driver.open) && natTableHdl == 1 && pubIpAddr == pubIp
      ensures ret == 0 && pubIp != pubIpAddrPre ==>
        cache[..] == old(cache[..]) && driver.rules == map[] && driver.refused == old(driver.refused)
      ensures ret == 0 && pubIp == pubIpAddrPre ==>
        Adding(old(cache[..]), cache[..], driver.refused[|old(driver.refused)|..], HasAddress, cache.Length)
    {
      hide SlotsOk, HwOk, Adding, Distinct, UsedSlots;
      ghost var s := cache[..];
      ret, natTableHdl := driver.AddTable(cache.Length, natTableHdl);
      if ret != 0 { return; }
      NoRulesNoneLive(s, leaked);
      hide Ok, TableOk, Shape;
      if pubIp == pubIpAddrPre { Restore(); }
      pubIpAddr := pubIp;
    }

    method Reset()
      modifies `natTableHdl, `pubIpAddr, cache
      ensures natTableHdl == 0 && pubIpAddr == 0
      ensures forall i :: 0 <= i < cache.Length ==> cache[i] == old(cache[i]).(enabled := false)
    {
      natTableHdl, pubIpAddr := 0, 0;
      var cnt := 0;
      while cnt < cache.Length
        invariant 0 <= cnt <= cache.Length
        invariant natTableHdl == 0 && pubIpAddr == 0
        invariant forall i :: 0 <= i < cnt ==> cache[i] == old(cache[i]).(enabled := false)
        invariant forall i :: cnt <= i < cache.Length ==> cache[i] == old(cache[i])
      {
        cache[cnt] := cache[cnt].(enabled := false);
        cnt := cnt + 1;
      }
    }

    /** Closing the table keeps every connection in the cache, and nothing in the hardware. */
    method DeleteTable(pubIp: int) returns (ret: int)
      requires Valid()
      modifies `natTableHdl, `pubIpAddr, `pubIpAddrPre, `leaked, driver, cache
      ensures Valid() && driver.stuck == old(driver.stuck) && driver.refused == old(driver.refused)
      ensures old(natTableHdl) == 0 || old(pubIpAddr) != pubIp ==> ret == -1
      ensures ret != 0 ==>
        && cache[..] == old(cache[..]) && driver.rules == old(driver.rules) && leaked == old(leaked)
        && natTableHdl == old(natTableHdl) && pubIpAddr == old(pubIpAddr) && pubIpAddrPre == old(pubIpAddrPre)
      ensures ret == 0 ==>
        && natTableHdl == 0 && pubIpAddr == 0 && pubIpAddrPre == pubIp && driver.rules == map[]
        && Conns(cache[..]) == Conns(old(cache[..])) && Active(cache[..]) == {}
        && forall i :: 0 <= i < cache.Length ==> cache[i] == old(cache[i]).(enabled := false)
    {
      hide SlotsOk, HwOk, Conns, Active, UsedSlots;
      if natTableHdl == 0 { return -1; }
      if pubIpAddr != pubIp { return -1; }
      ghost var s := cache[..];
      ret := driver.DeleteTable(natTableHdl);
      if ret != 0 { return; }
      pubIpAddrPre := pubIpAddr;
      Reset();
      leaked := {};
      OkAllOff(s, cache[..], curCnt);
    }

    // ---------- Single connections ----------

    /** The connection closed: its entry goes, installed or not. The tuple is not checked, so the all-zero
        tuple matches a free slot, and the count then loses touch with the cache. */
    method DeleteEntry(rule: Entry) returns (ret: int)
      requires Valid()
      modifies `curCnt, `leaked, driver, cache
      ensures ret == 0 && driver.open == old(driver.open) && driver.refused == old(driver.refused)
      ensures forall i :: 0 <= i < cache.Length ==>
        cache[i] == if old(cache[i]).tuple == rule.tuple then ZERO else old(cache[i])
      ensures Valid() <==> !(rule.tuple == ZERO_TUPLE && Cached(old(cache[..]), ZERO_TUPLE))
      ensures Valid() ==>
        && Conns(cache[..]) == Conns(old(cache[..])) - {rule.tuple}
        && Active(cache[..]) == Active(old(cache[..])) - {rule.tuple}
      ensures rule.tuple !in Active(old(cache[..])) ==>
        driver.rules == old(driver.rules) && driver.stuck == old(driver.stuck) && leaked == old(leaked)
      ensures forall i :: 0 <= i < cache.Length && old(cache[i]).enabled && old(cache[i]).tuple == rule.tuple ==>
        var hdl := old(cache[i]).ruleHdl;
        if driver.stuck == old(driver.stuck) then driver.rules == old(driver.rules) - {hdl} && leaked == old(leaked)
        else (
          && driver.stuck == old(driver.stuck) + [hdl] && driver.rules == old(driver.rules)
          && leaked == old(leaked) + {hdl})
    {
      hide SlotsOk, HwOk, UsedSlots, Conns, Active;
      ghost var s, rules := cache[..], driver.rules;
      ret := 0;
      var cnt := 0;
      while cnt < cache.Length
        invariant 0 <= cnt <= cache.Length
        invariant forall i :: 0 <= i < cnt ==> s[i].tuple != rule.tuple
        invariant curCnt == old(curCnt) && leaked == old(leaked) && cache[..] == s && Valid()
        invariant driver.open == old(driver.open) && driver.rules == rules
        invariant driver.stuck == old(driver.stuck) && driver.refused == old(driver.refused)
      {
        if cache[cnt].tuple == rule.tuple {
          var hdl := cache[cnt].ruleHdl;
          if cache[cnt].enabled {
            var r := driver.DeleteRule(natTableHdl, hdl);
            if r < 0 { leaked := leaked + {hdl}; }
          }
          cache[cnt] := ZERO;
          curCnt := curCnt - 1;
          assert cache[..] == s[cnt := ZERO];
          OnlyMatch(s, cnt);
          if rule.tuple == ZERO_TUPLE {
            assert s[cnt := ZERO] == s;
            OkMiscounted(s, rules, leaked, curCnt + 1);
          } else {
            OkClear(s, cnt, rules, old(leaked), curCnt + 1, driver.rules, leaked);
          }
          return 0;
        }
        cnt := cnt + 1;
      }
      NotCached(s, rule.tuple);
    }

    /** Fields that AddEntry and CacheEntry look at before they touch the cache. */
    ghost predicate NoRoomFor(rule: Entry)
      reads this, cache
    {
      Cached(cache[..], rule.tuple) || curCnt == cache.Length
    }

    /** A new connection is stored in the first free slot; it is installed too unless a client on either end
        is in power save. The entry's public address is not copied. */
    method AddEntry(rule: Entry) returns (ret: int)
      requires Valid()
      modifies `curCnt, driver, cache
      ensures Valid() && driver.open == old(driver.open)
      ensures (ret == 0 || ret == -1) && Answered(old(Snap(this)), Snap(this), rule, ret, algPorts)
      ensures if ret == 0 && Complete(rule.tuple) then
          && Conns(cache[..]) == Conns(old(cache[..]))[rule.tuple := ConnOf(Stored(rule, 0, true, 0))]
          && Active(cache[..]) ==
              Active(old(cache[..])) + (if Asleep(rule.tuple, pwrSaveIfs[..]) then {} else {rule.tuple})
        else Conns(cache[..]) == Conns(old(cache[..])) && Active(cache[..]) == Active(old(cache[..]))
    {
      hide Ok, SlotsOk, HwOk, UsedSlots, Conns, Active, Cached, Distinct;
      if natTableHdl == 0 { return -1; }
      var algPrivate := IsAlgPort(rule.tuple.protocol, rule.tuple.privatePort);
      var algTarget := IsAlgPort(rule.tuple.protocol, rule.tuple.targetPort);
      if algPrivate || algTarget { return -1; }
      if rule.tuple.privateIp == 0 || rule.tuple.targetIp == 0 || rule.tuple.privatePort == 0
        || rule.tuple.targetPort == 0 || rule.tuple.protocol == 0 { return 0; }
      var dup := ChkForDup(rule);
      if dup { return -1; }
      var cnt := FindFree();
      OkRoom(cache[..], driver.rules, leaked, curCnt);
      if cnt == cache.Length { return -1; }
      ret := Store(rule, cnt);
    }

    /** The last part of AddEntry, for a connection that fits. */
    method Store(rule: Entry, cnt: int) returns (ret: int)
      requires Valid() && Fits(Snap(this), rule) && cnt == FirstFree(cache[..])
      modifies `curCnt, driver, cache
      ensures Valid() && driver.open == old(driver.open) && (ret == 0 || ret == -1)
      ensures
        if Asleep(rule.tuple, pwrSaveIfs[..]) then
          ret == 0 && Snap(this) == Filled(old(Snap(this)), Stored(rule, 0, false, 0))
        else if ret == 0 then Put(old(Snap(this)), Snap(this), rule)
        else Snap(this) == old(Snap(this)).(refused := old(driver.refused) + [RuleOf(rule)])
      ensures if ret == 0 then
          && Conns(cache[..]) == Conns(old(cache[..]))[rule.tuple := ConnOf(Stored(rule, 0, true, 0))]
          && Active(cache[..]) ==
              Active(old(cache[..])) + (if Asleep(rule.tuple, pwrSaveIfs[..]) then {} else {rule.tuple})
        else Conns(cache[..]) == Conns(old(cache[..])) && Active(cache[..]) == Active(old(cache[..]))
    {
      hide Ok, SlotsOk, HwOk, UsedSlots, Conns, Active, Cached, Distinct;
      ghost var s, rules := cache[..], driver.rules;
      OkRoom(s, rules, leaked, curCnt);
      var privateAsleep := IsPwrSaveIf(rule.tuple.privateIp);
      var targetAsleep := IsPwrSaveIf(rule.tuple.targetIp);
      if privateAsleep || targetAsleep {
        cache[cnt] := cache[cnt].(enabled := false, ruleHdl := 0);
      } else {
        var r, hdl := driver.AddRule(natTableHdl, RuleOf(rule), cache[cnt].ruleHdl);
        if r < 0 { return -1; }
        cache[cnt] := cache[cnt].(enabled := true, ruleHdl := hdl);
      }
      cache[cnt] := cache[cnt].(tuple := rule.tuple, timestamp := 0, publicPort := rule.publicPort,
        dstNat := rule.dstNat);
      curCnt := curCnt + 1;
      assert cache[..] == s[cnt := cache[cnt]];
      NotIn(s, rule.tuple);
      OkFill(s, cnt, cache[cnt], rules, leaked, curCnt - 1, driver.rules);
      return 0;
    }

    /** While there is no WAN, connections are stored without being installed; ALG ports are not looked at. */
    method CacheEntry(rule: Entry)
      requires Valid()
      modifies `curCnt, cache
      ensures Valid()
      ensures !Complete(rule.tuple) || old(NoRoomFor(rule)) ==> cache[..] == old(cache[..]) && curCnt == old(curCnt)
      ensures Complete(rule.tuple) && !old(NoRoomFor(rule)) ==>
        && FirstFree(old(cache[..])) < cache.Length && curCnt == old(curCnt) + 1
        && cache[..] == old(cache[..])[FirstFree(old(cache[..])) := Stored(rule, rule.publicIp, false, 0)]
        && Conns(cache[..]) == Conns(old(cache[..]))[rule.tuple := ConnOf(Stored(rule, rule.publicIp, false, 0))]
        && Active(cache[..]) == Active(old(cache[..]))
    {
      hide SlotsOk, HwOk, UsedSlots, Conns, Active;
      if rule.tuple.privateIp == 0 || rule.tuple.targetIp == 0 || rule.tuple.privatePort == 0
        || rule.tuple.targetPort == 0 || rule.tuple.protocol == 0 { return; }
      var dup := ChkForDup(rule);
      if dup { return; }
      var cnt := FindFree();
      ghost var s := cache[..];
      OkRoom(s, driver.rules, leaked, curCnt);
      if cnt == cache.Length { return; }
      cache[cnt] := Entry(rule.tuple, rule.publicIp, rule.publicPort, rule.dstNat, 0, false, 0);
      curCnt := curCnt + 1;
      assert cache[..] == s[cnt := cache[cnt]];
      NotIn(s, rule.tuple);
      OkFill(s, cnt, cache[cnt], driver.rules, leaked, curCnt - 1, driver.rules);
    }

    // ---------- Power save and clients that leave ----------

    method ForgetPwrSave(ip: int)
      requires Shape() && Distinct(pwrSaveIfs[..]) && ip != 0
      modifies pwrSaveIfs
      ensures pwrSaveIfs[..] == PwrDrop(old(pwrSaveIfs[..]), ip) && Distinct(pwrSaveIfs[..])
    {
      ghost var p := pwrSaveIfs[..];
      var cnt := 0;
      while cnt < MAX_WIFI_CLIENTS
        invariant 0 <= cnt <= MAX_WIFI_CLIENTS
        invariant pwrSaveIfs[..] == p
        invariant forall i :: 0 <= i < cnt ==> p[i] != ip
      {
        if pwrSaveIfs[cnt] == ip {
          pwrSaveIfs[cnt] := 0;
          assert pwrSaveIfs[..] == p[cnt := 0];
          PwrDropAt(p, ip, cnt);
          return;
        }
        cnt := cnt + 1;
      }
      PwrDropNone(p, ip);
    }

    /** A client goes to power save: its rules leave the hardware, its connections stay in the cache. */
    method UpdatePwrSaveIf(ip: int) returns (ret: int)
      requires Valid()
      modifies `curCnt, driver, cache, pwrSaveIfs
      ensures Valid() && driver.open == old(driver.open) && driver.refused == old(driver.refused)
      ensures curCnt == old(curCnt)
      ensures old(driver.stuck) <= driver.stuck
      ensures ret == if ip == 0 then -1 else 0
      ensures ip == 0 || ip in old(pwrSaveIfs[..]) ==>
        cache[..] == old(cache[..]) && driver.rules == old(driver.rules) && driver.stuck == old(driver.stuck)
          && pwrSaveIfs[..] == old(pwrSaveIfs[..])
      ensures ip != 0 ==> pwrSaveIfs[..] == PwrAdd(old(pwrSaveIfs[..]), ip)
      ensures ip != 0 && ip !in old(pwrSaveIfs[..]) ==>
        Dropping(old(cache[..]), cache[..], driver.stuck[|old(driver.stuck)|..], Installed(ip), Park, cache.Length)
    {
      OkParts(cache[..], driver.rules, leaked, curCnt);
      hide SlotsOk, HwOk, Ok, Dropping, Distinct, PwrAdd;
      if ip == 0 { return -1; }
      ghost var s0, stuck0 := cache[..], driver.stuck;
      var known := InPwrSave(ip);
      if known { return 0; }
      RememberPwrSave(ip);
      var cnt := 0;
      ghost var stuck: seq<int> := [];
      DroppingNone(s0, Installed(ip), Park);
      while cnt < cache.Length
        invariant 0 <= cnt <= cache.Length
        invariant Ok(cache[..], driver.rules, leaked, curCnt) && TableOk() && Distinct(pwrSaveIfs[..])
        invariant pwrSaveIfs[..] == PwrAdd(old(pwrSaveIfs[..]), ip)
        invariant driver.open == old(driver.open) && driver.refused == old(driver.refused) && curCnt == old(curCnt)
        invariant driver.stuck == stuck0 + stuck
        invariant Dropping(s0, cache[..], stuck, Installed(ip), Park, cnt)
      {
        var picked := cache[cnt].tuple.privateIp == ip && cache[cnt].enabled;
        if picked { EnabledIsUsed(cache[..], cnt, driver.rules, leaked, curCnt); }
        var parked := cache[cnt].(enabled := false, ruleHdl := 0);
        stuck := WithdrawNext(cnt, picked, parked, s0, old(driver.rules), Installed(ip), Park, stuck0, stuck);
        cnt := cnt + 1;
      }
      return 0;
    }

    method InPwrSave(ip: int) returns (known: bool)
      requires Shape()
      ensures known <==> ip in pwrSaveIfs[..]
    {
      var cnt := 0;
      while cnt < MAX_WIFI_CLIENTS
        invariant 0 <= cnt <= MAX_WIFI_CLIENTS
        invariant ip !in pwrSaveIfs[..cnt]
      {
        if pwrSaveIfs[cnt] == ip { return true; }
        cnt := cnt + 1;
      }
      assert pwrSaveIfs[..cnt] == pwrSaveIfs[..];
      return false;
    }

    method RememberPwrSave(ip: int)
      requires Shape() && Distinct(pwrSaveIfs[..]) && ip != 0 && ip !in pwrSaveIfs[..]
      modifies pwrSaveIfs
      ensures pwrSaveIfs[..] == PwrAdd(old(pwrSaveIfs[..]), ip) && Distinct(pwrSaveIfs[..])
    {
      ghost var p := pwrSaveIfs[..];
      var cnt := 0;
      while cnt < MAX_WIFI_CLIENTS
        invariant 0 <= cnt <= MAX_WIFI_CLIENTS
        invariant pwrSaveIfs[..] == p
        invariant forall i :: 0 <= i < cnt ==> p[i] != 0
      {
        if pwrSaveIfs[cnt] == 0 {
          pwrSaveIfs[cnt] := ip;
          IsFirst(p, (x: int) => x == 0, cnt);
          assert pwrSaveIfs[..] == p[cnt := ip];
          return;
        }
        cnt := cnt + 1;
      }
      IsFirst(p, (x: int) => x == 0, cnt);
    }

    /** A client leaves power save: its connections are offered to the hardware again, and those the driver
        refuses are forgotten; that is all of them when there is no table. */
    method ResetPwrSaveIf(ip: int) returns (ret: int)
      requires Valid()
      modifies `curCnt, driver, cache, pwrSaveIfs
      ensures Valid() && driver.open == old(driver.open) && driver.stuck == old(driver.stuck)
      ensures old(driver.refused) <= driver.refused
      ensures ret == -1
      ensures ip == 0 ==>
        cache[..] == old(cache[..]) && driver.rules == old(driver.rules) && driver.refused == old(driver.refused)
          && pwrSaveIfs[..] == old(pwrSaveIfs[..])
      ensures ip != 0 ==>
        && pwrSaveIfs[..] == PwrDrop(old(pwrSaveIfs[..]), ip)
        && Adding(old(cache[..]), cache[..], driver.refused[|old(driver.refused)|..], Parked(ip), cache.Length)
        && (natTableHdl == 0 ==> Emptied(old(cache[..]), cache[..], Parked(ip), cache.Length))
    {
      OkParts(cache[..], driver.rules, leaked, curCnt);
      hide SlotsOk, HwOk, Ok, Adding, Distinct, PwrDrop;
      if ip == 0 { return -1; }
      ghost var s0, refused0 := cache[..], driver.refused;
      ForgetPwrSave(ip);
      var cnt := 0;
      ghost var refused: seq<HwRule> := [];
      AddingNone(s0, Parked(ip));
      ParkedUsed(s0, ip);
      while cnt < cache.Length
        invariant 0 <= cnt <= cache.Length
        invariant Ok(cache[..], driver.rules, leaked, curCnt) && TableOk() && Distinct(pwrSaveIfs[..])
        invariant pwrSaveIfs[..] == PwrDrop(old(pwrSaveIfs[..]), ip)
        invariant driver.open == old(driver.open) && driver.stuck == old(driver.stuck)
        invariant driver.refused == refused0 + refused
        invariant Adding(s0, cache[..], refused, Parked(ip), cnt)
        invariant natTableHdl == 0 ==> Emptied(s0, cache[..], Parked(ip), cnt)
      {
        AddingAhead(s0, cache[..], refused, Parked(ip), cnt);
        var picked := cache[cnt].tuple.privateIp == ip && !cache[cnt].enabled;
        refused := OfferNext(cnt, picked, s0, Parked(ip), refused0, refused);
        cnt := cnt + 1;
      }
      return -1;
    }

    /** A client leaves: its rules go, its connections stay cached, and it is in power save no more. */
    method DelEntriesOnClntDiscon(ip: int) returns (ret: int)
      requires Valid()
      modifies `curCnt, driver, cache, pwrSaveIfs
      ensures Valid() && driver.open == old(driver.open) && driver.refused == old(driver.refused)
      ensures curCnt == old(curCnt)
      ensures old(driver.stuck) <= driver.stuck
      ensures ret == if ip == 0 then -1 else 0
      ensures ip == 0 ==>
        cache[..] == old(cache[..]) && driver.rules == old(driver.rules) && driver.stuck == old(driver.stuck)
          && pwrSaveIfs[..] == old(pwrSaveIfs[..])
      ensures ip != 0 ==>
        && pwrSaveIfs[..] == PwrDrop(old(pwrSaveIfs[..]), ip)
        && Dropping(old(cache[..]), cache[..], driver.stuck[|old(driver.stuck)|..], Installed(ip), Disable,
            cache.Length)
    {
      OkParts(cache[..], driver.rules, leaked, curCnt);
      hide SlotsOk, HwOk, Ok, Dropping, Distinct, PwrDrop;
      if ip == 0 { return -1; }
      ghost var s0, stuck0 := cache[..], driver.stuck;
      ForgetPwrSave(ip);
      var cnt := 0;
      ghost var stuck: seq<int> := [];
      DroppingNone(s0, Installed(ip), Disable);
      while cnt < cache.Length
        invariant 0 <= cnt <= cache.Length
        invariant Ok(cache[..], driver.rules, leaked, curCnt) && TableOk() && Distinct(pwrSaveIfs[..])
        invariant pwrSaveIfs[..] == PwrDrop(old(pwrSaveIfs[..]), ip)
        invariant driver.open == old(driver.open) && driver.refused == old(driver.refused) && curCnt == old(curCnt)
        invariant driver.stuck == stuck0 + stuck
        invariant Dropping(s0, cache[..], stuck, Installed(ip), Disable, cnt)
      {
        var picked := cache[cnt].tuple.privateIp == ip && cache[cnt].enabled;
        if picked { EnabledIsUsed(cache[..], cnt, driver.rules, leaked, curCnt); }
        var off := cache[cnt].(enabled := false);
        stuck := WithdrawNext(cnt, picked, off, s0, old(driver.rules), Installed(ip), Disable, stuck0, stuck);
        cnt := cnt + 1;
      }
      return 0;
    }

    /** In STA mode the leaving client is the target, and its connections are forgotten. */
    method DelEntriesOnSTAClntDiscon(ip: int) returns (ret: int)
      requires Valid()
      modifies `curCnt, driver, cache
      ensures Valid() && driver.open == old(driver.open) && driver.refused == old(driver.refused)
      ensures old(driver.stuck) <= driver.stuck
      ensures ret == if ip == 0 then -1 else 0
      ensures ip == 0 ==>
        cache[..] == old(cache[..]) && driver.rules == old(driver.rules) && driver.stuck == old(driver.stuck)
      ensures ip != 0 ==>
        Dropping(old(cache[..]), cache[..], driver.stuck[|old(driver.stuck)|..], Targets(ip), Forget, cache.Length)
    {
      OkParts(cache[..], driver.rules, leaked, curCnt);
      hide SlotsOk, HwOk, Ok, Dropping, Distinct;
      if ip == 0 { return -1; }
      ghost var s0, stuck0 := cache[..], driver.stuck;
      var cnt := 0;
      ghost var stuck: seq<int> := [];
      DroppingNone(s0, Targets(ip), Forget);
      while cnt < cache.Length
        invariant 0 <= cnt <= cache.Length
        invariant Ok(cache[..], driver.rules, leaked, curCnt) && TableOk()
        invariant driver.open == old(driver.open) && driver.refused == old(driver.refused)
        invariant driver.stuck == stuck0 + stuck
        invariant Dropping(s0, cache[..], stuck, Targets(ip), Forget, cnt)
      {
        var picked := cache[cnt].tuple.targetIp == ip;
        stuck := WithdrawNext(cnt, picked, ZERO, s0, old(driver.rules), Targets(ip), Forget, stuck0, stuck);
        cnt := cnt + 1;
      }
      return 0;
    }

    // ---------- Connections waiting for their interface ----------

    /** A connection whose interface is not up yet waits in the temp table, unless it is known already. */
    method AddTempEntry(entry: Entry)
      requires Valid()
      modifies temp
      ensures Valid()
      ensures temp[..] ==
        if UsesAlg(entry.tuple, algPorts) || Cached(cache[..], entry.tuple) then old(temp[..])
        else TempAdd(old(temp[..]), entry)
    {
      var algPrivate := IsAlgPort(entry.tuple.protocol, entry.tuple.privatePort);
      var algTarget := IsAlgPort(entry.tuple.protocol, entry.tuple.targetPort);
      if algPrivate || algTarget { return; }
      var dup := ChkForDup(entry);
      if dup { return; }
      ghost var t := temp[..];
      var cnt := 0;
      while cnt < MAX_TEMP_ENTRIES
        invariant 0 <= cnt <= MAX_TEMP_ENTRIES
        invariant forall i :: 0 <= i < cnt ==> t[i].tuple != entry.tuple
      {
        if temp[cnt].tuple == entry.tuple {
          assert t[cnt].tuple == entry.tuple;
          return;
        }
        cnt := cnt + 1;
      }
      cnt := 0;
      while cnt < MAX_TEMP_ENTRIES
        invariant 0 <= cnt <= MAX_TEMP_ENTRIES
        invariant forall i :: 0 <= i < cnt ==> !IsBlank(t[i])
        invariant temp[..] == t
      {
        if temp[cnt].tuple.privateIp == 0 && temp[cnt].tuple.targetIp == 0 {
          temp[cnt] := entry;
          IsFirst(t, IsBlank, cnt);
          assert temp[..] == t[cnt := entry];
          return;
        }
        cnt := cnt + 1;
      }
      IsFirst(t, IsBlank, cnt);
    }

    method DeleteTempEntry(entry: Entry)
      requires Valid()
      modifies temp
      ensures Valid()
      ensures temp[..] == TempDrop(old(temp[..]), entry.tuple)
    {
      ghost var t := temp[..];
      var cnt := 0;
      while cnt < MAX_TEMP_ENTRIES
        invariant 0 <= cnt <= MAX_TEMP_ENTRIES
        invariant forall i :: 0 <= i < cnt ==> !Is(entry.tuple)(t[i])
        invariant temp[..] == t
      {
        if temp[cnt].tuple == entry.tuple {
          temp[cnt] := ZERO;
          IsFirst(t, Is(entry.tuple), cnt);
          assert temp[..] == t[cnt := ZERO];
          return;
        }
        cnt := cnt + 1;
      }
      IsFirst(t, Is(entry.tuple), cnt);
    }

    /** The interface with address ip is up (isAdd) or gone: its waiting connections are added, in dummy form
        if it is not behind the NAT, and leave the temp table; one that cannot be added stays. */
    method FlushTempEntries(ip: int, isAdd: bool, isDummy: bool) returns (ghost trace: seq<Snapshot>)
      requires Valid()
      modifies `curCnt, driver, cache, temp
      ensures Valid() && driver.open == old(driver.open)
      ensures Flushes(trace, old(Snap(this)), Snap(this), Flush(ip, isAdd, isDummy, pubIpAddr), algPorts)
    {
      hide Ok, TableOk, Distinct, Place, PlaceAt, Flushing;
      ghost var f := Flush(ip, isAdd, isDummy, pubIpAddr);
      trace := [Snap(this)];
      FlushingNone(trace, f, algPorts);
      var cnt := 0;
      while cnt < MAX_TEMP_ENTRIES
        invariant 0 <= cnt <= MAX_TEMP_ENTRIES
        invariant Valid() && driver.open == old(driver.open)
        invariant |trace| == cnt + 1 && trace[0] == old(Snap(this)) && trace[cnt] == Snap(this)
        invariant Flushing(trace, f, algPorts)
      {
        if temp[cnt].tuple.privateIp == ip || temp[cnt].tuple.targetIp == ip {
          FlushSlot(cnt, isAdd, isDummy, f);
        } else {
          StaysPut(Snap(this), cnt, f, algPorts);
        }
        FlushingOn(trace, Snap(this), f, algPorts);
        trace := trace + [Snap(this)];
        cnt := cnt + 1;
      }
    }

    /** What FlushTempEntries does with an entry that concerns the address. */
    method FlushSlot(cnt: int, isAdd: bool, isDummy: bool, ghost f: Flush)
      requires Valid() && 0 <= cnt < MAX_TEMP_ENTRIES && Concerns(temp[cnt], f.ip)
      requires f.isAdd == isAdd && f.isDummy == isDummy && f.pubIp == pubIpAddr
      modifies `curCnt, driver, cache, temp
      ensures Valid() && driver.open == old(driver.open)
      ensures Place(old(Snap(this)), Snap(this), cnt, f, algPorts)
    {
      hide Ok, TableOk, Distinct, Answered;
      ghost var n := Snap(this);
      if isAdd {
        if temp[cnt].publicIp == pubIpAddr {
          if isDummy {
            var t := temp[cnt].tuple.(privateIp := temp[cnt].publicIp, privatePort := temp[cnt].publicPort);
            temp[cnt] := temp[cnt].(tuple := t);
          }
          ghost var o := Offered(n.temp[cnt], isDummy);
          assert temp[..] == n.temp[cnt := o];
          var ret := AddEntry(temp[cnt]);
          AddedAside(n, n.(temp := n.temp[cnt := o]), Snap(this), o, ret, algPorts);
          if ret != 0 { return; }
        }
      }
      temp[cnt] := ZERO;
      assert temp[..] == n.temp[cnt := ZERO];
    }
  }

  const HasAddress: Pick := (e: Entry) => e.tuple.privateIp != 0

  lemma AddressesUsed(s: seq<Entry>)
    ensures OnlyUsed(s, HasAddress)
  {
  }

  lemma AddingAhead(s: seq<Entry>, s': seq<Entry>, refused: seq<HwRule>, picks: Pick, i: int)
    requires Adding(s, s', refused, picks, i) && 0 <= i < |s'|
    ensures |s'| == |s| && s'[i] == s[i]
  {
  }

  /** Of the first `upto` slots, those that were picked are empty now. */
  predicate Emptied(s: seq<Entry>, s': seq<Entry>, picks: Pick, upto: int) {
    |s'| == |s| && forall i :: 0 <= i < |s| && i < upto && picks(s[i]) ==> s'[i] == ZERO
  }

  lemma EmptiedNext(s: seq<Entry>, s': seq<Entry>, picks: Pick, i: int, e: Entry)
    requires Emptied(s, s', picks, i) && 0 <= i < |s'| && (picks(s[i]) ==> e == ZERO)
    ensures Emptied(s, s'[i := e], picks, i + 1) && s'[i := s'[i]] == s'
  {
  }

  function Installed(ip: int): Pick { (e: Entry) => e.tuple.privateIp == ip && e.enabled }
  function Parked(ip: int): Pick { (e: Entry) => e.tuple.privateIp == ip && !e.enabled }
  function Targets(ip: int): Pick { (e: Entry) => e.tuple.targetIp == ip }
  const Park: Entry -> Entry := (e: Entry) => e.(enabled := false, ruleHdl := 0)
  const Disable: Entry -> Entry := (e: Entry) => e.(enabled := false)
  const Forget: Entry -> Entry := (e: Entry) => ZERO

  lemma ParkedUsed(s: seq<Entry>, ip: int)
    requires ip != 0
    ensures OnlyUsed(s, Parked(ip))
  {
  }

  lemma DroppingAhead(s: seq<Entry>, s': seq<Entry>, stuck: seq<int>, picks: Pick, off: Entry -> Entry, i: int)
    requires Dropping(s, s', stuck, picks, off, i) && 0 <= i < |s'|
    ensures |s'| == |s| && s'[i] == s[i]
  {
  }

  /** The power-save list with ip added in the first free place, if there is one. */
  function PwrAdd(p: seq<int>, ip: int): seq<int> {
    if ip in p || FirstZero(p) == |p| then p else p[FirstZero(p) := ip]
  }

  function PwrDrop(p: seq<int>, ip: int): seq<int> {
    seq(|p|, i requires 0 <= i < |p| => if p[i] == ip then 0 else p[i])
  }

  lemma PwrDropAt(p: seq<int>, ip: int, i: int)
    requires Distinct(p) && 0 <= i < |p| && p[i] == ip && ip != 0
    ensures PwrDrop(p, ip) == p[i := 0]
  {
  }

  lemma PwrDropNone(p: seq<int>, ip: int)
    requires ip !in p
    ensures PwrDrop(p, ip) == p
  {
  }

  lemma NotIn(s: seq<Entry>, t: Tuple)
    requires !Cached(s, t)
    ensures forall i :: 0 <= i < |s| ==> s[i].tuple != t
  {
  }

  lemma NotCached(s: seq<Entry>, t: Tuple)
    requires SlotsOk(s) && forall i :: 0 <= i < |s| ==> s[i].tuple != t
    ensures !Cached(s, t) && Conns(s) - {t} == Conns(s) && Active(s) - {t} == Active(s)
  {
    assert t !in Conns(s);
  }

  lemma OnlyMatch(s: seq<Entry>, i: int)
    requires SlotsOk(s) && 0 <= i < |s|
    ensures forall j :: 0 <= j < |s| && j != i && s[j].tuple == s[i].tuple ==> s[j] == ZERO && s[i] == ZERO
    ensures s[i].tuple == ZERO_TUPLE ==> s[i] == ZERO
    ensures s[i].enabled ==> s[i].tuple in Active(s)
    ensures Cached(s, s[i].tuple)
  {
    if s[i].enabled { assert Live(s, i); }
  }

  lemma AddingStep(s: seq<Entry>, s': seq<Entry>, refused: seq<HwRule>, picks: Pick, i: int, added: bool, e: Entry)
    requires SlotsOk(s) && OnlyUsed(s, picks) && Adding(s, s', refused, picks, i) && 0 <= i < |s| && picks(s[i])
    requires e == if added then s[i].(enabled := true, ruleHdl := e.ruleHdl) else ZERO
    ensures Adding(s, s'[i := e], refused + (if added then [] else [RuleOf(s[i])]), picks, i + 1)
  {
    if added {
      AddingAccepted(s, s', refused, picks, i, e);
      assert refused + [] == refused;
    } else {
      AddingRefused(s, s', refused, picks, i);
    }
  }

  lemma DroppingStep(s: seq<Entry>, s': seq<Entry>, stuck: seq<int>, picks: Pick, off: Entry -> Entry, i: int,
                     done: bool,
                     rules: map<int, HwRule>, leaked: set<int>)
    requires HwOk(s, rules, leaked) && Dropping(s, s', stuck, picks, off, i)
    requires 0 <= i < |s| && picks(s[i]) && s[i].enabled
    ensures var s1, stuck1 := if done then s'[i := off(s[i])] else s', stuck + if done then [] else [s[i].ruleHdl];
      Dropping(s, s1, stuck1, picks, off, i + 1)
  {
    if done {
      DroppingDone(s, s', stuck, picks, off, i);
      assert stuck + [] == stuck;
    } else {
      DroppingStuck(s, s', stuck, picks, off, i, rules, leaked);
    }
  }

  lemma PickedIsUsed(s0: seq<Entry>, s: seq<Entry>, i: int, picks: Pick)
    requires OnlyUsed(s0, picks) && 0 <= i < |s0| && |s| == |s0| && s[i] == s0[i] && picks(s0[i])
    ensures Used(s, i)
  {
  }

  lemma DroppingNone(s: seq<Entry>, picks: Pick, off: Entry -> Entry)
    ensures Dropping(s, s, [], picks, off, 0)
  {
  }

  lemma AddingNone(s: seq<Entry>, picks: Pick)
    ensures Adding(s, s, [], picks, 0)
  {
  }

  lemma OkParts(s: seq<Entry>, rules: map<int, HwRule>, leaked: set<int>, count: int)
    requires Ok(s, rules, leaked, count)
    ensures SlotsOk(s) && HwOk(s, rules, leaked)
  {
  }

  lemma OkMiscounted(s: seq<Entry>, rules: map<int, HwRule>, leaked: set<int>, count: int)
    requires Ok(s, rules, leaked, count)
    ensures !Ok(s, rules, leaked, count - 1)
  {
  }
}

/** The NAT connection cache of IPACM_Conntrack_NATApp.cpp as a sequence of slots, the map of connections
    it stands for, and its agreement with the hardware NAT table. */
module NatModel {

  /** The five fields by which entries are compared. */
  datatype Tuple = Tuple(privateIp: int, targetIp: int, privatePort: int, targetPort: int, protocol: int)

  /** nat_table_entry */
  datatype Entry = Entry(tuple: Tuple, publicIp: int, publicPort: int, dstNat: bool, timestamp: int,
                         enabled: bool, ruleHdl: int)

  /** ipa_nat_ipv4_rule */
  datatype HwRule = HwRule(tuple: Tuple, publicPort: int)

  /** What a cached entry says about its connection, apart from where and whether it is installed. */
  datatype Conn = Conn(publicIp: int, publicPort: int, dstNat: bool, timestamp: int)

  const ZERO_TUPLE := Tuple(0, 0, 0, 0, 0)
  const ZERO := Entry(ZERO_TUPLE, 0, 0, false, 0, false, 0)

  function RuleOf(e: Entry): HwRule { HwRule(e.tuple, e.publicPort) }

  function ConnOf(e: Entry): Conn { Conn(e.publicIp, e.publicPort, e.dstNat, e.timestamp) }

  predicate Complete(t: Tuple) {
    t.privateIp != 0 && t.targetIp != 0 && t.privatePort != 0 && t.targetPort != 0 && t.protocol != 0
  }

  predicate Used(s: seq<Entry>, i: int) { 0 <= i < |s| && s[i].tuple != ZERO_TUPLE }

  predicate Live(s: seq<Entry>, i: int) { 0 <= i < |s| && s[i].enabled }

  /** A free slot is all zero, a used one has a complete tuple, and no two used ones have the same. */
  predicate SlotsOk(s: seq<Entry>) {
    && (forall i :: 0 <= i < |s| ==> s[i] == ZERO || Complete(s[i].tuple))
    && (forall i, j :: 0 <= i < j < |s| && s[i].tuple == s[j].tuple ==> s[i].tuple == ZERO_TUPLE)
  }

  function UsedSlots(s: seq<Entry>): set<int> { set i | 0 <= i < |s| && Used(s, i) }

  ghost function Conns(s: seq<Entry>): map<Tuple, Conn>
    requires SlotsOk(s)
  {
    map i | 0 <= i < |s| && Used(s, i) :: s[i].tuple := ConnOf(s[i])
  }

  /** The connections that are installed. */
  function Active(s: seq<Entry>): set<Tuple> { set i | 0 <= i < |s| && Live(s, i) :: s[i].tuple }

  function Handles(s: seq<Entry>): set<int> { set i | 0 <= i < |s| && Live(s, i) :: s[i].ruleHdl }

  /** The hardware holds one rule, with the same fields and handle, for each enabled entry; besides them
      only `leaked` rules, of entries forgotten although the driver failed to delete their rule. */
  ghost predicate HwOk(s: seq<Entry>, rules: map<int, HwRule>, leaked: set<int>) {
    && rules.Keys == Handles(s) + leaked
    && Handles(s) !! leaked
    && (forall i :: Live(s, i) ==> s[i].ruleHdl in rules && rules[s[i].ruleHdl] == RuleOf(s[i]))
    && (forall i, j :: Live(s, i) && Live(s, j) && s[i].ruleHdl == s[j].ruleHdl ==> i == j)
  }

  predicate Distinct(pwr: seq<int>) {
    forall i, j :: 0 <= i < j < |pwr| && pwr[i] == pwr[j] ==> pwr[i] == 0
  }

  // ---------- One slot filled ----------

  lemma FillSlot(s: seq<Entry>, i: int, e: Entry)
    requires SlotsOk(s) && 0 <= i < |s| && s[i].tuple == ZERO_TUPLE
    requires Complete(e.tuple) && forall j :: 0 <= j < |s| ==> s[j].tuple != e.tuple
    ensures SlotsOk(s[i := e])
    ensures UsedSlots(s[i := e]) == UsedSlots(s) + {i} && i !in UsedSlots(s)
    ensures Conns(s[i := e]) == Conns(s)[e.tuple := ConnOf(e)] && e.tuple !in Conns(s)
  {
    var s' := s[i := e];
    assert forall j :: Used(s', j) == (Used(s, j) || j == i);
    FillConns(s, i, e);
  }

  lemma FillConns(s: seq<Entry>, i: int, e: Entry)
    requires SlotsOk(s) && 0 <= i < |s| && s[i].tuple == ZERO_TUPLE
    requires Complete(e.tuple) && forall j :: 0 <= j < |s| ==> s[j].tuple != e.tuple
    requires SlotsOk(s[i := e])
    ensures Conns(s[i := e]) == Conns(s)[e.tuple := ConnOf(e)] && e.tuple !in Conns(s)
  {
    var s' := s[i := e];
    assert Used(s', i);
    forall j | Used(s, j) ensures s[j].tuple in Conns(s') && Conns(s')[s[j].tuple] == ConnOf(s[j]) {
      assert Used(s', j) && s'[j] == s[j];
    }
    forall j | Used(s', j) && j != i ensures s'[j].tuple in Conns(s) {
      assert Used(s, j);
    }
  }

  lemma FillActive(s: seq<Entry>, i: int, e: Entry)
    requires SlotsOk(s) && 0 <= i < |s| && s[i].tuple == ZERO_TUPLE
    ensures Active(s[i := e]) == Active(s) + if e.enabled then {e.tuple} else {}
  {
    EnableActive(s, i, e);
  }

  /** A slot that was not live is written. */
  lemma EnableActive(s: seq<Entry>, i: int, e: Entry)
    requires 0 <= i < |s| && !s[i].enabled
    ensures Active(s[i := e]) == Active(s) + if e.enabled then {e.tuple} else {}
    ensures Handles(s[i := e]) == Handles(s) + if e.enabled then {e.ruleHdl} else {}
  {
    var s' := s[i := e];
    assert forall j :: j != i ==> Live(s', j) == Live(s, j);
    assert Live(s', i) == e.enabled;
    forall t | t in Active(s) ensures t in Active(s') {
      var j :| 0 <= j < |s| && Live(s, j) && s[j].tuple == t;
      assert Live(s', j) && s'[j].tuple == t;
    }
    forall h | h in Handles(s) ensures h in Handles(s') {
      var j :| 0 <= j < |s| && Live(s, j) && s[j].ruleHdl == h;
      assert Live(s', j) && s'[j].ruleHdl == h;
    }
  }

  /** The rule of a newly enabled slot has been added. */
  lemma HwEnable(s: seq<Entry>, i: int, e: Entry, rules: map<int, HwRule>, leaked: set<int>)
    requires HwOk(s, rules, leaked) && 0 <= i < |s| && !s[i].enabled && e.enabled && e.ruleHdl !in rules
    ensures HwOk(s[i := e], rules[e.ruleHdl := RuleOf(e)], leaked)
  {
    EnableActive(s, i, e);
    var s' := s[i := e];
    assert forall j :: Live(s', j) && j != i ==> Live(s, j) && s'[j].ruleHdl in Handles(s);
  }

  /** A slot stays out of the hardware. */
  lemma HwIdle(s: seq<Entry>, i: int, e: Entry, rules: map<int, HwRule>, leaked: set<int>)
    requires HwOk(s, rules, leaked) && 0 <= i < |s| && !s[i].enabled && !e.enabled
    ensures HwOk(s[i := e], rules, leaked)
  {
    EnableActive(s, i, e);
    var s' := s[i := e];
    assert forall j :: Live(s', j) ==> Live(s, j) && s'[j] == s[j];
  }

  // ---------- One slot disabled or cleared ----------

  lemma DisableHandles(s: seq<Entry>, i: int, e: Entry, rules: map<int, HwRule>, leaked: set<int>)
    requires HwOk(s, rules, leaked) && 0 <= i < |s| && s[i].enabled && !e.enabled
    ensures Handles(s[i := e]) == Handles(s) - {s[i].ruleHdl} && s[i].ruleHdl in Handles(s)
  {
    var s' := s[i := e];
    assert Live(s, i);
    assert forall j :: Live(s', j) <==> j != i && Live(s, j);
    forall h | h in Handles(s) && h != s[i].ruleHdl ensures h in Handles(s') {
      var j :| 0 <= j < |s| && Live(s, j) && s[j].ruleHdl == h;
      assert Live(s', j) && s'[j].ruleHdl == h;
    }
  }

  /** Its rule has been deleted. */
  lemma HwDisable(s: seq<Entry>, i: int, e: Entry, rules: map<int, HwRule>, leaked: set<int>)
    requires HwOk(s, rules, leaked) && 0 <= i < |s| && s[i].enabled && !e.enabled
    ensures HwOk(s[i := e], rules - {s[i].ruleHdl}, leaked)
  {
    DisableHandles(s, i, e, rules, leaked);
    hide Handles;
    var s' := s[i := e];
    assert forall j :: Live(s', j) <==> j != i && Live(s, j);
    assert Live(s, i);
    var h := s[i].ruleHdl;
    assert (rules - {h}).Keys == rules.Keys - {h};
  }

  /** Its rule could not be deleted. */
  lemma HwLeak(s: seq<Entry>, i: int, e: Entry, rules: map<int, HwRule>, leaked: set<int>)
    requires HwOk(s, rules, leaked) && 0 <= i < |s| && s[i].enabled && !e.enabled
    ensures HwOk(s[i := e], rules, leaked + {s[i].ruleHdl})
  {
    DisableHandles(s, i, e, rules, leaked);
    hide Handles;
    var s' := s[i := e];
    assert forall j :: Live(s', j) <==> j != i && Live(s, j);
  }

  lemma DisableActive(s: seq<Entry>, i: int, e: Entry)
    requires SlotsOk(s) && 0 <= i < |s| && Used(s, i) && !e.enabled
    ensures Active(s[i := e]) == Active(s) - {s[i].tuple}
  {
    var s' := s[i := e];
    assert forall j :: Live(s', j) <==> j != i && Live(s, j);
    forall t | t in Active(s) && t != s[i].tuple ensures t in Active(s') {
      var j :| 0 <= j < |s| && Live(s, j) && s[j].tuple == t;
      assert Live(s', j) && s'[j].tuple == t;
    }
    forall t | t in Active(s') ensures t != s[i].tuple {
      var j :| 0 <= j < |s'| && Live(s', j) && s'[j].tuple == t;
      assert s[j] == s'[j] && j != i;
    }
  }

  lemma ClearSlot(s: seq<Entry>, i: int)
    requires SlotsOk(s) && Used(s, i)
    ensures SlotsOk(s[i := ZERO])
    ensures UsedSlots(s[i := ZERO]) == UsedSlots(s) - {i} && i in UsedSlots(s)
    ensures Conns(s[i := ZERO]) == Conns(s) - {s[i].tuple} && s[i].tuple in Conns(s)
  {
    var s' := s[i := ZERO];
    assert forall j :: Used(s', j) == (j != i && Used(s, j));
    ClearConns(s, i);
  }

  lemma ClearConns(s: seq<Entry>, i: int)
    requires SlotsOk(s) && Used(s, i) && SlotsOk(s[i := ZERO])
    ensures Conns(s[i := ZERO]) == Conns(s) - {s[i].tuple} && s[i].tuple in Conns(s)
  {
    var s' := s[i := ZERO];
    assert s'[i := s[i]] == s;
    assert forall j :: 0 <= j < |s| ==> s'[j].tuple != s[i].tuple;
    FillConns(s', i, s[i]);
    hide Conns;
    assert Conns(s')[s[i].tuple := ConnOf(s[i])] - {s[i].tuple} == Conns(s');
  }

  /** Only whether and where a used slot is installed changes. */
  lemma ToggleSlot(s: seq<Entry>, i: int, e: Entry)
    requires SlotsOk(s) && Used(s, i) && e == s[i].(enabled := e.enabled, ruleHdl := e.ruleHdl)
    ensures SlotsOk(s[i := e]) && UsedSlots(s[i := e]) == UsedSlots(s)
    ensures Conns(s[i := e]) == Conns(s)
  {
    var s' := s[i := e];
    assert forall j :: 0 <= j < |s| ==> s'[j].tuple == s[j].tuple && ConnOf(s'[j]) == ConnOf(s[j]);
    SameConns(s, s');
  }

  lemma SameConns(s: seq<Entry>, s': seq<Entry>)
    requires SlotsOk(s) && |s'| == |s|
    requires forall j :: 0 <= j < |s| ==> s'[j].tuple == s[j].tuple && ConnOf(s'[j]) == ConnOf(s[j])
    requires forall j :: 0 <= j < |s| ==> s'[j] == ZERO || Complete(s'[j].tuple)
    ensures SlotsOk(s') && UsedSlots(s') == UsedSlots(s) && Conns(s') == Conns(s)
  {
    assert forall j :: Used(s', j) == Used(s, j);
    forall t | t in Conns(s) ensures t in Conns(s') && Conns(s')[t] == Conns(s)[t] {
      var j :| 0 <= j < |s| && Used(s, j) && s[j].tuple == t;
      assert Used(s', j) && s'[j].tuple == t;
    }
    forall t | t in Conns(s') ensures t in Conns(s) {
      var j :| 0 <= j < |s'| && Used(s', j) && s'[j].tuple == t;
      assert Used(s, j) && s[j].tuple == t;
    }
  }

  // ---------- Whole caches ----------

  /** The number of used slots is the number of connections. */
  lemma {:induction false} CountIsConns(s: seq<Entry>)
    requires SlotsOk(s)
    ensures |UsedSlots(s)| == |Conns(s)|
    decreases |UsedSlots(s)|
  {
    if i :| 0 <= i < |s| && Used(s, i) {
      ClearSlot(s, i);
      hide Conns, UsedSlots, SlotsOk;
      CountIsConns(s[i := ZERO]);
      OneKeyLess(Conns(s), s[i].tuple);
    } else {
      assert UsedSlots(s) == {};
      assert Conns(s) == map[];
    }
  }

  lemma OneKeyLess(c: map<Tuple, Conn>, t: Tuple)
    requires t in c
    ensures |c| == |c - {t}| + 1
  {
    assert c.Keys == (c - {t}).Keys + {t};
    assert |c.Keys| == |c| && |(c - {t}).Keys| == |c - {t}|;
  }

  lemma FreeSlotLeft(s: seq<Entry>)
    ensures |UsedSlots(s)| <= |s|
    ensures |UsedSlots(s)| < |s| <==> exists i :: 0 <= i < |s| && !Used(s, i)
  {
    var all := Range(|s|);
    if i :| 0 <= i < |s| && !Used(s, i) {
      SubsetSize(UsedSlots(s), all - {i});
    } else {
      assert UsedSlots(s) == all;
    }
  }

  function Range(n: nat): (r: set<int>)
    ensures |r| == n && forall i :: i in r <==> 0 <= i < n
  {
    if n == 0 then {} else Range(n - 1) + {n - 1}
  }

  lemma {:induction false} SubsetSize<T>(a: set<T>, b: set<T>)
    requires a <= b
    ensures |a| <= |b|
  {
    if x :| x in a {
      SubsetSize(a - {x}, b - {x});
    } else {
      assert a == {};
    }
  }

  /** The rules a set of installed connections needs. */
  ghost function Rules(conns: map<Tuple, Conn>, active: set<Tuple>): set<HwRule>
    requires active <= conns.Keys
  {
    set t | t in active :: HwRule(t, conns[t].publicPort)
  }

  lemma ActiveIsCached(s: seq<Entry>)
    requires SlotsOk(s)
    ensures Active(s) <= Conns(s).Keys
  {
    forall t | t in Active(s) ensures t in Conns(s) {
      var i :| 0 <= i < |s| && Live(s, i) && s[i].tuple == t;
      assert Used(s, i);
    }
  }

  /** Without leaks the hardware holds exactly the rules of the installed connections, whichever slots and
      handles they have. */
  lemma HardwareIsActive(s: seq<Entry>, rules: map<int, HwRule>)
    requires SlotsOk(s) && HwOk(s, rules, {})
    ensures Active(s) <= Conns(s).Keys
    ensures rules.Values == Rules(Conns(s), Active(s))
    ensures |rules| == |Active(s)|
  {
    ActiveIsCached(s);
    forall r | r in rules.Values ensures r in Rules(Conns(s), Active(s)) {
      var h :| h in rules && rules[h] == r;
      assert h in Handles(s);
      var i :| 0 <= i < |s| && Live(s, i) && s[i].ruleHdl == h;
      assert Used(s, i) && s[i].tuple in Active(s);
    }
    forall r | r in Rules(Conns(s), Active(s)) ensures r in rules.Values {
      var t :| t in Active(s) && r == HwRule(t, Conns(s)[t].publicPort);
      var i :| 0 <= i < |s| && Live(s, i) && s[i].tuple == t;
      assert Used(s, i) && rules[s[i].ruleHdl] == r;
    }
    ActiveCount(s, rules);
  }

  lemma {:induction false} ActiveCount(s: seq<Entry>, rules: map<int, HwRule>)
    requires SlotsOk(s) && HwOk(s, rules, {})
    ensures |rules| == |Active(s)|
    decreases |rules.Keys|
  {
    if i :| Live(s, i) {
      hide SlotsOk, HwOk, Active, Conns;
      var e := s[i].(enabled := false);
      OneLiveLess(s, i, e, rules);
      ActiveCount(s[i := e], rules - {s[i].ruleHdl});
    } else {
      assert Handles(s) == {} && Active(s) == {};
      assert |rules.Keys| == |rules|;
    }
  }

  lemma OneLiveLess(s: seq<Entry>, i: int, e: Entry, rules: map<int, HwRule>)
    requires SlotsOk(s) && HwOk(s, rules, {}) && Live(s, i) && e == s[i].(enabled := false)
    ensures var rules' := rules - {s[i].ruleHdl};
      && SlotsOk(s[i := e]) && HwOk(s[i := e], rules', {})
      && |rules| == |rules'| + 1 && |Active(s)| == |Active(s[i := e])| + 1
      && |rules'.Keys| < |rules.Keys|
  {
    assert Used(s, i);
    LiveIsMember(s, i, rules);
    hide SlotsOk, HwOk, Active, Conns;
    HwDisable(s, i, e, rules, {});
    ToggleSlot(s, i, e);
    DisableActive(s, i, e);
    OneHandleLess(rules, s[i].ruleHdl);
  }

  lemma OneHandleLess(rules: map<int, HwRule>, h: int)
    requires h in rules
    ensures |rules| == |rules - {h}| + 1 && |(rules - {h}).Keys| < |rules.Keys|
  {
    assert rules.Keys == (rules - {h}).Keys + {h};
    assert |rules.Keys| == |rules| && |(rules - {h}).Keys| == |rules - {h}|;
  }

  lemma LiveIsMember(s: seq<Entry>, i: int, rules: map<int, HwRule>)
    requires Live(s, i) && HwOk(s, rules, {})
    ensures s[i].tuple in Active(s) && s[i].ruleHdl in rules
  {
  }
}

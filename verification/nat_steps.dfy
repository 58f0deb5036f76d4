/** What the loops of the NAT cache do slot by slot, and that each slot's step keeps the cache in order. */
module NatSteps {
  import opened NatModel

  /** The cache, its count and the hardware agree. */
  ghost predicate Ok(s: seq<Entry>, rules: map<int, HwRule>, leaked: set<int>, count: int) {
    SlotsOk(s) && HwOk(s, rules, leaked) && count == |UsedSlots(s)|
  }

  /** The first place where p holds, or the length. */
  function First<T>(s: seq<T>, p: T -> bool): (i: nat)
    ensures i <= |s| && (i < |s| ==> p(s[i]))
    ensures forall j :: 0 <= j < i ==> !p(s[j])
  {
    if s == [] || p(s[0]) then 0
    else
      assert forall j :: 1 <= j < |s| ==> s[j] == s[1..][j - 1];
      1 + First(s[1..], p)
  }

  lemma IsFirst<T>(s: seq<T>, p: T -> bool, i: int)
    requires 0 <= i <= |s| && (i < |s| ==> p(s[i]))
    requires forall j :: 0 <= j < i ==> !p(s[j])
    ensures First(s, p) == i
  {
  }

  function FirstFree(s: seq<Entry>): (i: nat)
    ensures i <= |s| && (i < |s| ==> s[i].tuple == ZERO_TUPLE)
    ensures forall j :: 0 <= j < i ==> s[j].tuple != ZERO_TUPLE
  {
    First(s, (e: Entry) => e.tuple == ZERO_TUPLE)
  }

  function FirstZero(p: seq<int>): (i: nat)
    ensures i <= |p| && (i < |p| ==> p[i] == 0)
    ensures forall j :: 0 <= j < i ==> p[j] != 0
  {
    First(p, (x: int) => x == 0)
  }

  /** There is a free slot exactly while the count is below the size. */
  lemma RoomLeft(s: seq<Entry>)
    ensures |UsedSlots(s)| <= |s| && (FirstFree(s) < |s| <==> |UsedSlots(s)| < |s|)
  {
    FreeSlotLeft(s);
    if FirstFree(s) < |s| { assert !Used(s, FirstFree(s)); }
  }

  lemma OkRoom(s: seq<Entry>, rules: map<int, HwRule>, leaked: set<int>, count: int)
    requires Ok(s, rules, leaked, count)
    ensures count <= |s| && (FirstFree(s) < |s| <==> count < |s|)
    ensures FirstFree(s) < |s| ==> s[FirstFree(s)] == ZERO
  {
    RoomLeft(s);
  }

  // ---------- Steps ----------

  lemma OkFill(s: seq<Entry>, i: int, e: Entry, rules: map<int, HwRule>, leaked: set<int>, count: int,
               rules': map<int, HwRule>)
    requires Ok(s, rules, leaked, count) && 0 <= i < |s| && s[i].tuple == ZERO_TUPLE
    requires Complete(e.tuple) && forall j :: 0 <= j < |s| ==> s[j].tuple != e.tuple
    requires if e.enabled then e.ruleHdl !in rules && rules' == rules[e.ruleHdl := RuleOf(e)] else rules' == rules
    ensures Ok(s[i := e], rules', leaked, count + 1)
    ensures Conns(s[i := e]) == Conns(s)[e.tuple := ConnOf(e)]
    ensures Active(s[i := e]) == Active(s) + if e.enabled then {e.tuple} else {}
  {
    assert s[i] == ZERO;
    hide SlotsOk, HwOk, UsedSlots, Conns, Active;
    FillSlot(s, i, e);
    FillActive(s, i, e);
    if e.enabled { HwEnable(s, i, e, rules, leaked); } else { HwIdle(s, i, e, rules, leaked); }
  }

  lemma OkClear(s: seq<Entry>, i: int, rules: map<int, HwRule>, leaked: set<int>, count: int,
                rules': map<int, HwRule>, leaked': set<int>)
    requires Ok(s, rules, leaked, count) && Used(s, i)
    requires if s[i].enabled
      then (rules' == rules - {s[i].ruleHdl} && leaked' == leaked)
        || (rules' == rules && leaked' == leaked + {s[i].ruleHdl})
      else rules' == rules && leaked' == leaked
    ensures Ok(s[i := ZERO], rules', leaked', count - 1)
    ensures Conns(s[i := ZERO]) == Conns(s) - {s[i].tuple}
    ensures Active(s[i := ZERO]) == Active(s) - {s[i].tuple}
  {
    hide SlotsOk, HwOk, UsedSlots, Conns, Active;
    ClearSlot(s, i);
    DisableActive(s, i, ZERO);
    if !s[i].enabled {
      HwIdle(s, i, ZERO, rules, leaked);
    } else if rules' == rules - {s[i].ruleHdl} && leaked' == leaked {
      HwDisable(s, i, ZERO, rules, leaked);
    } else {
      HwLeak(s, i, ZERO, rules, leaked);
    }
  }

  lemma OkOn(s: seq<Entry>, i: int, e: Entry, rules: map<int, HwRule>, leaked: set<int>, count: int)
    requires Ok(s, rules, leaked, count) && Used(s, i) && !s[i].enabled
    requires e == s[i].(enabled := true, ruleHdl := e.ruleHdl) && e.ruleHdl !in rules
    ensures Ok(s[i := e], rules[e.ruleHdl := RuleOf(e)], leaked, count)
  {
    hide SlotsOk, HwOk, UsedSlots, Conns, Active;
    ToggleSlot(s, i, e);
    HwEnable(s, i, e, rules, leaked);
  }

  lemma OkOff(s: seq<Entry>, i: int, e: Entry, rules: map<int, HwRule>, leaked: set<int>, count: int)
    requires Ok(s, rules, leaked, count) && Used(s, i) && s[i].enabled
    requires e == s[i].(enabled := false, ruleHdl := e.ruleHdl)
    ensures Ok(s[i := e], rules - {s[i].ruleHdl}, leaked, count)
  {
    hide SlotsOk, HwOk, UsedSlots, Conns, Active;
    ToggleSlot(s, i, e);
    HwDisable(s, i, e, rules, leaked);
  }

  lemma EnabledIsUsed(s: seq<Entry>, i: int, rules: map<int, HwRule>, leaked: set<int>, count: int)
    requires Ok(s, rules, leaked, count) && 0 <= i < |s| && s[i].enabled
    ensures Used(s, i)
  {
  }

  /** With no table there is nothing enabled. */
  lemma NoRulesNoneLive(s: seq<Entry>, leaked: set<int>)
    requires HwOk(s, map[], leaked)
    ensures leaked == {} && forall i :: 0 <= i < |s| ==> !s[i].enabled
  {
    assert forall i :: 0 <= i < |s| ==> Live(s, i) == s[i].enabled;
  }

  /** Reset after the table is gone. */
  lemma NoneLive(s: seq<Entry>)
    requires forall i :: 0 <= i < |s| ==> !s[i].enabled
    ensures HwOk(s, map[], {}) && Active(s) == {}
  {
    assert Handles(s) == {};
  }

  lemma SameTuples(s: seq<Entry>, s': seq<Entry>)
    requires SlotsOk(s) && |s'| == |s| && forall i :: 0 <= i < |s| ==> s'[i] == s[i].(enabled := false)
    ensures SlotsOk(s') && UsedSlots(s') == UsedSlots(s)
  {
    assert forall i :: 0 <= i < |s| ==> s'[i].tuple == s[i].tuple;
  }

  lemma OkAllOff(s: seq<Entry>, s': seq<Entry>, count: int)
    requires SlotsOk(s) && count == |UsedSlots(s)| && |s'| == |s|
    requires forall i :: 0 <= i < |s| ==> s'[i] == s[i].(enabled := false)
    ensures Ok(s', map[], {}, count) && Conns(s') == Conns(s) && Active(s') == {}
  {
    hide SlotsOk, UsedSlots, HwOk, Conns, Active;
    SameTuples(s, s');
    NoneLive(s');
    assert forall i :: 0 <= i < |s| ==> s'[i].tuple == s[i].tuple && ConnOf(s'[i]) == ConnOf(s[i]);
    SameConns(s, s');
  }

  // ---------- Loops that add rules ----------

  type Pick = Entry -> bool

  /** The slot of a connection whose rule has been offered to the driver. */
  function Added(e: Entry, hdl: int, refused: seq<HwRule>): Entry {
    if RuleOf(e) in refused then ZERO else e.(enabled := true, ruleHdl := hdl)
  }

  /** The picked slots before `upto` have been installed, or emptied if the driver refused their rule. */
  predicate Adding(s: seq<Entry>, s': seq<Entry>, refused: seq<HwRule>, picks: Pick, upto: int) {
    && |s'| == |s|
    && (forall i :: 0 <= i < |s| && i < upto ==>
        s'[i] == if picks(s[i]) then Added(s[i], s'[i].ruleHdl, refused) else s[i])
    && (forall i :: 0 <= i < |s| && i >= upto ==> s'[i] == s[i] && (picks(s[i]) ==> RuleOf(s[i]) !in refused))
  }

  predicate OnlyUsed(s: seq<Entry>, picks: Pick) {
    forall i :: 0 <= i < |s| && picks(s[i]) ==> Used(s, i)
  }

  lemma AddingSkips(s: seq<Entry>, s': seq<Entry>, refused: seq<HwRule>, picks: Pick, i: int)
    requires Adding(s, s', refused, picks, i) && 0 <= i < |s| && !picks(s[i])
    ensures Adding(s, s', refused, picks, i + 1)
  {
  }

  lemma AddingAccepted(s: seq<Entry>, s': seq<Entry>, refused: seq<HwRule>, picks: Pick, i: int, e: Entry)
    requires Adding(s, s', refused, picks, i) && 0 <= i < |s| && picks(s[i])
    requires e == s[i].(enabled := true, ruleHdl := e.ruleHdl)
    ensures Adding(s, s'[i := e], refused, picks, i + 1)
  {
  }

  lemma AddingRefused(s: seq<Entry>, s': seq<Entry>, refused: seq<HwRule>, picks: Pick, i: int)
    requires SlotsOk(s) && OnlyUsed(s, picks) && Adding(s, s', refused, picks, i) && 0 <= i < |s| && picks(s[i])
    ensures Adding(s, s'[i := ZERO], refused + [RuleOf(s[i])], picks, i + 1)
  {
    var r := RuleOf(s[i]);
    assert forall j :: 0 <= j < |s| && j != i && picks(s[j]) ==> RuleOf(s[j]) != r;
    assert forall x :: x in refused + [r] <==> x in refused || x == r;
  }

  // ---------- Loops that delete rules ----------

  predicate Stuck(e: Entry, stuck: seq<int>) { e.enabled && e.ruleHdl in stuck }

  /** The picked slots before `upto` have been turned `off`, unless the driver failed to delete their rule. */
  predicate Dropping(s: seq<Entry>, s': seq<Entry>, stuck: seq<int>, picks: Pick, off: Entry -> Entry, upto: int) {
    && |s'| == |s|
    && (forall i :: 0 <= i < |s| && i < upto ==>
        s'[i] == if picks(s[i]) && !Stuck(s[i], stuck) then off(s[i]) else s[i])
    && (forall i :: 0 <= i < |s| && i >= upto ==> s'[i] == s[i] && (s[i].enabled ==> s[i].ruleHdl !in stuck))
  }

  lemma DroppingSkips(s: seq<Entry>, s': seq<Entry>, stuck: seq<int>, picks: Pick, off: Entry -> Entry, i: int)
    requires Dropping(s, s', stuck, picks, off, i) && 0 <= i < |s| && !picks(s[i])
    ensures Dropping(s, s', stuck, picks, off, i + 1)
  {
  }

  lemma DroppingDone(s: seq<Entry>, s': seq<Entry>, stuck: seq<int>, picks: Pick, off: Entry -> Entry, i: int)
    requires Dropping(s, s', stuck, picks, off, i) && 0 <= i < |s| && picks(s[i])
    ensures Dropping(s, s'[i := off(s[i])], stuck, picks, off, i + 1)
  {
  }

  lemma DroppingStuck(s: seq<Entry>, s': seq<Entry>, stuck: seq<int>, picks: Pick, off: Entry -> Entry, i: int,
                      rules: map<int, HwRule>, leaked: set<int>)
    requires HwOk(s, rules, leaked)
    requires Dropping(s, s', stuck, picks, off, i) && 0 <= i < |s| && s[i].enabled
    ensures Dropping(s, s', stuck + [s[i].ruleHdl], picks, off, i + 1)
  {
    var h := s[i].ruleHdl;
    assert Live(s, i);
    forall j | 0 <= j < |s| && j != i && s[j].enabled ensures s[j].ruleHdl != h {
      assert Live(s, j);
    }
    assert forall x :: x in stuck + [h] <==> x in stuck || x == h;
  }
}

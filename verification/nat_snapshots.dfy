/** The NAT application at one moment: the connections that wait in its temp table, and what adding a connection and
    flushing the table do to it. */
module NatSnapshots {
  import opened NatModel
  import opened NatSteps

  /** The connection is one that goes through a client in power save. */
  predicate Asleep(t: Tuple, pwr: seq<int>) {
    (t.privateIp != 0 && t.privateIp in pwr) || (t.targetIp != 0 && t.targetIp in pwr)
  }

  predicate UsesAlg(t: Tuple, alg: seq<(int, int)>) {
    (t.protocol, t.privatePort) in alg || (t.protocol, t.targetPort) in alg
  }

  predicate Cached(s: seq<Entry>, t: Tuple) { exists i :: 0 <= i < |s| && s[i].tuple == t }

  lemma CachedAt(s: seq<Entry>, i: int)
    requires 0 <= i < |s|
    ensures Cached(s, s[i].tuple)
  {
  }

  function Stored(rule: Entry, publicIp: int, enabled: bool, hdl: int): Entry {
    Entry(rule.tuple, publicIp, rule.publicPort, rule.dstNat, 0, enabled, hdl)
  }

  datatype Snapshot = Snapshot(hdl: int, pre: int, cache: seq<Entry>, temp: seq<Entry>, pwr: seq<int>, count: int,
                               rules: map<int, HwRule>, leaked: set<int>, stuck: seq<int>, refused: seq<HwRule>)

  // ---------- Adding a connection ----------

  /** The connection can be stored: it is complete and new, and there is room. */
  predicate Fits(n: Snapshot, rule: Entry) {
    Complete(rule.tuple) && !Cached(n.cache, rule.tuple) && FirstFree(n.cache) < |n.cache|
  }

  function Filled(n: Snapshot, e: Entry): Snapshot
    requires FirstFree(n.cache) < |n.cache|
  {
    n.(cache := n.cache[FirstFree(n.cache) := e], count := n.count + 1)
  }

  /** The connection is in the first free slot and its rule in the hardware. */
  ghost predicate Put(n: Snapshot, n': Snapshot, rule: Entry) {
    && FirstFree(n.cache) < |n.cache| == |n'.cache|
    && (var hdl := n'.cache[FirstFree(n.cache)].ruleHdl;
        hdl !in n.rules && n' == Filled(n, Stored(rule, 0, true, hdl)).(rules := n.rules[hdl := RuleOf(rule)]))
  }

  /** AddEntry has answered ret to a connection. An incomplete one is dropped, and that counts as success. */
  ghost predicate Answered(n: Snapshot, n': Snapshot, rule: Entry, ret: int, alg: seq<(int, int)>) {
    if n.hdl == 0 || UsesAlg(rule.tuple, alg) then ret == -1 && n' == n
    else if !Complete(rule.tuple) then ret == 0 && n' == n
    else if !Fits(n, rule) then ret == -1 && n' == n
    else if Asleep(rule.tuple, n.pwr) then ret == 0 && n' == Filled(n, Stored(rule, 0, false, 0))
    else if ret == 0 then Put(n, n', rule)
    else ret == -1 && n' == n.(refused := n.refused + [RuleOf(rule)])
  }

  /** Adding does not look at the temp table. */
  lemma AddedAside(n: Snapshot, m: Snapshot, m': Snapshot, rule: Entry, ret: int, alg: seq<(int, int)>)
    requires m == n.(temp := m.temp) && Answered(m, m', rule, ret, alg)
    ensures Answered(n, m'.(temp := n.temp), rule, ret, alg) && m'.temp == m.temp && (ret == 0 || ret == -1)
  {
  }

  // ---------- The temp table ----------

  predicate IsBlank(e: Entry) { e.tuple.privateIp == 0 && e.tuple.targetIp == 0 }

  function Is(t: Tuple): Entry -> bool { (e: Entry) => e.tuple == t }

  function TempAdd(temp: seq<Entry>, e: Entry): seq<Entry> {
    if Cached(temp, e.tuple) || First(temp, IsBlank) == |temp| then temp else temp[First(temp, IsBlank) := e]
  }

  function TempDrop(temp: seq<Entry>, t: Tuple): seq<Entry> {
    if First(temp, Is(t)) == |temp| then temp else temp[First(temp, Is(t)) := ZERO]
  }

  lemma TempUntouched(temp: seq<Entry>, t: Tuple)
    requires !Cached(temp, t)
    ensures TempDrop(temp, t) == temp
  {
  }

  /** A new waiting connection comes and goes without a trace exactly when there was no place for it, or the first
      place whose addresses are zero was empty. */
  lemma TempRestored(temp: seq<Entry>, e: Entry)
    requires !Cached(temp, e.tuple)
    ensures var i := First(temp, IsBlank);
      TempDrop(TempAdd(temp, e), e.tuple) == temp <==> i == |temp| || temp[i] == ZERO
  {
    var i := First(temp, IsBlank);
    var t := TempAdd(temp, e);
    if i < |temp| {
      assert forall j :: 0 <= j < i ==> !Is(e.tuple)(t[j]);
      IsFirst(t, Is(e.tuple), i);
      var t' := t[i := ZERO];
      assert forall j :: 0 <= j < |temp| && j != i ==> t'[j] == temp[j];
      assert temp[i] == ZERO ==> t' == temp;
    } else {
      TempUntouched(temp, e.tuple);
    }
  }

  /** A place is empty, or holds a connection that has an address and the public address of its time. */
  predicate WaitsOk(e: Entry) { e == ZERO || (!IsBlank(e) && e.publicIp != 0) }

  predicate TempOk(temp: seq<Entry>) { forall i :: 0 <= i < |temp| ==> WaitsOk(temp[i]) }

  lemma TempAddOk(temp: seq<Entry>, e: Entry)
    requires TempOk(temp) && WaitsOk(e)
    ensures TempOk(TempAdd(temp, e))
  {
  }

  lemma TempDropOk(temp: seq<Entry>, t: Tuple)
    requires TempOk(temp)
    ensures TempOk(TempDrop(temp, t))
  {
  }

  // ---------- Flushing the temp table ----------

  /** A call of FlushTempEntries, and the public address at the time. */
  datatype Flush = Flush(ip: int, isAdd: bool, isDummy: bool, pubIp: int)

  predicate Concerns(e: Entry, ip: int) { e.tuple.privateIp == ip || e.tuple.targetIp == ip }

  /** The form in which a waiting connection is added. */
  function Offered(e: Entry, isDummy: bool): Entry {
    if isDummy then e.(tuple := e.tuple.(privateIp := e.publicIp, privatePort := e.publicPort)) else e
  }

  predicate Offers(e: Entry, f: Flush) { Concerns(e, f.ip) && f.isAdd && e.publicIp == f.pubIp }

  /** What a flush does with place i: a connection that does not concern the address stays; one that is to be added
      leaves when the adding succeeds and otherwise stays in the form in which it was offered; the others leave. */
  ghost predicate Place(n: Snapshot, n': Snapshot, i: int, f: Flush, alg: seq<(int, int)>)
    requires 0 <= i < |n.temp|
  {
    var e := n.temp[i];
    if !Concerns(e, f.ip) then n' == n
    else if !Offers(e, f) then n' == n.(temp := n.temp[i := ZERO])
    else
      var o := Offered(e, f.isDummy);
      || (n'.temp == n.temp[i := ZERO] && Answered(n, n'.(temp := n.temp), o, 0, alg))
      || (n'.temp == n.temp[i := o] && Answered(n, n'.(temp := n.temp), o, -1, alg))
  }

  ghost predicate PlaceAt(trace: seq<Snapshot>, i: int, f: Flush, alg: seq<(int, int)>) {
    0 <= i < |trace| - 1 && i < |trace[i].temp| && Place(trace[i], trace[i + 1], i, f, alg)
  }

  /** The trace of a flush that has done its first places: the moments between them. */
  ghost predicate Flushing(trace: seq<Snapshot>, f: Flush, alg: seq<(int, int)>) {
    |trace| > 0 && |trace| - 1 <= |trace[0].temp| && forall i :: 0 <= i < |trace| - 1 ==> PlaceAt(trace, i, f, alg)
  }

  /** The trace of a whole flush, from n to n'. */
  ghost predicate Flushes(trace: seq<Snapshot>, n: Snapshot, n': Snapshot, f: Flush, alg: seq<(int, int)>) {
    Flushing(trace, f, alg) && |trace| == |n.temp| + 1 && trace[0] == n && trace[|trace| - 1] == n'
  }

  lemma FlushingNone(trace: seq<Snapshot>, f: Flush, alg: seq<(int, int)>)
    requires |trace| == 1
    ensures Flushing(trace, f, alg)
  {
  }

  lemma StaysPut(n: Snapshot, i: int, f: Flush, alg: seq<(int, int)>)
    requires 0 <= i < |n.temp| && !Concerns(n.temp[i], f.ip)
    ensures Place(n, n, i, f, alg)
  {
  }

  lemma FlushingOn(trace: seq<Snapshot>, n: Snapshot, f: Flush, alg: seq<(int, int)>)
    requires Flushing(trace, f, alg) && |trace| - 1 < |trace[0].temp|
    requires var last := trace[|trace| - 1]; |trace| - 1 < |last.temp| && Place(last, n, |trace| - 1, f, alg)
    ensures Flushing(trace + [n], f, alg)
  {
    var trace' := trace + [n];
    forall i | 0 <= i < |trace| ensures PlaceAt(trace', i, f, alg) {
      assert i < |trace| - 1 ==> PlaceAt(trace, i, f, alg);
    }
  }

  /** Only free slots have been written. */
  predicate Extends(s: seq<Entry>, s': seq<Entry>) {
    |s'| == |s| && forall i :: 0 <= i < |s| && s[i].tuple != ZERO_TUPLE ==> s'[i] == s[i]
  }

  lemma StillCached(s: seq<Entry>, s': seq<Entry>, t: Tuple)
    requires Extends(s, s') && t != ZERO_TUPLE && Cached(s, t)
    ensures Cached(s', t)
  {
    var i :| 0 <= i < |s| && s[i].tuple == t;
    CachedAt(s', i);
  }

  lemma AddedCached(n: Snapshot, n': Snapshot, rule: Entry, ret: int, alg: seq<(int, int)>)
    requires Answered(n, n', rule, ret, alg)
    ensures Extends(n.cache, n'.cache) && n'.temp == n.temp
    ensures ret == 0 && Complete(rule.tuple) ==> Cached(n'.cache, rule.tuple)
    ensures ret != 0 ==> n'.cache == n.cache && n'.rules == n.rules
  {
    var i := FirstFree(n.cache);
    if n'.cache != n.cache { CachedAt(n'.cache, i); }
  }

  lemma PlaceEffect(n: Snapshot, n': Snapshot, i: int, f: Flush, alg: seq<(int, int)>)
    requires 0 <= i < |n.temp| && Place(n, n', i, f, alg)
    ensures |n'.temp| == |n.temp| && n'.temp == n.temp[i := n'.temp[i]] && Extends(n.cache, n'.cache)
    ensures n'.hdl == n.hdl && n.refused <= n'.refused
    ensures WaitsOk(n.temp[i]) ==> WaitsOk(n'.temp[i])
    ensures !f.isAdd ==> n' == n.(temp := n.temp[i := if Concerns(n.temp[i], f.ip) then ZERO else n.temp[i]])
    ensures Offers(n.temp[i], f) && n'.temp[i] == ZERO && Complete(Offered(n.temp[i], f.isDummy).tuple) ==>
      Cached(n'.cache, Offered(n.temp[i], f.isDummy).tuple)
  {
    var o := Offered(n.temp[i], f.isDummy);
    if Offers(n.temp[i], f) {
      var m := n'.(temp := n.temp);
      if Answered(n, m, o, 0, alg) { AddedCached(n, m, o, 0, alg); } else { AddedCached(n, m, o, -1, alg); }
    }
  }

  /** From moment i to moment j of a flush, places below i and from j on are not touched, and no connection leaves the
      cache. */
  lemma {:induction false} FlushFrame(trace: seq<Snapshot>, i: nat, j: nat, f: Flush, alg: seq<(int, int)>)
    requires Flushing(trace, f, alg) && i <= j < |trace|
    ensures |trace[j].temp| == |trace[i].temp| && Extends(trace[i].cache, trace[j].cache)
    ensures trace[j].hdl == trace[i].hdl && trace[i].refused <= trace[j].refused
    ensures forall k :: 0 <= k < |trace[i].temp| && (k < i || k >= j) ==> trace[j].temp[k] == trace[i].temp[k]
    decreases j - i
  {
    if i < j {
      FlushFrame(trace, i, j - 1, f, alg);
      assert PlaceAt(trace, j - 1, f, alg);
      PlaceEffect(trace[j - 1], trace[j], j - 1, f, alg);
    }
  }

  /** Every waiting connection is looked at once, as it was before the flush. What that look leaves is there in the end:
      nothing; the connection in the form offered, exactly when the adding failed; or the connection as it was. */
  lemma FlushSettles(trace: seq<Snapshot>, n: Snapshot, n': Snapshot, f: Flush, alg: seq<(int, int)>, i: nat)
    requires Flushes(trace, n, n', f, alg) && i < |n.temp|
    ensures |n'.temp| == |n.temp| && |trace[i].temp| == |n.temp| == |trace[i + 1].temp|
    ensures trace[i].temp[i] == n.temp[i] && Place(trace[i], trace[i + 1], i, f, alg)
    ensures n'.temp[i] == trace[i + 1].temp[i]
    ensures var o := Offered(n.temp[i], f.isDummy);
      Offers(n.temp[i], f) && n'.temp[i] == ZERO && Complete(o.tuple) ==> Cached(n'.cache, o.tuple)
  {
    FlushFrame(trace, 0, i, f, alg);
    FlushFrame(trace, i + 1, |n.temp|, f, alg);
    assert PlaceAt(trace, i, f, alg);
    PlaceEffect(trace[i], trace[i + 1], i, f, alg);
    var o := Offered(n.temp[i], f.isDummy);
    if Offers(n.temp[i], f) && n'.temp[i] == ZERO && Complete(o.tuple) {
      StillCached(trace[i + 1].cache, n'.cache, o.tuple);
    }
  }

  /** An offered connection that waits on had a reason to: there is no table, its port is an ALG's, it is cached
      already, the cache is full, or the driver refused its rule. */
  lemma FlushLeaves(trace: seq<Snapshot>, n: Snapshot, n': Snapshot, f: Flush, alg: seq<(int, int)>, i: nat)
    requires Flushes(trace, n, n', f, alg) && i < |n.temp| && Offers(n.temp[i], f)
    requires |n'.temp| == |n.temp| && n'.temp[i] != ZERO
    ensures var o := Offered(n.temp[i], f.isDummy);
      && n'.temp[i] == o
      && (|| n.hdl == 0 || UsesAlg(o.tuple, alg)
          || (Complete(o.tuple)
              && (Cached(n'.cache, o.tuple) || FirstFree(n'.cache) == |n'.cache| || RuleOf(o) in n'.refused)))
  {
    FlushFrame(trace, 0, i, f, alg);
    FlushFrame(trace, i + 1, |n.temp|, f, alg);
    FlushSettles(trace, n, n', f, alg, i);
    var o, m, m' := Offered(n.temp[i], f.isDummy), trace[i], trace[i + 1];
    assert Answered(m, m'.(temp := m.temp), o, -1, alg);
    if n.hdl != 0 && !UsesAlg(o.tuple, alg) {
      if Cached(m.cache, o.tuple) {
        StillCached(m.cache, m'.cache, o.tuple);
        StillCached(m'.cache, n'.cache, o.tuple);
      } else if FirstFree(m.cache) < |m.cache| {
        assert m'.refused[|m.refused|] == RuleOf(o);
        assert RuleOf(o) in m'.refused;
      }
    }
  }

  /** No flush puts a connection into the temp table that could not have waited there. */
  lemma FlushKeepsTempOk(trace: seq<Snapshot>, n: Snapshot, n': Snapshot, f: Flush, alg: seq<(int, int)>)
    requires Flushes(trace, n, n', f, alg) && TempOk(n.temp)
    ensures TempOk(n'.temp)
  {
    FlushFrame(trace, 0, |n.temp|, f, alg);
    forall i | 0 <= i < |n'.temp| ensures WaitsOk(n'.temp[i]) {
      FlushSettles(trace, n, n', f, alg, i);
      PlaceEffect(trace[i], trace[i + 1], i, f, alg);
    }
  }

  /** The temp table without the connections that concern an address. */
  function TempFlush(temp: seq<Entry>, ip: int): (r: seq<Entry>)
    ensures |r| == |temp| && forall i :: 0 <= i < |temp| ==> r[i] == if Concerns(temp[i], ip) then ZERO else temp[i]
  {
    seq(|temp|, i requires 0 <= i < |temp| => if Concerns(temp[i], ip) then ZERO else temp[i])
  }

  lemma {:induction false} FlushNoAdd(trace: seq<Snapshot>, j: nat, f: Flush, alg: seq<(int, int)>)
    requires Flushing(trace, f, alg) && !f.isAdd && j < |trace|
    ensures trace[j] == trace[0].(temp := trace[j].temp)
    decreases j
  {
    if j > 0 {
      FlushNoAdd(trace, j - 1, f, alg);
      assert PlaceAt(trace, j - 1, f, alg);
      PlaceEffect(trace[j - 1], trace[j], j - 1, f, alg);
    }
  }

  /** A flush for an address that is gone removes exactly the waiting connections that concern it. */
  lemma FlushAway(trace: seq<Snapshot>, n: Snapshot, n': Snapshot, f: Flush, alg: seq<(int, int)>)
    requires Flushes(trace, n, n', f, alg) && !f.isAdd
    ensures n' == n.(temp := TempFlush(n.temp, f.ip))
  {
    FlushNoAdd(trace, |n.temp|, f, alg);
    FlushFrame(trace, 0, |n.temp|, f, alg);
    forall i | 0 <= i < |n.temp| ensures n'.temp[i] == TempFlush(n.temp, f.ip)[i] {
      FlushSettles(trace, n, n', f, alg, i);
    }
  }
}

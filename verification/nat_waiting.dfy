/** Connections that open before their interface has its address wait in the temp table until a flush adds them. */
module NatWaiting {
  import opened NatModel
  import opened NatSteps
  import opened NatSnapshots

  /** A flush for f moves this waiting connection to the cache, if it is not there yet. */
  predicate Joins(e: Entry, f: Flush, alg: seq<(int, int)>) {
    Offers(e, f) && Complete(Offered(e, f.isDummy).tuple) && !UsesAlg(Offered(e, f.isDummy).tuple, alg)
  }

  function Coming(temp: seq<Entry>, upto: int, f: Flush, alg: seq<(int, int)>): set<Tuple> {
    set i | 0 <= i < |temp| && i < upto && Joins(temp[i], f, alg) :: Offered(temp[i], f.isDummy).tuple
  }

  /** Those of the connections that are installed when they are added. */
  ghost function Awake(ts: set<Tuple>, n: Snapshot): set<Tuple>
    requires SlotsOk(n.cache)
  {
    set t | t in ts && t !in Conns(n.cache) && !Asleep(t, n.pwr)
  }

  predicate Room(s: seq<Entry>) { FirstFree(s) < |s| }

  lemma RoomBefore(s: seq<Entry>, s': seq<Entry>)
    requires Extends(s, s') && Room(s')
    ensures Room(s)
  {
  }

  lemma KnownIsCached(s: seq<Entry>, t: Tuple)
    requires SlotsOk(s) && t != ZERO_TUPLE
    ensures Cached(s, t) <==> t in Conns(s)
  {
    if Cached(s, t) {
      var i :| 0 <= i < |s| && s[i].tuple == t;
      assert Used(s, i);
    }
  }

  lemma FilledConns(n: Snapshot, n': Snapshot, e: Entry)
    requires SlotsOk(n.cache) && Fits(n, e) && n'.cache == Filled(n, e).cache
    ensures SlotsOk(n'.cache) && Conns(n'.cache).Keys == Conns(n.cache).Keys + {e.tuple}
    ensures Active(n'.cache) == Active(n.cache) + if e.enabled then {e.tuple} else {}
  {
    hide SlotsOk, Conns, Active, UsedSlots;
    FillSlot(n.cache, FirstFree(n.cache), e);
    FillActive(n.cache, FirstFree(n.cache), e);
  }

  /** AddEntry when there is a table and room and the driver does not refuse. */
  lemma AnsweredConns(n: Snapshot, n': Snapshot, o: Entry, ret: int, alg: seq<(int, int)>)
    requires SlotsOk(n.cache) && n.hdl != 0 && Room(n.cache) && Answered(n, n', o, ret, alg) && n'.refused == n.refused
    ensures var ts := if Complete(o.tuple) && !UsesAlg(o.tuple, alg) then {o.tuple} else {};
      && SlotsOk(n'.cache) && Conns(n'.cache).Keys == Conns(n.cache).Keys + ts
      && Active(n'.cache) == Active(n.cache) + Awake(ts, n) && n'.pwr == n.pwr
  {
    hide Conns, Active, SlotsOk;
    var ts := if Complete(o.tuple) && !UsesAlg(o.tuple, alg) then {o.tuple} else {};
    if Complete(o.tuple) && !UsesAlg(o.tuple, alg) {
      KnownIsCached(n.cache, o.tuple);
      if Fits(n, o) {
        assert Awake(ts, n) == if Asleep(o.tuple, n.pwr) then {} else {o.tuple};
        var hdl := n'.cache[FirstFree(n.cache)].ruleHdl;
        FilledConns(n, n', if Asleep(o.tuple, n.pwr) then Stored(o, 0, false, 0) else Stored(o, 0, true, hdl));
      } else {
        assert Awake(ts, n) == {};
      }
    }
  }

  lemma PlaceConns(n: Snapshot, n': Snapshot, i: int, f: Flush, alg: seq<(int, int)>)
    requires 0 <= i < |n.temp| && Place(n, n', i, f, alg)
    requires SlotsOk(n.cache) && n.hdl != 0 && Room(n.cache) && n'.refused == n.refused
    ensures var ts := if Joins(n.temp[i], f, alg) then {Offered(n.temp[i], f.isDummy).tuple} else {};
      && SlotsOk(n'.cache) && Conns(n'.cache).Keys == Conns(n.cache).Keys + ts
      && Active(n'.cache) == Active(n.cache) + Awake(ts, n) && n'.pwr == n.pwr
  {
    hide Conns, Active, SlotsOk, Room, UsesAlg, Asleep, Answered;
    var o := Offered(n.temp[i], f.isDummy);
    if Offers(n.temp[i], f) {
      var m := n'.(temp := n.temp);
      if Answered(n, m, o, 0, alg) { AnsweredConns(n, m, o, 0, alg); } else { AnsweredConns(n, m, o, -1, alg); }
    }
  }

  lemma ComingNext(temp: seq<Entry>, i: nat, f: Flush, alg: seq<(int, int)>)
    requires i < |temp|
    ensures Coming(temp, i + 1, f, alg) ==
      Coming(temp, i, f, alg) + if Joins(temp[i], f, alg) then {Offered(temp[i], f.isDummy).tuple} else {}
  {
  }

  lemma AwakeNext(n: Snapshot, m: Snapshot, a: set<Tuple>, b: set<Tuple>)
    requires SlotsOk(n.cache) && SlotsOk(m.cache) && m.pwr == n.pwr && Conns(m.cache).Keys == Conns(n.cache).Keys + a
    ensures Awake(a + b, n) == Awake(a, n) + Awake(b, m)
  {
  }

  lemma NoneComing(n: Snapshot, f: Flush, alg: seq<(int, int)>)
    requires SlotsOk(n.cache)
    ensures Coming(n.temp, 0, f, alg) == {} && Awake({}, n) == {}
  {
  }

  lemma {:induction false} FlushConns(trace: seq<Snapshot>, n: Snapshot, j: nat, f: Flush, alg: seq<(int, int)>)
    requires Flushing(trace, f, alg) && j < |trace| && trace[0] == n
    requires SlotsOk(n.cache) && n.hdl != 0 && Room(trace[j].cache) && trace[j].refused == n.refused
    ensures var m, ts := trace[j], Coming(n.temp, j, f, alg);
      && SlotsOk(m.cache) && Conns(m.cache).Keys == Conns(n.cache).Keys + ts
      && Active(m.cache) == Active(n.cache) + Awake(ts, n) && m.pwr == n.pwr
    decreases j
  {
    hide Conns, Active, SlotsOk, Joins, Place, Coming, Awake, Room, Extends;
    if j == 0 {
      NoneComing(n, f, alg);
    } else {
      var m, m' := trace[j - 1], trace[j];
      assert PlaceAt(trace, j - 1, f, alg);
      PlaceEffect(m, m', j - 1, f, alg);
      FlushFrame(trace, 0, j - 1, f, alg);
      RoomBefore(m.cache, m'.cache);
      FlushConns(trace, n, j - 1, f, alg);
      PlaceConns(m, m', j - 1, f, alg);
      ComingNext(n.temp, j - 1, f, alg);
      var more := if Joins(m.temp[j - 1], f, alg) then {Offered(m.temp[j - 1], f.isDummy).tuple} else {};
      AwakeNext(n, m, Coming(n.temp, j - 1, f, alg), more);
    }
  }

  /** With a table, room to the end and no refusal, a flush adds exactly the waiting connections that concern the
      address, belong to the current public address, are complete and use no ALG port; those are installed that are
      new and whose clients are awake. */
  lemma FlushInstalls(trace: seq<Snapshot>, n: Snapshot, n': Snapshot, f: Flush, alg: seq<(int, int)>)
    requires Flushes(trace, n, n', f, alg) && SlotsOk(n.cache) && n.hdl != 0 && Room(n'.cache)
    requires n'.refused == n.refused
    ensures var ts := Coming(n.temp, |n.temp|, f, alg);
      && SlotsOk(n'.cache) && Conns(n'.cache).Keys == Conns(n.cache).Keys + ts
      && Active(n'.cache) == Active(n.cache) + Awake(ts, n) && n'.pwr == n.pwr
  {
    hide Flushing, Conns, Active, SlotsOk;
    FlushConns(trace, n, |n.temp|, f, alg);
  }

  lemma ComingWith(temp: seq<Entry>, e: Entry, f: Flush, alg: seq<(int, int)>)
    requires TempOk(temp) && TempAdd(temp, e) != temp
    ensures |TempAdd(temp, e)| == |temp|
    ensures Coming(TempAdd(temp, e), |temp|, f, alg) ==
      Coming(temp, |temp|, f, alg) + if Joins(e, f, alg) then {Offered(e, f.isDummy).tuple} else {}
  {
    var i, temp' := First(temp, IsBlank), TempAdd(temp, e);
    assert temp[i] == ZERO && !Joins(temp[i], f, alg);
    var a, b := Coming(temp, |temp|, f, alg), Coming(temp', |temp|, f, alg);
    forall t | t in a ensures t in b {
      var k :| 0 <= k < |temp| && Joins(temp[k], f, alg) && Offered(temp[k], f.isDummy).tuple == t;
      assert temp'[k] == temp[k];
    }
    forall t | t in b && !(Joins(e, f, alg) && t == Offered(e, f.isDummy).tuple) ensures t in a {
      var k :| 0 <= k < |temp'| && Joins(temp'[k], f, alg) && Offered(temp'[k], f.isDummy).tuple == t;
      assert temp'[k] == temp[k];
    }
    if Joins(e, f, alg) { assert temp'[i] == e; }
  }

  lemma AnsweredRefused(n: Snapshot, n': Snapshot, o: Entry, ret: int, alg: seq<(int, int)>)
    requires Answered(n, n', o, ret, alg)
    ensures n.refused <= n'.refused
  {
  }

  /** A connection that waits and is flushed (nA to nA') ends like one that opens after the flush (n to m to m'):
      the same connections are known and installed. It needs that the temp table has taken it; if that had no place,
      knew its tuple, or was never asked, that is so exactly when the connection cannot be added or is known
      anyway. */
  lemma WaitingIsLikeLate(e: Entry, f: Flush, alg: seq<(int, int)>, n: Snapshot, nA: Snapshot, traceA: seq<Snapshot>,
                          nA': Snapshot,
                          traceB: seq<Snapshot>, m: Snapshot, m': Snapshot, ret: int)
    requires SlotsOk(n.cache) && TempOk(n.temp) && n.hdl != 0 && Offers(e, f)
    requires nA == n.(temp := nA.temp) && (nA.temp == n.temp || nA.temp == TempAdd(n.temp, e))
    requires Flushes(traceA, nA, nA', f, alg) && Room(nA'.cache) && nA'.refused == n.refused
    requires Flushes(traceB, n, m, f, alg) && Answered(m, m', Offered(e, f.isDummy), ret, alg)
    requires Room(m.cache) && m'.refused == n.refused
    ensures SlotsOk(nA'.cache) && SlotsOk(m'.cache)
    ensures var o := Offered(e, f.isDummy);
      Conns(nA'.cache).Keys == Conns(m'.cache).Keys <==>
        nA.temp != n.temp || !Joins(e, f, alg) || o.tuple in Conns(n.cache)
          || o.tuple in Coming(n.temp, |n.temp|, f, alg)
    ensures Conns(nA'.cache).Keys == Conns(m'.cache).Keys ==> Active(nA'.cache) == Active(m'.cache)
  {
    hide Conns, Active, SlotsOk, Flushing, Coming, TempAdd, TempOk, Answered;
    var o, before := Offered(e, f.isDummy), Coming(n.temp, |n.temp|, f, alg);
    var ts := if Joins(e, f, alg) then {o.tuple} else {};
    assert Joins(e, f, alg) == (Complete(o.tuple) && !UsesAlg(o.tuple, alg));
    hide Joins;
    FlushFrame(traceB, 0, |n.temp|, f, alg);
    AnsweredRefused(m, m', o, ret, alg);
    FlushInstalls(traceA, nA, nA', f, alg);
    FlushInstalls(traceB, n, m, f, alg);
    AnsweredConns(m, m', o, ret, alg);
    AwakeNext(n, m, before, ts);
    if nA.temp != n.temp {
      ComingWith(n.temp, e, f, alg);
    } else if Joins(e, f, alg) {
      assert o.tuple in Conns(m'.cache).Keys;
      assert o.tuple in Conns(nA'.cache).Keys <==> o.tuple in Conns(n.cache) || o.tuple in before;
    }
  }
}

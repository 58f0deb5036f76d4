/** The list of STA-mode clients of IPACM_ConntrackListener.cpp, and which connections it holds back. */
module StaClients {
  import opened NatSteps

  const MAX_STA_CLNT_IFACES := 10

  /** sta_clnt_ipv4_addr and StaClntCnt; 0 marks an empty place. */
  datatype Sta = Sta(list: seq<int>, cnt: int)

  function Listed(list: seq<int>): set<int> { set i | 0 <= i < |list| && list[i] != 0 }

  /** The count covers the clients; it is larger only after the address 0 has been added. */
  predicate Counted(s: Sta) { |Listed(s.list)| <= s.cnt <= |s.list| }

  /** The clients are in the first places, as many as counted, each once. */
  predicate Packed(s: Sta) {
    && 0 <= s.cnt <= |s.list|
    && (forall i :: 0 <= i < |s.list| ==> (s.list[i] != 0 <==> i < s.cnt))
    && (forall i, j :: 0 <= i < j < s.cnt ==> s.list[i] != s.list[j])
  }

  /** 0xFFFFFF00 as a mask */
  function Subnet(ip: int): int { ip / 256 }

  /** A connection to this target has to wait, judging by the first client's subnet and the first cnt places. */
  predicate Waits(s: Sta, isSta: bool, target: int) {
    isSta && 0 < s.cnt <= |s.list| && Subnet(s.list[0]) == Subnet(target) && target !in s.list[..s.cnt]
  }

  /** HandleSTAClientAddEvt: the first place that is empty or has the address is as far as the search goes. */
  function StaAdd(s: Sta, ip: int): Sta {
    var i := First(s.list, (x: int) => x == 0 || x == ip);
    if s.cnt < MAX_STA_CLNT_IFACES && i < |s.list| && s.list[i] == 0 then Sta(s.list[i := ip], s.cnt + 1) else s
  }

  /** HandleSTAClientDelEvt */
  function StaDel(s: Sta, ip: int): Sta {
    var i := First(s.list, (x: int) => x != 0 && x == ip);
    if i < |s.list| then Sta(s.list[i := 0], s.cnt - 1) else s
  }

  lemma SubsetSize(a: set<int>, n: nat)
    requires forall i :: i in a ==> 0 <= i < n
    ensures |a| <= n
    decreases n
  {
    if n == 0 {
      assert forall i :: i !in a;
      assert a == {};
    } else {
      SubsetSize(a - {n - 1}, n - 1);
      assert n - 1 !in a ==> a - {n - 1} == a;
    }
  }

  lemma AddKeepsCounted(s: Sta, ip: int)
    requires Counted(s) && |s.list| == MAX_STA_CLNT_IFACES
    ensures Counted(StaAdd(s, ip)) && |StaAdd(s, ip).list| == |s.list|
    ensures |Listed(s.list)| == s.cnt && ip != 0 ==> |Listed(StaAdd(s, ip).list)| == StaAdd(s, ip).cnt
  {
    var i := First(s.list, (x: int) => x == 0 || x == ip);
    if i < |s.list| && s.list[i] == 0 {
      assert Listed(s.list[i := ip]) == if ip == 0 then Listed(s.list) else Listed(s.list) + {i};
    }
  }

  lemma DelKeepsCounted(s: Sta, ip: int)
    requires Counted(s)
    ensures Counted(StaDel(s, ip)) && |StaDel(s, ip).list| == |s.list|
    ensures |Listed(s.list)| == s.cnt ==> |Listed(StaDel(s, ip).list)| == StaDel(s, ip).cnt
  {
    var i := First(s.list, (x: int) => x != 0 && x == ip);
    if i < |s.list| { assert Listed(s.list[i := 0]) == Listed(s.list) - {i}; }
  }

  /** As long as the list is packed, exactly the strangers in the first client's subnet wait. */
  lemma PackedHoldsStrangers(s: Sta, isSta: bool, target: int)
    requires Packed(s) && target != 0
    ensures Waits(s, isSta, target) <==> isSta && s.cnt > 0 && Subnet(s.list[0]) == Subnet(target) && target !in s.list
  {
    if target in s.list {
      var i :| 0 <= i < |s.list| && s.list[i] == target;
      assert s.list[..s.cnt][i] == target;
    }
  }

  /** A client's own connection waits exactly when it has no place among the first cnt ones. */
  lemma ClientHeldBack(s: Sta, isSta: bool, ip: int)
    requires Counted(s) && ip != 0 && ip in s.list
    ensures Waits(s, isSta, ip) <==>
      isSta && Subnet(s.list[0]) == Subnet(ip) && forall i :: 0 <= i < |s.list| && s.list[i] == ip ==> i >= s.cnt
  {
    var i :| 0 <= i < |s.list| && s.list[i] == ip;
    assert i in Listed(s.list);
    if ip in s.list[..s.cnt] {
      var j :| 0 <= j < s.cnt && s.list[..s.cnt][j] == ip;
      assert s.list[j] == ip;
    } else {
      assert forall j :: 0 <= j < s.cnt ==> s.list[j] == s.list[..s.cnt][j];
    }
  }

  /** Clients that come keep the list packed, ... */
  lemma AddKeepsPacked(s: Sta, ip: int)
    requires Packed(s) && |s.list| == MAX_STA_CLNT_IFACES && ip != 0
    ensures Packed(StaAdd(s, ip)) && (s.cnt < MAX_STA_CLNT_IFACES ==> ip in StaAdd(s, ip).list)
  {
    var i := First(s.list, (x: int) => x == 0 || x == ip);
    if s.cnt < MAX_STA_CLNT_IFACES {
      assert s.list[s.cnt] == 0;
      assert i <= s.cnt && StaAdd(s, ip).list[i] == ip;
    }
  }

  /** ... and one that goes keeps it packed exactly when it is the last one. */
  lemma DelKeepsPacked(s: Sta, ip: int)
    requires Packed(s) && ip != 0 && ip in s.list
    ensures Packed(StaDel(s, ip)) <==> s.list[s.cnt - 1] == ip
  {
    var i := First(s.list, (x: int) => x != 0 && x == ip);
    var k :| 0 <= k < |s.list| && s.list[k] == ip;
    assert i < |s.list|;
    var s' := StaDel(s, ip);
    if i < s.cnt - 1 { assert s'.list[i] == 0 && i < s'.cnt; }
  }

  /** A client that changes its address to one that is not in the list keeps it packed. */
  lemma ChangeKeepsPacked(s: Sta, ip: int, ip': int)
    requires Packed(s) && |s.list| == MAX_STA_CLNT_IFACES && ip != 0 && ip in s.list && ip' != 0 && ip' !in s.list
    ensures Packed(StaAdd(StaDel(s, ip), ip'))
    ensures exists i ::
      0 <= i < |s.list| && s.list[i] == ip && StaAdd(StaDel(s, ip), ip') == s.(list := s.list[i := ip'])
  {
    var i := First(s.list, (x: int) => x != 0 && x == ip);
    var k :| 0 <= k < |s.list| && s.list[k] == ip;
    assert i < s.cnt && s.list[i] == ip;
    var s1 := StaDel(s, ip);
    IsFirst(s1.list, (x: int) => x == 0 || x == ip', i);
    assert StaAdd(s1, ip').list == s.list[i := ip'];
  }

  function Places(list: seq<int>, ip: int): set<int> { set i | 0 <= i < |list| && list[i] == ip }

  /** There is an empty place ahead of every place of ip. */
  predicate HoleBefore(list: seq<int>, ip: int) {
    exists i :: 0 <= i < |list| && list[i] == 0 && forall j :: 0 <= j <= i ==> list[j] != ip
  }

  /** An add puts a client into one more place exactly when there is room and an empty place comes before its own; so a
      listed one is listed twice exactly when there is a hole before it. */
  lemma AddPlaces(s: Sta, ip: int)
    requires |s.list| == MAX_STA_CLNT_IFACES && ip != 0
    ensures |Places(StaAdd(s, ip).list, ip)| ==
      |Places(s.list, ip)| + if s.cnt < MAX_STA_CLNT_IFACES && HoleBefore(s.list, ip) then 1 else 0
  {
    var i := First(s.list, (x: int) => x == 0 || x == ip);
    if i < |s.list| && s.list[i] == 0 {
      assert HoleBefore(s.list, ip);
      assert Places(s.list[i := ip], ip) == Places(s.list, ip) + {i};
    }
  }

  /** A deletion takes one of the places, whatever their number. */
  lemma DelPlaces(s: Sta, ip: int)
    requires ip != 0
    ensures |Places(StaDel(s, ip).list, ip)| == if ip in s.list then |Places(s.list, ip)| - 1 else 0
    ensures ip in StaDel(s, ip).list <==> |Places(s.list, ip)| > 1
  {
    var i := First(s.list, (x: int) => x != 0 && x == ip);
    if i < |s.list| {
      assert Places(s.list[i := 0], ip) == Places(s.list, ip) - {i};
    } else {
      assert Places(s.list, ip) == {};
    }
    ListedPlaces(StaDel(s, ip).list, ip);
  }

  lemma ListedPlaces(list: seq<int>, ip: int)
    ensures ip in list <==> |Places(list, ip)| > 0
  {
    if ip in list {
      var i :| 0 <= i < |list| && list[i] == ip;
      assert i in Places(list, ip);
    } else {
      assert Places(list, ip) == {};
    }
  }

  /** A client listed once that is added again and then goes is still listed if and only if the list had room and a hole
      before its place. */
  lemma AddedTwiceStays(s: Sta, ip: int)
    requires |s.list| == MAX_STA_CLNT_IFACES && ip != 0 && |Places(s.list, ip)| == 1
    ensures ip in StaDel(StaAdd(s, ip), ip).list <==> s.cnt < MAX_STA_CLNT_IFACES && HoleBefore(s.list, ip)
  {
    AddPlaces(s, ip);
    DelPlaces(StaAdd(s, ip), ip);
  }

  /** A packed list has no holes, so nothing is listed twice in it. */
  lemma PackedAddsOnce(s: Sta, ip: int)
    requires Packed(s) && |s.list| == MAX_STA_CLNT_IFACES && ip != 0 && ip in s.list
    ensures StaAdd(s, ip) == s && |Places(s.list, ip)| == 1
  {
    var k :| 0 <= k < |s.list| && s.list[k] == ip;
    assert Places(s.list, ip) == {k};
    IsFirst(s.list, (x: int) => x == 0 || x == ip, k);
  }

  /** Three clients come and the second one goes: the third is still in the list, and its connections wait. */
  lemma ForgottenClient(net: int)
    ensures var empty := Sta(seq(MAX_STA_CLNT_IFACES, _ => 0), 0);
      var a, b, c := 256 * net + 1, 256 * net + 2, 256 * net + 3;
      var s := StaDel(StaAdd(StaAdd(StaAdd(empty, a), b), c), b);
      Packed(empty) && s.list[..3] == [a, 0, c] && s.cnt == 2 && Waits(s, true, c)
  {
    var zeros := seq(MAX_STA_CLNT_IFACES, _ => 0);
    var a, b, c := 256 * net + 1, 256 * net + 2, 256 * net + 3;
    IsFirst(zeros, (x: int) => x == 0 || x == a, 0);
    var l1 := zeros[0 := a];
    IsFirst(l1, (x: int) => x == 0 || x == b, 1);
    var l2 := l1[1 := b];
    IsFirst(l2, (x: int) => x == 0 || x == c, 2);
    var l3 := l2[2 := c];
    IsFirst(l3, (x: int) => x != 0 && x == b, 1);
    var l4 := l3[1 := 0];
    assert l4[..3] == [a, 0, c] && l4[..2] == [a, 0];
    assert StaDel(StaAdd(StaAdd(StaAdd(Sta(zeros, 0), a), b), c), b) == Sta(l4, 2);
  }
}

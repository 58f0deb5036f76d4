/** How linking, unlinking and client changes keep reference counts and installed rules balanced. */
module LanProofs {
  import opened LanModel

  lemma PeersOfTypeGrow(P: set<Lan>, self: Lan, b: Lan, t: L2)
    requires b !in P && b != self
    ensures PeersOfType(P + {b}, self, t) == PeersOfType(P, self, t) + if b.l2 == t then {b} else {}
  {
  }

  lemma PeersOfTypeShrink(P: set<Lan>, self: Lan, b: Lan, t: L2)
    requires b in P && b != self
    ensures PeersOfType(P - {b}, self, t) == PeersOfType(P, self, t) - if b.l2 == t then {b} else {}
    ensures b.l2 == t ==> b in PeersOfType(P, self, t)
  {
  }

  // ---------- Interface x gains peer p ----------

  function Gained(S: Shape, x: Lan, p: Lan): Shape {
    S.(cnt := S.cnt[(x, p.l2) := S.Cnt(x, p.l2) + 1], flt := S.flt[(x, p) := {}])
  }

  /** The rules that a new peer p calls for on interface x. */
  function GainKeys(S: Shape, x: Lan, p: Lan): set<Key>
    requires x in S.macs
  {
    if S.Cnt(x, p.l2) == 0 then {CtxK(x, Ty(p.l2))} + RtKeysAll(x, S.macs[x], Ty(p.l2)) else {}
  }

  lemma GainedDue(S: Shape, x: Lan, p: Lan)
    requires x != p && (x, p) !in S.flt
    ensures Gained(S, x, p).Peers(x) == S.Peers(x) + {p}
    ensures forall y :: y != x ==> Gained(S, x, p).Peers(y) == S.Peers(y)
    ensures forall y, s :: CtxDue(Gained(S, x, p), y, s) <==> (CtxDue(S, y, s) || (y == x && s == Ty(p.l2)))
  {
    var S' := Gained(S, x, p);
    assert S'.Peers(x) == S.Peers(x) + {p};
    forall y | y != x ensures S'.Peers(y) == S.Peers(y) {}
    forall y, s ensures CtxDue(S', y, s) <==> (CtxDue(S, y, s) || (y == x && s == Ty(p.l2))) {
      if s.Ty? && y == x { PeersOfTypeGrow(S.Peers(x), x, p, s.t); }
    }
  }

  lemma GainedCounted(S: Shape, x: Lan, p: Lan)
    requires Counted(S) && x != p && x in S.up && (x, p) !in S.flt
    ensures Counted(Gained(S, x, p))
  {
    hide CtxDue;
    var S' := Gained(S, x, p);
    GainedDue(S, x, p);
    forall y, t | y in S.up ensures S'.Cnt(y, t) == |PeersOfType(S'.Peers(y), y, t)| {
      assert S.Cnt(y, t) == |PeersOfType(S.Peers(y), y, t)|;
      if y == x { PeersOfTypeGrow(S.Peers(x), x, p, t); }
    }
  }

  lemma GainKeepsBalance(S: Shape, keys: set<Key>, x: Lan, p: Lan)
    requires Balanced(S, keys) && x != p && x in S.up && x in S.macs && (x, p) !in S.flt
    ensures Balanced(Gained(S, x, p), keys + GainKeys(S, x, p))
  {
    hide CtxDue;
    CtxDueIffCounted(S, keys, x, p.l2);
    GainedCounted(S, x, p);
    hide Counted;
    GainedDue(S, x, p);
    var S' := Gained(S, x, p);
    forall k ensures k in keys + GainKeys(S, x, p) <==> Due(S', k) {
      assert k in keys <==> Due(S, k);
    }
  }

  lemma CtxDueIffCounted(S: Shape, keys: set<Key>, x: Lan, t: L2)
    requires Balanced(S, keys) && x in S.up
    ensures CtxDue(S, x, Ty(t)) <==> S.Cnt(x, t) != 0
    ensures S.Cnt(x, t) >= 0
  {
    assert S.Cnt(x, t) == |PeersOfType(S.Peers(x), x, t)|;
  }

  /** A context or routing rule for peers of type t is booked exactly when the count is positive. */
  lemma CtxBooked(S: Shape, keys: set<Key>, x: Lan, t: L2)
    requires Balanced(S, keys) && x in S.up
    ensures S.Cnt(x, t) >= 0
    ensures CtxK(x, Ty(t)) in keys <==> S.Cnt(x, t) > 0
    ensures S.Cnt(x, t) == 0 ==> forall m, ip, i :: RtK(x, m, Ty(t), ip, i) !in keys
  {
    CtxDueIffCounted(S, keys, x, t);
    assert CtxK(x, Ty(t)) in keys <==> Due(S, CtxK(x, Ty(t)));
  }

  /** Both sides of a new pair; a, the new interface, has no clients yet. */
  lemma LinkKeepsBalance(S: Shape, keys: set<Key>, a: Lan, b: Lan, keys': set<Key>)
    requires Balanced(S, keys) && a != b
    requires a in S.up && b in S.up && b in S.macs && a in S.macs && S.macs[a] == {}
    requires (a, b) !in S.flt && (b, a) !in S.flt
    requires keys' == keys
                      + (if S.Cnt(b, a.l2) == 0 then {CtxK(b, Ty(a.l2))} else {})
                      + (if S.Cnt(a, b.l2) == 0 then {CtxK(a, Ty(b.l2))} else {})
                      + (if S.Cnt(b, a.l2) == 0 then RtKeysAll(b, S.macs[b], Ty(a.l2)) else {})
    ensures Balanced(Gained(Gained(S, b, a), a, b), keys')
  {
    hide Balanced;
    GainKeepsBalance(S, keys, b, a);
    GainKeepsBalance(Gained(S, b, a), keys + GainKeys(S, b, a), a, b);
    assert keys' == keys + GainKeys(S, b, a) + GainKeys(Gained(S, b, a), a, b);
  }

  // ---------- Interface x loses peer p ----------

  function Lost(S: Shape, x: Lan, p: Lan): Shape {
    S.(cnt := S.cnt[(x, p.l2) := S.Cnt(x, p.l2) - 1], flt := S.flt - {(x, p)})
  }

  /** The rules that losing peer p makes superfluous on interface x. */
  function LossKeys(S: Shape, keys: set<Key>, x: Lan, p: Lan): set<Key> {
    FltOf(keys, x, p) + if S.Cnt(x, p.l2) == 1 then {CtxK(x, Ty(p.l2))} + RtOfAll(keys, x, Ty(p.l2)) else {}
  }

  lemma LostPeers(S: Shape, x: Lan, p: Lan)
    requires (x, p) in S.flt
    ensures Lost(S, x, p).Peers(x) == S.Peers(x) - {p}
    ensures forall y :: y != x ==> Lost(S, x, p).Peers(y) == S.Peers(y)
  {
    var S' := Lost(S, x, p);
    assert S'.Peers(x) == S.Peers(x) - {p};
    forall y | y != x ensures S'.Peers(y) == S.Peers(y) {}
  }

  lemma LostCounted(S: Shape, x: Lan, p: Lan)
    requires Counted(S) && x != p && x in S.up && (x, p) in S.flt
    ensures Counted(Lost(S, x, p))
  {
    var S' := Lost(S, x, p);
    LostPeers(S, x, p);
    forall y, t | y in S.up ensures S'.Cnt(y, t) == |PeersOfType(S'.Peers(y), y, t)| {
      assert S.Cnt(y, t) == |PeersOfType(S.Peers(y), y, t)|;
      if y == x { PeersOfTypeShrink(S.Peers(x), x, p, t); }
    }
  }

  lemma LostDue(S: Shape, x: Lan, p: Lan, y: Lan, s: Slot)
    requires Counted(S) && x != p && x in S.up && (x, p) in S.flt
    ensures CtxDue(Lost(S, x, p), y, s) <==>
      (CtxDue(S, y, s) && !(y == x && s == Ty(p.l2) && S.Cnt(x, p.l2) == 1))
  {
    LostPeers(S, x, p);
    if s.Ty? && y == x {
      PeersOfTypeShrink(S.Peers(x), x, p, s.t);
      LostCounted(S, x, p);
      assert Lost(S, x, p).Cnt(x, s.t) == |PeersOfType(Lost(S, x, p).Peers(x), x, s.t)|;
    }
  }

  lemma LossKeepsBalance(S: Shape, keys: set<Key>, x: Lan, p: Lan)
    requires Balanced(S, keys) && x != p && x in S.up && (x, p) in S.flt
    ensures Balanced(Lost(S, x, p), keys - LossKeys(S, keys, x, p))
  {
    hide CtxDue, Counted;
    var S' := Lost(S, x, p);
    LostCounted(S, x, p);
    forall k ensures k in keys - LossKeys(S, keys, x, p) <==> Due(S', k) {
      assert k in keys <==> Due(S, k);
      if !k.FltK? { LostDue(S, x, p, k.a, k.s); }
    }
  }

  // ---------- An interface is registered ----------

  predicate Unlinked(S: Shape, a: Lan) {
    forall p :: p in S.flt ==> p.0 != a && p.1 != a
  }

  /** The reference counts of all interfaces but a. */
  function WithoutIface(cnt: map<(Lan, L2), int>, a: Lan): map<(Lan, L2), int> {
    map p | p in cnt && p.0 != a :: cnt[p]
  }

  lemma NotLinked(S: Shape, a: Lan)
    requires LinksOk(S) && a !in S.up
    ensures Unlinked(S, a)
  {
    forall p | p in S.flt ensures p.0 != a && p.1 != a { assert (p.0, p.1) in S.flt; }
  }

  lemma RegisterKeepsBalance(S: Shape, keys: set<Key>, a: Lan, u: PerIp<bool>, S': Shape)
    requires Balanced(S, keys) && a !in S.up && Unlinked(S, a)
    requires S'.up == S.up[a := u] && S'.macs == S.macs[a := {}] && S'.flt == S.flt
    requires S'.cnt == WithoutIface(S.cnt, a)
    ensures Balanced(S', keys)
  {
    assert forall x, t :: S'.Cnt(x, t) == if x == a then 0 else S.Cnt(x, t);
    forall x ensures S'.Peers(x) == S.Peers(x) {}
    forall x, t | x in S'.up ensures S'.Cnt(x, t) == |PeersOfType(S'.Peers(x), x, t)| {
      if x == a {
        assert S.Peers(a) == {};
        assert PeersOfType({}, a, t) == {};
      } else {
        assert S.Cnt(x, t) == |PeersOfType(S.Peers(x), x, t)|;
      }
    }
    forall x, s ensures CtxDue(S', x, s) <==> CtxDue(S, x, s) {}
    assert forall s :: !CtxDue(S, a, s) by {
      assert S.Peers(a) == {};
      assert forall t :: PeersOfType({}, a, t) == {};
    }
    forall k ensures k in keys <==> Due(S', k) {
      assert k in keys <==> Due(S, k);
    }
  }

  /** Contexts and counts depend on the peer relation only. */
  lemma SamePeersSameCtx(S: Shape, S': Shape)
    requires S'.flt.Keys == S.flt.Keys
    ensures forall x :: S'.Peers(x) == S.Peers(x)
    ensures forall x, s :: CtxDue(S', x, s) <==> CtxDue(S, x, s)
    ensures S'.cnt == S.cnt && S'.up.Keys == S.up.Keys && Counted(S) ==> Counted(S')
  {
    forall x ensures S'.Peers(x) == S.Peers(x) {}
    if S'.cnt == S.cnt && S'.up.Keys == S.up.Keys && Counted(S) {
      forall a, t | a in S'.up ensures S'.Cnt(a, t) == |PeersOfType(S'.Peers(a), a, t)| {
        assert S.Cnt(a, t) == |PeersOfType(S.Peers(a), a, t)|;
      }
    }
  }

  /** add_all_inter_interface_client_flt_rule on a new interface b, whose only family is ip. */
  lemma FillKeepsBalance(S: Shape, keys: set<Key>, b: Lan, ip: Ip, S': Shape, keys': set<Key>)
    requires Balanced(S, keys) && b in S.up && forall ip' :: S.up[b].Get(ip') <==> ip' == ip
    requires forall a :: (b, a) in S.flt && a != b ==> S.flt[(b, a)] == {} && a in S.macs
    requires S' == S.(flt := FltFilled(S.flt, S.macs, b, PeersIn(S.flt, b)))
    requires keys' == keys + FltKeysOn(S.macs, b, PeersIn(S.flt, b), {ip})
    ensures Balanced(S', keys')
  {
    hide CtxDue, Counted;
    SamePeersSameCtx(S, S');
    forall k ensures k in keys' <==> Due(S', k) {
      assert k in keys <==> Due(S, k);
    }
  }

  /** add_all_*_client_flt_rule when a further family ip is assigned on b. */
  lemma UpKeepsBalance(S: Shape, keys: set<Key>, b: Lan, ip: Ip, keys': set<Key>)
    requires Balanced(S, keys) && ListsOk(S) && b in S.up && !S.up[b].Get(ip)
    requires keys' == keys + FltKeysOn(S.macs, b, S.Peers(b), {ip})
    ensures Balanced(S.(up := S.up[b := S.up[b].Set(ip, true)]), keys')
  {
    hide CtxDue, Counted;
    var S' := S.(up := S.up[b := S.up[b].Set(ip, true)]);
    assert S'.up.Keys == S.up.Keys;
    SamePeersSameCtx(S, S');
    assert forall ip' :: S'.up[b].Get(ip') <==> S.up[b].Get(ip') || ip' == ip;
    forall k ensures k in keys' <==> Due(S', k) {
      assert k in keys <==> Due(S, k);
    }
  }

  lemma UpKeepsComplete(S: Shape, b: Lan, ip: Ip)
    requires Complete(S) && b in S.up
    ensures Complete(S.(up := S.up[b := S.up[b].Set(ip, true)]))
  {
    assert S.up[b := S.up[b].Set(ip, true)].Keys == S.up.Keys;
  }

  /** handle_intra_interface_info on an interface without clients. */
  lemma IntraKeepsBalance(S: Shape, keys: set<Key>, a: Lan)
    requires Balanced(S, keys) && a in S.up && (a, a) !in S.flt && a in S.macs && S.macs[a] == {}
    ensures Balanced(S.(flt := S.flt[(a, a) := {}]), keys + {CtxK(a, Own)})
  {
    var S' := S.(flt := S.flt[(a, a) := {}]);
    assert S'.Peers(a) == S.Peers(a) + {a};
    forall x | x != a ensures S'.Peers(x) == S.Peers(x) {}
    forall x, t ensures PeersOfType(S'.Peers(x), x, t) == PeersOfType(S.Peers(x), x, t) {}
    assert Counted(S') by {
      forall x, t | x in S'.up ensures S'.Cnt(x, t) == |PeersOfType(S'.Peers(x), x, t)| {
        assert S.Cnt(x, t) == |PeersOfType(S.Peers(x), x, t)|;
      }
    }
    forall k ensures k in keys + {CtxK(a, Own)} <==> Due(S', k) {
      assert k in keys <==> Due(S, k);
    }
  }

  lemma RegisteredLinks(S: Shape, a: Lan, S': Shape)
    requires LinksOk(S) && a !in S.up && S'.up.Keys == S.up.Keys + {a}
    requires forall x, y :: (x, y) in S'.flt <==>
      ((x, y) in S.flt || (x == a && y in Linked(S'.up.Keys, a)) || (y == a && x in Linked(S'.up.Keys, a)))
    ensures LinksOk(S')
  {
    forall x, y ensures (x, y) in S'.flt <==> x in S'.up && y in Linked(S'.up.Keys, x) {
      assert (x, y) in S.flt <==> x in S.up && y in Linked(S.up.Keys, x);
    }
  }

  lemma RegisteredLists(S: Shape, a: Lan, S': Shape)
    requires LinksOk(S) && ListsOk(S) && LinksOk(S') && a !in S.up && S.macs.Keys == S.up.Keys
    requires S'.macs == S.macs[a := {}] && S'.up.Keys == S.up.Keys + {a}
    requires forall p :: p in S'.flt ==>
      S'.flt[p] == if p in S.flt then S.flt[p] else if p.0 == a && p.1 in S.macs then S.macs[p.1] else {}
    ensures ListsOk(S')
  {
    forall p | p in S'.flt ensures p.1 in S'.macs && S'.flt[p] == S'.macs[p.1] {
      assert (p.0, p.1) in S'.flt;
      if p in S.flt {
        assert (p.0, p.1) in S.flt;
        assert p.1 in Linked(S.up.Keys, p.0);
      } else {
        assert p.1 in Linked(S'.up.Keys, p.0);
        assert p.0 != a && p.1 != a ==> p.1 in Linked(S.up.Keys, p.0) && (p.0, p.1) in S.flt;
      }
    }
  }

  lemma PeersLinkedStep(peers: map<(Lan, Lan), set<Mac>>, a: Lan, done: set<Lan>, b: Lan)
    requires (a, b) !in peers && (b, a) !in peers
    ensures PeersLinked(peers, a, done)[(b, a) := {}][(a, b) := {}] == PeersLinked(peers, a, done + {b})
    ensures b !in done && b != a && a !in done ==>
      (a, b) !in PeersLinked(peers, a, done) && (b, a) !in PeersLinked(peers, a, done)
    ensures PeersLinked(peers, a, {}) == peers
  {
    assert PeersLinked(peers, a, done)[(b, a) := {}][(a, b) := {}].Keys == PeersLinked(peers, a, done + {b}).Keys;
  }

  /** The peer entries after handle_iface_up for a new interface, from those before. */
  function NewIfaceFlt(S: Shape, a: Lan): map<(Lan, Lan), set<Mac>> {
    if a.wlan then InterFlt(S, a)[(a, a) := {}] else InterFlt(S, a)
  }

  /** The part of the other interfaces. */
  function InterFlt(S: Shape, a: Lan): map<(Lan, Lan), set<Mac>> {
    var L := PeersLinked(S.flt, a, Linked(S.up.Keys, a));
    if a.Inter() then FltFilled(L, S.macs[a := {}], a, PeersIn(L, a)) else S.flt
  }

  lemma NewIfaceFltKeys(S: Shape, a: Lan)
    requires a !in S.up
    ensures forall x, y :: (x, y) in NewIfaceFlt(S, a) <==>
      ((x, y) in S.flt || (x == a && y in Linked(S.up.Keys + {a}, a)) || (y == a && x in Linked(S.up.Keys + {a}, a)))
  {
  }

  lemma NewIfaceFltValues(S: Shape, a: Lan)
    requires LinksOk(S) && S.macs.Keys == S.up.Keys && a !in S.up
    ensures forall p :: p in NewIfaceFlt(S, a) ==>
      NewIfaceFlt(S, a)[p] == if p in S.flt then S.flt[p] else if p.0 == a && p.1 in S.macs then S.macs[p.1] else {}
  {
    forall p | p in S.flt ensures p.0 != a && p.1 != a { assert (p.0, p.1) in S.flt; }
    assert forall y :: y in Linked(S.up.Keys, a) ==> y != a;
  }

  /** Before handle_intra_interface_info, a is not its own peer. */
  lemma OwnNotYet(S: Shape, a: Lan)
    requires Unlinked(S, a) && a !in S.up
    ensures (a, a) !in InterFlt(S, a)
  {
  }

  lemma NewIfaceLimits(S: Shape, a: Lan, S': Shape)
    requires LimitsOk(S) && a !in S.up && a.Usable() && |S.up| < MAX_NUM_IFACE
    requires a in S'.up && (S'.up[a].v4 || S'.up[a].v6)
    requires S'.up == S.up[a := S'.up[a]] && S'.macs == S.macs[a := {}]
    ensures LimitsOk(S') && S'.up.Keys == S.up.Keys + {a}
  {
    OneMoreKey(S.up, a, S'.up[a]);
    assert S'.macs.Keys == S.macs.Keys + {a};
    forall x | x in S'.up ensures x.Usable() && (S'.up[x].v4 || S'.up[x].v6) {
      assert x != a ==> x in S.up && S'.up[x] == S.up[x];
    }
    forall x | x in S'.macs ensures |S'.macs[x]| <= MAX_NUM_CLIENT {
      assert x != a ==> x in S.macs && S'.macs[x] == S.macs[x];
    }
  }

  lemma OneMoreKey<V>(m: map<Lan, V>, a: Lan, v: V)
    requires a !in m
    ensures m[a := v].Keys == m.Keys + {a} && |m[a := v]| == |m| + 1
  {
    assert |m[a := v].Keys| == |m[a := v]| && |m.Keys| == |m|;
  }

  lemma SameDomain(S: Shape)
    requires LimitsOk(S)
    ensures S.macs.Keys == S.up.Keys
    ensures forall a :: a in S.up ==> a.Usable() && (S.up[a].v4 || S.up[a].v6)
  {
  }

  /** Just linked, a has empty filter lists and no filter rules. */
  lemma NewListsEmpty(S: Shape, T: Shape, keys: set<Key>, a: Lan)
    requires LinksOk(S) && Balanced(T, keys) && a !in S.up && T.macs.Keys == S.up.Keys + {a}
    requires T.flt == PeersLinked(S.flt, a, Linked(T.up.Keys - {a}, a)) && T.up.Keys == S.up.Keys + {a}
    ensures forall b :: (a, b) in T.flt ==> T.flt[(a, b)] == {} && b in T.macs && b != a
    ensures forall b, m, ip :: FltK(a, b, m, ip) !in keys
  {
    forall b | (a, b) in T.flt ensures T.flt[(a, b)] == {} && b in T.macs && b != a {
      assert (a, b) !in S.flt;
    }
    forall b, m, ip ensures FltK(a, b, m, ip) !in keys {
      assert FltK(a, b, m, ip) in keys <==> Due(T, FltK(a, b, m, ip));
    }
  }

  /** What handle_iface_up leaves behind for a new interface is complete. */
  lemma NewIfaceComplete(S: Shape, a: Lan, S': Shape)
    requires Complete(S) && a !in S.up && a.Usable() && |S.up| < MAX_NUM_IFACE
    requires a in S'.up && (S'.up[a].v4 || S'.up[a].v6)
    requires S'.up == S.up[a := S'.up[a]] && S'.macs == S.macs[a := {}]
    requires S'.flt == NewIfaceFlt(S, a)
    ensures Complete(S')
  {
    hide NewIfaceFlt, LinksOk, ListsOk, Linked;
    NewIfaceLimits(S, a, S');
    NewIfaceFltKeys(S, a);
    NewIfaceFltValues(S, a);
    RegisteredLinks(S, a, S');
    RegisteredLists(S, a, S');
  }

  // ---------- A further family on a registered interface ----------

  /** In a complete state the filter lists are already full. */
  lemma ListsAreFull(S: Shape, b: Lan)
    requires ListsOk(S)
    ensures FltFilled(S.flt, S.macs, b, PeersIn(S.flt, b)) == S.flt
    ensures forall a :: (b, a) in S.flt ==> a in S.macs
    ensures (b, b) in S.flt ==> S.flt[(b, b) := S.flt[(b, b)] + S.macs[b]] == S.flt
  {
    forall p | p in S.flt ensures p.1 in S.macs && S.flt[p] + S.macs[p.1] == S.flt[p] {}
    forall a | (b, a) in S.flt ensures a in S.macs { assert (b, a).1 == a; }
  }

  lemma PeersAndSelf(S: Shape, b: Lan)
    requires LinksOk(S) && b in S.up
    ensures (b, b) in S.flt <==> b.wlan
    ensures !b.Inter() ==> PeersIn(S.flt, b) == {}
    ensures S.Peers(b) == PeersIn(S.flt, b) + if b.wlan then {b} else {}
  {
    assert (b, b) in S.flt <==> b in S.up && b in Linked(S.up.Keys, b);
    forall a | (b, a) in S.flt ensures a != b ==> b.Inter() { assert a in Linked(S.up.Keys, b); }
  }

  lemma FltKeysWithSelf(S: Shape, b: Lan, ip: Ip)
    requires LinksOk(S) && b in S.up && b in S.macs
    ensures FltKeysOn(S.macs, b, S.Peers(b), {ip})
         == FltKeysOn(S.macs, b, PeersIn(S.flt, b), {ip}) + if b.wlan then FltKeys(b, b, S.macs[b], {ip}) else {}
  {
    PeersAndSelf(S, b);
  }

  lemma NoRulesForFamily(S: Shape, keys: set<Key>, b: Lan, ip: Ip)
    requires Balanced(S, keys) && b in S.up && !S.up[b].Get(ip)
    ensures forall a, m :: FltK(b, a, m, ip) !in keys
  {
    forall a, m ensures FltK(b, a, m, ip) !in keys {
      assert FltK(b, a, m, ip) in keys <==> Due(S, FltK(b, a, m, ip));
    }
  }

  // ---------- A client joins or leaves ----------

  lemma ClientJoinedStep(peers: map<(Lan, Lan), set<Mac>>, a: Lan, m: Mac, done: set<Lan>, b: Lan)
    requires (b, a) in peers && b !in done
    ensures var P := ClientJoined(peers, a, m, done);
      (b, a) in P && P[(b, a) := P[(b, a)] + {m}] == ClientJoined(peers, a, m, done + {b})
    ensures ClientJoined(peers, a, m, done).Keys == peers.Keys
    ensures ClientJoined(peers, a, m, {}) == peers
  {
  }

  lemma ClientLeftStep(peers: map<(Lan, Lan), set<Mac>>, a: Lan, m: Mac, done: set<Lan>, b: Lan)
    requires (b, a) in peers && b !in done
    ensures var P := ClientLeft(peers, a, m, done);
      (b, a) in P && P[(b, a)] == peers[(b, a)] && P[(b, a) := P[(b, a)] - {m}] == ClientLeft(peers, a, m, done + {b})
    ensures ClientLeft(peers, a, m, done).Keys == peers.Keys
    ensures ClientLeft(peers, a, m, {}) == peers
  {
  }

  /** Everyone whose filter list names a's clients is in a's own peer list, and vice versa. */
  lemma PeersAreMutual(S: Shape, a: Lan)
    requires LinksOk(S) && a in S.up
    ensures forall b :: (b, a) in S.flt <==> (a, b) in S.flt
    ensures forall b :: (b, a) in S.flt ==> b in S.up
  {
    forall b ensures (b, a) in S.flt <==> (a, b) in S.flt {
      assert (b, a) in S.flt <==> b in S.up && a in Linked(S.up.Keys, b);
      assert (a, b) in S.flt <==> a in S.up && b in Linked(S.up.Keys, a);
    }
  }

  ghost predicate NoneFor(keys: set<Key>, a: Lan, m: Mac) {
    forall k :: k in keys ==> !(k.RtK? && k.a == a && k.m == m) && !(k.FltK? && k.a == a && k.m == m)
  }

  lemma NoRulesForNewClient(S: Shape, keys: set<Key>, a: Lan, m: Mac)
    requires Balanced(S, keys) && ListsOk(S) && a in S.macs && m !in S.macs[a]
    ensures NoneFor(keys, a, m)
  {
    forall k | k in keys ensures !(k.RtK? && k.a == a && k.m == m) && !(k.FltK? && k.a == a && k.m == m) {
      assert Due(S, k);
    }
  }

  /** A slot has a context exactly when some peer entry uses it. */
  lemma SlotsAreDue(S: Shape, a: Lan)
    ensures forall s :: CtxDue(S, a, s) <==> s in SlotsOf(a, S.Peers(a))
  {
    forall s ensures CtxDue(S, a, s) <==> s in SlotsOf(a, S.Peers(a)) {
      match s
      case Own =>
        if a in S.Peers(a) { assert SlotOf(a, a) == Own; }
      case Ty(t) =>
        var P := PeersOfType(S.Peers(a), a, t);
        if P != {} { var b :| b in P; assert SlotOf(a, b) == s; }
        if s in SlotsOf(a, S.Peers(a)) { var b :| b in S.Peers(a) && SlotOf(a, b) == s; assert b in P; }
    }
  }

  /** The rules for one client: those of all slots and on all peers. */
  ghost predicate RuleFor(up: map<Lan, PerIp<bool>>, a: Lan, m: Mac, slots: set<Slot>, done: set<Lan>, k: Key) {
    match k
    case CtxK(_, _) => false
    case RtK(a', m', s, ip, i) => a' == a && m' == m && s in slots && i < a.rtCount.Get(ip)
    case FltK(b, a', m', ip) => a' == a && m' == m && b in done && b in up && up[b].Get(ip)
  }

  /** keys' is keys with the rules for client m of a in `slots` and on `done` added. */
  ghost predicate Joined(keys: set<Key>, keys': set<Key>, up: map<Lan, PerIp<bool>>, a: Lan, m: Mac, slots: set<Slot>,
                         done: set<Lan>)
  {
    forall k :: k in keys' <==> (k in keys || RuleFor(up, a, m, slots, done, k))
  }

  lemma JoinedNone(keys: set<Key>, up: map<Lan, PerIp<bool>>, a: Lan, m: Mac)
    ensures Joined(keys, keys, up, a, m, {}, {})
  {
  }

  lemma JoinedStep(keys: set<Key>, keys1: set<Key>, keys2: set<Key>, up: map<Lan, PerIp<bool>>,
                   a: Lan, m: Mac, slots: set<Slot>, done: set<Lan>, b: Lan)
    requires Joined(keys, keys1, up, a, m, slots, done) && b in up
    requires keys2 == keys1 + (if SlotOf(a, b) in slots then {} else RtKeys(a, m, SlotOf(a, b)))
      + FltKeys(b, a, {m}, UpSet(up[b]))
    ensures Joined(keys, keys2, up, a, m, slots + {SlotOf(a, b)}, done + {b})
  {
  }

  /** Nothing is in the way of adding client m on a further peer. */
  lemma JoinedFresh(keys: set<Key>, keys1: set<Key>, up: map<Lan, PerIp<bool>>, a: Lan, m: Mac, slots: set<Slot>,
                    done: set<Lan>, b: Lan)
    requires Joined(keys, keys1, up, a, m, slots, done) && b !in done
    requires NoneFor(keys, a, m)
    ensures SlotOf(a, b) !in slots ==> forall ip, i :: RtK(a, m, SlotOf(a, b), ip, i) !in keys1
    ensures forall ip :: FltK(b, a, m, ip) !in keys1
  {
  }

  lemma SlotsOfStep(a: Lan, done: set<Lan>, b: Lan)
    ensures SlotsOf(a, done + {b}) == SlotsOf(a, done) + {SlotOf(a, b)}
    ensures SlotsOf(a, {}) == {}
  {
  }

  /** keys' is keys without the rules for client m of a in `slots` and on `done`. */
  ghost predicate Left(keys: set<Key>, keys': set<Key>, a: Lan, m: Mac, slots: set<Slot>, done: set<Lan>) {
    forall k :: k in keys' <==> (k in keys && !ClientKey(a, m, slots, done, k))
  }

  lemma LeftNone(keys: set<Key>, a: Lan, m: Mac)
    ensures Left(keys, keys, a, m, {}, {})
  {
  }

  lemma LeftStep(keys: set<Key>, keys1: set<Key>, keys2: set<Key>, a: Lan, m: Mac, slots: set<Slot>, done: set<Lan>,
                 b: Lan)
    requires Left(keys, keys1, a, m, slots, done)
    requires var k1 := keys1 - FltKeys(b, a, {m}, {V4, V6});
      keys2 == k1 - if SlotOf(a, b) in slots then {} else RtOf(k1, a, m, SlotOf(a, b))
    ensures Left(keys, keys2, a, m, slots + {SlotOf(a, b)}, done + {b})
  {
    forall k ensures k in keys2 <==> (k in keys && !ClientKey(a, m, slots + {SlotOf(a, b)}, done + {b}, k)) {
      if k.FltK? { match k.ip { case V4 => case V6 => } }
    }
  }

  /** The filter rules for client m on a peer not yet visited are those of its assigned families. */
  lemma LeftPending(S: Shape, keys: set<Key>, keys1: set<Key>, a: Lan, m: Mac, slots: set<Slot>, done: set<Lan>, b: Lan)
    requires Balanced(S, keys) && Left(keys, keys1, a, m, slots, done) && b !in done && (b, a) in S.flt && b in S.up
    ensures forall ip :: FltK(b, a, m, ip) in keys1 <==> S.up[b].Get(ip) && m in S.flt[(b, a)]
  {
    forall ip ensures FltK(b, a, m, ip) in keys1 <==> S.up[b].Get(ip) && m in S.flt[(b, a)] {
      assert FltK(b, a, m, ip) in keys <==> Due(S, FltK(b, a, m, ip));
    }
  }

  function WithClients(S: Shape, a: Lan, macs: set<Mac>, flt: map<(Lan, Lan), set<Mac>>): Shape {
    S.(macs := S.macs[a := macs], flt := flt)
  }

  lemma JoinKeepsBalance(S: Shape, keys: set<Key>, a: Lan, m: Mac, keys': set<Key>)
    requires Balanced(S, keys) && LinksOk(S) && a in S.up && a in S.macs
    requires Joined(keys, keys', S.up, a, m, SlotsOf(a, S.Peers(a)), S.Peers(a))
    ensures Balanced(WithClients(S, a, S.macs[a] + {m}, ClientJoined(S.flt, a, m, S.Peers(a))), keys')
  {
    hide CtxDue, Counted, SlotsOf;
    var S' := WithClients(S, a, S.macs[a] + {m}, ClientJoined(S.flt, a, m, S.Peers(a)));
    SamePeersSameCtx(S, S');
    SlotsAreDue(S, a);
    PeersAreMutual(S, a);
    forall k ensures k in keys' <==> Due(S', k) {
      assert k in keys <==> Due(S, k);
    }
  }

  lemma LeaveKeepsBalance(S: Shape, keys: set<Key>, a: Lan, m: Mac, keys': set<Key>)
    requires Balanced(S, keys) && LinksOk(S) && a in S.up && a in S.macs
    requires Left(keys, keys', a, m, SlotsOf(a, S.Peers(a)), S.Peers(a))
    ensures Balanced(WithClients(S, a, S.macs[a] - {m}, ClientLeft(S.flt, a, m, S.Peers(a))), keys')
  {
    hide CtxDue, Counted, SlotsOf;
    var S' := WithClients(S, a, S.macs[a] - {m}, ClientLeft(S.flt, a, m, S.Peers(a)));
    SamePeersSameCtx(S, S');
    SlotsAreDue(S, a);
    PeersAreMutual(S, a);
    forall k ensures k in keys' <==> Due(S', k) {
      assert k in keys <==> Due(S, k);
    }
  }

  lemma ClientsChangedComplete(S: Shape, a: Lan, macs: set<Mac>, flt: map<(Lan, Lan), set<Mac>>)
    requires Complete(S) && a in S.up && |macs| <= MAX_NUM_CLIENT && flt.Keys == S.flt.Keys
    requires forall p :: p in flt ==> flt[p] == if p.1 == a then macs else S.flt[p]
    ensures Complete(WithClients(S, a, macs, flt))
  {
    var S' := WithClients(S, a, macs, flt);
    hide LinksOk, LimitsOk, ListsOk;
    SameLinks(S, S');
    ClientsChangedLimits(S, a, macs, flt);
    ClientsChangedLists(S, a, macs, flt);
  }

  lemma ClientsChangedLists(S: Shape, a: Lan, macs: set<Mac>, flt: map<(Lan, Lan), set<Mac>>)
    requires ListsOk(S) && flt.Keys == S.flt.Keys
    requires forall p :: p in flt ==> flt[p] == if p.1 == a then macs else S.flt[p]
    ensures ListsOk(WithClients(S, a, macs, flt))
  {
    var S' := WithClients(S, a, macs, flt);
    forall p | p in S'.flt ensures p.1 in S'.macs && S'.flt[p] == S'.macs[p.1] {
      assert p in S.flt && p.1 in S.macs;
    }
  }

  lemma SameLinks(S: Shape, S': Shape)
    requires LinksOk(S) && S'.up == S.up && S'.flt.Keys == S.flt.Keys
    ensures LinksOk(S')
  {
    forall b, a ensures (b, a) in S'.flt <==> b in S'.up && a in Linked(S'.up.Keys, b) {
      assert (b, a) in S.flt <==> b in S.up && a in Linked(S.up.Keys, b);
    }
  }

  lemma ClientsChangedLimits(S: Shape, a: Lan, macs: set<Mac>, flt: map<(Lan, Lan), set<Mac>>)
    requires LimitsOk(S) && a in S.up && |macs| <= MAX_NUM_CLIENT
    ensures LimitsOk(WithClients(S, a, macs, flt))
  {
    assert S.macs[a := macs].Keys == S.macs.Keys;
  }

  lemma JoinKeepsComplete(S: Shape, a: Lan, m: Mac)
    requires Complete(S) && a in S.up && a in S.macs && m !in S.macs[a] && |S.macs[a]| != MAX_NUM_CLIENT
    ensures Complete(WithClients(S, a, S.macs[a] + {m}, ClientJoined(S.flt, a, m, S.Peers(a))))
  {
    PeersAreMutual(S, a);
    ClientsChangedComplete(S, a, S.macs[a] + {m}, ClientJoined(S.flt, a, m, S.Peers(a)));
  }

  lemma LeftLists(S: Shape, a: Lan, m: Mac)
    requires LinksOk(S) && ListsOk(S) && a in S.up
    ensures var flt := ClientLeft(S.flt, a, m, S.Peers(a));
      && flt.Keys == S.flt.Keys && (forall p :: p in flt && p.1 != a ==> flt[p] == S.flt[p])
      && (forall p :: p in flt && p.1 == a ==> a in S.macs && flt[p] == S.macs[a] - {m})
  {
    hide LinksOk;
    PeersAreMutual(S, a);
  }

  lemma FewerClients(macs: set<Mac>, m: Mac)
    requires |macs| <= MAX_NUM_CLIENT
    ensures |macs - {m}| <= MAX_NUM_CLIENT
  {
    if m in macs {
      assert |macs - {m}| == |macs| - 1;
    } else {
      assert macs - {m} == macs;
    }
  }

  lemma LeaveKeepsComplete(S: Shape, a: Lan, m: Mac)
    requires Complete(S) && a in S.up && m in S.macs[a]
    ensures Complete(WithClients(S, a, S.macs[a] - {m}, ClientLeft(S.flt, a, m, S.Peers(a))))
  {
    assert a in S.macs && |S.macs[a]| <= MAX_NUM_CLIENT;
    FewerClients(S.macs[a], m);
    LeftLists(S, a, m);
    hide LinksOk, ListsOk, LimitsOk, ClientLeft;
    ClientsChangedComplete(S, a, S.macs[a] - {m}, ClientLeft(S.flt, a, m, S.Peers(a)));
  }

  lemma ClientJoinedNone(peers: map<(Lan, Lan), set<Mac>>, a: Lan, m: Mac)
    ensures ClientJoined(peers, a, m, {}) == peers
    ensures ClientLeft(peers, a, m, {}) == peers
  {
  }

  lemma EntryCtxBooked(S: Shape, keys: set<Key>, a: Lan, b: Lan)
    requires Balanced(S, keys) && (a, b) in S.flt
    ensures CtxK(a, SlotOf(a, b)) in keys
  {
    if a != b { assert b in PeersOfType(S.Peers(a), a, b.l2); }
    assert CtxK(a, SlotOf(a, b)) in keys <==> Due(S, CtxK(a, SlotOf(a, b)));
  }

  // ---------- A mode switch of the WLAN driver ----------

  function RtOfSlots(keys: set<Key>, a: Lan, slots: set<Slot>): set<Key> {
    set k | k in keys && k.RtK? && k.a == a && k.s in slots
  }

  /** A slot that has a context has all the rules of all clients. */
  lemma RtBooked(S: Shape, keys: set<Key>, a: Lan, s: Slot)
    requires Balanced(S, keys) && a in S.macs && CtxK(a, s) in keys
    ensures forall m, ip, i: nat :: m in S.macs[a] ==> (RtK(a, m, s, ip, i) in keys <==> i < a.rtCount.Get(ip))
    ensures RtOfAll(keys, a, s) == RtKeysAll(a, S.macs[a], s)
  {
    hide CtxDue;
    assert CtxK(a, s) in keys <==> Due(S, CtxK(a, s));
    forall k: Key | k.RtK? && k.a == a && k.s == s ensures k in keys <==> k in RtKeysAll(a, S.macs[a], s) {
      assert k in keys <==> Due(S, k);
    }
  }

  lemma RtKeysOneMore(a: Lan, macs: set<Mac>, todo: set<Mac>, m: Mac, s: Slot)
    requires m in todo && todo <= macs
    ensures RtKeysAll(a, macs - (todo - {m}), s) ==
      RtKeysAll(a, macs - todo, s) + (RtKeysIp(a, m, s, V4, a.rtCount.v4) + RtKeysIp(a, m, s, V6, a.rtCount.v6))
  {
    hide RtKeysAll, RtKeysIp;
    forall k ensures k in RtKeysAll(a, macs - (todo - {m}), s) <==>
        k in RtKeysAll(a, macs - todo, s)
          + (RtKeysIp(a, m, s, V4, a.rtCount.v4) + RtKeysIp(a, m, s, V6, a.rtCount.v6)) {
    }
  }

  lemma RtOfOneMore(keys: set<Key>, a: Lan, slots: set<Slot>, s: Slot)
    ensures RtOfSlots(keys, a, slots + {s}) == RtOfSlots(keys, a, slots) + RtOfAll(keys, a, s)
  {
  }

  lemma SlotsWithSelf(S: Shape, a: Lan)
    requires LinksOk(S) && a in S.up
    ensures !a.Inter() ==> SlotsOf(a, PeersIn(S.flt, a)) == {}
    ensures SlotsOf(a, S.Peers(a)) == SlotsOf(a, PeersIn(S.flt, a)) + if a.wlan then {Own} else {}
  {
    PeersAndSelf(S, a);
    SlotsOfStep(a, PeersIn(S.flt, a), a);
  }

  lemma RtSlots(S: Shape, keys: set<Key>, a: Lan, k: Key)
    requires Balanced(S, keys) && LinksOk(S) && k in keys && k.RtK? && k.a == a
    ensures a in S.up && k.s in SlotsOf(a, S.Peers(a))
  {
    hide LinksOk, SlotsOf, CtxDue;
    assert k in keys <==> Due(S, k);
    SlotsAreDue(S, a);
    assert CtxDue(S, a, k.s);
    HasPeers(S, a, k.s);
  }

  lemma HasPeers(S: Shape, a: Lan, s: Slot)
    requires LinksOk(S) && CtxDue(S, a, s)
    ensures a in S.up
  {
    if s.Ty? { var b :| b in PeersOfType(S.Peers(a), a, s.t); }
  }

  /** The rules of an interface are those for its peers' types and its own. */
  lemma RtOfAllSlots(S: Shape, keys: set<Key>, a: Lan)
    requires Balanced(S, keys) && Complete(S)
    ensures a !in S.up ==> (set k | k in keys && k.RtK? && k.a == a) == {}
    ensures a in S.up ==>
      && (!a.Inter() ==> SlotsOf(a, PeersIn(S.flt, a)) == {})
      && (set k | k in keys && k.RtK? && k.a == a) ==
        RtOfSlots(keys, a, SlotsOf(a, PeersIn(S.flt, a))) + if a.wlan then RtOfAll(keys, a, Own) else {}
  {
    hide Balanced, SlotsOf, LinksOk, ListsOk, LimitsOk;
    forall k | k in keys && k.RtK? && k.a == a
      ensures a in S.up && k.s in SlotsOf(a, S.Peers(a))
    {
      RtSlots(S, keys, a, k);
    }
    if a in S.up { SlotsWithSelf(S, a); }
  }

  lemma OwnCtxBooked(S: Shape, keys: set<Key>, a: Lan)
    requires Balanced(S, keys) && Complete(S) && a in S.up && a.wlan
    ensures CtxK(a, Own) in keys
  {
    PeersAndSelf(S, a);
    assert CtxK(a, Own) in keys <==> Due(S, CtxK(a, Own));
  }

  // ---------- An interface goes down ----------

  /** S as if a's peer entries for `done` had been erased already; handle_down_event erases them at the end. */
  function Hidden(S: Shape, a: Lan, done: set<Lan>): Shape {
    S.(flt := map p | p in S.flt && !(p.0 == a && p.1 in done) :: S.flt[p])
  }

  /** The rules of x for its peers of type t, once none is left. */
  function TypeKeys(keys: set<Key>, x: Lan, t: L2, gone: bool): set<Key> {
    if gone then RtOfAll(keys, x, Ty(t)) + {CtxK(x, Ty(t))} else {}
  }

  /** The four groups of superfluous rules do not overlap. */
  lemma TypeKeysApart(keys: set<Key>, a: Lan, b: Lan, goneB: bool, goneA: bool)
    requires a != b
    ensures var keys1 := keys - FltOf(keys, a, b) - FltOf(keys, b, a);
      && TypeKeys(keys1, b, a.l2, goneB) == TypeKeys(keys, b, a.l2, goneB)
      && TypeKeys(keys1 - TypeKeys(keys, b, a.l2, goneB), a, b.l2, goneA) == TypeKeys(keys, a, b.l2, goneA)
      && (forall k :: k in keys1 && !k.FltK? <==> k in keys && !k.FltK?)
      && (forall k :: k in keys && k.a == a && !k.FltK? ==> k in keys1 - TypeKeys(keys, b, a.l2, goneB))
  {
  }

  lemma UnlinkKeepsBalance(S: Shape, keys: set<Key>, a: Lan, b: Lan, keys': set<Key>)
    requires Balanced(S, keys) && a != b && a in S.up && b in S.up && (a, b) in S.flt && (b, a) in S.flt
    requires keys' == keys - FltOf(keys, a, b) - FltOf(keys, b, a)
                      - TypeKeys(keys, b, a.l2, S.Cnt(b, a.l2) == 1) - TypeKeys(keys, a, b.l2, S.Cnt(a, b.l2) == 1)
    ensures Balanced(Lost(Lost(S, a, b), b, a), keys')
  {
    hide Balanced;
    LossKeepsBalance(S, keys, a, b);
    LossKeepsBalance(Lost(S, a, b), keys - LossKeys(S, keys, a, b), b, a);
    assert keys' == keys - LossKeys(S, keys, a, b) - LossKeys(Lost(S, a, b), keys - LossKeys(S, keys, a, b), b, a);
  }

  /** Before a pair is unlinked: its filter rules are those in its lists, and its contexts are live. */
  lemma UnlinkReady(S: Shape, keys: set<Key>, x: Lan, p: Lan)
    requires Balanced(S, keys) && x != p && x in S.up && (x, p) in S.flt
    ensures forall m, ip :: FltK(x, p, m, ip) in keys <==> S.up[x].Get(ip) && m in S.flt[(x, p)]
    ensures CtxK(x, Ty(p.l2)) in keys
    ensures forall k :: k in keys && k.RtK? && k.a == x ==> x in S.macs && k.m in S.macs[x]
    ensures S.Cnt(x, p.l2) > 0
  {
    forall m, ip ensures FltK(x, p, m, ip) in keys <==> S.up[x].Get(ip) && m in S.flt[(x, p)] {
      assert FltK(x, p, m, ip) in keys <==> Due(S, FltK(x, p, m, ip));
    }
    EntryCtxBooked(S, keys, x, p);
    CtxBooked(S, keys, x, p.l2);
    forall k | k in keys && k.RtK? && k.a == x ensures x in S.macs && k.m in S.macs[x] {
      assert Due(S, k);
    }
  }

  lemma HiddenStep(S: Shape, a: Lan, done: set<Lan>, b: Lan, cnt: map<(Lan, L2), int>, flt: map<(Lan, Lan), set<Mac>>)
    requires a != b && b !in done
    requires cnt == S.cnt[(a, b.l2) := S.Cnt(a, b.l2) - 1][(b, a.l2) := S.Cnt(b, a.l2) - 1]
    requires flt == S.flt[(a, b) := {}][(b, a) := {}] - {(b, a)}
    ensures var T := Hidden(S, a, done);
      Hidden(S.(cnt := cnt, flt := flt), a, done + {b}) == Lost(Lost(T, a, b), b, a)
  {
    var T := Hidden(S, a, done);
    assert Hidden(S.(cnt := cnt, flt := flt), a, done + {b}).flt == T.flt - {(a, b)} - {(b, a)};
  }

  /** The peer entries after handle_down_event's loop has passed `done`. */
  function PeersUnlinked(peers: map<(Lan, Lan), set<Mac>>, a: Lan, done: set<Lan>): map<(Lan, Lan), set<Mac>> {
    map p | p in peers && !(p.1 == a && p.0 in done) :: if p.0 == a && p.1 in done then {} else peers[p]
  }

  lemma PeersUnlinkedStep(peers: map<(Lan, Lan), set<Mac>>, a: Lan, done: set<Lan>, b: Lan)
    requires (a, b) in peers && (b, a) in peers && b !in done && a != b && a !in done
    ensures PeersUnlinked(peers, a, {}) == peers
    ensures (a, b) in PeersUnlinked(peers, a, done) && (b, a) in PeersUnlinked(peers, a, done)
    ensures PeersUnlinked(peers, a, done)[(a, b) := {}][(b, a) := {}] - {(b, a)} == PeersUnlinked(peers, a, done + {b})
  {
  }

  lemma PeersUnlinkedNone(peers: map<(Lan, Lan), set<Mac>>, a: Lan)
    ensures PeersUnlinked(peers, a, {}) == peers
  {
  }

  function EntriesOf(a: Lan, done: set<Lan>): set<(Lan, Lan)> {
    set b | b in done :: (a, b)
  }

  /** Erasing the hidden entries makes the pretence true; they hold no filter rules any more. */
  lemma UnhidePeers(S: Shape, keys: set<Key>, a: Lan, done: set<Lan>)
    requires Balanced(Hidden(S, a, done), keys)
    ensures forall k :: k in keys && k.FltK? ==> (k.b, k.a) !in EntriesOf(a, done)
    ensures Hidden(S, a, done) == S.(flt := S.flt - EntriesOf(a, done))
  {
    forall k | k in keys && k.FltK? ensures (k.b, k.a) !in EntriesOf(a, done) {
      assert Due(Hidden(S, a, done), k);
    }
    assert Hidden(S, a, done).flt == S.flt - EntriesOf(a, done);
  }

  lemma HiddenNone(S: Shape, a: Lan)
    ensures Hidden(S, a, {}) == S
  {
    assert Hidden(S, a, {}).flt == S.flt;
  }

  /** Only a itself is left as an entry of a's, and no other interface has an entry for it. */
  predicate Isolated(S: Shape, a: Lan) {
    forall p :: p in S.flt && (p.0 == a || p.1 == a) ==> p == (a, a)
  }

  lemma AllUnlinkedIsIsolated(S: Shape, a: Lan, S': Shape)
    requires LinksOk(S) && a in S.up
    requires S'.flt == PeersUnlinked(S.flt, a, PeersIn(S.flt, a)) - EntriesOf(a, PeersIn(S.flt, a))
    ensures Isolated(S', a)
    ensures (a, a) in S'.flt <==> a.wlan
    ensures S'.flt.Keys == set p | p in S.flt && ((p.0 != a && p.1 != a) || p == (a, a))
    ensures forall p :: p in S'.flt ==> S'.flt[p] == S.flt[p]
  {
    PeersAreMutual(S, a);
    PeersAndSelf(S, a);
  }

  lemma IsolatedCounts(S: Shape, keys: set<Key>, a: Lan, t: L2)
    requires Balanced(S, keys) && Isolated(S, a) && a in S.up
    ensures S.Cnt(a, t) == 0
  {
    forall b | b in S.Peers(a) ensures b == a { assert (a, b) == (a, a); }
    assert PeersOfType(S.Peers(a), a, t) == {};
    assert S.Cnt(a, t) == |PeersOfType(S.Peers(a), a, t)|;
  }

  function Unregistered(S: Shape, a: Lan): Shape {
    Shape(S.up - {a}, S.macs - {a}, S.cnt, S.flt - {(a, a)})
  }

  lemma UnregisteredIs(S: Shape, a: Lan)
    ensures Unregistered(S, a) == Shape(S.up - {a}, S.macs - {a}, S.cnt, S.flt - {(a, a)})
  {
  }

  lemma UnregisterKeepsBalance(S: Shape, keys: set<Key>, a: Lan)
    requires Balanced(S, keys) && Isolated(S, a) && a in S.up
    ensures Balanced(Unregistered(S, a), keys - FltOf(keys, a, a) - RtOfAll(keys, a, Own) - {CtxK(a, Own)})
  {
    var S', keys' := Unregistered(S, a), keys - FltOf(keys, a, a) - RtOfAll(keys, a, Own) - {CtxK(a, Own)};
    forall x | x != a ensures S'.Peers(x) == S.Peers(x) {}
    forall x, t | x in S'.up ensures S'.Cnt(x, t) == |PeersOfType(S'.Peers(x), x, t)| {
      assert S.Cnt(x, t) == |PeersOfType(S.Peers(x), x, t)|;
    }
    assert S'.Peers(a) == {} by { forall b | (a, b) in S.flt ensures b == a { assert (a, b) == (a, a); } }
    assert PeersOfType({}, a, EthII) == {};
    forall t ensures PeersOfType(S.Peers(a), a, t) == {} {
      forall b | b in S.Peers(a) ensures b == a { assert (a, b) == (a, a); }
    }
    forall x, s ensures CtxDue(S', x, s) <==> CtxDue(S, x, s) && !(x == a && s == Own) {
      if x == a && s.Ty? { assert PeersOfType(S'.Peers(a), a, s.t) == {}; }
    }
    forall k ensures k in keys' <==> Due(S', k) {
      assert k in keys <==> Due(S, k);
      if k.FltK? && (k.b, k.a) in S.flt && (k.b == a || k.a == a) { assert (k.b, k.a) == (a, a); }
    }
  }

  lemma UnregisteredLinks(S: Shape, a: Lan, S': Shape)
    requires LinksOk(S) && S'.up.Keys == S.up.Keys - {a}
    requires forall p :: p in S'.flt <==> p in S.flt && p.0 != a && p.1 != a
    ensures LinksOk(S')
  {
    forall x, y ensures (x, y) in S'.flt <==> x in S'.up && y in Linked(S'.up.Keys, x) {
      assert (x, y) in S.flt <==> x in S.up && y in Linked(S.up.Keys, x);
    }
  }

  lemma UnregisteredLimits(S: Shape, a: Lan, S': Shape)
    requires LimitsOk(S) && a in S.up && S'.up == S.up - {a} && S'.macs == S.macs - {a}
    ensures LimitsOk(S') && S'.up.Keys == S.up.Keys - {a}
  {
    assert |S'.up.Keys| == |S.up.Keys| - 1;
  }

  lemma UnregisterKeepsComplete(S: Shape, a: Lan, S': Shape)
    requires Complete(S) && a in S.up
    requires S'.up == S.up - {a} && S'.macs == S.macs - {a}
    requires forall p :: p in S'.flt <==> p in S.flt && p.0 != a && p.1 != a
    requires forall p :: p in S'.flt ==> S'.flt[p] == S.flt[p]
    ensures Complete(S')
  {
    hide LinksOk, LimitsOk, ListsOk;
    UnregisteredLimits(S, a, S');
    UnregisteredLinks(S, a, S');
    UnregisteredLists(S, a, S');
  }

  lemma UnregisteredLists(S: Shape, a: Lan, S': Shape)
    requires ListsOk(S) && S'.macs == S.macs - {a}
    requires forall p :: p in S'.flt <==> p in S.flt && p.0 != a && p.1 != a
    requires forall p :: p in S'.flt ==> S'.flt[p] == S.flt[p]
    ensures ListsOk(S')
  {
    forall p | p in S'.flt ensures p.1 in S'.macs && S'.flt[p] == S'.macs[p.1] {
      assert p in S.flt;
    }
  }

  /** What handle_down_event leaves behind is complete for the remaining interfaces. */
  lemma DownKeepsComplete(S: Shape, a: Lan, T: Shape)
    requires Complete(S) && a in S.up && T.up == S.up && T.macs == S.macs
    requires T.flt == PeersUnlinked(S.flt, a, PeersIn(S.flt, a)) - EntriesOf(a, PeersIn(S.flt, a))
    ensures Isolated(T, a)
    ensures (a, a) in T.flt <==> a.wlan
    ensures Complete(Unregistered(T, a))
  {
    hide LinksOk, ListsOk, LimitsOk, PeersUnlinked, EntriesOf;
    AllUnlinkedIsIsolated(S, a, T);
    UnregisterKeepsComplete(S, a, Unregistered(T, a));
  }

  lemma OwnRules(S: Shape, keys: set<Key>, a: Lan)
    requires Balanced(S, keys) && (a, a) in S.flt && a in S.up && a in S.macs
    ensures forall m, ip :: FltK(a, a, m, ip) in keys <==> S.up[a].Get(ip) && m in S.flt[(a, a)]
    ensures forall k :: k in keys && k.RtK? && k.a == a ==> k.m in S.macs[a]
    ensures CtxK(a, Own) in keys
  {
    forall m, ip ensures FltK(a, a, m, ip) in keys <==> S.up[a].Get(ip) && m in S.flt[(a, a)] {
      assert FltK(a, a, m, ip) in keys <==> Due(S, FltK(a, a, m, ip));
    }
    forall k | k in keys && k.RtK? && k.a == a ensures k.m in S.macs[a] {
      assert Due(S, k);
    }
    EntryCtxBooked(S, keys, a, a);
  }

  lemma NoOwnRules(S: Shape, keys: set<Key>, a: Lan)
    requires Balanced(S, keys) && (a, a) !in S.flt
    ensures FltOf(keys, a, a) == {} && RtOfAll(keys, a, Own) == {} && CtxK(a, Own) !in keys
    ensures forall k :: k in keys && k.FltK? ==> (k.b, k.a) != (a, a)
  {
    forall k | k in keys
      ensures (k.FltK? ==> (k.b, k.a) != (a, a)) && !(k.RtK? && k.a == a && k.s == Own) && k != CtxK(a, Own)
    {
      assert Due(S, k);
    }
  }

  // ---------- Shapes as configurations ----------

  lemma CfgOfFacts(S: Shape)
    requires S.macs.Keys == S.up.Keys
    ensures CfgOf(S).Keys == S.up.Keys
    ensures forall a :: a in S.up ==> CfgOf(S)[a] == IfCfg(S.up[a], S.macs[a])
  {
  }

  lemma CfgSize(S: Shape)
    requires S.macs.Keys == S.up.Keys
    ensures |CfgOf(S)| == |S.up|
  {
    assert CfgOf(S).Keys == S.up.Keys;
    assert |CfgOf(S).Keys| == |CfgOf(S)| && |S.up.Keys| == |S.up|;
  }

  lemma StepUpKnown(S: Shape, cached: seq<(Lan, Mac)>, a: Lan, ip: Ip, S': Shape)
    requires S.macs.Keys == S.up.Keys && a in S.up && CachedOk(Cfg(CfgOf(S), cached))
    requires S'.up == S.up[a := S.up[a].Set(ip, true)] && S'.macs == S.macs
    ensures Cfg(CfgOf(S'), cached) == Step(Cfg(CfgOf(S), cached), IfaceUp(a, ip))
    ensures CachedOk(Cfg(CfgOf(S'), cached))
  {
    CfgOfFacts(S);
    assert S'.up.Keys == S.up.Keys;
    CfgOfFacts(S');
    assert CfgOf(S') == Step(Cfg(CfgOf(S), cached), IfaceUp(a, ip)).ifs;
  }

  lemma StepUpRefused(S: Shape, cached: seq<(Lan, Mac)>, a: Lan, ip: Ip)
    requires S.macs.Keys == S.up.Keys && a !in S.up && (|S.up| == MAX_NUM_IFACE || !a.Usable())
    ensures Step(Cfg(CfgOf(S), cached), IfaceUp(a, ip)) == Cfg(CfgOf(S), cached)
  {
    CfgOfFacts(S);
    CfgSize(S);
  }

  lemma StepUpNew(S: Shape, cached: seq<(Lan, Mac)>, a: Lan, ip: Ip, S': Shape)
    requires S.macs.Keys == S.up.Keys && a !in S.up && |S.up| != MAX_NUM_IFACE && a.Usable()
    requires CachedOk(Cfg(CfgOf(S), cached))
    requires S'.up == S.up[a := PerIp(false, false).Set(ip, true)] && S'.macs == S.macs[a := AddCached({}, cached, a)]
    ensures Cfg(CfgOf(S'), Without(cached, a)) == Step(Cfg(CfgOf(S), cached), IfaceUp(a, ip))
    ensures CachedOk(Cfg(CfgOf(S'), Without(cached, a)))
  {
    hide AddCached, Without;
    CfgOfFacts(S);
    CfgSize(S);
    WithoutFacts(cached, a);
    CfgOfNew(S, a, PerIp(false, false).Set(ip, true), AddCached({}, cached, a), S');
  }

  lemma CfgOfNew(S: Shape, a: Lan, u: PerIp<bool>, macs: set<Mac>, S': Shape)
    requires S.macs.Keys == S.up.Keys && S'.up == S.up[a := u] && S'.macs == S.macs[a := macs]
    ensures CfgOf(S') == CfgOf(S)[a := IfCfg(u, macs)]
  {
    assert S'.up.Keys == S.up.Keys + {a} && S'.macs.Keys == S.macs.Keys + {a};
    CfgOfFacts(S);
    CfgOfFacts(S');
  }

  lemma StepDownKnown(S: Shape, cached: seq<(Lan, Mac)>, a: Lan, S': Shape)
    requires S.macs.Keys == S.up.Keys && a in S.up && CachedOk(Cfg(CfgOf(S), cached))
    requires S'.up == S.up - {a} && S'.macs == S.macs - {a}
    ensures Cfg(CfgOf(S'), cached) == Step(Cfg(CfgOf(S), cached), IfaceDown(a))
    ensures CachedOk(Cfg(CfgOf(S'), cached))
  {
    CfgOfFacts(S);
    assert S'.up.Keys == S.up.Keys - {a} && S'.macs.Keys == S.macs.Keys - {a};
    CfgOfFacts(S');
    assert CfgOf(S') == Step(Cfg(CfgOf(S), cached), IfaceDown(a)).ifs;
  }

  lemma StepDownUnknown(S: Shape, cached: seq<(Lan, Mac)>, a: Lan)
    requires S.macs.Keys == S.up.Keys && a !in S.up && CachedOk(Cfg(CfgOf(S), cached))
    ensures Cfg(CfgOf(S), Without(cached, a)) == Step(Cfg(CfgOf(S), cached), IfaceDown(a))
    ensures CachedOk(Cfg(CfgOf(S), Without(cached, a)))
  {
    hide Without;
    CfgOfFacts(S);
    WithoutFacts(cached, a);
  }

  /** The clients of a become macs. */
  lemma StepClients(S: Shape, cached: seq<(Lan, Mac)>, a: Lan, macs: set<Mac>, e: Event, S': Shape)
    requires S.macs.Keys == S.up.Keys && a in S.up && CachedOk(Cfg(CfgOf(S), cached))
    requires S'.up == S.up && S'.macs == S.macs[a := macs]
    requires (e.ClientAdd? && e.a == a && macs == WithClient(S.macs[a], e.m))
      || (e.ClientDel? && e.a == a && macs == S.macs[a] - {e.m})
    ensures Cfg(CfgOf(S'), cached) == Step(Cfg(CfgOf(S), cached), e)
    ensures CachedOk(Cfg(CfgOf(S'), cached))
  {
    hide WithClient;
    CfgOfFacts(S);
    assert S'.macs.Keys == S.macs.Keys;
    CfgOfFacts(S');
    assert CfgOf(S') == Step(Cfg(CfgOf(S), cached), e).ifs;
  }

  lemma StepClientUnknown(S: Shape, cached: seq<(Lan, Mac)>, a: Lan, m: Mac)
    requires S.macs.Keys == S.up.Keys && a !in S.up && CachedOk(Cfg(CfgOf(S), cached))
    ensures var cached' := if |cached| < MAX_NUM_CACHED_CLIENT_ADD_EVENT then [(a, m)] + cached else cached;
      Cfg(CfgOf(S), cached') == Step(Cfg(CfgOf(S), cached), ClientAdd(a, m)) && CachedOk(Cfg(CfgOf(S), cached'))
    ensures Step(Cfg(CfgOf(S), cached), ClientDel(a, m)) == Cfg(CfgOf(S), cached)
  {
    CfgOfFacts(S);
  }

  lemma DomainOf(S: Shape)
    requires Complete(S)
    ensures S.macs.Keys == S.up.Keys
  {
  }

  lemma RoomLeft(S: Shape)
    requires Complete(S) && |S.up| != MAX_NUM_IFACE
    ensures |S.up| < MAX_NUM_IFACE
  {
  }

  lemma RtKeysNone(a: Lan, s: Slot)
    ensures RtKeysAll(a, {}, s) == {}
  {
  }

  lemma RtKeysNext(a: Lan, all: set<Mac>, todo: set<Mac>, m: Mac, s: Slot)
    requires todo <= all && m in todo
    ensures RtKeysAll(a, all - (todo - {m}), s) == RtKeysAll(a, all - todo, s) + RtKeys(a, m, s)
  {
    assert all - (todo - {m}) == (all - todo) + {m};
  }
}

/** What the hardware holds and who is registered, in the interfaces' own fields. */
module LanHardware {
  import opened LanModel
  import opened LanToLanController
  import opened LanTheorems

  // ---------- Between clients of one access point ----------

  /** The clients of a WLAN interface reach each other: the filter rule for m points to the intra-interface table, which
      holds m's routing rules, and these use the interface's own live context. */
  lemma IntraPathInstalled(c: LanToLan, a: Lan, m: Mac, ip: Ip)
    requires c.Valid()
    requires var ifs := c.Config().ifs; a in ifs && a.wlan && m in ifs[a].macs && ifs[a].up.Get(ip)
    ensures var f := FltK(a, a, m, ip);
      f in c.book && c.book[f] in c.live && c.live[c.book[f]] == Flt(a, ip, m, IntraTbl(ip))
    ensures var x := CtxK(a, Own); x in c.book && c.book[x] in c.live && c.live[c.book[x]] == Ctx(a, a.l2, a.l2)
    ensures forall i: nat :: i < a.rtCount.Get(ip) ==>
      var r := RtK(a, m, Own, ip, i);
      r in c.book && c.book[r] in c.live
        && c.live[c.book[r]] == Rt(a, ip, IntraTbl(ip), m, c.book[CtxK(a, Own)], a.l2, i)
  {
    hide LanToLan.Valid, HwOk;
    var ifs := c.Config().ifs;
    InstalledWanted(c);
    assert Wanted(ifs, FltK(a, a, m, ip)) && Wanted(ifs, CtxK(a, Own));
    Installed(c, FltK(a, a, m, ip));
    Installed(c, CtxK(a, Own));
    forall i: nat | i < a.rtCount.Get(ip)
      ensures var r := RtK(a, m, Own, ip, i);
        r in c.book && c.book[r] in c.live
        && c.live[c.book[r]] == Rt(a, ip, IntraTbl(ip), m, c.book[CtxK(a, Own)], a.l2, i)
    {
      assert Wanted(ifs, RtK(a, m, Own, ip, i));
      Installed(c, RtK(a, m, Own, ip, i));
    }
  }

  // ---------- All live rules ----------

  /** Two interfaces exchange traffic unless one of them is a guest access point. */
  predicate Exchange(b: Lan, a: Lan) { a != b && !(a.wlan && a.guestAp) && !(b.wlan && b.guestAp) }

  /** An interface that exchanges traffic with a and has this L2 type is registered. */
  ghost predicate HasPeer(ifs: map<Lan, IfCfg>, a: Lan, t: L2) {
    exists b :: b in ifs && Exchange(b, a) && b.l2 == t
  }

  /** The filter rules are those that send traffic for each client m into its table: on each interface with the family,
      for the clients of the other interfaces it exchanges traffic with, and on WLAN for its own. */
  lemma FiltersAre(c: LanToLan, b: Lan, ip: Ip, m: Mac, t: Table)
    requires c.Valid()
    ensures var ifs := c.Config().ifs;
      (exists h :: h in c.live && c.live[h] == Flt(b, ip, m, t)) <==>
        && b in ifs && ifs[b].up.Get(ip)
        && ((t == IntraTbl(ip) && b.wlan && m in ifs[b].macs)
            || exists a :: a in ifs && Exchange(b, a) && m in ifs[a].macs && t == InterTbl(ip, b.l2, a.l2))
  {
    hide LanToLan.Valid, HwOk;
    var ifs := c.Config().ifs;
    InstalledWanted(c);
    if h :| h in c.live && c.live[h] == Flt(b, ip, m, t) {
      var k := KeyOf(c, h);
      Installed(c, k);
      assert Wanted(ifs, k) && k.FltK? && k.b == b && k.m == m && k.ip == ip;
    }
    if b in ifs && ifs[b].up.Get(ip) {
      if t == IntraTbl(ip) && b.wlan && m in ifs[b].macs { IntraPathInstalled(c, b, m, ip); }
      if a :| a in ifs && Exchange(b, a) && m in ifs[a].macs && t == InterTbl(ip, b.l2, a.l2) {
        EveryPathInstalled(c, b, a, m, ip);
      }
    }
  }

  /** There is one kind of context for each peer type of an interface, and on WLAN one for its own clients. */
  lemma ContextsAre(c: LanToLan, a: Lan, peer: L2, own: L2)
    requires c.Valid()
    ensures var ifs := c.Config().ifs;
      (exists h :: h in c.live && c.live[h] == Ctx(a, peer, own)) <==>
        a in ifs && own == a.l2 && ((a.wlan && peer == a.l2) || HasPeer(ifs, a, peer))
  {
    hide LanToLan.Valid, HwOk, HasPeer, CtxWanted;
    var ifs := c.Config().ifs;
    if h :| h in c.live && c.live[h] == Ctx(a, peer, own) { ContextFor(c, a, peer, own, h); }
    if a in ifs && own == a.l2 {
      InstalledWanted(c);
      OwnWanted(ifs, a);
      if a.wlan && peer == a.l2 { Installed(c, CtxK(a, Own)); }
      PeerWanted(ifs, a, peer);
      if HasPeer(ifs, a, peer) { Installed(c, CtxK(a, Ty(peer))); }
    }
  }

  lemma ContextFor(c: LanToLan, a: Lan, peer: L2, own: L2, h: Hdl)
    requires c.Valid() && h in c.live && c.live[h] == Ctx(a, peer, own)
    ensures var ifs := c.Config().ifs; a in ifs && own == a.l2 && ((a.wlan && peer == a.l2) || HasPeer(ifs, a, peer))
  {
    hide LanToLan.Valid, HwOk, HasPeer;
    InstalledWanted(c);
    var k := KeyOf(c, h);
    Installed(c, k);
    assert Wanted(c.Config().ifs, k) && k.CtxK? && k.a == a;
    if k.s.Ty? { PeerWanted(c.Config().ifs, a, k.s.t); }
  }

  lemma OwnWanted(ifs: map<Lan, IfCfg>, a: Lan)
    ensures Wanted(ifs, CtxK(a, Own)) <==> a in ifs && a.wlan
  {
  }

  lemma PeerWanted(ifs: map<Lan, IfCfg>, a: Lan, t: L2)
    requires a in ifs
    ensures HasPeer(ifs, a, t) <==> Wanted(ifs, CtxK(a, Ty(t)))
  {
    if HasPeer(ifs, a, t) {
      var b :| b in ifs && Exchange(b, a) && b.l2 == t;
      assert b in Linked(ifs.Keys, a);
    }
    if Wanted(ifs, CtxK(a, Ty(t))) {
      var b :| b in Linked(ifs.Keys, a) && b != a && b.l2 == t;
      assert Exchange(b, a);
    }
  }

  /** A routing rule in this table, through the live context for this L2 type. */
  ghost predicate Routes(c: LanToLan, a: Lan, ip: Ip, t: Table, m: Mac, l2: L2, i: nat, h: Hdl)
    reads c
  {
    && h in c.live && c.live[h].Rt? && c.live[h] == Rt(a, ip, t, m, c.live[h].ctx, l2, i)
    && c.live[h].ctx in c.live && c.live[c.live[h].ctx] == Ctx(a, l2, a.l2)
  }

  /** Each client has one routing rule for each property of its interface and each peer type, in the table of that type,
      and on WLAN one for its own interface's clients, in the intra-interface table. */
  lemma RoutesAre(c: LanToLan, a: Lan, ip: Ip, t: Table, m: Mac, l2: L2, i: nat)
    requires c.Valid()
    ensures var ifs := c.Config().ifs;
      (exists h :: Routes(c, a, ip, t, m, l2, i, h)) <==>
        && a in ifs && m in ifs[a].macs && i < a.rtCount.Get(ip)
        && ((a.wlan && l2 == a.l2 && t == IntraTbl(ip)) || (HasPeer(ifs, a, l2) && t == InterTbl(ip, l2, a.l2)))
  {
    hide LanToLan.Valid, HwOk, HasPeer, CtxWanted;
    var ifs := c.Config().ifs;
    if h :| Routes(c, a, ip, t, m, l2, i, h) { RouteFor(c, a, ip, t, m, l2, i, h); }
    if a in ifs && m in ifs[a].macs && i < a.rtCount.Get(ip) {
      OwnWanted(ifs, a);
      if a.wlan && l2 == a.l2 && t == IntraTbl(ip) { SlotRoutes(c, a, Own, ip, m, i); }
      PeerWanted(ifs, a, l2);
      if HasPeer(ifs, a, l2) && t == InterTbl(ip, l2, a.l2) { SlotRoutes(c, a, Ty(l2), ip, m, i); }
    }
  }

  lemma RouteFor(c: LanToLan, a: Lan, ip: Ip, t: Table, m: Mac, l2: L2, i: nat, h: Hdl)
    requires c.Valid() && Routes(c, a, ip, t, m, l2, i, h)
    ensures var ifs := c.Config().ifs;
      && a in ifs && m in ifs[a].macs && i < a.rtCount.Get(ip)
      && ((a.wlan && l2 == a.l2 && t == IntraTbl(ip)) || (HasPeer(ifs, a, l2) && t == InterTbl(ip, l2, a.l2)))
  {
    hide LanToLan.Valid, HwOk, HasPeer;
    var ifs := c.Config().ifs;
    InstalledWanted(c);
    var k := KeyOf(c, h);
    Installed(c, k);
    assert Wanted(ifs, k) && k.RtK? && k.a == a && k.m == m && k.ip == ip && k.i == i;
    if k.s.Ty? { PeerWanted(ifs, a, k.s.t); }
  }

  lemma SlotRoutes(c: LanToLan, a: Lan, s: Slot, ip: Ip, m: Mac, i: nat)
    requires c.Valid() && Wanted(c.Config().ifs, CtxK(a, s)) && m in c.Config().ifs[a].macs && i < a.rtCount.Get(ip)
    ensures var r := RtK(a, m, s, ip, i);
      r in c.book && Routes(c, a, ip, RtTable(a, s, ip), m, SlotL2(a, s), i, c.book[r])
  {
    hide LanToLan.Valid, HwOk, CtxWanted;
    InstalledWanted(c);
    assert Wanted(c.Config().ifs, RtK(a, m, s, ip, i));
    Installed(c, CtxK(a, s));
    Installed(c, RtK(a, m, s, ip, i));
  }

  /** No routing rule is left without its context. */
  lemma EveryRouteHasContext(c: LanToLan, h: Hdl)
    requires c.Valid() && h in c.live && c.live[h].Rt?
    ensures var r := c.live[h]; r.ctx in c.live && c.live[r.ctx] == Ctx(r.pipe, r.l2, r.pipe.l2)
  {
    hide LanToLan.Valid, HwOk;
    var k := KeyOf(c, h);
    Installed(c, k);
    Installed(c, CtxK(k.a, k.s));
  }

  // ---------- Who is registered ----------

  /** An interface is registered by its first address event, if it has transmit and receive properties, an Ethernet
      header and there is room, and stays so until it goes down. */
  lemma Registers(c: Cfg, e: Event, a: Lan)
    requires |c.ifs| <= MAX_NUM_IFACE
    ensures a in Step(c, e).ifs <==>
      && e != IfaceDown(a)
      && (|| a in c.ifs
          || (&& e.IfaceUp? && e.a == a && |c.ifs| < MAX_NUM_IFACE
              && a.hasTx && a.hasRx && (a.l2 == EthII || a.l2 == Eth8023)))
  {
  }

  /** A registered interface's clients are those added and not deleted, sixteen at most. */
  lemma ClientsStay(c: Cfg, e: Event, a: Lan, m: Mac)
    requires a in c.ifs && e != IfaceDown(a) && |c.ifs[a].macs| <= MAX_NUM_CLIENT
    ensures a in Step(c, e).ifs
    ensures m in Step(c, e).ifs[a].macs <==>
      && e != ClientDel(a, m)
      && (m in c.ifs[a].macs || (e == ClientAdd(a, m) && |c.ifs[a].macs| < MAX_NUM_CLIENT))
  {
  }

  /** While an interface is not registered, the clients cached for it are those added and not gone with it, ten in all;
      deletions make no difference. */
  lemma CachedStays(c: Cfg, e: Event, a: Lan, m: Mac)
    requires a !in c.ifs && a !in Step(c, e).ifs
    ensures (a, m) in Step(c, e).cached <==>
      && e != IfaceDown(a)
      && ((a, m) in c.cached || (e == ClientAdd(a, m) && |c.cached| < MAX_NUM_CACHED_CLIENT_ADD_EVENT))
  {
    if e.IfaceUp? || e.IfaceDown? { WithoutFacts(c.cached, e.a); }
  }

  /** From event i on, a does not go down. */
  predicate Stays(es: seq<Event>, i: int, a: Lan)
    requires 0 <= i
  {
    forall j :: i <= j < |es| ==> es[j] != IfaceDown(a)
  }

  /** Event i gives a the family, and a is registered then. */
  predicate Assigns(c: Cfg, es: seq<Event>, i: int, a: Lan, ip: Ip) {
    0 <= i < |es| && es[i] == IfaceUp(a, ip) && a in Run(c, es[..i + 1]).ifs
  }

  /** After any events, a registered interface has exactly those families that an event has assigned since it last went
      down, or that it had at first and has not lost. */
  lemma {:induction false} FamiliesSince(c: Cfg, es: seq<Event>, a: Lan, ip: Ip)
    ensures var r := Run(c, es);
      (a in r.ifs && r.ifs[a].up.Get(ip)) <==>
        || (a in c.ifs && c.ifs[a].up.Get(ip) && Stays(es, 0, a))
        || exists i :: Assigns(c, es, i, a, ip) && Stays(es, i + 1, a)
    decreases |es|
  {
    hide Step;
    if es != [] {
      var c', rest := Step(c, es[0]), es[1..];
      FamiliesSince(c', rest, a, ip);
      FamilyStep(c, es[0], a, ip);
      assert Run(c, es[..1]) == c' by { assert es[..1][1..] == []; }
      assert Stays(es, 1, a) <==> Stays(rest, 0, a) by { StaysShift(es, 1, a); }
      forall i | 0 <= i < |rest|
        ensures Assigns(c, es, i + 1, a, ip) <==> Assigns(c', rest, i, a, ip)
        ensures Stays(es, i + 2, a) <==> Stays(rest, i + 1, a)
      {
        assert es[..i + 2][1..] == rest[..i + 1] && es[..i + 2][0] == es[0];
        StaysShift(es, i + 2, a);
      }
      assert Stays(es, 0, a) <==> es[0] != IfaceDown(a) && Stays(es, 1, a);
      if i :| Assigns(c, es, i, a, ip) && Stays(es, i + 1, a) {
        if i > 0 { assert Assigns(c', rest, i - 1, a, ip) && Stays(rest, i, a); }
      }
      if i :| Assigns(c', rest, i, a, ip) && Stays(rest, i + 1, a) {
        assert Assigns(c, es, i + 1, a, ip) && Stays(es, i + 2, a);
      }
      if a in c'.ifs && es[0] == IfaceUp(a, ip) && Stays(es, 1, a) { assert Assigns(c, es, 0, a, ip); }
    }
  }

  lemma StaysShift(es: seq<Event>, i: int, a: Lan)
    requires 1 <= i <= |es| + 1 && es != []
    ensures Stays(es, i, a) <==> Stays(es[1..], i - 1, a)
  {
    assert forall j :: i <= j < |es| ==> es[j] == es[1..][j - 1];
    assert forall j :: i - 1 <= j < |es| - 1 ==> es[1..][j] == es[j + 1];
  }

  lemma FamilyStep(c: Cfg, e: Event, a: Lan, ip: Ip)
    ensures var r := Step(c, e);
      (a in r.ifs && r.ifs[a].up.Get(ip)) <==>
        (a in c.ifs && c.ifs[a].up.Get(ip) && e != IfaceDown(a)) || (a in r.ifs && e == IfaceUp(a, ip))
  {
  }
}

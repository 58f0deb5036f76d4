/** What the controller achieves, over any run of events. */
module LanTheorems {
  import opened LanModel
  import opened LanProofs
  import opened LanToLanController

  /** After any run, the hardware holds exactly the rules that the current interfaces, clients and
      addresses call for, each once, and every reference count is the number of peers of that type. */
  lemma InstalledIsDeclared(c: LanToLan)
    requires c.Valid()
    ensures forall k :: k in c.book <==> Wanted(c.Config().ifs, k)
    ensures forall k :: k in c.book ==>
      DepOk(k, c.book.Keys) && c.book[k] in c.live && c.live[c.book[k]] == Content(k, c.book)
    ensures forall h :: h in c.live ==> exists k :: k in c.book && c.book[k] == h
    ensures forall k, k' :: k in c.book && k' in c.book && c.book[k] == c.book[k'] ==> k == k'
    ensures forall a, t :: a in c.up ==> c.Cnt(a, t) == |PeersOfType(Linked(c.up.Keys, a), a, t)|
  {
    hide Balanced, Complete;
    BalancedIsWanted(c.Shape(), c.book.Keys);
    BookIsBijection(c.live, c.book, c.owner, c.nextHdl);
    forall a, t | a in c.up ensures c.Cnt(a, t) == |PeersOfType(Linked(c.up.Keys, a), a, t)| {
      assert c.Cnt(a, t) == c.Shape().Cnt(a, t);
    }
  }

  lemma BookIsBijection(live: map<Hdl, Rule>, book: map<Key, Hdl>, owner: map<Hdl, Key>, next: Hdl)
    requires HwOk(live, book, owner, next)
    ensures forall k :: k in book ==> DepOk(k, book.Keys) && book[k] in live && live[book[k]] == Content(k, book)
    ensures forall h :: h in live ==> exists k :: k in book && book[k] == h
    ensures forall k, k' :: k in book && k' in book && book[k] == book[k'] ==> k == k'
  {
    forall h | h in live ensures exists k :: k in book && book[k] == h {
      assert owner[h] in book && book[owner[h]] == h;
    }
  }

  /** Client m of a is reachable from interface b over family ip: b's filter rule for m points to the
      table that holds m's routing rules, and these use a's live context for b's type. */
  ghost predicate PathInstalled(c: LanToLan, b: Lan, a: Lan, m: Mac, ip: Ip)
    reads c
  {
    var f, x, t := FltK(b, a, m, ip), CtxK(a, Ty(b.l2)), InterTbl(ip, b.l2, a.l2);
    && f in c.book && c.book[f] in c.live && c.live[c.book[f]] == Flt(b, ip, m, t)
    && x in c.book && c.book[x] in c.live && c.live[c.book[x]] == Ctx(a, b.l2, a.l2)
    && forall i: nat :: i < a.rtCount.Get(ip) ==>
         var r := RtK(a, m, Ty(b.l2), ip, i);
         r in c.book && c.book[r] in c.live && c.live[c.book[r]] == Rt(a, ip, t, m, c.book[x], b.l2, i)
  }

  lemma EveryPathInstalled(c: LanToLan, b: Lan, a: Lan, m: Mac, ip: Ip)
    requires c.Valid()
    requires var ifs := c.Config().ifs;
      a in ifs && b in ifs && a != b && a.Inter() && b.Inter() && m in ifs[a].macs && ifs[b].up.Get(ip)
    ensures PathInstalled(c, b, a, m, ip)
  {
    var ifs := c.Config().ifs;
    var book := c.book;
    InstalledWanted(c);
    assert b in Linked(ifs.Keys, a) && a in Linked(ifs.Keys, b);
    assert CtxWanted(ifs.Keys, a, Ty(b.l2));
    assert Wanted(ifs, FltK(b, a, m, ip)) && Wanted(ifs, CtxK(a, Ty(b.l2)));
    Installed(c, FltK(b, a, m, ip));
    Installed(c, CtxK(a, Ty(b.l2)));
    forall i: nat | i < a.rtCount.Get(ip)
      ensures var r := RtK(a, m, Ty(b.l2), ip, i);
        r in book && book[r] in c.live
        && c.live[book[r]] == Rt(a, ip, InterTbl(ip, b.l2, a.l2), m, book[CtxK(a, Ty(b.l2))], b.l2, i)
    {
      assert Wanted(ifs, RtK(a, m, Ty(b.l2), ip, i));
      Installed(c, RtK(a, m, Ty(b.l2), ip, i));
    }
  }

  lemma InstalledWanted(c: LanToLan)
    requires c.Valid()
    ensures forall k :: k in c.book <==> Wanted(c.Config().ifs, k)
  {
    hide Balanced, Complete;
    BalancedIsWanted(c.Shape(), c.book.Keys);
  }

  lemma Installed(c: LanToLan, k: Key)
    requires c.Valid() && k in c.book
    ensures DepOk(k, c.book.Keys) && c.book[k] in c.live && c.live[c.book[k]] == Content(k, c.book)
  {
    hide Balanced, Complete;
    BookIsBijection(c.live, c.book, c.owner, c.nextHdl);
  }

  /** Exactly when b's filter rule for m is the only rule of its kind: no other linked interface of
      a's type has a client with the same MAC. */
  lemma FilterRuleUnique(c: LanToLan, b: Lan, a: Lan, m: Mac, ip: Ip)
    requires c.Valid() && FltK(b, a, m, ip) in c.book && a != b
    ensures var ifs, r := c.Config().ifs, Flt(b, ip, m, InterTbl(ip, b.l2, a.l2));
      (forall h :: h in c.live && c.live[h] == r ==> h == c.book[FltK(b, a, m, ip)]) <==>
        !exists a' :: a' in Linked(ifs.Keys, b) && a' != a && a' != b && a'.l2 == a.l2 && m in ifs[a'].macs
  {
    var ifs := c.Config().ifs;
    if a' :| a' in Linked(ifs.Keys, b) && a' != a && a' != b && a'.l2 == a.l2 && m in ifs[a'].macs {
      SecondRule(c, b, a, a', m, ip);
    } else {
      forall h | h in c.live && c.live[h] == Flt(b, ip, m, InterTbl(ip, b.l2, a.l2))
        ensures h == c.book[FltK(b, a, m, ip)]
      {
        RuleFor(c, b, a, m, ip, h);
      }
    }
  }

  /** A second peer of a's type with the same client has the same rule installed again. */
  lemma SecondRule(c: LanToLan, b: Lan, a: Lan, a': Lan, m: Mac, ip: Ip)
    requires c.Valid() && FltK(b, a, m, ip) in c.book && a != b
    requires a' in Linked(c.Config().ifs.Keys, b) && a' != a && a' != b && a'.l2 == a.l2 && m in c.Config().ifs[a'].macs
    ensures exists h ::
      h in c.live && c.live[h] == Flt(b, ip, m, InterTbl(ip, b.l2, a.l2)) && h != c.book[FltK(b, a, m, ip)]
  {
    var k, k' := FltK(b, a, m, ip), FltK(b, a', m, ip);
    InstalledWanted(c);
    assert Wanted(c.Config().ifs, k) && Wanted(c.Config().ifs, k');
    Installed(c, k');
    SameHandleSameKey(c, k, k');
    assert c.live[c.book[k']] == Flt(b, ip, m, InterTbl(ip, b.l2, a.l2));
  }

  /** A rule like the one for client m of a is for a client m of a peer of a's type. */
  lemma RuleFor(c: LanToLan, b: Lan, a: Lan, m: Mac, ip: Ip, h: Hdl)
    requires c.Valid() && FltK(b, a, m, ip) in c.book && a != b
    requires h in c.live && c.live[h] == Flt(b, ip, m, InterTbl(ip, b.l2, a.l2))
    ensures h == c.book[FltK(b, a, m, ip)] || exists a' ::
      a' in Linked(c.Config().ifs.Keys, b) && a' != a && a' != b && a'.l2 == a.l2 && m in c.Config().ifs[a'].macs
  {
    var ifs := c.Config().ifs;
    InstalledWanted(c);
    var k' := KeyOf(c, h);
    Installed(c, k');
    assert Wanted(ifs, k');
    assert k'.FltK? && k'.b == b && k'.m == m && k'.ip == ip && FltTable(b, k'.a, ip) == InterTbl(ip, b.l2, a.l2);
    assert k'.a in Linked(ifs.Keys, b);
  }

  lemma KeyOf(c: LanToLan, h: Hdl) returns (k: Key)
    requires c.Valid() && h in c.live
    ensures k in c.book && c.book[k] == h
  {
    hide Balanced, Complete;
    BookIsBijection(c.live, c.book, c.owner, c.nextHdl);
    k :| k in c.book && c.book[k] == h;
  }

  lemma SameHandleSameKey(c: LanToLan, k: Key, k': Key)
    requires c.Valid() && k in c.book && k' in c.book && k != k'
    ensures c.book[k] != c.book[k']
  {
    hide Balanced, Complete;
    BookIsBijection(c.live, c.book, c.owner, c.nextHdl);
  }

  // ---------- The hardware state does not depend on history ----------

  /** r with its context handle translated. */
  ghost function Renamed(r: Rule, f: map<Hdl, Hdl>): Rule {
    if r.Rt? && r.ctx in f then r.(ctx := f[r.ctx]) else r
  }

  /** f pairs up the handles of two hardware states with the same rules. */
  ghost predicate SameRules(live1: map<Hdl, Rule>, live2: map<Hdl, Rule>, f: map<Hdl, Hdl>) {
    && f.Keys == live1.Keys
    && (forall h :: h in f ==> f[h] in live2 && live2[f[h]] == Renamed(live1[h], f))
    && (forall h, h' :: h in f && h' in f && f[h] == f[h'] ==> h == h')
    && (forall h2 :: h2 in live2 ==> exists h :: h in f && f[h] == h2)
  }

  /** Two controllers with the same interfaces, clients and addresses, whatever happened to them
      before, have the same rules installed up to the numbering of handles. */
  lemma HistoryIndependent(c1: LanToLan, c2: LanToLan)
    requires c1.Valid() && c2.Valid() && c1.Config().ifs == c2.Config().ifs
    ensures exists f :: SameRules(c1.live, c2.live, f)
  {
    InstalledWanted(c1);
    InstalledWanted(c2);
    SameKeysSameRules(c1.live, c1.book, c1.owner, c1.nextHdl, c2.live, c2.book, c2.owner, c2.nextHdl);
  }

  lemma SameKeysSameRules(live1: map<Hdl, Rule>, book1: map<Key, Hdl>, owner1: map<Hdl, Key>, next1: Hdl,
                          live2: map<Hdl, Rule>, book2: map<Key, Hdl>, owner2: map<Hdl, Key>, next2: Hdl)
    requires HwOk(live1, book1, owner1, next1) && HwOk(live2, book2, owner2, next2)
    requires forall k :: k in book1 <==> k in book2
    ensures exists f :: SameRules(live1, live2, f)
  {
    hide HwOk, Renamed;
    OwnersBooked(live1, book1, owner1, next1, book2);
    var f := Pairing(live1, owner1, book2);
    forall h | h in f ensures f[h] in live2 && live2[f[h]] == Renamed(live1[h], f) {
      SameRule(live1, book1, owner1, next1, live2, book2, owner2, next2, f, h);
    }
    OneToOne(live1, book1, owner1, next1, live2, book2, owner2, next2, f);
    assert SameRules(live1, live2, f);
  }

  /** The rule that owner1 says h1 is for has handle Pairing(h1) in the other book. */
  ghost function Pairing(live1: map<Hdl, Rule>, owner1: map<Hdl, Key>, book2: map<Key, Hdl>): map<Hdl, Hdl>
    requires forall h :: h in live1 ==> h in owner1 && owner1[h] in book2
  {
    map h | h in live1 :: book2[owner1[h]]
  }

  lemma OwnersBooked(live1: map<Hdl, Rule>, book1: map<Key, Hdl>, owner1: map<Hdl, Key>, next1: Hdl,
                     book2: map<Key, Hdl>)
    requires HwOk(live1, book1, owner1, next1) && forall k :: k in book1 <==> k in book2
    ensures forall h :: h in live1 ==> h in owner1 && owner1[h] in book2
  {
  }

  lemma OneToOne(live1: map<Hdl, Rule>, book1: map<Key, Hdl>, owner1: map<Hdl, Key>, next1: Hdl,
                 live2: map<Hdl, Rule>, book2: map<Key, Hdl>, owner2: map<Hdl, Key>, next2: Hdl, f: map<Hdl, Hdl>)
    requires HwOk(live1, book1, owner1, next1) && HwOk(live2, book2, owner2, next2)
    requires forall k :: k in book1 <==> k in book2
    requires (forall h :: h in live1 ==> h in owner1 && owner1[h] in book2) && f == Pairing(live1, owner1, book2)
    ensures forall h, h' :: h in f && h' in f && f[h] == f[h'] ==> h == h'
    ensures forall h2 :: h2 in live2 ==> exists h :: h in f && f[h] == h2
  {
    forall h, h' | h in f && h' in f && f[h] == f[h'] ensures h == h' {
      assert owner2[book2[owner1[h]]] == owner1[h] && owner2[book2[owner1[h']]] == owner1[h'];
    }
    forall h2 | h2 in live2 ensures exists h :: h in f && f[h] == h2 {
      var k := owner2[h2];
      assert k in book1 && book1[k] in live1 && owner1[book1[k]] == k;
      assert f[book1[k]] == h2;
    }
  }

  lemma SameRule(live1: map<Hdl, Rule>, book1: map<Key, Hdl>, owner1: map<Hdl, Key>, next1: Hdl,
                 live2: map<Hdl, Rule>, book2: map<Key, Hdl>, owner2: map<Hdl, Key>, next2: Hdl, f: map<Hdl, Hdl>,
                   h: Hdl)
    requires HwOk(live1, book1, owner1, next1) && HwOk(live2, book2, owner2, next2)
    requires (forall k :: k in book1 <==> k in book2) && h in live1
    requires (forall h :: h in live1 ==> h in owner1 && owner1[h] in book2) && f == Pairing(live1, owner1, book2)
    ensures f[h] in live2 && live2[f[h]] == Renamed(live1[h], f)
  {
    var k := owner1[h];
    assert k in book2 && book2[k] in owner2;
    assert live1[book1[k]] == Content(k, book1) && live2[book2[k]] == Content(k, book2);
    if k.RtK? {
      var x := CtxK(k.a, k.s);
      assert DepOk(k, book1.Keys) && x in book1 && owner1[book1[x]] == x;
    }
  }

  // ---------- Interface teardown ----------

  /** The rule survives the departure of a: it names neither a nor a's clients and, if it is a context or a
      routing rule serving a type, there is still another peer of that type. */
  predicate Survives(ifs: map<Lan, IfCfg>, a: Lan, k: Key) {
    && k.a != a && (k.FltK? ==> k.b != a)
    && (!k.FltK? && k.s.Ty? ==> exists b :: b in Linked(ifs.Keys, k.a) && b != a && b != k.a && b.l2 == k.s.t)
  }

  lemma DownSurvivors(ifs: map<Lan, IfCfg>, a: Lan, k: Key)
    requires a in ifs
    ensures Wanted(ifs - {a}, k) <==> Wanted(ifs, k) && Survives(ifs, a, k)
  {
    var ifs' := ifs - {a};
    assert ifs'.Keys == ifs.Keys - {a};
    forall x, b | x != a && b != a ensures b in Linked(ifs'.Keys, x) <==> b in Linked(ifs.Keys, x) {}
    if !k.FltK? && k.s.Ty? && k.a != a {
      if b :| b in Linked(ifs.Keys, k.a) && b != a && b != k.a && b.l2 == k.s.t {
        assert b in Linked(ifs'.Keys, k.a);
      }
      if CtxWanted(ifs'.Keys, k.a, k.s) {
        var b :| b in Linked(ifs'.Keys, k.a) && b != k.a && b.l2 == k.s.t;
        assert b in Linked(ifs.Keys, k.a) && b != a;
      }
    }
  }

  /** A book within another one describes the hardware restricted to its rules, handles and contents unchanged. */
  lemma WithinRestricts(live: map<Hdl, Rule>, book: map<Key, Hdl>, owner: map<Hdl, Key>, next: Hdl,
                        live': map<Hdl, Rule>, book': map<Key, Hdl>, owner': map<Hdl, Key>, next': Hdl)
    requires HwOk(live, book, owner, next) && HwOk(live', book', owner', next') && Within(book', book)
    ensures live' == map h | h in live && owner[h] in book' :: live[h]
  {
    forall h | h in live' ensures h in live && owner[h] in book' && live'[h] == live[h] {
      var k := owner'[h];
      assert book[k] == h && owner[h] == k;
      assert live'[book'[k]] == Content(k, book') && live[book[k]] == Content(k, book);
    }
    forall h | h in live && owner[h] in book' ensures h in live' {
      assert book'[owner[h]] == h && owner'[h] == owner[h];
    }
  }

  /** What the hardware holds after a has left: of the rules there were, exactly the surviving ones, with their
      handles and contents. */
  function Survivors(ifs: map<Lan, IfCfg>, a: Lan, live: map<Hdl, Rule>, owner: map<Hdl, Key>): map<Hdl, Rule>
    requires owner.Keys == live.Keys
  {
    if a in ifs then map h | h in live && Survives(ifs, a, owner[h]) :: live[h] else live
  }

  lemma OwnersLive(live: map<Hdl, Rule>, book: map<Key, Hdl>, owner: map<Hdl, Key>, next: Hdl)
    requires HwOk(live, book, owner, next)
    ensures owner.Keys == live.Keys && forall h :: h in live ==> owner[h] in book
  {
  }

  method Departure(c: LanToLan, a: Lan)
    requires c.Valid()
    modifies c
    ensures c.Valid() && c.Config() == Step(old(c.Config()), IfaceDown(a))
    ensures old(c.owner).Keys == old(c.live).Keys
    ensures c.live == Survivors(old(c.Config()).ifs, a, old(c.live), old(c.owner))
  {
    hide HwOk, Balanced, Complete, CtxRecorded, RtRecorded, FltRecorded, TablesOk, Wanted, Survives, Without;
    ghost var ifs, live, book, owner, next := c.Config().ifs, c.live, c.book, c.owner, c.nextHdl;
    InstalledWanted(c);
    OwnersLive(live, book, owner, next);
    c.HandleIfaceDown(a);
    InstalledWanted(c);
    WithinRestricts(live, book, owner, next, c.live, c.book, c.owner, c.nextHdl);
    forall h | h in live && a in ifs ensures owner[h] in c.book <==> Survives(ifs, a, owner[h]) {
      DownSurvivors(ifs, a, owner[h]);
    }
  }

  // ---------- The WLAN mode ----------

  predicate Reaches(e: Event, a: Lan) { e == Switch(a) || e == IfaceDown(a) }

  /** From event i on, none reaches the rules of a. */
  predicate Unreached(es: seq<Event>, i: int, a: Lan)
    requires 0 <= i
  {
    forall j :: i <= j < |es| ==> !Reaches(es[j], a)
  }

  /** An interface lags only if it did so at first, or since a change of mode, and no switch event has reached it
      since. */
  lemma {:induction false} LagsUntilReached(c: Cfg, m: Modes, es: seq<Event>, a: Lan)
    requires a in ModeRun(c, m, es).lagging
    ensures (a in m.lagging && Unreached(es, 0, a)) || exists i :: 0 <= i < |es| && es[i].Mode? && Unreached(es, i, a)
    decreases |es|
  {
    hide Step;
    if es != [] {
      var m', rest := ModeStep(c, m, es[0]), es[1..];
      LagsUntilReached(Step(c, es[0]), m', rest, a);
      if a in m'.lagging && Unreached(rest, 0, a) {
        assert forall j :: 1 <= j < |es| ==> es[j] == rest[j - 1];
        assert !Reaches(es[0], a);
        assert Unreached(es, 0, a);
      } else {
        var i :| 0 <= i < |rest| && rest[i].Mode? && Unreached(rest, i, a);
        assert es[i + 1] == rest[i];
        assert forall j :: i + 1 <= j < |es| ==> es[j] == rest[j - 1];
        assert Unreached(es, i + 1, a);
      }
    }
  }

  /** Every change of mode is followed by an event that reaches a. */
  predicate AlwaysReached(es: seq<Event>, a: Lan) {
    forall i :: 0 <= i < |es| && es[i].Mode? ==> !Unreached(es, i, a)
  }

  /** After any events, all routing rules of an interface that each change of mode has reached name the pipe of the
      mode: the alternative one exactly on WLAN in MCC mode. */
  method ModeReachesRules(c: LanToLan, es: seq<Event>)
    requires c.Valid() && c.lagging == {}
    modifies c
    ensures c.Valid() && c.Config() == Run(old(c.Config()), es)
    ensures forall h :: h in c.live && c.live[h].Rt? && AlwaysReached(es, c.live[h].pipe) ==>
      h in c.alt && c.alt[h] == (c.live[h].pipe.wlan && c.mcc)
  {
    hide HwOk, Balanced, Complete, CtxRecorded, RtRecorded, FltRecorded, TablesOk, CachedOk, Run, ModeRun, Unreached;
    ghost var cfg, modes := c.Config(), c.CurrentModes();
    c.HandleAll(es);
    forall h | h in c.live && c.live[h].Rt? && AlwaysReached(es, c.live[h].pipe)
      ensures h in c.alt && c.alt[h] == (c.live[h].pipe.wlan && c.mcc)
    {
      if c.live[h].pipe in c.lagging { LagsUntilReached(cfg, modes, es, c.live[h].pipe); }
    }
  }

  // ---------- Cached client-add events ----------

  function Adds(a: Lan, ms: seq<Mac>): seq<Event> {
    if ms == [] then [] else [ClientAdd(a, ms[0])] + Adds(a, ms[1..])
  }

  function SetOf(ms: seq<Mac>): set<Mac> { set m | m in ms }

  function MacsFor(cached: seq<(Lan, Mac)>, a: Lan): set<Mac> {
    set e | e in cached && e.0 == a :: e.1
  }

  /** Within the client limit, the cached events add exactly their clients. */
  lemma {:induction false} AddCachedIsUnion(macs: set<Mac>, cached: seq<(Lan, Mac)>, a: Lan)
    requires |macs| + |cached| <= MAX_NUM_CLIENT
    ensures AddCached(macs, cached, a) == macs + MacsFor(cached, a)
    decreases |cached|
  {
    if cached != [] {
      var rest := cached[1..];
      assert forall e :: e in cached <==> e == cached[0] || e in rest;
      AddCachedIsUnion(if cached[0].0 == a then WithClient(macs, cached[0].1) else macs, rest, a);
      assert MacsFor(cached, a) == MacsFor(rest, a) + if cached[0].0 == a then {cached[0].1} else {};
    }
  }

  /** Client adds before the interface: they end up in the cache. */
  lemma {:induction false} AddsAreCached(c: Cfg, a: Lan, ms: seq<Mac>)
    requires a !in c.ifs && |c.cached| + |ms| <= MAX_NUM_CACHED_CLIENT_ADD_EVENT
    ensures var r := Run(c, Adds(a, ms));
      && r.ifs == c.ifs && |r.cached| == |c.cached| + |ms|
      && MacsFor(r.cached, a) == MacsFor(c.cached, a) + SetOf(ms)
      && Without(r.cached, a) == Without(c.cached, a)
    decreases |ms|
  {
    if ms != [] {
      var e := (a, ms[0]);
      var c' := Step(c, ClientAdd(a, ms[0]));
      assert c' == Cfg(c.ifs, [e] + c.cached) && c'.cached[0] == e && c'.cached[1..] == c.cached;
      assert Adds(a, ms)[0] == ClientAdd(a, ms[0]) && Adds(a, ms)[1..] == Adds(a, ms[1..]);
      AddsAreCached(c', a, ms[1..]);
      assert forall e' :: e' in c'.cached <==> e' == e || e' in c.cached;
      assert MacsFor(c'.cached, a) == MacsFor(c.cached, a) + {ms[0]};
      assert SetOf(ms) == {ms[0]} + SetOf(ms[1..]);
    }
  }

  /** c with the clients of a replaced. */
  function WithMacs(c: Cfg, a: Lan, macs: set<Mac>): (r: Cfg)
    requires a in c.ifs
    ensures a in r.ifs && r.ifs[a].macs == macs
  {
    Cfg(c.ifs[a := c.ifs[a].(macs := macs)], c.cached)
  }

  lemma WithMacsTwice(c: Cfg, a: Lan, x: set<Mac>, y: set<Mac>)
    requires a in c.ifs
    ensures WithMacs(WithMacs(c, a, x), a, y) == WithMacs(c, a, y) && WithMacs(c, a, c.ifs[a].macs) == c
  {
    assert c.ifs[a := c.ifs[a]] == c.ifs;
  }

  lemma SetOfNext(macs: set<Mac>, ms: seq<Mac>)
    ensures macs + SetOf([]) == macs
    ensures ms != [] ==> (macs + {ms[0]}) + SetOf(ms[1..]) == macs + SetOf(ms)
  {
  }

  /** Client adds after the interface came up: they are handled at once. */
  lemma {:induction false} AddsAreHandled(c: Cfg, a: Lan, ms: seq<Mac>)
    requires a in c.ifs && |c.ifs[a].macs| + |ms| <= MAX_NUM_CLIENT
    ensures Run(c, Adds(a, ms)) == WithMacs(c, a, c.ifs[a].macs + SetOf(ms))
    decreases |ms|
  {
    hide SetOf, WithMacs, Step;
    var macs := c.ifs[a].macs;
    SetOfNext(macs, ms);
    if ms == [] {
      WithMacsTwice(c, a, macs, macs);
    } else {
      AddIsHandled(c, a, ms[0]);
      var c' := Step(c, ClientAdd(a, ms[0]));
      assert Adds(a, ms)[0] == ClientAdd(a, ms[0]) && Adds(a, ms)[1..] == Adds(a, ms[1..]);
      AddsAreHandled(c', a, ms[1..]);
      WithMacsTwice(c, a, macs + {ms[0]}, macs + SetOf(ms));
    }
  }

  lemma AddIsHandled(c: Cfg, a: Lan, m: Mac)
    requires a in c.ifs && |c.ifs[a].macs| < MAX_NUM_CLIENT
    ensures Step(c, ClientAdd(a, m)) == WithMacs(c, a, c.ifs[a].macs + {m})
    ensures |c.ifs[a].macs + {m}| <= |c.ifs[a].macs| + 1
  {
    if m in c.ifs[a].macs { assert c.ifs[a].macs + {m} == c.ifs[a].macs; }
  }

  lemma {:induction false} RunConcat(c: Cfg, es: seq<Event>, es': seq<Event>)
    ensures Run(c, es + es') == Run(Run(c, es), es')
    decreases |es|
  {
    if es == [] {
      assert [] + es' == es';
    } else {
      assert (es + es')[0] == es[0] && (es + es')[1..] == es[1..] + es';
      RunConcat(Step(c, es[0]), es[1..], es');
    }
  }

  lemma {:induction false} MacsForSize(cached: seq<(Lan, Mac)>, a: Lan)
    ensures |MacsFor(cached, a)| <= |cached|
  {
    if cached != [] {
      var rest := cached[1..];
      MacsForSize(rest, a);
      assert forall e :: e in cached <==> e == cached[0] || e in rest;
      assert MacsFor(cached, a) == MacsFor(rest, a) + if cached[0].0 == a then {cached[0].1} else {};
    }
  }

  /** There is room for a to be registered, and it is not yet. */
  predicate MayComeUp(c: Cfg, a: Lan) {
    a !in c.ifs && |c.ifs| < MAX_NUM_IFACE && a.Usable()
  }

  /** Bringing a up takes exactly its cached clients along. */
  lemma UpTakesCached(c: Cfg, a: Lan, ip: Ip)
    requires MayComeUp(c, a) && |c.cached| <= MAX_NUM_CACHED_CLIENT_ADD_EVENT
    ensures Step(c, IfaceUp(a, ip)) ==
      Cfg(c.ifs[a := IfCfg(PerIp(false, false).Set(ip, true), MacsFor(c.cached, a))], Without(c.cached, a))
  {
    AddCachedIsUnion({}, c.cached, a);
  }

  /** Within the cache limit, client adds may be delivered before or after their interface comes up. */
  lemma AddsCommuteWithUp(c: Cfg, a: Lan, ip: Ip, ms: seq<Mac>)
    requires MayComeUp(c, a) && |c.cached| + |ms| <= MAX_NUM_CACHED_CLIENT_ADD_EVENT
    ensures Run(c, Adds(a, ms) + [IfaceUp(a, ip)]) == Run(c, [IfaceUp(a, ip)] + Adds(a, ms))
    ensures a in Run(c, Adds(a, ms) + [IfaceUp(a, ip)]).ifs
    ensures forall e :: e in Run(c, Adds(a, ms) + [IfaceUp(a, ip)]).cached ==> e.0 != a
  {
    var up := IfaceUp(a, ip);
    var r, u := Run(c, Adds(a, ms)), Step(c, up);
    AddsAreCached(c, a, ms);
    UpWithMore(c, a, ip, r, SetOf(ms));
    MacsForSize(c.cached, a);
    hide Step, Run, SetOf, MacsFor, Without, WithMacs;
    AddsAreHandled(u, a, ms);
    RunConcat(c, Adds(a, ms), [up]);
    RunConcat(c, [up], Adds(a, ms));
    RunOne(c, up);
    RunOne(r, up);
  }

  /** r is like c with more clients of a cached. */
  lemma UpWithMore(c: Cfg, a: Lan, ip: Ip, r: Cfg, more: set<Mac>)
    requires MayComeUp(c, a) && |c.cached| <= MAX_NUM_CACHED_CLIENT_ADD_EVENT
    requires |r.cached| <= MAX_NUM_CACHED_CLIENT_ADD_EVENT
    requires r.ifs == c.ifs && MacsFor(r.cached, a) == MacsFor(c.cached, a) + more
    requires Without(r.cached, a) == Without(c.cached, a)
    ensures var u := Step(c, IfaceUp(a, ip));
      && a in u.ifs && u.ifs[a].macs == MacsFor(c.cached, a)
      && Step(r, IfaceUp(a, ip)) == WithMacs(u, a, u.ifs[a].macs + more)
      && forall e :: e in u.cached ==> e.0 != a
  {
    UpTakesCached(c, a, ip);
    UpTakesCached(r, a, ip);
    WithoutFacts(c.cached, a);
    hide Step, MacsFor, Without, MayComeUp;
    ReplacedTwice(c.ifs, a, PerIp(false, false).Set(ip, true), MacsFor(c.cached, a), MacsFor(c.cached, a) + more);
  }

  lemma ReplacedTwice(ifs: map<Lan, IfCfg>, a: Lan, up: PerIp<bool>, x: set<Mac>, y: set<Mac>)
    ensures var u := ifs[a := IfCfg(up, x)]; ifs[a := IfCfg(up, y)] == u[a := u[a].(macs := y)]
  {
  }

  /** A single client add may come before its interface exactly if the cache has room or has it already. */
  lemma AddBeforeUp(c: Cfg, a: Lan, ip: Ip, m: Mac)
    requires CachedOk(c) && MayComeUp(c, a)
    ensures Step(Step(c, ClientAdd(a, m)), IfaceUp(a, ip)) == Step(Step(c, IfaceUp(a, ip)), ClientAdd(a, m))
       <==> |c.cached| < MAX_NUM_CACHED_CLIENT_ADD_EVENT || (a, m) in c.cached
  {
    var u := Step(c, IfaceUp(a, ip));
    UpTakesCached(c, a, ip);
    MacsForSize(c.cached, a);
    AddIsHandled(u, a, m);
    if |c.cached| < MAX_NUM_CACHED_CLIENT_ADD_EVENT {
      assert Adds(a, [m]) == [ClientAdd(a, m)];
      AddsCommuteWithUp(c, a, ip, [m]);
      RunOne(c, ClientAdd(a, m));
      RunConcat(c, [ClientAdd(a, m)], [IfaceUp(a, ip)]);
      RunOne(Step(c, ClientAdd(a, m)), IfaceUp(a, ip));
      RunOne(c, IfaceUp(a, ip));
      RunConcat(c, [IfaceUp(a, ip)], [ClientAdd(a, m)]);
      RunOne(u, ClientAdd(a, m));
    } else {
      assert (a, m) in c.cached <==> m in MacsFor(c.cached, a);
      hide MacsFor, Without;
      WithMacsTwice(u, a, {}, {});
      if (a, m) in c.cached { assert MacsFor(c.cached, a) + {m} == MacsFor(c.cached, a); }
    }
  }

  /** A client deletion may come before its interface exactly if no add of that client is cached: deletions
      of clients of unknown interfaces are dropped. */
  lemma DelBeforeUp(c: Cfg, a: Lan, ip: Ip, m: Mac)
    requires CachedOk(c) && MayComeUp(c, a)
    ensures Step(Step(c, ClientDel(a, m)), IfaceUp(a, ip)) == Step(Step(c, IfaceUp(a, ip)), ClientDel(a, m))
       <==> (a, m) !in c.cached
  {
    var u := Step(c, IfaceUp(a, ip));
    UpTakesCached(c, a, ip);
    assert (a, m) in c.cached <==> m in MacsFor(c.cached, a);
    hide MacsFor, Without;
    if (a, m) !in c.cached { assert MacsFor(c.cached, a) - {m} == MacsFor(c.cached, a); }
    assert u.ifs[a := u.ifs[a]] == u.ifs;
  }

  lemma RunOne(c: Cfg, e: Event)
    ensures Run(c, [e]) == Step(c, e)
  {
    assert [e][1..] == [];
  }

  /** Deletions are not cached: a client deleted before its interface comes up is there afterwards. */
  lemma DeleteBeforeUpIsLost(c: Cfg, a: Lan, ip: Ip, m: Mac)
    requires CachedOk(c) && a !in c.ifs && |c.cached| < MAX_NUM_CACHED_CLIENT_ADD_EVENT
    requires |c.ifs| < MAX_NUM_IFACE && a.Usable()
    ensures m in Step(Step(Step(c, ClientAdd(a, m)), ClientDel(a, m)), IfaceUp(a, ip)).ifs[a].macs
    ensures m !in Step(Step(Step(c, ClientAdd(a, m)), IfaceUp(a, ip)), ClientDel(a, m)).ifs[a].macs
  {
    AddCachedIsUnion({}, [(a, m)] + c.cached, a);
    assert ([(a, m)] + c.cached)[0] == (a, m);
    hide AddCached, Without, CachedOk;
  }
}

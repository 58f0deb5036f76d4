/** The LAN-to-LAN offload controller (IPACM_LanToLan.cpp): event handlers that incrementally install
    and remove header contexts, routing rules and filter rules. */
module LanToLanController {
  import opened LanModel
  import opened LanProofs

  /** Every booked context's handle is in hdr_proc_ctx_for_inter_interface / _for_intra_interface. */
  ghost predicate CtxRecorded(ctx: map<(Lan, Slot), Hdl>, book: map<Key, Hdl>) {
    forall a, s :: CtxK(a, s) in book ==> (a, s) in ctx && ctx[(a, s)] == book[CtxK(a, s)]
  }

  function Hdls(rt: map<(Lan, Mac, Slot, Ip), seq<Hdl>>, a: Lan, m: Mac, s: Slot, ip: Ip): seq<Hdl> {
    if (a, m, s, ip) in rt then rt[(a, m, s, ip)] else []
  }

  /** rule_hdl[0..num_hdl] are exactly the client's live routing rules. */
  ghost predicate RtRecorded(rt: map<(Lan, Mac, Slot, Ip), seq<Hdl>>, book: map<Key, Hdl>) {
    forall a, m, s, ip, i: nat ::
      && (RtK(a, m, s, ip, i) in book <==> i < |Hdls(rt, a, m, s, ip)|)
      && (RtK(a, m, s, ip, i) in book ==> book[RtK(a, m, s, ip, i)] == Hdls(rt, a, m, s, ip)[i])
  }

  /** Every booked filter rule is in a flt_rule_info of the right peer entry. */
  ghost predicate FltRecorded(peers: map<(Lan, Lan), set<Mac>>, flt: map<(Lan, Lan, Mac), PerIp<Hdl>>,
                              book: map<Key, Hdl>)
  {
    forall b, a, m, ip :: FltK(b, a, m, ip) in book ==>
      && (b, a) in peers && m in peers[(b, a)]
      && (b, a, m) in flt && flt[(b, a, m)].Get(ip) == book[FltK(b, a, m, ip)]
  }

  /** Table names are as handle_new_iface_up and handle_intra_interface_info set them. */
  ghost predicate TablesOk(peers: map<(Lan, Lan), set<Mac>>, fltTbl: map<(Lan, Lan, Ip), Table>,
                           rtTbl: map<(Lan, Lan, Ip), Table>)
  {
    forall b, a, ip :: (b, a) in peers ==>
      && (b, a, ip) in fltTbl && fltTbl[(b, a, ip)] == FltTable(b, a, ip)
      && (b, a, ip) in rtTbl && rtTbl[(b, a, ip)] == RtTable(b, SlotOf(b, a), ip)
  }

  /** A routing rule names one of its interface's two destination pipes: the alternative one on WLAN in MCC mode. On a
      WLAN interface that lags behind it may name either. */
  ghost predicate PipesOk(live: map<Hdl, Rule>, alt: map<Hdl, bool>, mcc: bool, lagging: set<Lan>) {
    forall h :: h in live && live[h].Rt? ==>
      h in alt && ((live[h].pipe.wlan && live[h].pipe in lagging) || alt[h] == (live[h].pipe.wlan && mcc))
  }

  lemma FreshPipe(live: map<Hdl, Rule>, book: map<Key, Hdl>, owner: map<Hdl, Key>, next: Hdl, alt: map<Hdl, bool>,
                  mcc: bool,
                  lagging: set<Lan>, r: Rule)
    requires HwOk(live, book, owner, next) && PipesOk(live, alt, mcc, lagging)
    ensures next !in live && PipesOk(live[next := r], alt[next := r.Rt? && r.pipe.wlan && mcc], mcc, lagging)
  {
    hide HwOk;
    HandlesBelow(live, book, owner, next);
  }

  lemma HandlesBelow(live: map<Hdl, Rule>, book: map<Key, Hdl>, owner: map<Hdl, Key>, next: Hdl)
    requires HwOk(live, book, owner, next)
    ensures forall h :: h in live ==> h < next
  {
  }

  lemma CtxGrew(ctx: map<(Lan, Slot), Hdl>, book: map<Key, Hdl>, a: Lan, s: Slot, h: Hdl)
    requires CtxRecorded(ctx, book)
    ensures CtxRecorded(ctx[(a, s) := h], book[CtxK(a, s) := h])
  {
  }

  lemma WithinSelf(book: map<Key, Hdl>)
    ensures Within(book, book)
  {
  }

  lemma WithinKeys(book: map<Key, Hdl>, book': map<Key, Hdl>)
    requires Within(book, book')
    ensures book.Keys <= book'.Keys
  {
  }

  lemma WithinChain(book: map<Key, Hdl>, book': map<Key, Hdl>, book'': map<Key, Hdl>)
    requires Within(book, book') && Within(book', book'')
    ensures Within(book, book'')
  {
  }

  lemma WithinMore(book: map<Key, Hdl>, k: Key, h: Hdl)
    requires k !in book
    ensures Within(book, book[k := h])
  {
  }

  /** The rules for the purposes `written` name the mode's pipe now, the others what they named before. */
  ghost predicate Rewritten(owner: map<Hdl, Key>, alt: map<Hdl, bool>, alt': map<Hdl, bool>, written: set<Key>,
                            mcc: bool)
  {
    && alt'.Keys == alt.Keys
    && forall h :: h in alt ==> alt'[h] == if h in owner && owner[h] in written then mcc else alt[h]
  }

  lemma RewrittenNone(owner: map<Hdl, Key>, alt: map<Hdl, bool>, mcc: bool)
    ensures Rewritten(owner, alt, alt, {}, mcc)
  {
  }

  lemma RewrittenOne(owner: map<Hdl, Key>, alt: map<Hdl, bool>, alt': map<Hdl, bool>, written: set<Key>, mcc: bool,
                     h: Hdl)
    requires Rewritten(owner, alt, alt', written, mcc) && h in alt && h in owner
    requires forall h' :: h' in owner && owner[h'] == owner[h] ==> h' == h
    ensures Rewritten(owner, alt, alt'[h := mcc], written + {owner[h]}, mcc)
  {
  }

  lemma RewrittenChain(owner: map<Hdl, Key>, alt: map<Hdl, bool>, alt': map<Hdl, bool>, alt'': map<Hdl, bool>,
                       written: set<Key>, more: set<Key>, mcc: bool)
    requires Rewritten(owner, alt, alt', written, mcc) && Rewritten(owner, alt', alt'', more, mcc)
    ensures Rewritten(owner, alt, alt'', written + more, mcc)
  {
  }

  lemma WrittenPipe(live: map<Hdl, Rule>, alt: map<Hdl, bool>, mcc: bool, lagging: set<Lan>, h: Hdl)
    requires PipesOk(live, alt, mcc, lagging) && h in live && live[h].Rt?
    ensures h in alt && (live[h].pipe.wlan ==> PipesOk(live, alt[h := mcc], mcc, lagging))
  {
  }

  /** When all rules of a WLAN interface have been rewritten, it lags no more. */
  lemma SwitchedPipes(live: map<Hdl, Rule>, book: map<Key, Hdl>, owner: map<Hdl, Key>, next: Hdl, alt: map<Hdl, bool>,
                      alt': map<Hdl, bool>, mcc: bool, lagging: set<Lan>, a: Lan, written: set<Key>)
    requires HwOk(live, book, owner, next) && PipesOk(live, alt, mcc, lagging)
    requires Rewritten(owner, alt, alt', written, mcc)
    requires written == if a.wlan then set k | k in book && k.RtK? && k.a == a else {}
    ensures PipesOk(live, alt', mcc, lagging - {a})
  {
    forall h | h in live && live[h].Rt?
      ensures h in alt'
      ensures (live[h].pipe.wlan && live[h].pipe in lagging - {a}) || alt'[h] == (live[h].pipe.wlan && mcc)
    {
      var k := owner[h];
      assert live[book[k]] == Content(k, book) && live[h].pipe == k.a;
    }
  }

  lemma NamesMode(live: map<Hdl, Rule>, alt: map<Hdl, bool>, mcc: bool, lagging: set<Lan>, a: Lan)
    requires PipesOk(live, alt, mcc, lagging) && a !in lagging
    ensures forall h :: h in live && live[h].Rt? && live[h].pipe == a ==> h in alt && alt[h] == (a.wlan && mcc)
  {
  }

  /** What a change of mode leaves behind. */
  lemma ModeLags(live: map<Hdl, Rule>, alt: map<Hdl, bool>, mcc: bool, lagging: set<Lan>, mcc': bool, wlans: set<Lan>)
    requires PipesOk(live, alt, mcc, lagging)
    requires forall h :: h in live && live[h].Rt? && live[h].pipe.wlan ==> live[h].pipe in wlans
    ensures PipesOk(live, alt, mcc', lagging + wlans)
  {
  }

  lemma LagsNoMore(live: map<Hdl, Rule>, alt: map<Hdl, bool>, mcc: bool, lagging: set<Lan>, a: Lan)
    requires PipesOk(live, alt, mcc, lagging) && forall h :: h in live && live[h].Rt? ==> live[h].pipe != a
    ensures PipesOk(live, alt, mcc, lagging - {a})
  {
  }

  /** Routing rules belong to registered interfaces. */
  lemma RtOfRegistered(S: Shape, live: map<Hdl, Rule>, book: map<Key, Hdl>, owner: map<Hdl, Key>, next: Hdl)
    requires HwOk(live, book, owner, next) && Balanced(S, book.Keys) && Complete(S)
    ensures forall h :: h in live && live[h].Rt? ==> live[h].pipe in S.up
  {
    hide Balanced, LinksOk, ListsOk, LimitsOk;
    forall h | h in live && live[h].Rt? ensures live[h].pipe in S.up {
      var k := owner[h];
      assert live[book[k]] == Content(k, book);
      RtSlots(S, book.Keys, k.a, k);
    }
  }

  function SetTables(tbl: map<(Lan, Lan, Ip), Table>, x: Lan, p: Lan, t: PerIp<Table>): map<(Lan, Lan, Ip), Table> {
    tbl[(x, p, V4) := t.v4][(x, p, V6) := t.v6]
  }

  /** Every entry of m1 is also in m2. */
  ghost predicate Within(m1: map<Key, Hdl>, m2: map<Key, Hdl>) {
    forall k :: k in m1 ==> k in m2 && m2[k] == m1[k]
  }

  /** Only contexts are referenced by routing rules. */
  lemma NotAContext(live: map<Hdl, Rule>, book: map<Key, Hdl>, owner: map<Hdl, Key>, next: Hdl, k: Key)
    requires HwOk(live, book, owner, next) && k in book
    requires k.CtxK? ==> forall k' :: k' in book && k'.RtK? ==> CtxK(k'.a, k'.s) != k
    ensures book[k] in live && owner[book[k]] == k
    ensures forall h' :: h' in live && live[h'].Rt? ==> live[h'].ctx != book[k]
  {
    forall h' | h' in live && live[h'].Rt? ensures live[h'].ctx != book[k] {
      var k' := owner[h'];
      assert live[book[k']] == Content(k', book);
      assert owner[book[CtxK(k'.a, k'.s)]] == CtxK(k'.a, k'.s);
    }
  }

  lemma BookGrew(ctx: map<(Lan, Slot), Hdl>, rt: map<(Lan, Mac, Slot, Ip), seq<Hdl>>,
                 peers: map<(Lan, Lan), set<Mac>>, flt: map<(Lan, Lan, Mac), PerIp<Hdl>>,
                 book: map<Key, Hdl>, k: Key, h: Hdl)
    requires k !in book
    ensures !k.CtxK? && CtxRecorded(ctx, book) ==> CtxRecorded(ctx, book[k := h])
    ensures !k.RtK? && RtRecorded(rt, book) ==> RtRecorded(rt, book[k := h])
    ensures !k.FltK? && FltRecorded(peers, flt, book) ==> FltRecorded(peers, flt, book[k := h])
  {
  }

  lemma FltGrew(peers: map<(Lan, Lan), set<Mac>>, flt: map<(Lan, Lan, Mac), PerIp<Hdl>>, book: map<Key, Hdl>,
                b: Lan, a: Lan, m: Mac, ip: Ip, h: Hdl, info: PerIp<Hdl>)
    requires FltRecorded(peers, flt, book) && (b, a) in peers && info.Get(ip) == h
    requires m in peers[(b, a)] && (b, a, m) in flt ==> info == flt[(b, a, m)].Set(ip, h)
    ensures FltRecorded(peers[(b, a) := peers[(b, a)] + {m}], flt[(b, a, m) := info], book[FltK(b, a, m, ip) := h])
  {
  }

  lemma TablesAre(peers: map<(Lan, Lan), set<Mac>>, fltTbl: map<(Lan, Lan, Ip), Table>,
                  rtTbl: map<(Lan, Lan, Ip), Table>,
                  b: Lan, a: Lan, ip: Ip)
    requires TablesOk(peers, fltTbl, rtTbl) && (b, a) in peers
    ensures (b, a, ip) in fltTbl && fltTbl[(b, a, ip)] == FltTable(b, a, ip)
    ensures (b, a, ip) in rtTbl && rtTbl[(b, a, ip)] == RtTable(b, SlotOf(b, a), ip)
  {
  }

  lemma TablesSame(peers: map<(Lan, Lan), set<Mac>>, fltTbl: map<(Lan, Lan, Ip), Table>,
                   rtTbl: map<(Lan, Lan, Ip), Table>,
                   b: Lan, a: Lan, macs: set<Mac>)
    requires TablesOk(peers, fltTbl, rtTbl) && (b, a) in peers
    ensures TablesOk(peers[(b, a) := macs], fltTbl, rtTbl)
  {
  }

  lemma CtxIs(ctx: map<(Lan, Slot), Hdl>, book: map<Key, Hdl>, a: Lan, s: Slot)
    requires CtxRecorded(ctx, book) && CtxK(a, s) in book
    ensures (a, s) in ctx && ctx[(a, s)] == book[CtxK(a, s)]
  {
  }

  lemma FltFilledStep(peers: map<(Lan, Lan), set<Mac>>, macs: map<Lan, set<Mac>>, b: Lan, from: set<Lan>, a: Lan)
    requires (b, a) in peers && a in macs && a !in from
    ensures FltFilled(peers, macs, b, from)[(b, a) := peers[(b, a)] + macs[a]] == FltFilled(peers, macs, b, from + {a})
    ensures FltFilled(peers, macs, b, from)[(b, a)] == peers[(b, a)]
    ensures FltFilled(peers, macs, b, from).Keys == peers.Keys
  {
  }

  lemma FltFilledEmpty(peers: map<(Lan, Lan), set<Mac>>, macs: map<Lan, set<Mac>>, b: Lan)
    ensures FltFilled(peers, macs, b, {}) == peers
  {
  }

  lemma RtGrew(rt: map<(Lan, Mac, Slot, Ip), seq<Hdl>>, book: map<Key, Hdl>, a: Lan, m: Mac, s: Slot, ip: Ip, h: Hdl)
    requires RtRecorded(rt, book)
    ensures var hs := Hdls(rt, a, m, s, ip);
            RtRecorded(rt[(a, m, s, ip) := hs + [h]], book[RtK(a, m, s, ip, |hs|) := h])
  {
  }

  lemma RtEmptied(rt: map<(Lan, Mac, Slot, Ip), seq<Hdl>>, book: map<Key, Hdl>, a: Lan, m: Mac, s: Slot, ip: Ip,
                  book': map<Key, Hdl>)
    requires RtRecorded(rt, book) && Within(book', book)
    requires forall k :: k in book' <==> k in book && !(k.RtK? && k.a == a && k.m == m && k.s == s && k.ip == ip)
    ensures RtRecorded(rt[(a, m, s, ip) := []], book')
  {
  }

  lemma PeerPushed(peers: map<(Lan, Lan), set<Mac>>, flt: map<(Lan, Lan, Mac), PerIp<Hdl>>, book: map<Key, Hdl>,
                   fltTbl: map<(Lan, Lan, Ip), Table>, rtTbl: map<(Lan, Lan, Ip), Table>,
                   x: Lan, p: Lan, f: PerIp<Table>, r: PerIp<Table>)
    requires FltRecorded(peers, flt, book) && TablesOk(peers, fltTbl, rtTbl) && (x, p) !in peers
    requires f == PerIp(FltTable(x, p, V4), FltTable(x, p, V6))
    requires r == PerIp(RtTable(x, SlotOf(x, p), V4), RtTable(x, SlotOf(x, p), V6))
    ensures FltRecorded(peers[(x, p) := {}], flt, book)
    ensures TablesOk(peers[(x, p) := {}], SetTables(fltTbl, x, p, f), SetTables(rtTbl, x, p, r))
  {
    var fltTbl', rtTbl' := SetTables(fltTbl, x, p, f), SetTables(rtTbl, x, p, r);
    forall b, a, ip | (b, a) in peers[(x, p) := {}]
      ensures (b, a, ip) in fltTbl' && fltTbl'[(b, a, ip)] == FltTable(b, a, ip)
      ensures (b, a, ip) in rtTbl' && rtTbl'[(b, a, ip)] == RtTable(b, SlotOf(b, a), ip)
    {
      if (b, a) == (x, p) {
        match ip { case V4 => case V6 => }
      }
    }
  }

  lemma PeerErased(peers: map<(Lan, Lan), set<Mac>>, flt: map<(Lan, Lan, Mac), PerIp<Hdl>>, book: map<Key, Hdl>,
                   fltTbl: map<(Lan, Lan, Ip), Table>, rtTbl: map<(Lan, Lan, Ip), Table>, gone: set<(Lan, Lan)>)
    requires FltRecorded(peers, flt, book) && TablesOk(peers, fltTbl, rtTbl)
    requires forall k :: k in book && k.FltK? ==> (k.b, k.a) !in gone
    ensures FltRecorded(peers - gone, flt, book) && TablesOk(peers - gone, fltTbl, rtTbl)
  {
  }

  lemma BookShrank(ctx: map<(Lan, Slot), Hdl>, rt: map<(Lan, Mac, Slot, Ip), seq<Hdl>>,
                   peers: map<(Lan, Lan), set<Mac>>, flt: map<(Lan, Lan, Mac), PerIp<Hdl>>,
                   book: map<Key, Hdl>, k: Key)
    ensures CtxRecorded(ctx, book) ==> CtxRecorded(ctx, book - {k})
    ensures !k.RtK? && RtRecorded(rt, book) ==> RtRecorded(rt, book - {k})
    ensures FltRecorded(peers, flt, book) ==> FltRecorded(peers, flt, book - {k})
  {
  }

  /** The recorded handles of a client's rules, when there is one rule for each of the interface's properties. */
  lemma RtHdlsAre(rt: map<(Lan, Mac, Slot, Ip), seq<Hdl>>, book: map<Key, Hdl>, a: Lan, m: Mac, s: Slot, ip: Ip, n: nat)
    requires RtRecorded(rt, book) && forall i: nat :: RtK(a, m, s, ip, i) in book <==> i < n
    ensures var hs := Hdls(rt, a, m, s, ip);
      |hs| == n && forall i :: 0 <= i < n ==> RtK(a, m, s, ip, i) in book && book[RtK(a, m, s, ip, i)] == hs[i]
  {
    var hs := Hdls(rt, a, m, s, ip);
    assert RtK(a, m, s, ip, n) in book <==> n < |hs|;
    assert RtK(a, m, s, ip, |hs|) in book <==> |hs| < n;
  }

  lemma HadPipe(owner: map<Hdl, Key>, alt: map<Hdl, bool>, alt': map<Hdl, bool>, written: set<Key>, h: Hdl)
    requires exists mcc :: Rewritten(owner, alt, alt', written, mcc)
    ensures h in alt' <==> h in alt
  {
  }

  lemma OneOwner(live: map<Hdl, Rule>, book: map<Key, Hdl>, owner: map<Hdl, Key>, next: Hdl, h: Hdl)
    requires HwOk(live, book, owner, next) && h in owner
    ensures forall h' :: h' in owner && owner[h'] == owner[h] ==> h' == h
  {
  }

  lemma BookedRule(live: map<Hdl, Rule>, book: map<Key, Hdl>, owner: map<Hdl, Key>, next: Hdl, k: Key)
    requires HwOk(live, book, owner, next) && k in book
    ensures book[k] in live && book[k] in owner && owner[book[k]] == k && DepOk(k, book.Keys)
    ensures live[book[k]] == Content(k, book)
  {
  }

  class LanToLan {
    // m_iface, with each interface's fields. The peer entry of an interface for itself is m_intra_interface_info.
    var up: map<Lan, PerIp<bool>>                        // m_is_ip_addr_assigned of the registered interfaces
    var refCnt: map<(Lan, L2), int>                      // ref_cnt_peer_l2_hdr_type, absent meaning 0
    var ctx: map<(Lan, Slot), Hdl>                       // hdr_proc_ctx_for_inter_interface, _for_intra_interface
    var clients: map<Lan, set<Mac>>                      // m_client_info
    var rtHdl: map<(Lan, Mac, Slot, Ip), seq<Hdl>>       // client_info::inter_ and intra_iface_rt_rule_hdl
    var peers: map<(Lan, Lan), set<Mac>>                 // m_peer_iface_info and the p_clients in its flt_rule list
    var fltHdl: map<(Lan, Lan, Mac), PerIp<Hdl>>         // flt_rule_info::flt_rule_hdl
    var fltTbl: map<(Lan, Lan, Ip), Table>               // peer_iface_info::rt_tbl_name_for_flt
    var rtTbl: map<(Lan, Lan, Ip), Table>                // peer_iface_info::rt_tbl_name_for_rt
    var cached: seq<(Lan, Mac)>                          // m_cached_client_add_event

    // The IPA driver hands out handles in increasing order.
    var nextHdl: Hdl
    ghost var live: map<Hdl, Rule>
    ghost var alt: map<Hdl, bool>                        // whether a routing rule names the alternative pipe
    var mcc: bool                                        // IPACM_Config::isMCC_Mode
    // Proof bookkeeping: which handle serves which purpose.
    ghost var book: map<Key, Hdl>
    ghost var owner: map<Hdl, Key>
    ghost var lagging: set<Lan>

    ghost predicate Coherent()
      reads `live, `alt, `mcc, `lagging, `book, `owner, `nextHdl, `ctx, `rtHdl, `peers, `fltHdl, `fltTbl, `rtTbl
    {
      && HwOk(live, book, owner, nextHdl)
      && PipesOk(live, alt, mcc, lagging)
      && CtxRecorded(ctx, book)
      && RtRecorded(rtHdl, book)
      && FltRecorded(peers, fltHdl, book)
      && TablesOk(peers, fltTbl, rtTbl)
    }

    ghost function Shape(): Shape
      reads `up, `clients, `refCnt, `peers
    {
      LanModel.Shape(up, clients, refCnt, peers)
    }

    function Cnt(a: Lan, t: L2): int
      reads this
    {
      if (a, t) in refCnt then refCnt[(a, t)] else 0
    }

    function PeersOf(a: Lan): set<Lan>
      reads this
    {
      PeersIn(peers, a)
    }

    // ---------- Driver calls ----------

    /** eth_bridge_add_*: the driver hands out a fresh handle. A routing rule needs a live context. */
    method Install(r: Rule, ghost k: Key) returns (h: Hdl)
      requires HwOk(live, book, owner, nextHdl) && PipesOk(live, alt, mcc, lagging)
      requires k !in book && DepOk(k, book.Keys) && r == Content(k, book)
      modifies `live, `alt, `book, `owner, `nextHdl
      ensures HwOk(live, book, owner, nextHdl) && PipesOk(live, alt, mcc, lagging)
      ensures h !in old(live) && live == old(live)[h := r] && book == old(book)[k := h]
      ensures alt == old(alt)[h := r.Rt? && r.pipe.wlan && mcc]
    {
      hide HwOk, PipesOk;
      InstallKeepsHw(live, book, owner, nextHdl, k, r);
      FreshPipe(live, book, owner, nextHdl, alt, mcc, lagging, r);
      h := nextHdl;
      nextHdl := nextHdl + 1;
      live := live[h := r];
      alt := alt[h := r.Rt? && r.pipe.wlan && mcc];
      book := book[k := h];
      owner := owner[h := k];
    }

    /** eth_bridge_del_*: the handle must be live, and no routing rule may use it as its context. */
    method Uninstall(h: Hdl)
      requires HwOk(live, book, owner, nextHdl) && PipesOk(live, alt, mcc, lagging)
      requires h in live
      requires forall h' :: h' in live && live[h'].Rt? ==> live[h'].ctx != h
      modifies `live, `book, `owner
      ensures HwOk(live, book, owner, nextHdl) && PipesOk(live, alt, mcc, lagging)
      ensures live == old(live) - {h} && book == old(book) - {old(owner)[h]}
    {
      UninstallKeepsHw(live, book, owner, nextHdl, h);
      live, book, owner := live - {h}, book - {owner[h]}, owner - {h};
    }

    // ---------- Filter rules ----------

    /** add_client_flt_rule: on interface b, for client m of a (a == b: intra-interface). */
    method AddClientFltRule(b: Lan, a: Lan, m: Mac, ip: Ip)
      requires Coherent() && (b, a) in peers && FltK(b, a, m, ip) !in book
      modifies `peers, `fltHdl, `live, `alt, `book, `owner, `nextHdl
      ensures Coherent() && Within(old(book), book)
      ensures book.Keys == old(book.Keys) + {FltK(b, a, m, ip)}
      ensures peers == old(peers)[(b, a) := old(peers)[(b, a)] + {m}]
    {
      hide HwOk, PipesOk, CtxRecorded, RtRecorded, FltRecorded, TablesOk, Within;
      TablesAre(peers, fltTbl, rtTbl, b, a, ip);
      var h := Install(Flt(b, ip, m, fltTbl[(b, a, ip)]), FltK(b, a, m, ip));
      WithinMore(old(book), FltK(b, a, m, ip), h);
      TablesSame(peers, fltTbl, rtTbl, b, a, peers[(b, a)] + {m});
      BookGrew(ctx, rtHdl, peers, fltHdl, old(book), FltK(b, a, m, ip), h);
      var info := if m in peers[(b, a)] && (b, a, m) in fltHdl then fltHdl[(b, a, m)].Set(ip, h)
                  else PerIp(0, 0).Set(ip, h);
      FltGrew(peers, fltHdl, old(book), b, a, m, ip, h, info);
      fltHdl := fltHdl[(b, a, m) := info];
      peers := peers[(b, a) := peers[(b, a)] + {m}];
    }

    /** The inner loop of add_all_inter_interface_client_flt_rule, and
        (a == b) add_all_intra_interface_client_flt_rule. */
    method AddFltRulesForPeer(b: Lan, a: Lan, ip: Ip)
      requires Coherent() && (b, a) in peers && a in clients
      requires forall m :: FltK(b, a, m, ip) !in book
      modifies `peers, `fltHdl, `live, `alt, `book, `owner, `nextHdl
      ensures Coherent() && Within(old(book), book)
      ensures book.Keys == old(book.Keys) + FltKeys(b, a, clients[a], {ip})
      ensures peers == old(peers)[(b, a) := old(peers)[(b, a)] + clients[a]]
    {
      hide Coherent;
      ghost var all, f := clients[a], peers[(b, a)];
      var todo := clients[a];
      assert peers[(b, a) := f + (all - todo)] == peers by { assert f + (all - todo) == f; }
      while todo != {}
        invariant Coherent() && Within(old(book), book) && todo <= all
        invariant book.Keys == old(book.Keys) + FltKeys(b, a, all - todo, {ip})
        invariant peers == old(peers)[(b, a) := f + (all - todo)]
        decreases todo
      {
        var m :| m in todo;
        AddClientFltRule(b, a, m, ip);
        assert all - (todo - {m}) == (all - todo) + {m};
        assert (f + (all - todo)) + {m} == f + (all - (todo - {m}));
        todo := todo - {m};
      }
      assert all - todo == all;
    }

    /** add_all_inter_interface_client_flt_rule */
    method AddAllInterInterfaceClientFltRule(b: Lan, ip: Ip)
      requires Coherent() && forall a :: (b, a) in peers ==> a in clients
      requires forall a, m :: a != b ==> FltK(b, a, m, ip) !in book
      modifies `peers, `fltHdl, `live, `alt, `book, `owner, `nextHdl
      ensures Coherent() && Within(old(book), book)
      ensures book.Keys == old(book.Keys) + FltKeysOn(clients, b, old(PeersOf(b)), {ip})
      ensures peers == FltFilled(old(peers), clients, b, old(PeersOf(b)))
    {
      hide Coherent, FltFilled;
      ghost var all := PeersOf(b);
      var todo := PeersOf(b);
      assert all - todo == {};
      FltFilledEmpty(peers, clients, b);
      while todo != {}
        invariant Coherent() && Within(old(book), book) && todo <= all
        invariant book.Keys == old(book.Keys) + FltKeysOn(clients, b, all - todo, {ip})
        invariant peers == FltFilled(old(peers), clients, b, all - todo)
        decreases todo
      {
        var a :| a in todo;
        FltFilledStep(old(peers), clients, b, all - todo, a);
        AddFltRulesForPeer(b, a, ip);
        assert all - (todo - {a}) == (all - todo) + {a};
        todo := todo - {a};
      }
      assert all - todo == all;
    }

    /** add_one_client_flt_rule, also the tail of handle_client_add for b == a. */
    method AddOneClientFltRule(b: Lan, a: Lan, m: Mac)
      requires Coherent() && (b, a) in peers && b in up && (up[b].v4 || up[b].v6)
      requires forall ip :: FltK(b, a, m, ip) !in book
      modifies `peers, `fltHdl, `live, `alt, `book, `owner, `nextHdl
      ensures Coherent() && Within(old(book), book)
      ensures book.Keys == old(book.Keys) + FltKeys(b, a, {m}, UpSet(up[b]))
      ensures peers == old(peers)[(b, a) := old(peers)[(b, a)] + {m}]
    {
      hide Coherent;
      if up[b].v4 {
        AddClientFltRule(b, a, m, V4);
      }
      if up[b].v6 {
        AddClientFltRule(b, a, m, V6);
      }
    }

    /** eth_bridge_del_flt_rule on a recorded handle. */
    method DelOneFlt(h: Hdl, ghost k: Key)
      requires Coherent() && k in book && k.FltK? && h == book[k]
      modifies `live, `book, `owner
      ensures Coherent() && book == old(book) - {k}
    {
      hide HwOk, PipesOk, CtxRecorded, RtRecorded, FltRecorded;
      NotAContext(live, book, owner, nextHdl, k);
      Uninstall(h);
      BookShrank(ctx, rtHdl, peers, fltHdl, old(book), k);
    }

    /** The deletions of one flt_rule_info: one rule per assigned family. */
    method DelFltInfo(b: Lan, a: Lan, m: Mac)
      requires Coherent() && b in up
      requires forall ip :: FltK(b, a, m, ip) in book <==> up[b].Get(ip)
      modifies `live, `book, `owner
      ensures Coherent() && Within(book, old(book))
      ensures book.Keys == old(book.Keys) - FltKeys(b, a, {m}, {V4, V6})
    {
      hide HwOk, PipesOk, CtxRecorded, RtRecorded;
      if up[b].v4 {
        assert FltK(b, a, m, V4) in book;
        DelOneFlt(fltHdl[(b, a, m)].v4, FltK(b, a, m, V4));
      }
      if up[b].v6 {
        assert FltK(b, a, m, V6) in old(book);
        DelOneFlt(fltHdl[(b, a, m)].v6, FltK(b, a, m, V6));
      }
      assert forall ip :: FltK(b, a, m, ip) in old(book) <==> up[b].Get(ip);
    }

    /** del_client_flt_rule, del_one_client_flt_rule */
    method DelClientFltRule(b: Lan, a: Lan, m: Mac)
      requires Coherent() && b in up && (b, a) in peers
      requires forall ip :: FltK(b, a, m, ip) in book <==> up[b].Get(ip) && m in peers[(b, a)]
      modifies `peers, `live, `book, `owner
      ensures Coherent() && Within(book, old(book))
      ensures book.Keys == old(book.Keys) - FltKeys(b, a, {m}, {V4, V6})
      ensures peers == old(peers)[(b, a) := old(peers)[(b, a)] - {m}]
    {
      hide HwOk, PipesOk, CtxRecorded, RtRecorded;
      if m in peers[(b, a)] {
        DelFltInfo(b, a, m);
      }
      peers := peers[(b, a) := peers[(b, a)] - {m}];
    }

    /** clear_all_flt_rule_for_one_peer_iface */
    method ClearAllFltRuleForOnePeerIface(b: Lan, a: Lan)
      requires Coherent() && b in up && (b, a) in peers
      requires forall m, ip :: FltK(b, a, m, ip) in book <==> up[b].Get(ip) && m in peers[(b, a)]
      modifies `peers, `live, `book, `owner
      ensures Coherent() && Within(book, old(book))
      ensures book.Keys == old(book.Keys) - FltOf(old(book.Keys), b, a)
      ensures peers == old(peers)[(b, a) := {}]
    {
      hide HwOk, PipesOk, CtxRecorded, RtRecorded;
      ghost var all := peers[(b, a)];
      var todo := peers[(b, a)];
      while todo != {}
        invariant Coherent() && Within(book, old(book)) && todo <= all
        invariant book.Keys == old(book.Keys) - FltKeys(b, a, all - todo, {V4, V6})
        invariant peers == old(peers)
        decreases todo
      {
        var m :| m in todo;
        assert forall ip :: FltK(b, a, m, ip) in old(book) <==> up[b].Get(ip);
        DelFltInfo(b, a, m);
        assert all - (todo - {m}) == (all - todo) + {m};
        todo := todo - {m};
      }
      assert all - todo == all;
      peers := peers[(b, a) := {}];
    }

    // ---------- Routing rules ----------

    method StartRtRules(a: Lan, m: Mac, s: Slot, ip: Ip)
      requires Coherent() && forall i :: RtK(a, m, s, ip, i) !in book
      modifies `rtHdl
      ensures Coherent() && Hdls(rtHdl, a, m, s, ip) == []
    {
      hide HwOk, PipesOk, CtxRecorded, RtRecorded, FltRecorded, TablesOk;
      RtEmptied(rtHdl, book, a, m, s, ip, book);
      rtHdl := rtHdl[(a, m, s, ip) := []];
    }

    /** One IP family of add_client_rt_rule: eth_bridge_add_rt_rule and the copying of its handles. */
    method AddRtRules(a: Lan, p: Lan, m: Mac, ip: Ip)
      requires Coherent() && (a, p) in peers && CtxK(a, SlotOf(a, p)) in book
      requires forall i :: RtK(a, m, SlotOf(a, p), ip, i) !in book
      modifies `rtHdl, `live, `alt, `book, `owner, `nextHdl
      ensures Coherent() && Within(old(book), book)
      ensures book.Keys == old(book.Keys) + RtKeysIp(a, m, SlotOf(a, p), ip, a.rtCount.Get(ip))
    {
      hide Coherent;
      var s := SlotOf(a, p);
      StartRtRules(a, m, s, ip);
      for i := 0 to a.rtCount.Get(ip)
        invariant Coherent() && Within(old(book), book)
        invariant |Hdls(rtHdl, a, m, s, ip)| == i
        invariant book.Keys == old(book.Keys) + RtKeysIp(a, m, s, ip, i)
      {
        AddRtRuleAt(a, p, m, s, ip, i);
      }
    }

    /** The routing rule for the i-th property of interface a. */
    method AddRtRuleAt(a: Lan, p: Lan, m: Mac, s: Slot, ip: Ip, i: nat)
      requires Coherent() && (a, p) in peers && s == SlotOf(a, p) && CtxK(a, s) in book
      requires RtK(a, m, s, ip, i) !in book && |Hdls(rtHdl, a, m, s, ip)| == i
      modifies `rtHdl, `live, `alt, `book, `owner, `nextHdl
      ensures Coherent() && Within(old(book), book)
      ensures |Hdls(rtHdl, a, m, s, ip)| == i + 1
      ensures book.Keys == old(book.Keys) + {RtK(a, m, s, ip, i)}
    {
      hide HwOk, PipesOk, CtxRecorded, RtRecorded, FltRecorded, TablesOk, Within;
      TablesAre(peers, fltTbl, rtTbl, a, p, ip);
      CtxIs(ctx, book, a, s);
      var hs := Hdls(rtHdl, a, m, s, ip);
      ghost var before := book;
      var h := Install(Rt(a, ip, rtTbl[(a, p, ip)], m, ctx[(a, s)], p.l2, i), RtK(a, m, s, ip, i));
      WithinMore(before, RtK(a, m, s, ip, i), h);
      RtGrew(rtHdl, before, a, m, s, ip, h);
      BookGrew(ctx, rtHdl, peers, fltHdl, before, RtK(a, m, s, ip, i), h);
      rtHdl := rtHdl[(a, m, s, ip) := hs + [h]];
    }

    /** add_client_rt_rule: for client m of a, serving traffic from peer p (p == a: intra-interface). */
    method AddClientRtRule(a: Lan, p: Lan, m: Mac)
      requires Coherent() && (a, p) in peers && CtxK(a, SlotOf(a, p)) in book
      requires forall ip, i :: RtK(a, m, SlotOf(a, p), ip, i) !in book
      modifies `rtHdl, `live, `alt, `book, `owner, `nextHdl
      ensures Coherent() && Within(old(book), book)
      ensures book.Keys == old(book.Keys) + RtKeys(a, m, SlotOf(a, p))
    {
      hide Coherent;
      AddRtRules(a, p, m, V4);
      AddRtRules(a, p, m, V6);
    }

    /** One routing rule goes from the hardware; its handle is still on its client's list. */
    method DelRtRule(h: Hdl, ghost k: Key)
      requires HwOk(live, book, owner, nextHdl) && PipesOk(live, alt, mcc, lagging)
        && CtxRecorded(ctx, book) && FltRecorded(peers, fltHdl, book)
      requires k.RtK? && k in book && book[k] == h
      modifies `live, `book, `owner
      ensures HwOk(live, book, owner, nextHdl) && PipesOk(live, alt, mcc, lagging)
        && CtxRecorded(ctx, book) && FltRecorded(peers, fltHdl, book)
      ensures book == old(book) - {k}
    {
      hide HwOk, PipesOk, CtxRecorded, FltRecorded, TablesOk;
      ghost var before := book;
      NotAContext(live, book, owner, nextHdl, k);
      Uninstall(h);
      BookShrank(ctx, rtHdl, peers, fltHdl, before, k);
    }

    /** One IP family of del_client_rt_rule. */
    method DelRtRules(a: Lan, s: Slot, m: Mac, ip: Ip)
      requires Coherent()
      modifies `rtHdl, `live, `book, `owner
      ensures Coherent() && Within(book, old(book))
      ensures book.Keys == set k | k in old(book) && !(k.RtK? && k.a == a && k.m == m && k.s == s && k.ip == ip)
    {
      hide HwOk, PipesOk, CtxRecorded, FltRecorded, TablesOk;
      var hs := Hdls(rtHdl, a, m, s, ip);
      for i := 0 to |hs|
        invariant HwOk(live, book, owner, nextHdl) && PipesOk(live, alt, mcc, lagging)
          && CtxRecorded(ctx, book) && FltRecorded(peers, fltHdl, book)
        invariant rtHdl == old(rtHdl) && Within(book, old(book))
        invariant book.Keys == old(book.Keys) - RtKeysIp(a, m, s, ip, i)
      {
        assert RtK(a, m, s, ip, i) in old(book) && old(book)[RtK(a, m, s, ip, i)] == hs[i];
        DelRtRule(hs[i], RtK(a, m, s, ip, i));
      }
      RtEmptied(rtHdl, old(book), a, m, s, ip, book);
      rtHdl := rtHdl[(a, m, s, ip) := []];
    }

    /** del_client_rt_rule */
    method DelClientRtRule(a: Lan, p: Lan, m: Mac)
      requires Coherent()
      modifies `rtHdl, `live, `book, `owner
      ensures Coherent() && Within(book, old(book))
      ensures book.Keys == old(book.Keys) - RtOf(old(book.Keys), a, m, SlotOf(a, p))
    {
      hide Coherent;
      DelRtRules(a, SlotOf(a, p), m, V4);
      DelRtRules(a, SlotOf(a, p), m, V6);
    }

    /** clear_all_rt_rule_for_one_peer_iface */
    method ClearAllRtRuleForOnePeerIface(a: Lan, p: Lan)
      requires Coherent() && a in clients
      requires forall k :: k in book && k.RtK? && k.a == a ==> k.m in clients[a]
      modifies `rtHdl, `live, `book, `owner
      ensures Coherent() && Within(book, old(book))
      ensures book.Keys == old(book.Keys)
                           - if Cnt(a, p.l2) == 0 then RtOfAll(old(book.Keys), a, SlotOf(a, p)) else {}
    {
      hide Coherent;
      if Cnt(a, p.l2) == 0 {
        var todo := clients[a];
        while todo != {}
          invariant Coherent() && Within(book, old(book)) && todo <= clients[a]
          invariant forall k :: k in book <==>
            (k in old(book) && !(k in RtOfAll(old(book.Keys), a, SlotOf(a, p)) && k.m !in todo))
          decreases todo
        {
          var m :| m in todo;
          DelClientRtRule(a, p, m);
          todo := todo - {m};
        }
      }
    }

    /** add_client_rt_rule_for_new_iface, p being the peer just pushed. */
    method AddClientRtRuleForNewIface(a: Lan, p: Lan)
      requires Coherent() && a in clients && (a, p) in peers && a != p
      requires Cnt(a, p.l2) == 1 ==> CtxK(a, Ty(p.l2)) in book
      requires Cnt(a, p.l2) == 1 ==> forall m, ip, i :: RtK(a, m, Ty(p.l2), ip, i) !in book
      modifies `rtHdl, `live, `alt, `book, `owner, `nextHdl
      ensures Coherent() && Within(old(book), book)
      ensures book.Keys == old(book.Keys)
                           + if Cnt(a, p.l2) == 1 then RtKeysAll(a, clients[a], Ty(p.l2)) else {}
    {
      hide Coherent, RtKeysAll;
      RtKeysNone(a, Ty(p.l2));
      if Cnt(a, p.l2) == 1 {
        ghost var all := clients[a];
        assert all - all == {};
        var todo := clients[a];
        while todo != {}
          invariant Coherent() && Within(old(book), book) && todo <= all
          invariant book.Keys == old(book.Keys) + RtKeysAll(a, all - todo, Ty(p.l2))
          decreases todo
        {
          var m :| m in todo;
          AddClientRtRule(a, p, m);
          RtKeysNext(a, all, todo, m, Ty(p.l2));
          todo := todo - {m};
        }
        assert all - todo == all;
      }
    }

    // ---------- Header contexts ----------

    /** eth_bridge_add_hdr_proc_ctx and the recording of its handle. */
    method AddCtx(a: Lan, s: Slot)
      requires Coherent() && CtxK(a, s) !in book
      modifies `ctx, `live, `alt, `book, `owner, `nextHdl
      ensures Coherent() && Within(old(book), book) && book.Keys == old(book.Keys) + {CtxK(a, s)}
    {
      hide HwOk, PipesOk, CtxRecorded, RtRecorded, FltRecorded, TablesOk, Within;
      var h := Install(Ctx(a, SlotL2(a, s), a.l2), CtxK(a, s));
      BookGrew(ctx, rtHdl, peers, fltHdl, old(book), CtxK(a, s), h);
      CtxGrew(ctx, old(book), a, s, h);
      WithinMore(old(book), CtxK(a, s), h);
      ctx := ctx[(a, s) := h];
    }

    /** add_hdr_proc_ctx */
    method AddHdrProcCtx(a: Lan, t: L2)
      requires Coherent() && (Cnt(a, t) == 1 ==> CtxK(a, Ty(t)) !in book)
      modifies `ctx, `live, `alt, `book, `owner, `nextHdl
      ensures Coherent() && Within(old(book), book)
      ensures book.Keys == old(book.Keys) + if Cnt(a, t) == 1 then {CtxK(a, Ty(t))} else {}
    {
      hide Coherent;
      if Cnt(a, t) == 1 {
        AddCtx(a, Ty(t));
      }
    }

    /** eth_bridge_del_hdr_proc_ctx on a recorded handle. */
    method DelCtx(a: Lan, s: Slot)
      requires Coherent() && CtxK(a, s) in book && RtOfAll(book.Keys, a, s) == {}
      modifies `live, `book, `owner
      ensures Coherent() && book == old(book) - {CtxK(a, s)}
    {
      hide HwOk, PipesOk, RtRecorded, FltRecorded, TablesOk;
      assert forall k :: k in book && k.RtK? && CtxK(k.a, k.s) == CtxK(a, s) ==> k in RtOfAll(book.Keys, a, s);
      NotAContext(live, book, owner, nextHdl, CtxK(a, s));
      Uninstall(ctx[(a, s)]);
      BookShrank(ctx, rtHdl, peers, fltHdl, old(book), CtxK(a, s));
    }

    /** del_hdr_proc_ctx */
    method DelHdrProcCtx(a: Lan, t: L2)
      requires Coherent()
      requires Cnt(a, t) == 0 ==> CtxK(a, Ty(t)) in book && RtOfAll(book.Keys, a, Ty(t)) == {}
      modifies `live, `book, `owner
      ensures Coherent() && Within(book, old(book))
      ensures book.Keys == old(book.Keys) - if Cnt(a, t) == 0 then {CtxK(a, Ty(t))} else {}
    {
      hide Coherent;
      if Cnt(a, t) == 0 {
        DelCtx(a, Ty(t));
      }
    }

    // ---------- Peers ----------

    /** Puts a peer with its table names on x's list. */
    method PushPeer(x: Lan, p: Lan, flt: PerIp<Table>, rt: PerIp<Table>)
      requires Coherent() && (x, p) !in peers
      requires flt == PerIp(FltTable(x, p, V4), FltTable(x, p, V6))
      requires rt == PerIp(RtTable(x, SlotOf(x, p), V4), RtTable(x, SlotOf(x, p), V6))
      modifies `peers, `fltTbl, `rtTbl
      ensures Coherent() && peers == old(peers)[(x, p) := {}]
    {
      hide HwOk, PipesOk, CtxRecorded, RtRecorded, FltRecorded, TablesOk;
      PeerPushed(peers, fltHdl, book, fltTbl, rtTbl, x, p, flt, rt);
      fltTbl := SetTables(fltTbl, x, p, flt);
      rtTbl := SetTables(rtTbl, x, p, rt);
      peers := peers[(x, p) := {}];
    }

    /** IPACM_LanToLan_Iface::handle_new_iface_up: x gets p as a peer. */
    method IfaceHandleNewIfaceUp(x: Lan, flt: PerIp<Table>, rt: PerIp<Table>, p: Lan)
      requires Coherent() && x != p && (x, p) !in peers
      requires Cnt(x, p.l2) == 0 ==> CtxK(x, Ty(p.l2)) !in book
      requires flt == PerIp(FltTable(x, p, V4), FltTable(x, p, V6))
      requires rt == PerIp(RtTable(x, Ty(p.l2), V4), RtTable(x, Ty(p.l2), V6))
      modifies `refCnt, `ctx, `peers, `fltTbl, `rtTbl, `live, `alt, `book, `owner, `nextHdl
      ensures Coherent() && Within(old(book), book)
      ensures Shape() == Gained(old(Shape()), x, p)
      ensures book.Keys == old(book.Keys) + if old(Cnt(x, p.l2)) == 0 then {CtxK(x, Ty(p.l2))} else {}
    {
      hide Coherent;
      refCnt := refCnt[(x, p.l2) := Cnt(x, p.l2) + 1];
      AddHdrProcCtx(x, p.l2);
      PushPeer(x, p, flt, rt);
    }

    /** IPACM_LanToLan::handle_new_iface_up */
    method HandleNewIfaceUp(a: Lan, b: Lan)
      requires Coherent() && Balanced(Shape(), book.Keys)
      requires a != b && a in up && b in up && (a, b) !in peers && (b, a) !in peers
      modifies `refCnt, `ctx, `peers, `fltTbl, `rtTbl, `live, `alt, `book, `owner, `nextHdl
      ensures Coherent() && Within(old(book), book)
      ensures Shape() == Gained(Gained(old(Shape()), b, a), a, b)
      ensures book.Keys == old(book.Keys)
                           + (if old(Cnt(b, a.l2)) == 0 then {CtxK(b, Ty(a.l2))} else {})
                           + (if old(Cnt(a, b.l2)) == 0 then {CtxK(a, Ty(b.l2))} else {})
    {
      hide Coherent, Balanced, Due;
      var existToNew := PerIp(InterTbl(V4, b.l2, a.l2), InterTbl(V6, b.l2, a.l2));
      var newToExist := PerIp(InterTbl(V4, a.l2, b.l2), InterTbl(V6, a.l2, b.l2));
      CtxBooked(Shape(), book.Keys, b, a.l2);
      CtxBooked(Shape(), book.Keys, a, b.l2);
      IfaceHandleNewIfaceUp(b, existToNew, newToExist, a);
      IfaceHandleNewIfaceUp(a, newToExist, existToNew, b);
    }

    /** The loop body of handle_iface_up for a new interface a and an existing interface b. */
    method LinkNewIface(a: Lan, b: Lan)
      requires Coherent() && Balanced(Shape(), book.Keys)
      requires a != b && a in up && b in up && b in clients && a in clients && clients[a] == {}
      requires (a, b) !in peers && (b, a) !in peers
      modifies `refCnt, `ctx, `peers, `fltTbl, `rtTbl, `rtHdl, `live, `alt, `book, `owner, `nextHdl
      ensures Coherent() && Balanced(Shape(), book.Keys) && Within(old(book), book)
      ensures peers == old(peers)[(b, a) := {}][(a, b) := {}]
    {
      hide Coherent, Balanced, Due, Within, RtKeysAll;
      ghost var S, keys, book0 := Shape(), book.Keys, book;
      CtxBooked(S, keys, b, a.l2);
      HandleNewIfaceUp(a, b);
      ghost var book1 := book;
      AddClientRtRuleForNewIface(b, a);
      WithinChain(book0, book1, book);
      LinkKeepsBalance(S, keys, a, b, book.Keys);
    }

    /** Bookkeeping and hardware agree, and together are what the registered interfaces call for. */
    ghost predicate Inv()
      reads `live, `alt, `mcc, `lagging, `book, `owner, `nextHdl, `ctx, `rtHdl, `peers, `fltHdl, `fltTbl, `rtTbl,
        `up, `clients, `refCnt
    {
      Coherent() && Balanced(Shape(), book.Keys) && Complete(Shape())
    }

    /** The loop of handle_iface_up over the existing interfaces. */
    method LinkAllPeers(a: Lan)
      requires Coherent() && Balanced(Shape(), book.Keys) && Unlinked(Shape(), a)
      requires a in up && a.Inter() && clients.Keys == up.Keys && clients[a] == {}
      modifies `refCnt, `ctx, `peers, `fltTbl, `rtTbl, `rtHdl, `live, `alt, `book, `owner, `nextHdl
      ensures Coherent() && Balanced(Shape(), book.Keys) && Within(old(book), book)
      ensures peers == PeersLinked(old(peers), a, Linked(up.Keys - {a}, a))
    {
      hide Coherent, Balanced, Due, PeersLinked;
      ghost var all := up.Keys - {a};
      var todo := up.Keys - {a};
      PeersLinkedStep(peers, a, {}, a);
      assert Linked(all - todo, a) == {};
      while todo != {}
        invariant Coherent() && Balanced(Shape(), book.Keys) && Within(old(book), book) && todo <= all
        invariant peers == PeersLinked(old(peers), a, Linked(all - todo, a))
        decreases todo
      {
        var b :| b in todo;
        if b.Inter() {
          PeersLinkedStep(old(peers), a, Linked(all - todo, a), b);
          LinkNewIface(a, b);
          assert Linked(all - (todo - {b}), a) == Linked(all - todo, a) + {b};
        } else {
          assert Linked(all - (todo - {b}), a) == Linked(all - todo, a);
        }
        todo := todo - {b};
      }
      assert all - todo == all;
    }

    /** handle_intra_interface_info */
    method HandleIntraInterfaceInfo(a: Lan)
      requires Coherent() && Balanced(Shape(), book.Keys)
      requires a in up && a in clients && clients[a] == {} && (a, a) !in peers
      modifies `ctx, `peers, `fltTbl, `rtTbl, `live, `alt, `book, `owner, `nextHdl
      ensures Coherent() && Balanced(Shape(), book.Keys) && Within(old(book), book)
      ensures peers == old(peers)[(a, a) := {}]
    {
      hide Coherent;
      IntraKeepsBalance(Shape(), book.Keys, a);
      var name := PerIp(IntraTbl(V4), IntraTbl(V6));
      PushPeer(a, a, name, name);
      assert CtxK(a, Own) in book <==> Due(old(Shape()), CtxK(a, Own));
      AddCtx(a, Own);
    }

    /** The IPACM_LanToLan_Iface constructor and m_iface.push_front. */
    method PushIface(a: Lan, ip: Ip)
      requires Coherent()
      modifies `up, `clients, `refCnt
      ensures Coherent()
      ensures up == old(up)[a := PerIp(false, false).Set(ip, true)] && clients == old(clients)[a := {}]
      ensures refCnt == WithoutIface(old(refCnt), a)
    {
      hide Coherent;
      up := up[a := PerIp(false, false).Set(ip, true)];
      clients := clients[a := {}];
      refCnt := WithoutIface(refCnt, a);
    }

    /** "Insert a new one" in handle_iface_up: register a and link it to everyone. */
    method InsertIface(a: Lan, ip: Ip)
      requires Inv() && a !in up
      modifies `up, `clients, `refCnt, `ctx, `peers, `fltHdl, `fltTbl, `rtTbl, `rtHdl, `live, `alt, `book, `owner,
        `nextHdl
      ensures Coherent() && Balanced(Shape(), book.Keys) && Within(old(book), book)
      ensures up == old(up)[a := PerIp(false, false).Set(ip, true)] && clients == old(clients)[a := {}]
      ensures peers == NewIfaceFlt(old(Shape()), a)
    {
      hide Coherent, Balanced, LinksOk, ListsOk, LimitsOk, NewIfaceFlt, Unlinked, WithoutIface;
      ghost var S := Shape();
      SameDomain(S);
      PushIface(a, ip);
      assert up.Keys == S.up.Keys + {a} && clients.Keys == S.up.Keys + {a};
      NotLinked(S, a);
      RegisterKeepsBalance(S, book.Keys, a, up[a], Shape());
      LinkNewToAll(a, ip, S);
    }

    /** handle_iface_up for an interface that was not registered before, up to the cached events. */
    method AddNewIface(a: Lan, ip: Ip)
      requires Inv() && a !in up && a.Usable() && |up| < MAX_NUM_IFACE
      modifies `up, `clients, `refCnt, `ctx, `peers, `fltHdl, `fltTbl, `rtTbl, `rtHdl, `live, `alt, `book, `owner,
        `nextHdl
      ensures Inv() && Within(old(book), book)
      ensures up == old(up)[a := PerIp(false, false).Set(ip, true)] && clients == old(clients)[a := {}]
    {
      hide Coherent, Balanced, LinksOk, ListsOk, LimitsOk, NewIfaceFlt;
      ghost var S := Shape();
      InsertIface(a, ip);
      NewIfaceComplete(S, a, Shape());
    }

    /** The inter- and intra-interface parts of handle_iface_up for the new interface a; S is the state before it. */
    method LinkNewToAll(a: Lan, ip: Ip, ghost S: Shape)
      requires Coherent() && Balanced(Shape(), book.Keys) && LinksOk(S) && Unlinked(S, a) && peers == S.flt
      requires a in up && a !in S.up && clients.Keys == up.Keys == S.up.Keys + {a} && clients == S.macs[a := {}]
      requires up[a] == PerIp(false, false).Set(ip, true)
      modifies `refCnt, `ctx, `peers, `fltHdl, `fltTbl, `rtTbl, `rtHdl, `live, `alt, `book, `owner, `nextHdl
      ensures Coherent() && Balanced(Shape(), book.Keys) && Within(old(book), book)
      ensures peers == NewIfaceFlt(S, a)
    {
      hide Coherent, Balanced, LinksOk, InterFlt;
      LinkInter(a, ip, S);
      if a.wlan {
        NotLinked(S, a);
        OwnNotYet(S, a);
        HandleIntraInterfaceInfo(a);
      }
    }

    /** The part of the other interfaces. */
    method LinkInter(a: Lan, ip: Ip, ghost S: Shape)
      requires Coherent() && Balanced(Shape(), book.Keys) && LinksOk(S) && Unlinked(S, a) && peers == S.flt
      requires a in up && a !in S.up && clients.Keys == up.Keys == S.up.Keys + {a} && clients == S.macs[a := {}]
      requires up[a] == PerIp(false, false).Set(ip, true)
      modifies `refCnt, `ctx, `peers, `fltHdl, `fltTbl, `rtTbl, `rtHdl, `live, `alt, `book, `owner, `nextHdl
      ensures Coherent() && Balanced(Shape(), book.Keys) && Within(old(book), book)
      ensures peers == InterFlt(S, a)
    {
      hide Coherent, Balanced, LinksOk, PeersLinked, FltFilled, Linked;
      assert up.Keys - {a} == S.up.Keys;
      if a.Inter() {
        LinkAllPeers(a);
        FillNewIface(a, ip, S);
      }
    }

    /** add_all_inter_interface_client_flt_rule on the new interface. */
    method FillNewIface(a: Lan, ip: Ip, ghost S: Shape)
      requires Coherent() && Balanced(Shape(), book.Keys) && LinksOk(S)
      requires a in up && a !in S.up && clients.Keys == up.Keys == S.up.Keys + {a}
      requires up[a] == PerIp(false, false).Set(ip, true)
      requires peers == PeersLinked(S.flt, a, Linked(up.Keys - {a}, a))
      modifies `peers, `fltHdl, `live, `alt, `book, `owner, `nextHdl
      ensures Coherent() && Balanced(Shape(), book.Keys) && Within(old(book), book)
      ensures peers == FltFilled(old(peers), clients, a, old(PeersOf(a)))
    {
      hide Coherent, Balanced, LinksOk, FltFilled;
      ghost var T, keys := Shape(), book.Keys;
      NewListsEmpty(S, T, keys, a);
      AddAllInterInterfaceClientFltRule(a, ip);
      FillKeepsBalance(T, keys, a, ip, Shape(), book.Keys);
    }

    /** The inter- and intra-interface rules for a family just activated on a; S is the state before. */
    method AddFamilyRules(a: Lan, ip: Ip, ghost S: Shape)
      requires Coherent() && LinksOk(S) && ListsOk(S) && a in S.up && clients == S.macs && peers == S.flt
      requires a in clients
      requires forall b, m :: FltK(a, b, m, ip) !in book
      modifies `peers, `fltHdl, `live, `alt, `book, `owner, `nextHdl
      ensures Coherent() && Within(old(book), book)
      ensures book.Keys == old(book.Keys) + FltKeysOn(clients, a, S.Peers(a), {ip}) && peers == S.flt
    {
      hide Coherent, LinksOk, ListsOk, FltFilled;
      ListsAreFull(S, a);
      PeersAndSelf(S, a);
      FltKeysWithSelf(S, a, ip);
      if a.Inter() {
        AddAllInterInterfaceClientFltRule(a, ip);
      } else {
        assert FltKeysOn(clients, a, {}, {ip}) == {};
      }
      if a.wlan {
        AddFltRulesForPeer(a, a, ip);
      }
    }

    /** handle_iface_up for a registered interface whose family ip was not active. */
    method ActivateFamily(a: Lan, ip: Ip)
      requires Inv() && a in up && !up[a].Get(ip)
      modifies `up, `peers, `fltHdl, `live, `alt, `book, `owner, `nextHdl
      ensures Inv() && Within(old(book), book)
      ensures up == old(up)[a := old(up)[a].Set(ip, true)]
    {
      hide Coherent, Balanced, LinksOk, ListsOk, LimitsOk;
      ghost var S, keys := Shape(), book.Keys;
      NoRulesForFamily(S, keys, a, ip);
      SameDomain(S);
      up := up[a := up[a].Set(ip, true)];
      AddFamilyRules(a, ip, S);
      UpKeepsBalance(S, keys, a, ip, book.Keys);
      UpKeepsComplete(S, a, ip);
    }

    // ---------- Clients ----------

    /** The rules for client m of a on one peer entry p (p == a: intra-interface): the routing rules
        unless another peer of the same type had them added, then the filter rules on p. */
    method AddClientOn(a: Lan, p: Lan, m: Mac, slots: set<Slot>)
      requires Coherent() && (p, a) in peers && (a, p) in peers && CtxK(a, SlotOf(a, p)) in book
      requires p in up && (up[p].v4 || up[p].v6)
      requires SlotOf(a, p) !in slots ==> forall ip, i :: RtK(a, m, SlotOf(a, p), ip, i) !in book
      requires forall ip :: FltK(p, a, m, ip) !in book
      modifies `peers, `fltHdl, `rtHdl, `live, `alt, `book, `owner, `nextHdl
      ensures Coherent() && Within(old(book), book)
      ensures book.Keys == old(book.Keys)
                           + (if SlotOf(a, p) in slots then {} else RtKeys(a, m, SlotOf(a, p)))
                           + FltKeys(p, a, {m}, UpSet(up[p]))
      ensures peers == old(peers)[(p, a) := old(peers)[(p, a)] + {m}]
    {
      hide Coherent;
      if SlotOf(a, p) !in slots {
        AddClientRtRule(a, p, m);
      }
      AddOneClientFltRule(p, a, m);
    }

    /** AddClientOn for peer entry b, after the entries `done`; S and keys are as before the client was added. */
    method AddClientStep(a: Lan, b: Lan, m: Mac, slots: set<Slot>, ghost S: Shape, ghost keys: set<Key>,
                         ghost done: set<Lan>)
      requires Coherent() && Balanced(S, keys) && NoneFor(keys, a, m) && keys <= book.Keys
      requires (a, b) in S.flt && (b, a) in S.flt && b !in done && b in up && (up[b].v4 || up[b].v6)
      requires peers == ClientJoined(S.flt, a, m, done) && Joined(keys, book.Keys, up, a, m, slots, done)
      modifies `peers, `fltHdl, `rtHdl, `live, `alt, `book, `owner, `nextHdl
      ensures Coherent() && Within(old(book), book)
      ensures peers == ClientJoined(S.flt, a, m, done + {b})
      ensures Joined(keys, book.Keys, up, a, m, slots + {SlotOf(a, b)}, done + {b})
    {
      hide Coherent, Balanced, ClientJoined, Joined;
      ClientJoinedStep(S.flt, a, m, done, b);
      EntryCtxBooked(S, keys, a, b);
      JoinedFresh(keys, book.Keys, up, a, m, slots, done, b);
      AddClientOn(a, b, m, slots);
      JoinedStep(keys, old(book).Keys, book.Keys, up, a, m, slots, done, b);
    }

    /** The inter-interface part of handle_client_add; `slots` are the flags of the types done. */
    method AddClientOnPeers(a: Lan, m: Mac, ghost S: Shape) returns (slots: set<Slot>)
      requires Coherent() && Balanced(S, book.Keys) && LinksOk(S) && LimitsOk(S) && S == Shape()
      requires a in up && NoneFor(book.Keys, a, m)
      modifies `peers, `fltHdl, `rtHdl, `live, `alt, `book, `owner, `nextHdl
      ensures Coherent() && Within(old(book), book)
      ensures slots == SlotsOf(a, PeersIn(S.flt, a))
      ensures Joined(old(book).Keys, book.Keys, up, a, m, slots, PeersIn(S.flt, a))
      ensures peers == ClientJoined(S.flt, a, m, PeersIn(S.flt, a))
    {
      hide Coherent, Balanced, LinksOk, LimitsOk, ClientJoined, Joined, SlotsOf, NoneFor, Within;
      WithinSelf(book);
      PeersAreMutual(S, a);
      SameDomain(S);
      ghost var all := PeersOf(a);
      var todo := PeersOf(a);
      slots := {};
      ClientJoinedNone(S.flt, a, m);
      SlotsOfStep(a, {}, a);
      JoinedNone(book.Keys, up, a, m);
      assert all - todo == {};
      while todo != {}
        invariant Coherent() && Within(old(book), book) && todo <= all
        invariant slots == SlotsOf(a, all - todo)
        invariant Joined(old(book).Keys, book.Keys, up, a, m, slots, all - todo)
        invariant peers == ClientJoined(S.flt, a, m, all - todo)
        decreases todo
      {
        var b :| b in todo;
        ghost var book1 := book;
        WithinKeys(old(book), book);
        AddClientStep(a, b, m, slots, S, old(book).Keys, all - todo);
        WithinChain(old(book), book1, book);
        SlotsOfStep(a, all - todo, b);
        assert all - (todo - {b}) == (all - todo) + {b};
        slots := slots + {SlotOf(a, b)};
        todo := todo - {b};
      }
      assert all - todo == all;
    }

    /** The rules of handle_client_add: first the inter-interface peers, then a itself. */
    method AddClientEverywhere(a: Lan, m: Mac, ghost S: Shape)
      requires Coherent() && Balanced(S, book.Keys) && LinksOk(S) && LimitsOk(S) && S == Shape()
      requires a in up && NoneFor(book.Keys, a, m)
      modifies `peers, `fltHdl, `rtHdl, `live, `alt, `book, `owner, `nextHdl
      ensures Coherent() && Within(old(book), book)
      ensures Joined(old(book).Keys, book.Keys, up, a, m, SlotsOf(a, S.Peers(a)), S.Peers(a))
      ensures peers == ClientJoined(S.flt, a, m, S.Peers(a))
    {
      hide Coherent, Balanced, LinksOk, LimitsOk, ClientJoined, Joined, SlotsOf, NoneFor;
      PeersAndSelf(S, a);
      SameDomain(S);
      var slots := AddClientOnPeers(a, m, S);
      ghost var all := PeersIn(S.flt, a);
      if a.wlan {
        AddClientStep(a, a, m, slots, S, old(book).Keys, all);
        SlotsOfStep(a, all, a);
      } else {
        assert S.Peers(a) == all;
      }
    }

    /** IPACM_LanToLan_Iface::handle_client_add */
    method IfaceHandleClientAdd(a: Lan, m: Mac)
      requires Inv() && a in up
      modifies `clients, `peers, `fltHdl, `rtHdl, `live, `alt, `book, `owner, `nextHdl
      ensures Inv() && Within(old(book), book)
      ensures clients == old(clients)[a := WithClient(old(clients)[a], m)]
    {
      hide Coherent, Balanced, LinksOk, ListsOk, LimitsOk, ClientJoined, Joined, SlotsOf, NoneFor;
      SameDomain(Shape());
      if m in clients[a] || |clients[a]| == MAX_NUM_CLIENT {
        return;
      }
      ghost var S, keys := Shape(), book.Keys;
      NoRulesForNewClient(S, keys, a, m);
      JoinKeepsComplete(S, a, m);
      AddClientEverywhere(a, m, S);
      JoinKeepsBalance(S, keys, a, m, book.Keys);
      clients := clients[a := clients[a] + {m}];
    }

    /** handle_client_del on one peer entry b, after the entries `done`. */
    method DelClientStep(a: Lan, b: Lan, m: Mac, slots: set<Slot>, ghost S: Shape, ghost keys: set<Key>,
                         ghost done: set<Lan>)
      requires Coherent() && Balanced(S, keys) && S.up == up
      requires (b, a) in S.flt && b !in done && b in up
      requires peers == ClientLeft(S.flt, a, m, done) && Left(keys, book.Keys, a, m, slots, done)
      modifies `peers, `rtHdl, `live, `book, `owner
      ensures Coherent() && Within(book, old(book))
      ensures peers == ClientLeft(S.flt, a, m, done + {b})
      ensures Left(keys, book.Keys, a, m, slots + {SlotOf(a, b)}, done + {b})
    {
      hide Coherent, Balanced, ClientLeft, Left;
      ClientLeftStep(S.flt, a, m, done, b);
      LeftPending(S, keys, book.Keys, a, m, slots, done, b);
      DelClientFltRule(b, a, m);
      if SlotOf(a, b) !in slots {
        DelClientRtRule(a, b, m);
      }
      LeftStep(keys, old(book).Keys, book.Keys, a, m, slots, done, b);
    }

    /** The inter-interface part of handle_client_del. */
    method DelClientOnPeers(a: Lan, m: Mac, ghost S: Shape) returns (slots: set<Slot>)
      requires Coherent() && Balanced(S, book.Keys) && LinksOk(S) && S == Shape() && a in up
      modifies `peers, `rtHdl, `live, `book, `owner
      ensures Coherent() && Within(book, old(book))
      ensures slots == SlotsOf(a, PeersIn(S.flt, a))
      ensures Left(old(book).Keys, book.Keys, a, m, slots, PeersIn(S.flt, a))
      ensures peers == ClientLeft(S.flt, a, m, PeersIn(S.flt, a))
    {
      hide Coherent, Balanced, LinksOk, ClientLeft, Left, SlotsOf;
      PeersAreMutual(S, a);
      ghost var all := PeersOf(a);
      var todo := PeersOf(a);
      slots := {};
      ClientJoinedNone(S.flt, a, m);
      SlotsOfStep(a, {}, a);
      LeftNone(book.Keys, a, m);
      assert all - todo == {};
      while todo != {}
        invariant Coherent() && Within(book, old(book)) && todo <= all
        invariant slots == SlotsOf(a, all - todo)
        invariant Left(old(book).Keys, book.Keys, a, m, slots, all - todo)
        invariant peers == ClientLeft(S.flt, a, m, all - todo)
        decreases todo
      {
        var b :| b in todo;
        DelClientStep(a, b, m, slots, S, old(book).Keys, all - todo);
        SlotsOfStep(a, all - todo, b);
        assert all - (todo - {b}) == (all - todo) + {b};
        slots := slots + {SlotOf(a, b)};
        todo := todo - {b};
      }
      assert all - todo == all;
    }

    /** The rules of handle_client_del: first on the inter-interface peers, then on a itself. */
    method DelClientEverywhere(a: Lan, m: Mac, ghost S: Shape)
      requires Coherent() && Balanced(S, book.Keys) && LinksOk(S) && S == Shape() && a in up
      modifies `peers, `rtHdl, `live, `book, `owner
      ensures Coherent() && Within(book, old(book))
      ensures Left(old(book).Keys, book.Keys, a, m, SlotsOf(a, S.Peers(a)), S.Peers(a))
      ensures peers == ClientLeft(S.flt, a, m, S.Peers(a))
    {
      hide Coherent, Balanced, LinksOk, ClientLeft, Left, SlotsOf;
      PeersAndSelf(S, a);
      var slots := DelClientOnPeers(a, m, S);
      ghost var all := PeersIn(S.flt, a);
      if a.wlan {
        DelClientStep(a, a, m, slots, S, old(book).Keys, all);
        SlotsOfStep(a, all, a);
      } else {
        assert S.Peers(a) == all;
      }
    }

    /** IPACM_LanToLan_Iface::handle_client_del */
    method IfaceHandleClientDel(a: Lan, m: Mac)
      requires Inv() && a in up
      modifies `clients, `peers, `rtHdl, `live, `book, `owner
      ensures Inv() && Within(book, old(book))
      ensures clients == old(clients)[a := old(clients)[a] - {m}]
    {
      hide Coherent, Balanced, LinksOk, ListsOk, LimitsOk, ClientLeft, Left, SlotsOf;
      SameDomain(Shape());
      if m !in clients[a] {
        assert clients[a] - {m} == clients[a];
        return;
      }
      ghost var S, keys := Shape(), book.Keys;
      LeaveKeepsComplete(S, a, m);
      DelClientEverywhere(a, m, S);
      LeaveKeepsBalance(S, keys, a, m, book.Keys);
      clients := clients[a := clients[a] - {m}];
    }

    // ---------- Interface down ----------

    /** Filter rules between a and b, both ways: the first part of handle_down_event's loop body. */
    method ClearFltBothWays(a: Lan, b: Lan)
      requires Coherent() && a != b && a in up && b in up && (a, b) in peers && (b, a) in peers
      requires forall m, ip :: FltK(a, b, m, ip) in book <==> up[a].Get(ip) && m in peers[(a, b)]
      requires forall m, ip :: FltK(b, a, m, ip) in book <==> up[b].Get(ip) && m in peers[(b, a)]
      modifies `peers, `live, `book, `owner
      ensures Coherent() && Within(book, old(book))
      ensures book.Keys == old(book.Keys) - FltOf(old(book.Keys), a, b) - FltOf(old(book.Keys), b, a)
      ensures peers == old(peers)[(a, b) := {}][(b, a) := {}]
    {
      hide Coherent;
      ClearAllFltRuleForOnePeerIface(a, b);
      ClearAllFltRuleForOnePeerIface(b, a);
      assert FltOf(old(book.Keys) - FltOf(old(book.Keys), a, b), b, a) == FltOf(old(book.Keys), b, a);
    }

    /** m_peer_iface_info.erase / clear */
    method ErasePeers(gone: set<(Lan, Lan)>)
      requires Coherent() && forall k :: k in book && k.FltK? ==> (k.b, k.a) !in gone
      modifies `peers
      ensures Coherent() && peers == old(peers) - gone
    {
      hide HwOk, PipesOk, CtxRecorded, RtRecorded, FltRecorded, TablesOk;
      PeerErased(peers, fltHdl, book, fltTbl, rtTbl, gone);
      peers := peers - gone;
    }

    /** Routing rules and context of x for peers of p's type, if p was the last one. */
    method DropTypeOf(x: Lan, p: Lan)
      requires Coherent() && x in clients && x != p && CtxK(x, Ty(p.l2)) in book
      requires forall k :: k in book && k.RtK? && k.a == x ==> k.m in clients[x]
      modifies `rtHdl, `live, `book, `owner
      ensures Coherent() && Within(book, old(book))
      ensures book.Keys == old(book.Keys) - TypeKeys(old(book.Keys), x, p.l2, Cnt(x, p.l2) == 0)
    {
      hide Coherent;
      ClearAllRtRuleForOnePeerIface(x, p);
      DelHdrProcCtx(x, p.l2);
    }

    /** The rule deletions for peer b of the departing interface a, after the counts are decremented. */
    method UnlinkRules(a: Lan, b: Lan, ghost keys: set<Key>)
      requires Coherent() && book.Keys == keys && a != b && a in up && b in up && a in clients && b in clients
      requires (a, b) in peers && (b, a) in peers && CtxK(b, Ty(a.l2)) in book && CtxK(a, Ty(b.l2)) in book
      requires forall m, ip :: FltK(a, b, m, ip) in keys <==> up[a].Get(ip) && m in peers[(a, b)]
      requires forall m, ip :: FltK(b, a, m, ip) in keys <==> up[b].Get(ip) && m in peers[(b, a)]
      requires forall k :: k in keys && k.RtK? && k.a == a ==> k.m in clients[a]
      requires forall k :: k in keys && k.RtK? && k.a == b ==> k.m in clients[b]
      modifies `peers, `rtHdl, `live, `book, `owner
      ensures Coherent() && Within(book, old(book))
      ensures book.Keys == keys - FltOf(keys, a, b) - FltOf(keys, b, a)
                           - TypeKeys(keys, b, a.l2, Cnt(b, a.l2) == 0) - TypeKeys(keys, a, b.l2, Cnt(a, b.l2) == 0)
      ensures peers == old(peers)[(a, b) := {}][(b, a) := {}] - {(b, a)}
    {
      hide Coherent, TypeKeys;
      ClearFltBothWays(a, b);
      ghost var keys1 := book.Keys;
      ErasePeers({(b, a)});
      DropTypeOf(b, a);
      TypeKeysApart(keys, a, b, Cnt(b, a.l2) == 0, Cnt(a, b.l2) == 0);
      DropTypeOf(a, b);
    }

    /** The loop body of handle_down_event for peer b of the departing interface a. */
    method UnlinkPeer(a: Lan, b: Lan, ghost done: set<Lan>)
      requires Coherent() && Balanced(Hidden(Shape(), a, done), book.Keys) && b !in done
      requires a != b && a in up && b in up && (a, b) in peers && (b, a) in peers
      requires a in clients && b in clients
      modifies `refCnt, `peers, `rtHdl, `live, `book, `owner
      ensures Coherent() && Within(book, old(book))
      ensures Balanced(Hidden(Shape(), a, done + {b}), book.Keys)
      ensures peers == old(peers)[(a, b) := {}][(b, a) := {}] - {(b, a)}
    {
      hide Coherent, Balanced, Due, Lost, FltOf, TypeKeys;
      ghost var S, keys := Shape(), book.Keys;
      ghost var T := Hidden(S, a, done);
      UnlinkReady(T, keys, a, b);
      UnlinkReady(T, keys, b, a);
      refCnt := refCnt[(a, b.l2) := Cnt(a, b.l2) - 1][(b, a.l2) := Cnt(b, a.l2) - 1];
      UnlinkRules(a, b, keys);
      UnlinkKeepsBalance(T, keys, a, b, book.Keys);
      HiddenStep(S, a, done, b, refCnt, peers);
    }

    /** The loop of handle_down_event over a's peers. */
    method UnlinkEachPeer(a: Lan, ghost S: Shape)
      requires Coherent() && Balanced(S, book.Keys) && LinksOk(S) && S == Shape() && a in up && clients.Keys == up.Keys
      modifies `refCnt, `peers, `rtHdl, `live, `book, `owner
      ensures Coherent() && Within(book, old(book))
      ensures Balanced(Hidden(Shape(), a, PeersIn(S.flt, a)), book.Keys)
      ensures peers == PeersUnlinked(S.flt, a, PeersIn(S.flt, a))
    {
      hide Coherent, Balanced, LinksOk, PeersUnlinked, Hidden;
      PeersAreMutual(S, a);
      HiddenNone(S, a);
      PeersUnlinkedNone(peers, a);
      ghost var all := PeersOf(a);
      var todo := PeersOf(a);
      assert all - todo == {};
      while todo != {}
        invariant Coherent() && Within(book, old(book)) && todo <= all
        invariant Balanced(Hidden(Shape(), a, all - todo), book.Keys)
        invariant peers == PeersUnlinked(S.flt, a, all - todo)
        decreases todo
      {
        var b :| b in todo;
        PeersUnlinkedStep(S.flt, a, all - todo, b);
        UnlinkPeer(a, b, all - todo);
        assert all - (todo - {b}) == (all - todo) + {b};
        todo := todo - {b};
      }
      assert all - todo == all;
    }

    /** The inter-interface part of handle_down_event, with m_peer_iface_info.clear(). */
    method UnlinkAllPeers(a: Lan, ghost S: Shape)
      requires Coherent() && Balanced(S, book.Keys) && LinksOk(S) && S == Shape() && a in up && clients.Keys == up.Keys
      modifies `refCnt, `peers, `rtHdl, `live, `book, `owner
      ensures Coherent() && Balanced(Shape(), book.Keys) && Within(book, old(book))
      ensures peers == PeersUnlinked(S.flt, a, PeersIn(S.flt, a)) - EntriesOf(a, PeersIn(S.flt, a))
    {
      hide Coherent, Balanced, LinksOk, PeersUnlinked, Hidden, EntriesOf;
      var all := PeersOf(a);
      UnlinkEachPeer(a, S);
      UnhidePeers(Shape(), book.Keys, a, all);
      ErasePeers(EntriesOf(a, all));
    }

    /** The intra-interface part of handle_down_event. */
    method ClearIntraInterface(a: Lan)
      requires Coherent() && Balanced(Shape(), book.Keys) && Isolated(Shape(), a) && a in up && (a, a) in peers
      requires clients.Keys == up.Keys
      modifies `peers, `rtHdl, `live, `book, `owner
      ensures Coherent() && Within(book, old(book))
      ensures book.Keys ==
        old(book.Keys) - FltOf(old(book.Keys), a, a) - RtOfAll(old(book.Keys), a, Own) - {CtxK(a, Own)}
      ensures peers == old(peers)[(a, a) := {}]
    {
      hide Coherent, Balanced;
      ghost var keys := book.Keys;
      OwnRules(Shape(), keys, a);
      IsolatedCounts(Shape(), keys, a, a.l2);
      ClearAllFltRuleForOnePeerIface(a, a);
      ClearAllRtRuleForOnePeerIface(a, a);
      assert RtOfAll(keys - FltOf(keys, a, a), a, Own) == RtOfAll(keys, a, Own);
      DelCtx(a, Own);
    }

    /** ClearIntraInterface where supported; afterwards a has no peer entry left. */
    method ClearOwnEntry(a: Lan)
      requires Coherent() && Balanced(Shape(), book.Keys) && Isolated(Shape(), a) && a in up
      requires clients.Keys == up.Keys && ((a, a) in peers <==> a.wlan)
      modifies `peers, `rtHdl, `live, `book, `owner
      ensures Coherent() && Within(book, old(book))
      ensures book.Keys ==
        old(book.Keys) - FltOf(old(book.Keys), a, a) - RtOfAll(old(book.Keys), a, Own) - {CtxK(a, Own)}
      ensures peers == old(peers) - {(a, a)}
    {
      hide Coherent, Balanced, Isolated;
      ghost var keys := book.Keys;
      if a.wlan {
        ClearIntraInterface(a);
        assert old(peers)[(a, a) := {}] - {(a, a)} == old(peers) - {(a, a)};
      } else {
        NoOwnRules(Shape(), keys, a);
        assert keys == keys - {} - {} - {CtxK(a, Own)};
      }
      ErasePeers({(a, a)});
    }

    /** handle_down_event */
    method HandleDownEvent(a: Lan)
      requires Inv() && a in up
      modifies `refCnt, `peers, `rtHdl, `live, `book, `owner
      ensures Coherent() && Within(book, old(book))
      ensures Balanced(LanModel.Shape(up - {a}, clients - {a}, refCnt, peers), book.Keys)
      ensures Complete(LanModel.Shape(up - {a}, clients - {a}, refCnt, peers))
    {
      hide Coherent, Balanced, LinksOk, ListsOk, LimitsOk, Isolated, PeersUnlinked, EntriesOf, Unregistered;
      ghost var S := Shape();
      SameDomain(S);
      UnlinkAllPeers(a, S);
      DownKeepsComplete(S, a, Shape());
      UnregisterKeepsBalance(Shape(), book.Keys, a);
      UnregisteredIs(Shape(), a);
      ClearOwnEntry(a);
    }

    /** handle_down_event and the erasure from m_iface. */
    method IfaceHandleDown(a: Lan)
      requires Inv() && a in up
      modifies `up, `clients, `refCnt, `peers, `rtHdl, `live, `book, `owner
      ensures Inv() && Within(book, old(book))
      ensures up == old(up) - {a} && clients == old(clients) - {a}
    {
      hide Coherent, Balanced, Complete;
      HandleDownEvent(a);
      up, clients := up - {a}, clients - {a};
    }

    // ---------- Events ----------

    ghost function Config(): Cfg
      reads this
    {
      Cfg(CfgOf(Shape()), cached)
    }

    ghost predicate Valid()
      reads this
    {
      Inv() && CachedOk(Config())
    }

    constructor ()
      ensures Valid() && Config() == Cfg(map[], []) && CurrentModes() == Modes(false, {}) && live == map[]
    {
      up, clients, peers := map[], map[], map[];
      refCnt, ctx, rtHdl, fltHdl, fltTbl, rtTbl := map[], map[], map[], map[], map[], map[];
      cached := [];
      nextHdl := 1;
      live, alt, book, owner := map[], map[], map[], map[];
      mcc, lagging := false, {};
      new;
      forall k ensures k in book <==> Due(Shape(), k) {
        if k.RtK? || k.CtxK? { assert Shape().Peers(k.a) == {}; }
      }
    }

    /** handle_cached_client_add_event: every cached event of the registered interface a is handled and erased. */
    method HandleCachedClientAddEvent(a: Lan)
      requires Inv() && a in up && a in clients
      modifies `cached, `clients, `peers, `fltHdl, `rtHdl, `live, `alt, `book, `owner, `nextHdl
      ensures Inv() && Within(old(book), book)
      ensures clients == old(clients)[a := AddCached(old(clients)[a], old(cached), a)]
      ensures cached == Without(old(cached), a)
    {
      hide Coherent, Balanced, Complete, WithClient, AddCached, Without;
      var i := 0;
      ghost var j, events, macs := 0, cached, clients[a];
      CachedNone(macs, a);
      assert events[..0] == [] && clients == clients[a := macs];
      while i < |cached|
        invariant Inv() && Within(old(book), book) && a in clients
        invariant 0 <= j <= |events| && 0 <= i <= |cached| && cached[..i] == Without(events[..j], a)
        invariant cached[i..] == events[j..]
        invariant clients == old(clients)[a := AddCached(macs, events[..j], a)]
        decreases |cached| - i
      {
        var e := cached[i];
        CachedStep(events, cached, i, j, a, macs);
        if e.0 == a {
          IfaceHandleClientAdd(a, e.1);
          cached := cached[..i] + cached[i + 1..];
        } else {
          i := i + 1;
        }
        j := j + 1;
      }
      assert |cached[i..]| == |events[j..]|;
      assert events[..j] == events && cached[..i] == cached;
    }

    /** handle_iface_up for a new interface, with its cached client-add events. */
    method NewIfaceUp(a: Lan, ip: Ip)
      requires Inv() && a !in up && a.Usable() && |up| < MAX_NUM_IFACE
      modifies `up, `clients, `cached, `refCnt, `ctx, `peers, `fltTbl, `rtTbl, `fltHdl, `rtHdl, `live, `alt, `book,
        `owner, `nextHdl
      ensures Inv() && Within(old(book), book)
      ensures up == old(up)[a := PerIp(false, false).Set(ip, true)]
      ensures clients == old(clients)[a := AddCached({}, old(cached), a)] && cached == Without(old(cached), a)
    {
      hide Coherent, Balanced, Complete, AddCached, Without;
      AddNewIface(a, ip);
      HandleCachedClientAddEvent(a);
    }

    /** IPACM_LanToLan::handle_iface_up */
    method HandleIfaceUp(a: Lan, ip: Ip)
      requires Valid()
      modifies `up, `clients, `cached, `refCnt, `ctx, `peers, `fltTbl, `rtTbl, `fltHdl, `rtHdl, `live, `alt, `book,
        `owner, `nextHdl
      ensures Valid() && Config() == Step(old(Config()), IfaceUp(a, ip)) && Within(old(book), book)
    {
      hide Coherent, Balanced, Complete, AddCached, Without, Step, CachedOk, CfgOf;
      ghost var S, before := Shape(), cached;
      DomainOf(S);
      if a in up {
        if !up[a].Get(ip) {
          ActivateFamily(a, ip);
        } else {
          assert up == up[a := up[a].Set(ip, true)];
        }
        StepUpKnown(S, before, a, ip, Shape());
      } else if |up| == MAX_NUM_IFACE || !a.Usable() {
        StepUpRefused(S, before, a, ip);
      } else {
        RoomLeft(S);
        NewIfaceUp(a, ip);
        StepUpNew(S, before, a, ip, Shape());
      }
    }

    /** IPACM_LanToLan::handle_iface_down */
    method HandleIfaceDown(a: Lan)
      requires Valid()
      modifies `up, `clients, `cached, `refCnt, `ctx, `peers, `fltTbl, `rtTbl, `fltHdl, `rtHdl, `live, `book, `owner
      ensures Valid() && Config() == Step(old(Config()), IfaceDown(a)) && Within(book, old(book))
    {
      hide Coherent, Balanced, Complete, AddCached, Without, Step, CachedOk, CfgOf;
      ghost var S, before := Shape(), cached;
      DomainOf(S);
      if a in up {
        IfaceHandleDown(a);
        StepDownKnown(S, before, a, Shape());
      } else {
        ClearCachedClientAddEvent(a);
        StepDownUnknown(S, before, a);
      }
    }

    /** clear_cached_client_add_event */
    method ClearCachedClientAddEvent(a: Lan)
      requires Valid() && a !in up
      modifies `cached
      ensures Valid() && cached == Without(old(cached), a)
    {
      hide Coherent, Balanced, Complete, AddCached, Without;
      var i := 0;
      ghost var j, events := 0, cached;
      CachedNone({}, a);
      assert events[..0] == [];
      while i < |cached|
        invariant 0 <= j <= |events| && 0 <= i <= |cached| && cached[..i] == Without(events[..j], a)
        invariant cached[i..] == events[j..]
        decreases |cached| - i
      {
        CachedStep(events, cached, i, j, a, {});
        if cached[i].0 == a {
          cached := cached[..i] + cached[i + 1..];
        } else {
          i := i + 1;
        }
        j := j + 1;
      }
      assert |cached[i..]| == |events[j..]|;
      assert events[..j] == events && cached[..i] == cached;
      WithoutFacts(events, a);
    }

    /** IPACM_LanToLan::handle_client_add */
    method HandleClientAdd(a: Lan, m: Mac)
      requires Valid()
      modifies `up, `clients, `cached, `refCnt, `ctx, `peers, `fltTbl, `rtTbl, `fltHdl, `rtHdl, `live, `alt, `book,
        `owner, `nextHdl
      ensures Valid() && Config() == Step(old(Config()), ClientAdd(a, m)) && Within(old(book), book)
    {
      hide Coherent, Balanced, Complete, AddCached, Without, Step, CachedOk, CfgOf, WithClient;
      ghost var S, before := Shape(), cached;
      DomainOf(S);
      if a in up {
        IfaceHandleClientAdd(a, m);
        StepClients(S, before, a, clients[a], ClientAdd(a, m), Shape());
      } else {
        if |cached| < MAX_NUM_CACHED_CLIENT_ADD_EVENT {
          cached := [(a, m)] + cached;
        }
        StepClientUnknown(S, before, a, m);
      }
    }

    /** IPACM_LanToLan::handle_client_del */
    method HandleClientDel(a: Lan, m: Mac)
      requires Valid()
      modifies `up, `clients, `cached, `refCnt, `ctx, `peers, `fltTbl, `rtTbl, `fltHdl, `rtHdl, `live, `book, `owner
      ensures Valid() && Config() == Step(old(Config()), ClientDel(a, m)) && Within(book, old(book))
    {
      hide Coherent, Balanced, Complete, AddCached, Without, Step, CachedOk, CfgOf;
      ghost var S, before := Shape(), cached;
      DomainOf(S);
      if a in up {
        IfaceHandleClientDel(a, m);
        StepClients(S, before, a, clients[a], ClientDel(a, m), Shape());
      } else {
        StepClientUnknown(S, before, a, m);
      }
    }

    // ---------- A mode switch of the WLAN driver ----------

    /** eth_bridge_modify_rt_rule: each recorded rule is written anew, with the pipe of the mode and otherwise the same
        contents; `written` are the purposes of the handles written. It refuses when there are too few handles. */
    method ModifyRtRule(a: Lan, s: Slot, m: Mac, ip: Ip) returns (ghost written: set<Key>)
      requires Coherent() && CtxK(a, s) in book
      requires forall i: nat :: RtK(a, m, s, ip, i) in book <==> i < a.rtCount.Get(ip)
      modifies `live, `alt
      ensures Coherent() && live == old(live) && Rewritten(owner, old(alt), alt, written, mcc)
      ensures written == if a.wlan then RtKeysIp(a, m, s, ip, a.rtCount.Get(ip)) else {}
    {
      hide HwOk, PipesOk, RtRecorded, FltRecorded, TablesOk, Rewritten;
      written := {};
      RewrittenNone(owner, alt, mcc);
      if !a.wlan { return; }
      var hs := Hdls(rtHdl, a, m, s, ip);
      RtHdlsAre(rtHdl, book, a, m, s, ip, a.rtCount.Get(ip));
      if a.rtCount.Get(ip) > |hs| { return; }
      for i := 0 to a.rtCount.Get(ip)
        invariant live == old(live) && written == RtKeysIp(a, m, s, ip, i)
        invariant PipesOk(live, alt, mcc, lagging) && Rewritten(owner, old(alt), alt, written, mcc)
      {
        BookedRule(live, book, owner, nextHdl, RtK(a, m, s, ip, i));
        WrittenPipe(live, alt, mcc, lagging, hs[i]);
        HadPipe(owner, old(alt), alt, written, hs[i]);
        OneOwner(live, book, owner, nextHdl, hs[i]);
        RewrittenOne(owner, old(alt), alt, written, mcc, hs[i]);
        live := live[hs[i] := Rt(a, ip, live[hs[i]].table, m, ctx[(a, s)], SlotL2(a, s), i)];
        alt := alt[hs[i] := mcc];
        written := written + {owner[hs[i]]};
      }
    }

    /** Both families of a client's rules. */
    method ModifyClient(a: Lan, s: Slot, m: Mac) returns (ghost written: set<Key>)
      requires Coherent() && CtxK(a, s) in book
      requires forall ip, i: nat :: RtK(a, m, s, ip, i) in book <==> i < a.rtCount.Get(ip)
      modifies `live, `alt
      ensures Coherent() && live == old(live) && Rewritten(owner, old(alt), alt, written, mcc)
      ensures written ==
        if a.wlan then RtKeysIp(a, m, s, V4, a.rtCount.v4) + RtKeysIp(a, m, s, V6, a.rtCount.v6) else {}
    {
      hide Coherent, Rewritten;
      ghost var v4 := ModifyRtRule(a, s, m, V4);
      ghost var alt1 := alt;
      ghost var v6 := ModifyRtRule(a, s, m, V6);
      RewrittenChain(owner, old(alt), alt1, alt, v4, v6, mcc);
      written := v4 + v6;
    }

    /** A slot's rules, for every client. */
    method ModifyClients(a: Lan, s: Slot) returns (ghost written: set<Key>)
      requires Inv() && a in up && CtxK(a, s) in book
      modifies `live, `alt
      ensures Inv() && live == old(live) && Rewritten(owner, old(alt), alt, written, mcc)
      ensures written == if a.wlan then RtOfAll(book.Keys, a, s) else {}
    {
      hide Coherent, Balanced, LinksOk, ListsOk, LimitsOk, Rewritten;
      SameDomain(Shape());
      RtBooked(Shape(), book.Keys, a, s);
      var todo := clients[a];
      written := {};
      RewrittenNone(owner, alt, mcc);
      while todo != {}
        invariant Coherent() && live == old(live) && todo <= clients[a] && Rewritten(owner, old(alt), alt, written, mcc)
        invariant written == if a.wlan then RtKeysAll(a, clients[a] - todo, s) else {}
        decreases todo
      {
        var m :| m in todo;
        ghost var alt0 := alt;
        ghost var more := ModifyClient(a, s, m);
        RewrittenChain(owner, old(alt), alt0, alt, written, more, mcc);
        RtKeysOneMore(a, clients[a], todo, m, s);
        todo := todo - {m};
        written := written + more;
      }
      assert clients[a] - todo == clients[a];
    }

    /** The inter-interface part; `flags` are the types done. */
    method ModifyForPeers(a: Lan) returns (ghost written: set<Key>)
      requires Inv() && a in up
      modifies `live, `alt
      ensures Inv() && live == old(live) && Rewritten(owner, old(alt), alt, written, mcc)
      ensures written == if a.wlan then RtOfSlots(book.Keys, a, SlotsOf(a, PeersIn(peers, a))) else {}
    {
      hide Coherent, Balanced, Complete, SlotsOf, RtOfAll, Rewritten;
      ghost var all := PeersOf(a);
      var todo := PeersOf(a);
      var flags: set<Slot> := {};
      written := {};
      RewrittenNone(owner, alt, mcc);
      assert all - todo == {};
      SlotsOfStep(a, {}, a);
      while todo != {}
        invariant Inv() && live == old(live) && todo <= all && flags == SlotsOf(a, all - todo)
        invariant Rewritten(owner, old(alt), alt, written, mcc)
        invariant written == if a.wlan then RtOfSlots(book.Keys, a, flags) else {}
        decreases todo
      {
        var b :| b in todo;
        SlotsOfStep(a, all - todo, b);
        assert all - (todo - {b}) == (all - todo) + {b};
        if SlotOf(a, b) !in flags {
          EntryCtxBooked(Shape(), book.Keys, a, b);
          ghost var alt0 := alt;
          ghost var more := ModifyClients(a, SlotOf(a, b));
          RewrittenChain(owner, old(alt), alt0, alt, written, more, mcc);
          RtOfOneMore(book.Keys, a, flags, SlotOf(a, b));
          written := written + more;
        }
        flags := flags + {SlotOf(a, b)};
        todo := todo - {b};
      }
      assert all - todo == all;
    }

    /** handle_wlan_scc_mcc_switch of both classes: exactly the routing rules of a WLAN interface are written anew.
        They name the mode's pipe then, and what they say apart from it stays. */
    method HandleWlanSccMccSwitch(a: Lan) returns (ghost written: set<Key>)
      requires Valid()
      modifies `live, `alt, `lagging
      ensures Valid() && live == old(live) && lagging == old(lagging) - {a}
      ensures written == if a.wlan then set k | k in book && k.RtK? && k.a == a else {}
      ensures Rewritten(owner, old(alt), alt, written, mcc)
      ensures forall h :: h in live && live[h].Rt? && live[h].pipe == a ==> h in alt && alt[h] == (a.wlan && mcc)
    {
      hide Coherent, Balanced, Complete, SlotsOf, CachedOk, Rewritten;
      written := {};
      PipesNow();
      RtOfAllSlots(Shape(), book.Keys, a);
      RewrittenNone(owner, alt, mcc);
      if a in up {
        ghost var inter, own: set<Key> := {}, {};
        if a.Inter() { inter := ModifyForPeers(a); }
        ghost var alt0 := alt;
        RewrittenNone(owner, alt, mcc);
        if a.wlan {
          OwnCtxBooked(Shape(), book.Keys, a);
          own := ModifyClients(a, Own);
        }
        RewrittenChain(owner, old(alt), alt0, alt, inter, own, mcc);
        written := inter + own;
      }
      CatchUp(a, old(alt), written);
    }

    lemma PipesNow()
      requires Coherent()
      ensures PipesOk(live, alt, mcc, lagging)
    {
    }

    /** The bookkeeping after a's rules have all been rewritten. */
    ghost method CatchUp(a: Lan, alt0: map<Hdl, bool>, written: set<Key>)
      requires Coherent() && PipesOk(live, alt0, mcc, lagging) && Rewritten(owner, alt0, alt, written, mcc)
      requires written == if a.wlan then set k | k in book && k.RtK? && k.a == a else {}
      modifies `lagging
      ensures Coherent() && lagging == old(lagging) - {a}
      ensures forall h :: h in live && live[h].Rt? && live[h].pipe == a ==> h in alt && alt[h] == (a.wlan && mcc)
    {
      hide HwOk, PipesOk, CtxRecorded, RtRecorded, FltRecorded, TablesOk, Rewritten;
      SwitchedPipes(live, book, owner, nextHdl, alt0, alt, mcc, lagging, a, written);
      lagging := lagging - {a};
      NamesMode(live, alt, mcc, lagging, a);
    }

    /** The flag has changed. No rule is touched before the switch events that follow. */
    method HandleMode(mcc: bool)
      requires Valid()
      modifies `mcc, `lagging
      ensures Valid() && this.mcc == mcc
      ensures lagging == old(lagging) + if mcc == old(this.mcc) then {} else set a | a in up && a.wlan
    {
      hide HwOk, PipesOk, CtxRecorded, RtRecorded, FltRecorded, TablesOk, Balanced, Complete, CachedOk;
      if mcc != this.mcc {
        RtOfRegistered(Shape(), live, book, owner, nextHdl);
        ModeLags(live, alt, this.mcc, lagging, mcc, set a | a in up && a.wlan);
        lagging := lagging + set a | a in up && a.wlan;
        this.mcc := mcc;
      }
    }

    /** The bookkeeping after a has gone, and its rules with it. */
    ghost method ForgetLag(a: Lan)
      requires Valid() && a !in up
      modifies `lagging
      ensures Valid() && lagging == old(lagging) - {a}
    {
      hide HwOk, PipesOk, CtxRecorded, RtRecorded, FltRecorded, TablesOk, Balanced, Complete, CachedOk;
      RtOfRegistered(Shape(), live, book, owner, nextHdl);
      LagsNoMore(live, alt, mcc, lagging, a);
      lagging := lagging - {a};
    }

    ghost function CurrentModes(): Modes
      reads `mcc, `lagging
    {
      Modes(mcc, lagging)
    }

    /** event_callback, and the change of mode that IPACM_Main makes */
    method EventCallback(e: Event)
      requires Valid()
      modifies this
      ensures Valid() && Config() == Step(old(Config()), e)
      ensures CurrentModes() == ModeStep(old(Config()), old(CurrentModes()), e)
    {
      hide Coherent, Balanced, Complete, CachedOk, Inv;
      match e
      case IfaceUp(a, ip) => HandleIfaceUp(a, ip);
      case IfaceDown(a) =>
        ghost var c := Config();
        HandleIfaceDown(a);
        assert Config().ifs.Keys == up.Keys by { RegisteredAre(); }
        ForgetLag(a);
      case ClientAdd(a, m) => HandleClientAdd(a, m);
      case ClientDel(a, m) => HandleClientDel(a, m);
      case Mode(mcc) =>
        RegisteredAre();
        HandleMode(mcc);
      case Switch(a) => ghost var written := HandleWlanSccMccSwitch(a);
    }

    lemma RegisteredAre()
      requires Valid()
      ensures Config().ifs.Keys == up.Keys
    {
      hide Coherent, Balanced, CachedOk;
      SameDomain(Shape());
    }

    /** Any sequence of events. */
    method HandleAll(es: seq<Event>)
      requires Valid()
      modifies this
      ensures Valid() && Config() == Run(old(Config()), es)
      ensures CurrentModes() == ModeRun(old(Config()), old(CurrentModes()), es)
    {
      hide Step, ModeStep, Valid, Config, CurrentModes;
      assert es[0..] == es;
      for i := 0 to |es|
        invariant Valid() && Run(Config(), es[i..]) == Run(old(Config()), es)
        invariant ModeRun(Config(), CurrentModes(), es[i..]) == ModeRun(old(Config()), old(CurrentModes()), es)
      {
        assert es[i..][1..] == es[i + 1..] && es[i..][0] == es[i];
        EventCallback(es[i]);
      }
      assert es[|es|..] == [];
    }
  }
}

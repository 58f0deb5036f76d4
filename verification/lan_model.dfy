/** Entities of the LAN-to-LAN offload controller, the declarative description of the hardware
    rules it should have installed, and the controller seen as an abstract machine on
    configurations only (no handles, no reference counts). */
module LanModel {

  datatype Mac = Mac(octets: seq<int>)
  type Hdl = nat

  const MAX_NUM_CACHED_CLIENT_ADD_EVENT := 10
  const MAX_NUM_IFACE := 10
  const MAX_NUM_CLIENT := 16

  datatype L2 = L2None | EthII | Eth8023 | L2Max
  datatype Ip = V4 | V6

  /** A pair of fields indexed by IP family. */
  datatype PerIp<T> = PerIp(v4: T, v6: T) {
    function Get(ip: Ip): T { if ip.V4? then v4 else v6 }
    function Set(ip: Ip, x: T): PerIp<T> { if ip.V4? then this.(v4 := x) else this.(v6 := x) }
  }

  /** The IPACM_Lan object behind an interface: its identity and the properties the controller reads. */
  datatype Lan = Lan(id: nat, l2: L2, wlan: bool, guestAp: bool, hasTx: bool, hasRx: bool, rtCount: PerIp<nat>) {
    /** m_support_inter_iface_offload; m_support_intra_iface_offload is `wlan`. */
    predicate Inter() { !(wlan && guestAp) }
    predicate Usable() { hasTx && hasRx && l2 != L2None && l2 != L2Max }
  }

  /** A header context or a group of routing rules serves either the interface's own clients
      or all peers of one L2 type. */
  datatype Slot = Own | Ty(t: L2)

  datatype Table = InterTbl(ip: Ip, from: L2, to: L2) | IntraTbl(ip: Ip)

  /** What the hardware holds under a handle. */
  datatype Rule =
    | Ctx(pipe: Lan, peer: L2, own: L2)
    | Rt(pipe: Lan, ip: Ip, table: Table, mac: Mac, ctx: Hdl, l2: L2, index: nat)
    | Flt(pipe: Lan, ip: Ip, mac: Mac, table: Table)

  /** What a rule is there for. */
  datatype Key =
    | CtxK(a: Lan, s: Slot)
    | RtK(a: Lan, m: Mac, s: Slot, ip: Ip, i: nat)
    | FltK(b: Lan, a: Lan, m: Mac, ip: Ip)

  function SlotOf(a: Lan, b: Lan): Slot { if a == b then Own else Ty(b.l2) }

  function SlotL2(a: Lan, s: Slot): L2 { match s case Own => a.l2 case Ty(t) => t }

  function RtTable(a: Lan, s: Slot, ip: Ip): Table {
    match s case Own => IntraTbl(ip) case Ty(t) => InterTbl(ip, t, a.l2)
  }

  /** Traffic entering on b for clients of a. */
  function FltTable(b: Lan, a: Lan, ip: Ip): Table {
    if b == a then IntraTbl(ip) else InterTbl(ip, b.l2, a.l2)
  }

  // ---------- The declarative configuration ----------

  /** One registered interface: which IP families have an address, and its clients. */
  datatype IfCfg = IfCfg(up: PerIp<bool>, macs: set<Mac>)

  /** The whole observable configuration: registered interfaces and cached client-add events. */
  datatype Cfg = Cfg(ifs: map<Lan, IfCfg>, cached: seq<(Lan, Mac)>)

  /** The interfaces whose clients b must be able to reach: other inter-offload interfaces,
      and b itself for intra-interface traffic on WLAN. */
  function Linked(regs: set<Lan>, b: Lan): set<Lan> {
    set a | a in regs && (if a == b then b.wlan else a.Inter() && b.Inter())
  }

  function PeersOfType(peers: set<Lan>, self: Lan, t: L2): set<Lan> {
    set b | b in peers && b != self && b.l2 == t
  }

  ghost predicate CtxWanted(regs: set<Lan>, a: Lan, s: Slot) {
    a in regs && match s
                 case Own => a.wlan
                 case Ty(t) => exists b :: b in Linked(regs, a) && b != a && b.l2 == t
  }

  /** The rule k should be installed when exactly the interfaces `ifs` are registered. */
  ghost predicate Wanted(ifs: map<Lan, IfCfg>, k: Key) {
    match k
    case CtxK(a, s) => CtxWanted(ifs.Keys, a, s)
    case RtK(a, m, s, ip, i) => CtxWanted(ifs.Keys, a, s) && m in ifs[a].macs && i < a.rtCount.Get(ip)
    case FltK(b, a, m, ip) => b in ifs && a in Linked(ifs.Keys, b) && m in ifs[a].macs && ifs[b].up.Get(ip)
  }

  /** What the hardware must hold for k, given the handles already in the book. */
  ghost function Content(k: Key, book: map<Key, Hdl>): Rule
    requires DepOk(k, book.Keys)
  {
    match k
    case CtxK(a, s) => Ctx(a, SlotL2(a, s), a.l2)
    case RtK(a, m, s, ip, i) => Rt(a, ip, RtTable(a, s, ip), m, book[CtxK(a, s)], SlotL2(a, s), i)
    case FltK(b, a, m, ip) => Flt(b, ip, m, FltTable(b, a, ip))
  }

  /** A routing rule needs its header context. */
  ghost predicate DepOk(k: Key, keys: set<Key>) {
    k.RtK? ==> CtxK(k.a, k.s) in keys
  }

  /** The hardware holds exactly the booked rules: `book` and `owner` are inverse bijections between
      keys and live handles, every handle holds its key's content, and no routing rule names a dead context. */
  ghost predicate HwOk(live: map<Hdl, Rule>, book: map<Key, Hdl>, owner: map<Hdl, Key>, next: Hdl) {
    && next > 0
    && owner.Keys == live.Keys
    && (forall h :: h in live ==> 0 < h < next)
    && (forall k :: k in book ==> book[k] in owner && owner[book[k]] == k)
    && (forall h :: h in owner ==> owner[h] in book && book[owner[h]] == h)
    && (forall k :: k in book ==> DepOk(k, book.Keys))
    && (forall k :: k in book ==> live[book[k]] == Content(k, book))
  }

  lemma InstallKeepsHw(live: map<Hdl, Rule>, book: map<Key, Hdl>, owner: map<Hdl, Key>, next: Hdl, k: Key, r: Rule)
    requires HwOk(live, book, owner, next)
    requires k !in book && DepOk(k, book.Keys) && r == Content(k, book)
    ensures HwOk(live[next := r], book[k := next], owner[next := k], next + 1)
  {
    var book', owner', live' := book[k := next], owner[next := k], live[next := r];
    assert next !in owner;
    forall k' | k' in book'
      ensures book'[k'] in owner' && owner'[book'[k']] == k'
      ensures DepOk(k', book'.Keys) && live'[book'[k']] == Content(k', book')
    {
      if k' != k {
        assert k' in book && book[k'] in owner && DepOk(k', book.Keys);
        assert live[book[k']] == Content(k', book);
      }
    }
  }

  lemma UninstallKeepsHw(live: map<Hdl, Rule>, book: map<Key, Hdl>, owner: map<Hdl, Key>, next: Hdl, h: Hdl)
    requires HwOk(live, book, owner, next)
    requires h in live && forall h' :: h' in live && live[h'].Rt? ==> live[h'].ctx != h
    ensures HwOk(live - {h}, book - {owner[h]}, owner - {h}, next)
  {
    var book', owner', live' := book - {owner[h]}, owner - {h}, live - {h};
    forall k' | k' in book'
      ensures book'[k'] in owner' && owner'[book'[k']] == k'
      ensures DepOk(k', book'.Keys) && live'[book'[k']] == Content(k', book')
    {
      assert k' in book && book[k'] in owner && DepOk(k', book.Keys);
      assert live[book[k']] == Content(k', book);
    }
  }

  // ---------- Shapes: the controller's records without their handles ----------

  /** Per interface: assigned families and clients; per interface and L2 type: the reference count;
      per interface and peer (itself, for intra-interface traffic): the clients in its filter list. */
  datatype Shape = Shape(up: map<Lan, PerIp<bool>>, macs: map<Lan, set<Mac>>,
                         cnt: map<(Lan, L2), int>, flt: map<(Lan, Lan), set<Mac>>)
  {
    function Cnt(a: Lan, t: L2): int { if (a, t) in cnt then cnt[(a, t)] else 0 }

    function Peers(a: Lan): (r: set<Lan>)
      ensures forall b :: b in r <==> (a, b) in flt
    {
      set p | p in flt && p.0 == a :: p.1
    }
  }

  ghost predicate CtxDue(S: Shape, a: Lan, s: Slot) {
    match s
    case Own => (a, a) in S.flt
    case Ty(t) => PeersOfType(S.Peers(a), a, t) != {}
  }

  /** The rule k is accounted for by the peer lists, client lists and filter lists in S. */
  ghost predicate Due(S: Shape, k: Key) {
    match k
    case CtxK(a, s) => CtxDue(S, a, s)
    case RtK(a, m, s, ip, i) => CtxDue(S, a, s) && a in S.macs && m in S.macs[a] && i < a.rtCount.Get(ip)
    case FltK(b, a, m, ip) => b in S.up && (b, a) in S.flt && m in S.flt[(b, a)] && S.up[b].Get(ip)
  }

  /** Reference counts count peers. */
  ghost predicate Counted(S: Shape) {
    forall a, t :: a in S.up ==> S.Cnt(a, t) == |PeersOfType(S.Peers(a), a, t)|
  }

  /** Reference counts count peers, and exactly the due rules are installed. */
  ghost predicate Balanced(S: Shape, keys: set<Key>) {
    Counted(S) && forall k :: k in keys <==> Due(S, k)
  }

  /** Exactly the pairs that must be linked are peers, in both directions. */
  ghost predicate LinksOk(S: Shape) {
    forall b, a :: (b, a) in S.flt <==> b in S.up && a in Linked(S.up.Keys, b)
  }

  /** Every filter list names exactly the peer's clients. */
  ghost predicate ListsOk(S: Shape) {
    forall p :: p in S.flt ==> p.1 in S.macs && S.flt[p] == S.macs[p.1]
  }

  ghost predicate LimitsOk(S: Shape) {
    && S.macs.Keys == S.up.Keys
    && (forall a :: a in S.up ==> a.Usable() && (S.up[a].v4 || S.up[a].v6))
    && |S.up| <= MAX_NUM_IFACE
    && (forall a :: a in S.macs ==> |S.macs[a]| <= MAX_NUM_CLIENT)
  }

  ghost predicate Complete(S: Shape) {
    LinksOk(S) && ListsOk(S) && LimitsOk(S)
  }

  function CfgOf(S: Shape): map<Lan, IfCfg> {
    map a | a in S.up && a in S.macs :: IfCfg(S.up[a], S.macs[a])
  }

  /** The bridge from the incremental bookkeeping to the declarative description: in a complete,
      balanced state the installed rules are exactly the wanted ones, and every reference count
      is the number of other inter-offload interfaces of that type. */
  lemma BalancedIsWanted(S: Shape, keys: set<Key>)
    requires Balanced(S, keys) && Complete(S)
    ensures forall k :: k in keys <==> Wanted(CfgOf(S), k)
    ensures forall a, t :: a in S.up ==> S.Cnt(a, t) == |PeersOfType(Linked(S.up.Keys, a), a, t)|
  {
    var ifs := CfgOf(S);
    assert ifs.Keys == S.up.Keys;
    PeersAreLinked(S);
    forall a, s ensures CtxDue(S, a, s) <==> CtxWanted(ifs.Keys, a, s) {
      DueIsWanted(S, a, s);
    }
    hide CtxDue, CtxWanted, Linked, PeersOfType;
    forall k ensures k in keys <==> Wanted(ifs, k) {
      assert k in keys <==> Due(S, k);
    }
  }

  lemma PeersAreLinked(S: Shape)
    requires LinksOk(S)
    ensures forall a :: a in S.up ==> S.Peers(a) == Linked(S.up.Keys, a)
  {
    forall a | a in S.up ensures S.Peers(a) == Linked(S.up.Keys, a) {}
  }

  lemma DueIsWanted(S: Shape, a: Lan, s: Slot)
    requires Complete(S)
    ensures CtxDue(S, a, s) <==> CtxWanted(S.up.Keys, a, s)
  {
    PeersAreLinked(S);
    if a in S.up && s.Ty? {
      var P := PeersOfType(S.Peers(a), a, s.t);
      if P != {} { var b :| b in P; }
      if CtxWanted(S.up.Keys, a, s) {
        var b :| b in Linked(S.up.Keys, a) && b != a && b.l2 == s.t;
        assert b in P;
      }
    }
  }

  // ---------- Families of keys ----------

  function FltKeys(b: Lan, a: Lan, macs: set<Mac>, ips: set<Ip>): (r: set<Key>)
    ensures forall k :: k in r <==> k.FltK? && k.b == b && k.a == a && k.m in macs && k.ip in ips
  {
    set m, ip | m in macs && ip in ips :: FltK(b, a, m, ip)
  }

  function RtKeysIp(a: Lan, m: Mac, s: Slot, ip: Ip, n: nat): (r: set<Key>)
    ensures forall k :: k in r <==> k.RtK? && k.a == a && k.m == m && k.s == s && k.ip == ip && k.i < n
  {
    set i | 0 <= i < n :: RtK(a, m, s, ip, i)
  }

  function RtKeys(a: Lan, m: Mac, s: Slot): (r: set<Key>)
    ensures forall k :: k in r <==>
      k.RtK? && k.a == a && k.m == m && k.s == s && k.i < a.rtCount.Get(k.ip)
  {
    RtKeysIp(a, m, s, V4, a.rtCount.v4) + RtKeysIp(a, m, s, V6, a.rtCount.v6)
  }

  function RtKeysAll(a: Lan, macs: set<Mac>, s: Slot): (r: set<Key>)
    ensures forall k :: k in r <==>
      k.RtK? && k.a == a && k.m in macs && k.s == s && k.i < a.rtCount.Get(k.ip)
  {
    (set m, i | m in macs && 0 <= i < a.rtCount.v4 :: RtK(a, m, s, V4, i))
    + (set m, i | m in macs && 0 <= i < a.rtCount.v6 :: RtK(a, m, s, V6, i))
  }

  function FltOf(keys: set<Key>, b: Lan, a: Lan): set<Key> {
    set k | k in keys && k.FltK? && k.b == b && k.a == a
  }

  function RtOf(keys: set<Key>, a: Lan, m: Mac, s: Slot): set<Key> {
    set k | k in keys && k.RtK? && k.a == a && k.m == m && k.s == s
  }

  function RtOfAll(keys: set<Key>, a: Lan, s: Slot): set<Key> {
    set k | k in keys && k.RtK? && k.a == a && k.s == s
  }

  /** The filter rules on b for all clients of the interfaces `from`. */
  function FltKeysOn(macs: map<Lan, set<Mac>>, b: Lan, from: set<Lan>, ips: set<Ip>): (r: set<Key>)
    ensures forall k :: k in r <==>
      k.FltK? && k.b == b && k.a in from && k.a in macs && k.m in macs[k.a] && k.ip in ips
  {
    set a, m, ip | a in from && a in macs && m in macs[a] && ip in ips :: FltK(b, a, m, ip)
  }

  function UpSet(up: PerIp<bool>): (r: set<Ip>)
    ensures forall ip :: ip in r <==> up.Get(ip)
  {
    (if up.v4 then {V4} else {}) + (if up.v6 then {V6} else {})
  }

  // ---------- Changes of the filter lists ----------

  /** The other interfaces in a's peer list. */
  function PeersIn(flt: map<(Lan, Lan), set<Mac>>, a: Lan): (r: set<Lan>)
    ensures forall b :: b in r <==> (a, b) in flt && b != a
  {
    set p | p in flt && p.0 == a && p.1 != a :: p.1
  }

  /** Filling the filter lists of b for the interfaces `from` with all their clients. */
  function FltFilled(peers: map<(Lan, Lan), set<Mac>>, macs: map<Lan, set<Mac>>, b: Lan, from: set<Lan>)
    : map<(Lan, Lan), set<Mac>>
  {
    map p | p in peers :: if p.0 == b && p.1 in from && p.1 in macs then peers[p] + macs[p.1] else peers[p]
  }

  /** Empty peer entries between a and every interface in `done`, both ways. */
  function PeersLinked(peers: map<(Lan, Lan), set<Mac>>, a: Lan, done: set<Lan>): map<(Lan, Lan), set<Mac>> {
    map p | p in peers.Keys + (set b | b in done :: (a, b)) + (set b | b in done :: (b, a)) ::
      if p in peers then peers[p] else {}
  }

  /** Client m of a joins, or leaves, the filter lists of the interfaces `done`. */
  function ClientJoined(peers: map<(Lan, Lan), set<Mac>>, a: Lan, m: Mac, done: set<Lan>): map<(Lan, Lan), set<Mac>> {
    map p | p in peers :: if p.1 == a && p.0 in done then peers[p] + {m} else peers[p]
  }

  function ClientLeft(peers: map<(Lan, Lan), set<Mac>>, a: Lan, m: Mac, done: set<Lan>): map<(Lan, Lan), set<Mac>> {
    map p | p in peers :: if p.1 == a && p.0 in done then peers[p] - {m} else peers[p]
  }

  /** The rules for client m of a: routing rules in `slots`, filter rules on the interfaces `done`. */
  predicate ClientKey(a: Lan, m: Mac, slots: set<Slot>, done: set<Lan>, k: Key) {
    match k
    case CtxK(_, _) => false
    case RtK(a', m', s, _, _) => a' == a && m' == m && s in slots
    case FltK(b, a', m', _) => a' == a && m' == m && b in done
  }

  /** handle_client_add's effect on the client list: no duplicates, at most MAX_NUM_CLIENT. */
  function WithClient(macs: set<Mac>, m: Mac): set<Mac> {
    if m in macs || |macs| == MAX_NUM_CLIENT then macs else macs + {m}
  }

  function SlotsOf(a: Lan, from: set<Lan>): (r: set<Slot>) {
    set b | b in from :: SlotOf(a, b)
  }

  // ---------- The controller as a machine on configurations ----------

  datatype Event =
    | IfaceUp(a: Lan, ip: Ip)
    | IfaceDown(a: Lan)
    | ClientAdd(a: Lan, m: Mac)
    | ClientDel(a: Lan, m: Mac)
    | Mode(mcc: bool)
    | Switch(a: Lan)

  /** The clients of a after its cached client-add events, oldest last, have been handled. */
  function AddCached(macs: set<Mac>, cached: seq<(Lan, Mac)>, a: Lan): set<Mac>
    decreases |cached|
  {
    if cached == [] then macs
    else AddCached(if cached[0].0 == a then WithClient(macs, cached[0].1) else macs, cached[1..], a)
  }

  function Without(cached: seq<(Lan, Mac)>, a: Lan): seq<(Lan, Mac)> {
    if cached == [] then []
    else (if cached[0].0 == a then [] else [cached[0]]) + Without(cached[1..], a)
  }

  function Step(c: Cfg, e: Event): Cfg {
    match e
    case IfaceUp(a, ip) =>
      if a in c.ifs then
        Cfg(c.ifs[a := c.ifs[a].(up := c.ifs[a].up.Set(ip, true))], c.cached)
      else if |c.ifs| == MAX_NUM_IFACE || !a.Usable() then c
      else Cfg(c.ifs[a := IfCfg(PerIp(false, false).Set(ip, true), AddCached({}, c.cached, a))], Without(c.cached, a))
    case IfaceDown(a) =>
      if a in c.ifs then Cfg(c.ifs - {a}, c.cached) else Cfg(c.ifs, Without(c.cached, a))
    case ClientAdd(a, m) =>
      if a in c.ifs then Cfg(c.ifs[a := c.ifs[a].(macs := WithClient(c.ifs[a].macs, m))], c.cached)
      else if |c.cached| < MAX_NUM_CACHED_CLIENT_ADD_EVENT then Cfg(c.ifs, [(a, m)] + c.cached)
      else c
    case ClientDel(a, m) =>
      if a in c.ifs then Cfg(c.ifs[a := c.ifs[a].(macs := c.ifs[a].macs - {m})], c.cached) else c
    case Mode(_) => c
    case Switch(_) => c
  }

  /** The WLAN mode, and the interfaces whose routing rules may still name the pipe of another one. */
  datatype Modes = Modes(mcc: bool, lagging: set<Lan>)

  /** A change of mode reaches an interface's rules with its next switch event, or when it goes. */
  function ModeStep(c: Cfg, m: Modes, e: Event): Modes {
    match e
    case Mode(mcc) => if mcc == m.mcc then m else Modes(mcc, m.lagging + set a | a in c.ifs && a.wlan)
    case Switch(a) => m.(lagging := m.lagging - {a})
    case IfaceDown(a) => m.(lagging := m.lagging - {a})
    case _ => m
  }

  function ModeRun(c: Cfg, m: Modes, es: seq<Event>): Modes
    decreases |es|
  {
    if es == [] then m else ModeRun(Step(c, es[0]), ModeStep(c, m, es[0]), es[1..])
  }

  function Run(c: Cfg, es: seq<Event>): Cfg
    decreases |es|
  {
    if es == [] then c else Run(Step(c, es[0]), es[1..])
  }

  ghost predicate CachedOk(c: Cfg) {
    |c.cached| <= MAX_NUM_CACHED_CLIENT_ADD_EVENT && forall e :: e in c.cached ==> e.0 !in c.ifs
  }

  lemma CachedNone(macs: set<Mac>, a: Lan)
    ensures Without([], a) == [] && AddCached(macs, [], a) == macs
  {
  }

  lemma {:induction false} WithoutFacts(cached: seq<(Lan, Mac)>, a: Lan)
    ensures |Without(cached, a)| <= |cached|
    ensures forall e :: e in Without(cached, a) <==> e in cached && e.0 != a
  {
    if cached != [] {
      WithoutFacts(cached[1..], a);
      assert forall e :: e in cached <==> e == cached[0] || e in cached[1..];
    }
  }

  lemma {:induction false} WithoutSnoc(cached: seq<(Lan, Mac)>, e: (Lan, Mac), a: Lan)
    ensures Without(cached + [e], a) == Without(cached, a) + if e.0 == a then [] else [e]
  {
    if cached == [] {
      assert [] + [e] == [e];
      assert [e][1..] == [];
    } else {
      assert (cached + [e])[1..] == cached[1..] + [e];
      WithoutSnoc(cached[1..], e, a);
    }
  }

  lemma {:induction false} AddCachedSnoc(macs: set<Mac>, cached: seq<(Lan, Mac)>, e: (Lan, Mac), a: Lan)
    ensures AddCached(macs, cached + [e], a)
         == if e.0 == a then WithClient(AddCached(macs, cached, a), e.1) else AddCached(macs, cached, a)
    decreases |cached|
  {
    if cached == [] {
      assert [] + [e] == [e];
      assert [e][1..] == [];
    } else {
      assert (cached + [e])[1..] == cached[1..] + [e];
      AddCachedSnoc(if cached[0].0 == a then WithClient(macs, cached[0].1) else macs, cached[1..], e, a);
    }
  }

  /** One step of the loop that handles and erases a's cached events: `events` is the list before
      the loop, of which j are dealt with and i remain in front of the iterator. */
  lemma CachedStep(events: seq<(Lan, Mac)>, cached: seq<(Lan, Mac)>, i: nat, j: nat, a: Lan, macs: set<Mac>)
    requires j <= |events| && i < |cached| && cached[..i] == Without(events[..j], a) && cached[i..] == events[j..]
    ensures j < |events|
    ensures AddCached(macs, events[..j + 1], a)
         == if cached[i].0 == a then WithClient(AddCached(macs, events[..j], a), cached[i].1)
            else AddCached(macs, events[..j], a)
    ensures var (c, i') := if cached[i].0 == a then (cached[..i] + cached[i + 1..], i) else (cached, i + 1);
      c[..i'] == Without(events[..j + 1], a) && c[i'..] == events[j + 1..]
  {
    assert |cached[i..]| == |events[j..]|;
    var e := cached[i];
    assert cached[i..][0] == e && events[j..][0] == e && events[..j + 1] == events[..j] + [e];
    WithoutSnoc(events[..j], e, a);
    AddCachedSnoc(macs, events[..j], e, a);
    assert cached[i + 1..] == cached[i..][1..] == events[j..][1..] == events[j + 1..];
    if e.0 != a { assert cached[..i + 1] == cached[..i] + [e]; }
  }
}

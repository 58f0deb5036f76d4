# Offload, timer and event-delivery cores

A Dafny model, with proofs, of four stateful cores of this repository, each of which keeps an index or a
cache that has to agree with something simpler. `dafny verify dfyconfig.toml` checks all of it.

**LAN-to-LAN offload controller** (`lan_model`, `lan_proofs`, `lan_to_lan`, `lan_theorems`, `lan_hardware`). The controller installs
and removes filter rules, routing rules and header contexts one event at a time, sharing routing rules and contexts
per peer L2 type by reference count. The class `LanToLan` does this imperatively over a ghost map of live
hardware handles. `Wanted` says declaratively, from the registered interfaces, their clients and addresses alone,
which rules there should be. The main result is that after any run the live handles correspond one to one to the
wanted rules, so the hardware depends on the configuration and not on its history. `Step` is the controller as an
abstract machine on configurations; every handler is proved to move the configuration as `Step` says. `LanHardware`
says the same in the interfaces' own fields: which filter rules, routing rules and contexts are live, and who is registered.

**Timer service** (`heap_model`, `loc_heap`, `timers`, `timer_service`, `timer_proofs`, `timer_theorems`,
`timer_callbacks`, `timer_clients`, `timer_arming`, `timer_due_times`). The pointer heap, which moves data and not nodes, is proved against functions on trees, and
these against multisets. The expiration loop is proved over the pointer heap. The protocol between client threads, message thread, poll thread
and timer fd is a transition system whose steps are what one thread does between two points of interleaving. Proved
for every reachable state: no wakeup is lost, each started timer ends once, each delegate is deleted once and last,
locks live as long as they are shared, and nothing is used after it was freed but, under an exact condition, the client
of a timer that is expiring; and left alone the service comes to rest with every due timer called back. Nobody is
called back before the earliest due time asked for, nor after a stop of one's own.

**NAT connection cache** (`nat_model`, `nat_steps`, `nat_snapshots`, `nat_waiting`, `nat_app`, `nat_theorems`,
`sta_clients`, `nat_listener`, `nat_laws`). The cache array agrees with the hardware table, of which the driver may refuse any addition and fail any deletion. What it refused and
failed is logged, so that every contract says exactly which slots changed and how. `Conns` is the map of
connections the slots stand for. On top: WAN down and up, power save and back, a connection that opens and
closes, and a connection that waits for its interface. `NatLaws` states what each event, flush and client change does in
the fields of events, addresses and connections themselves.

**Event dispatcher and message queue** (`dispatch_model`, `dispatcher`, `linked_list`, `msg_q`, `msg_q_history`). Delivery to a
linked list from which listeners deregister while they are called: the exact condition under which no freed node is followed.
The doubly linked list refines a sequence, and the message queue keeps the history of every accepted message,
under any interleaving of its callers.

## Where the code does not do what its comments or purpose suggest

The model follows the code, and the difference is a lemma.

- A client add that finds the cache of ten full is lost (`LanTheorems.AddBeforeUp`), and a client deleted before its
  interface comes up is there afterwards (`LanTheorems.DelBeforeUp`); both give the exact condition.
- Two clients with the same MAC behind interfaces of one type get the same filter rule twice (`LanTheorems.FilterRuleUnique`).
- The Expire message pops its first timer without looking at the time, so a callback can come early
  (`TimerCallbacks.EarlyCallback`; `TimerCallbacks.WhoPopped` and `Timers.ExpireDone` say exactly when one does).
- `LocTimerDelegate::expire` copies the client pointer, stops the client and calls it back without holding the client's
  lock throughout. A client destroyed in between is used after it was freed, even if it had stopped its timer itself
  (`TimerCallbacks.NoUseAfterFree`, exact; `OwnStopIsNotEnough`). `TimerClients` says when a client can know that it is safe,
  and that it cannot otherwise. A client that in between stops the expiring timer and
  starts another one gets that one's callback at once (`WrongTimerEnded`; `WhoseCallback`, exact).
- An empty heap is meant to disarm the fd and remove it from the poll, but every caller of `updateSoonestTime` that can
  have emptied the heap passes NULL as the prior top, and that branch is not reached. Stopping the only timer leaves the fd
  armed, and so can an expiration (`TimerArming.StaleAfterStop`, `StaleAfterExpiry`; `StaleExactly` and
  `StaleSinceEmptied` say exactly when). The fd then wakes the poll thread without need, and its Expire message calls back
  whatever timer has been started by then, however early (`TimerArming.StaleCallsEarly`).
- `ranks` subtracts seconds in 32 bits and reverses the order beyond 2^31 seconds (`Timers.RanksWraps`).
- `LocHeap::remove` finds its argument by identity; the header speaks of rank. The pruning is harmless
  (`HeapModel.FoundIsMember`).
- `DeleteEntry` does not check its argument: the all-zero tuple matches a free slot and spoils the count.
- A client that leaves power save while there is no table loses its cached connections (`NatApp.ResetPwrSaveIf`), and
  `AddTable` installs connections of clients that are in power save.
- `AddTable` compares its address with that of the last table only, so connections made under an older address are
  installed under the new one after two bounces (`NatTheorems.TwoBounces`).
- `CheckSTAClient` looks at as many places of the list as there are clients. After any but the last client has left,
  another one's connections can be held back though it is there (`StaClients.ForgottenClient`, `DelKeepsPacked`).
  After such a hole a client can be listed twice, and one deletion leaves it listed (`StaClients.AddedTwiceStays`).
- A conntrack message without addresses can be put into the temp table as a waiting connection; its place counts as empty
  (`ConntrackListener.BlankWaits`, `BlankIsOverwritten`).
- `AddEntry` does not store the public address, `CacheEntry` does, and `CacheEntry` does not look at ALG ports.
- A TCP connection reported as destroyed while its state is still established is added, not deleted.
- A listener that leaves upon an event whose node is followed by another of its own makes delivery read freed
  memory (`DispatchModel.LeavingEarlyFollowsFreedNode`).

## Model

| member | source | states |
|---|---|---|
| `LanTheorems.InstalledIsDeclared` | data-ipa-cfg-mgr/ipacm/src/IPACM_LanToLan.cpp:147-299 | after any run of events the live handles are in one-to-one correspondence with the rules the current interfaces, clients and addresses call for, each with the right content, and every reference count is the number of peers of that type |
| `LanTheorems.EveryPathInstalled` | data-ipa-cfg-mgr/ipacm/src/IPACM_LanToLan.cpp:463-525 | for distinct inter-offload interfaces a and b, a client m of a and a family assigned on b: b's filter rule for m points to the very table that holds m's routing rules, and these use a's live header context for b's type |
| `LanHardware.IntraPathInstalled` | data-ipa-cfg-mgr/ipacm/src/IPACM_LanToLan.cpp:891-923 | between clients of one WLAN interface: its filter rule for each client points to the intra-interface table, which holds the client's routing rules, and these use the interface's own live context |
| `LanHardware.FiltersAre` | data-ipa-cfg-mgr/ipacm/src/IPACM_LanToLan.cpp:580-622 | the live filter rules are exactly: on each registered interface with the family, for each client of every other interface it exchanges traffic with (neither is a WLAN guest access point) one into the table of the two types, and on WLAN for each own client one into the intra-interface table |
| `LanHardware.ContextsAre` | data-ipa-cfg-mgr/ipacm/src/IPACM_LanToLan.cpp:1073-1094 | the live contexts are exactly those for the types of the interfaces one exchanges traffic with, and on WLAN for the own type |
| `LanHardware.RoutesAre` | data-ipa-cfg-mgr/ipacm/src/IPACM_LanToLan.cpp:463-525 | the live routing rules are exactly one for each client, property and type of a peer in the table from that type, and on WLAN one in the intra-interface table, each through the live context for that type |
| `LanHardware.EveryRouteHasContext` | data-ipa-cfg-mgr/ipacm/src/IPACM_LanToLan.cpp:667-715 | no routing rule is left without the context it names |
| `LanHardware.Registers` | data-ipa-cfg-mgr/ipacm/src/IPACM_LanToLan.cpp:172-192 | an interface is registered by an address event if and only if it has transmit and receive properties, one of the two Ethernet headers and there is room, and stays so until it goes down |
| `LanHardware.ClientsStay` | data-ipa-cfg-mgr/ipacm/src/IPACM_LanToLan.cpp:947-1071 | a registered interface's clients are those added while it had fewer than sixteen and not deleted since |
| `LanHardware.CachedStays` | data-ipa-cfg-mgr/ipacm/src/IPACM_LanToLan.cpp:301-417 | the clients cached for an unregistered interface are those added while there was room and not gone with it; deletions make no difference |
| `LanHardware.FamiliesSince` | data-ipa-cfg-mgr/ipacm/src/IPACM_LanToLan.cpp:147-262 | after any events a registered interface has exactly the families assigned since it last went down |
| `LanTheorems.FilterRuleUnique` | data-ipa-cfg-mgr/ipacm/src/IPACM_LanToLan.cpp:580-622 | b's filter rule for m is the only rule of its kind if and only if no other linked interface of a's type has a client with the same MAC |
| `LanTheorems.HistoryIndependent` | data-ipa-cfg-mgr/ipacm/src/IPACM_LanToLan.cpp:147-358 | two controllers with equal configurations, whatever their histories, hold the same rules up to a one-to-one renaming of handles |
| `LanTheorems.Departure` | data-ipa-cfg-mgr/ipacm/src/IPACM_LanToLan.cpp:235-262 | after an interface has left, the hardware is the old one restricted to exactly those rules that name neither it nor its clients and, if shared by a type, still serve another peer of it; their handles and contents are as before |
| `LanTheorems.DownSurvivors` | data-ipa-cfg-mgr/ipacm/src/IPACM_LanToLan.cpp:717-800 | what is still called for without the interface is what was called for and survives it in that sense |
| `LanTheorems.WithinRestricts` | data-ipa-cfg-mgr/ipacm/src/IPACM_LanToLan.cpp:717-800 | a teardown that only shrinks the book leaves each remaining handle with its contents |
| `LanTheorems.AddsCommuteWithUp` | data-ipa-cfg-mgr/ipacm/src/IPACM_LanToLan.cpp:376-396 | while the cache has room, any client adds may be delivered before or after their interface comes up, with the same resulting configuration and nothing left cached for it |
| `LanTheorems.AddBeforeUp` | data-ipa-cfg-mgr/ipacm/src/IPACM_LanToLan.cpp:301-333 | one client add commutes with the interface coming up if and only if the cache has room for it or holds it already |
| `LanTheorems.DelBeforeUp` | data-ipa-cfg-mgr/ipacm/src/IPACM_LanToLan.cpp:335-358 | a client deletion commutes with the interface coming up if and only if no add of that client is cached |
| `LanTheorems.DeleteBeforeUpIsLost` | data-ipa-cfg-mgr/ipacm/src/IPACM_LanToLan.cpp:335-358 | a concrete pair of orders: the deletion that comes before the interface is lost and the client stays |
| `LanTheorems.UpTakesCached` | data-ipa-cfg-mgr/ipacm/src/IPACM_LanToLan.cpp:376-396 | an interface that comes up gets exactly the clients cached for it and their events leave the cache |
| `LanTheorems.SameKeysSameRules` | data-ipa-cfg-mgr/ipacm/src/IPACM_LanToLan.cpp:147-358 | books with the same purposes describe the same hardware up to handles |
| `LanTheorems.SecondRule` | data-ipa-cfg-mgr/ipacm/src/IPACM_LanToLan.cpp:580-622 | a client with the same MAC behind another peer of the same type has the identical filter rule installed twice |
| `LanModel.BalancedIsWanted` | data-ipa-cfg-mgr/ipacm/src/IPACM_LanToLan.cpp:445-461 | reference counts that count peers, and rules booked as the counts say, amount to the declarative set of wanted rules |
| `LanModel.InstallKeepsHw` | data-ipa-cfg-mgr/ipacm/src/IPACM_LanToLan.cpp:1073-1084 | a fresh handle recorded under an unused purpose keeps handles and purposes in bijection |
| `LanModel.UninstallKeepsHw` | data-ipa-cfg-mgr/ipacm/src/IPACM_LanToLan.cpp:1086-1094 | removing a live handle that no routing rule depends on keeps the bijection |
| `LanModel.CachedStep` | data-ipa-cfg-mgr/ipacm/src/IPACM_LanToLan.cpp:376-417 | the loop over cached events, erasing as it goes, computes filtered cache and added clients |
| `LanProofs.LinkKeepsBalance` | data-ipa-cfg-mgr/ipacm/src/IPACM_LanToLan.cpp:264-299 | linking two interfaces in both directions keeps counts and rules balanced |
| `LanProofs.GainKeepsBalance` | data-ipa-cfg-mgr/ipacm/src/IPACM_LanToLan.cpp:925-945 | a new peer calls for a context and routing rules exactly if it is the first of its type |
| `LanProofs.LossKeepsBalance` | data-ipa-cfg-mgr/ipacm/src/IPACM_LanToLan.cpp:802-817 | losing a peer makes context and routing rules superfluous exactly if it was the last of its type |
| `LanProofs.UnlinkKeepsBalance` | data-ipa-cfg-mgr/ipacm/src/IPACM_LanToLan.cpp:717-800 | taking a departing interface off one peer, both sides at once, keeps the balance of what is left |
| `LanProofs.JoinKeepsBalance` | data-ipa-cfg-mgr/ipacm/src/IPACM_LanToLan.cpp:947-1011 | a new client with rules on its interface for each linked type and filter rules on each linked peer keeps the balance |
| `LanProofs.LeaveKeepsBalance` | data-ipa-cfg-mgr/ipacm/src/IPACM_LanToLan.cpp:1013-1071 | a leaving client's rules are exactly those to be removed |
| `LanProofs.FillKeepsBalance` | data-ipa-cfg-mgr/ipacm/src/IPACM_LanToLan.cpp:527-541 | filter rules for a family that is assigned keep the balance |
| `LanProofs.NewIfaceComplete` | data-ipa-cfg-mgr/ipacm/src/IPACM_LanToLan.cpp:181-230 | the peer relation stays symmetric, complete and within its limits when an interface is registered |
| `LanProofs.UnregisterKeepsComplete` | data-ipa-cfg-mgr/ipacm/src/IPACM_LanToLan.cpp:717-779 | when the departed interface and all entries for it are gone, the rest is complete: every pair that must be linked is, each filter list names the peer's clients, and the limits hold |
| `LanProofs.PeersAreMutual` | data-ipa-cfg-mgr/ipacm/src/IPACM_LanToLan.cpp:264-299 | the peer relation is symmetric and within the registered interfaces |
| `LanToLanController.LanToLan.constructor` | data-ipa-cfg-mgr/ipacm/src/IPACM_LanToLan.cpp:86-95 | starts with nothing registered, cached or installed |
| `LanToLanController.LanToLan.EventCallback` | data-ipa-cfg-mgr/ipacm/src/IPACM_LanToLan.cpp:103-145 | every event keeps the invariant and moves configuration and mode as the abstract steps say |
| `LanToLanController.LanToLan.HandleAll` | data-ipa-cfg-mgr/ipacm/src/IPACM_LanToLan.cpp:103-145 | any sequence of events leads to the configuration and mode of the abstract runs, with the invariant |
| `LanToLanController.LanToLan.HandleWlanSccMccSwitch` | data-ipa-cfg-mgr/ipacm/src/IPACM_LanToLan.cpp:819-889 | exactly the routing rules of a WLAN interface are rewritten and then name the mode's pipe; all else about them and every other rule stays |
| `LanToLanController.LanToLan.HandleMode` | data-ipa-cfg-mgr/ipacm/src/IPACM_Main.cpp:584-606 | a change of mode touches no rule |
| `LanTheorems.ModeReachesRules` | data-ipa-cfg-mgr/ipacm/src/IPACM_LanToLan.cpp:819-889 | after any events, each routing rule of an interface that every change of mode has reached names the pipe of the mode, the alternative one exactly on WLAN in MCC mode |
| `LanTheorems.LagsUntilReached` | data-ipa-cfg-mgr/ipacm/src/IPACM_LanToLan.cpp:360-374 | an interface lags behind the mode only if no switch event has reached it since it lagged at first or since a change |
| `LanToLanController.LanToLan.ModifyRtRule` | data-ipa-cfg-mgr/ipacm/src/IPACM_Lan.cpp:4029-4129 | a client's rules of a slot and family are rewritten with the mode's pipe through their recorded handles, of which there is one for each property |
| `LanProofs.RtOfAllSlots` | data-ipa-cfg-mgr/ipacm/src/IPACM_LanToLan.cpp:819-889 | the routing rules of an interface are those for its peers' types and its own |
| `LanToLanController.LanToLan.HandleIfaceUp` | data-ipa-cfg-mgr/ipacm/src/IPACM_LanToLan.cpp:147-233 | new interface, new family or refusal as the abstract step says; no rule is removed |
| `LanToLanController.LanToLan.HandleIfaceDown` | data-ipa-cfg-mgr/ipacm/src/IPACM_LanToLan.cpp:235-262 | the interface and all that concerns it goes, or its cached events; no rule is added or changed |
| `LanToLanController.LanToLan.HandleClientAdd` | data-ipa-cfg-mgr/ipacm/src/IPACM_LanToLan.cpp:301-333 | client registered within the limits or cached; no rule is removed |
| `LanToLanController.LanToLan.HandleClientDel` | data-ipa-cfg-mgr/ipacm/src/IPACM_LanToLan.cpp:335-358 | client forgotten with its rules; no rule is added or changed |
| `LanToLanController.LanToLan.HandleCachedClientAddEvent` | data-ipa-cfg-mgr/ipacm/src/IPACM_LanToLan.cpp:376-396 | the clients cached for the new interface are added in cache order and leave the cache |
| `LanToLanController.LanToLan.ClearCachedClientAddEvent` | data-ipa-cfg-mgr/ipacm/src/IPACM_LanToLan.cpp:398-417 | exactly the events of that interface leave the cache |
| `LanToLanController.LanToLan.HandleNewIfaceUp` | data-ipa-cfg-mgr/ipacm/src/IPACM_LanToLan.cpp:264-299 | both interfaces become each other's peer, each with the table names of both directions |
| `LanToLanController.LanToLan.IfaceHandleNewIfaceUp` | data-ipa-cfg-mgr/ipacm/src/IPACM_LanToLan.cpp:925-945 | the peer is recorded and counted, and the first of its type gets the header context |
| `LanToLanController.LanToLan.AddClientRtRuleForNewIface` | data-ipa-cfg-mgr/ipacm/src/IPACM_LanToLan.cpp:445-461 | all clients get routing rules for a type whose count has just become one, and none otherwise |
| `LanToLanController.LanToLan.AddClientRtRule` | data-ipa-cfg-mgr/ipacm/src/IPACM_LanToLan.cpp:463-525 | the client's routing rules for a peer's type, one per property and family |
| `LanToLanController.LanToLan.AddAllInterInterfaceClientFltRule` | data-ipa-cfg-mgr/ipacm/src/IPACM_LanToLan.cpp:527-541 | a filter rule of the family for every client of every peer |
| `LanToLanController.LanToLan.AddOneClientFltRule` | data-ipa-cfg-mgr/ipacm/src/IPACM_LanToLan.cpp:556-578 | filter rules for one client of one peer in each assigned family |
| `LanToLanController.LanToLan.AddClientFltRule` | data-ipa-cfg-mgr/ipacm/src/IPACM_LanToLan.cpp:580-622 | one filter rule and the list entry that records its handle |
| `LanToLanController.LanToLan.DelClientFltRule` | data-ipa-cfg-mgr/ipacm/src/IPACM_LanToLan.cpp:640-665 | the client's filter rules and list entry go |
| `LanToLanController.LanToLan.DelClientRtRule` | data-ipa-cfg-mgr/ipacm/src/IPACM_LanToLan.cpp:667-715 | the client's routing rules for a type go in both families |
| `LanToLanController.LanToLan.HandleDownEvent` | data-ipa-cfg-mgr/ipacm/src/IPACM_LanToLan.cpp:717-779 | the departing interface is unlinked from every peer and loses its own rules and context |
| `LanToLanController.LanToLan.ClearAllFltRuleForOnePeerIface` | data-ipa-cfg-mgr/ipacm/src/IPACM_LanToLan.cpp:781-800 | all filter rules for one peer's clients go, nothing else |
| `LanToLanController.LanToLan.ClearAllRtRuleForOnePeerIface` | data-ipa-cfg-mgr/ipacm/src/IPACM_LanToLan.cpp:802-817 | the count is taken back and all routing rules for the type go exactly if it was the last peer of it |
| `LanToLanController.LanToLan.HandleIntraInterfaceInfo` | data-ipa-cfg-mgr/ipacm/src/IPACM_LanToLan.cpp:891-923 | the interface becomes its own peer with its own context |
| `LanToLanController.LanToLan.IfaceHandleClientAdd` | data-ipa-cfg-mgr/ipacm/src/IPACM_LanToLan.cpp:947-1011 | duplicate and surplus clients are refused, others get all their rules |
| `LanToLanController.LanToLan.IfaceHandleClientDel` | data-ipa-cfg-mgr/ipacm/src/IPACM_LanToLan.cpp:1013-1071 | all rules of the client go on its interface and on every peer |
| `LanToLanController.LanToLan.AddHdrProcCtx` | data-ipa-cfg-mgr/ipacm/src/IPACM_LanToLan.cpp:1073-1084 | a context is added exactly for a first peer of a type |
| `LanToLanController.LanToLan.DelHdrProcCtx` | data-ipa-cfg-mgr/ipacm/src/IPACM_LanToLan.cpp:1086-1094 | the context is deleted exactly after the last peer of a type |
| `HeapModel.CheckNodesIsHeap` | gps/utils/LocHeap.cpp:197-220 | checkNodes accepts exactly the trees in which no item outranks its parent and all sizes are exact |
| `HeapModel.PushAdds` | gps/utils/LocHeap.cpp:107-124 | push keeps the heap, adds exactly the item, and puts it on top exactly if it outranks the old top |
| `HeapModel.PopRemovesTop` | gps/utils/LocHeap.cpp:134-164 | pop takes out exactly the top item, also from subtrees whose top holds the item being sunk |
| `HeapModel.TopOutranksAll` | gps/utils/LocHeap.cpp:237-254 | no item outranks the top, so pop returns a highest-ranked one |
| `HeapModel.FoundIsMember` | gps/utils/LocHeap.cpp:170-193 | the pruned search meets x if and only if x is in the heap |
| `HeapModel.RemoveTakesOut` | gps/utils/LocHeap.cpp:256-267 | remove takes out just x, if there, and leaves a heap with corrected sizes |
| `HeapModel.PushOnlyIsBalanced` | gps/utils/LocHeap.cpp:107-124 | a heap of n pushes is left-heavy by at most one at every node and at most floor(log2 n) + 1 high |
| `HeapModel.PushNeverUnbalances` | gps/utils/LocHeap.cpp:107-124 | from any heap a push raises no node's imbalance above one or its old value |
| `HeapModel.LeftHeavyIsShallow` | gps/utils/LocHeap.cpp:107-124 | balance by one bounds the height by the logarithm of the size |
| `LocHeapImpl.LocHeapNode.Push` | gps/utils/LocHeap.cpp:107-124 | the pointer code builds the specified tree, moving data and not nodes |
| `LocHeapImpl.LocHeapNode.Pop` | gps/utils/LocHeap.cpp:134-164 | the pointer code sinks the item and unlinks its node; the tree is the specified one |
| `LocHeapImpl.LocHeapNode.Remove` | gps/utils/LocHeap.cpp:170-193 | the pointer code removes the node of x itself or nothing |
| `LocHeapImpl.LocHeap.Push` | gps/utils/LocHeap.cpp:228-235 | the heap's tree becomes the pushed tree |
| `LocHeapImpl.LocHeap.Peek` | gps/utils/LocHeap.cpp:237-243 | the top item, or none if the heap is empty |
| `LocHeapImpl.LocHeap.Pop` | gps/utils/LocHeap.cpp:245-254 | the top item and the popped tree, or none if empty |
| `LocHeapImpl.LocHeap.Remove` | gps/utils/LocHeap.cpp:256-267 | x if it is in the heap and none otherwise, with the tree after removal |
| `Timers.RanksIsTimeOrder` | gps/utils/LocTimer.cpp:503-517 | on normalised times ranks compares correctly if and only if the 32-bit difference of the seconds keeps its sign, as it does below 2^31 seconds, or vanishes and the nanoseconds happen to decide alike |
| `Timers.RanksWraps` | gps/utils/LocTimer.cpp:503-517 | a timer due 2^31 seconds later is ranked as earlier |
| `Timers.FutureTimeIsExact` | gps/utils/LocTimer.cpp:547-565 | for every 32-bit timeout the due time is exactly now plus the timeout, normalised, with no intermediate overflow |
| `Timers.PopIfOutRanks` | gps/utils/LocTimer.cpp:383-390 | pops the top exactly if it is not in the future |
| `Timers.ProcessExpire` | gps/utils/LocTimer.cpp:362-375 | timers come out in due order, the old top first, everything left is in the future, and nothing comes out early if and only if the top was due |
| `Timers.ExpireDone` | gps/utils/LocTimer.cpp:362-375 | the popped timers are all due if and only if the heap was empty or its top was due at entry |
| `TimerCallbacks.NoUseAfterFree` | gps/utils/LocTimer.cpp:520-545 | in every reachable state an enabled step of any thread is unsafe if and only if it is the stop() or the callback of an expire() whose client was destroyed after the pointer to it had been read |
| `TimerCallbacks.InHandSince` | gps/utils/LocTimer.cpp:520-532 | a client that expire() has in hand was read by the run's last such step and lives unless destroyed since |
| `TimerCallbacks.CarefulClientsAreSafe` | gps/utils/LocTimer.cpp:539-545 | if clients are destroyed only when every timer they started has called them back, nothing is ever used after it was freed |
| `TimerCallbacks.CalledBackIsFree` | gps/utils/LocTimer.cpp:520-532 | such a client is in no expire()'s hand |
| `TimerCallbacks.AccountedIffNonePending` | gps/utils/LocTimer.cpp:520-580 | by its starts, successful stops and callbacks a client knows exactly whether a callback to it is pending |
| `TimerClients.CalledSinceIsFree` | gps/utils/LocTimer.cpp:520-580 | a client that runs no timer, misses no callback and has been called back since its last own successful stop is in no expire()'s hand |
| `TimerClients.RunningLeavesDoubt` | gps/utils/LocTimer.cpp:520-532 | a client that runs a timer cannot rule that out: from every state in which none has a destroyed client in hand, clock and service alone lead to one that looks the same to the client and in which expire() has it in hand |
| `TimerClients.OwnStopLeavesDoubt` | gps/utils/LocTimer.cpp:520-545 | nor can it after its own successful stop: the two states look the same to it, and destroying itself in the second makes the next step of expire() unsafe |
| `TimerClients.ServiceKeepsView` | gps/utils/LocTimer.cpp:281-381 | no step of the service is visible to a client that is in no expire()'s hand |
| `TimerCallbacks.CallbackAfterDestroy` | gps/utils/LocTimer.cpp:526-530 | a reachable state in which the callback comes to a destroyed client |
| `TimerCallbacks.OwnStopIsNotEnough` | gps/utils/LocTimer.cpp:520-545 | a reachable state in which expire() stops a destroyed client although that had itself stopped its only timer |
| `TimerCallbacks.WhoseCallback` | gps/utils/LocTimer.cpp:520-532 | expire() ends the very timer that expired if and only if the client has not stopped that itself since the pointer was read; otherwise it ends one the client started instead |
| `TimerCallbacks.WrongTimerEnded` | gps/utils/LocTimer.cpp:520-532 | a reachable state in which a timer just started is ended, with its callback, in place of one that was stopped |
| `TimerCallbacks.WhoPopped` | gps/utils/LocTimer.cpp:355-381 | the timer about to be ended is early if and only if it was popped by taking an Expire message while the heap's top was not due |
| `TimerTheorems.AtMostOneCallback` | gps/utils/LocTimer.cpp:520-580 | each started timer is ended once at most, by expire or by the client's own stop, never both; callbacks made and pending are the ends by expire |
| `TimerTheorems.DeletedOnceAndLast` | gps/utils/LocTimer.cpp:328-350 | a delegate is deleted at most once, after it left the heap and with no message or pointer naming it |
| `TimerTheorems.LockCountsSharers` | gps/utils/LocSharedLock.h:42-57 | the lock's count is the living client plus its undeleted delegates, and zero exactly when none is left |
| `TimerTheorems.NoLostWakeup` | gps/utils/LocTimer.cpp:281-308 | with a timer in the heap the fd is polled and armed for the earliest one, or about to be armed for it, or an expiration is under way in the message thread, the queue or the poll thread |
| `TimerTheorems.NoEndlessRun` | gps/utils/LocTimer.cpp:355-381 | left alone by clients and clock, the service's threads cannot run for ever |
| `TimerTheorems.Settles` | gps/utils/LocTimer.cpp:446-470 | left alone the service comes to rest, unless an expire() has a destroyed client in hand |
| `TimerTheorems.AtRest` | gps/utils/LocTimer.cpp:281-308 | at rest every running timer is in the heap and in the future, every ended one deleted, and the fd armed for the top |
| `TimerTheorems.DueTimersFire` | gps/utils/LocTimer.cpp:355-381 | every due timer that is not stopped gets exactly one callback and is deleted, in every run of the service to rest |
| `TimerArming.StaleExactly` | gps/utils/LocTimer.cpp:281-308 | after any run that ends with an empty heap and an idle message thread, the fd is polled and armed if and only if the last arming has not been disarmed and an addPoll has not been followed by removePoll |
| `TimerArming.StaleSinceEmptied` | gps/utils/LocTimer.cpp:281-308 | equivalently, the step that emptied the heap last, a Remove or a pop alike, found the fd polled and armed, and the poll thread has not woken up to it since |
| `TimerArming.NeverArmed` | gps/utils/LocTimer.cpp:281-308 | a run in which the fd is never armed does not leave it stale |
| `TimerArming.EmptiedAt` | gps/utils/LocTimer.cpp:328-381 | from the step that emptied the heap on, only the poll thread touches the fd |
| `TimerArming.ArmedExactly` | gps/utils/LocTimer.cpp:281-308 | in every reachable state the fd is armed if and only if some arming has no disarming after it |
| `TimerArming.PolledExactly` | gps/utils/LocTimer.cpp:281-308 | in every reachable state the fd is polled if and only if some addPoll has no removePoll after it |
| `TimerArming.StaleCallsEarly` | gps/utils/LocTimer.cpp:355-381 | from every reachable state of rest with a stale fd, a timer started later, due at whatever time, is called back at once by a run of the service |
| `TimerArming.StaleAfterStop` | gps/utils/LocTimer.cpp:328-350 | a reachable stale state after a client stopped the only timer |
| `TimerArming.StaleAfterExpiry` | gps/utils/LocTimer.cpp:355-381 | a reachable stale state though no client stopped a timer and each was called back when due |
| `TimerCallbacks.EarlyCallback` | gps/utils/LocTimer.cpp:367-371 | a callback can come before its time: a run of eighteen steps |
| `TimerDueTimes.NothingBefore` | gps/utils/LocTimer.cpp:266-308 | whatever threads and clients do, before the earliest time that any timer was started for the poll thread is not woken, no Expire message exists and nobody is called back |
| `TimerDueTimes.StartedIsCalledBack` | gps/utils/LocTimer.cpp:547-565 | a timer that is started for some time and not stopped has been called back once when that time is past and the service has come to rest |
| `TimerDueTimes.StoppedIsNotCalled` | gps/utils/LocTimer.cpp:567-580 | a client that stops its running timer is never called back for it, in any run |
| `TimerDueTimes.PushArms` | gps/utils/LocTimer.cpp:310-326 | a Push message leads to the fd being armed, for the new timer, if and only if that is due before all others |
| `TimerDueTimes.RemoveArms` | gps/utils/LocTimer.cpp:328-350 | a Remove message leads to the fd being armed, for the next timer, if and only if the first of several was taken out; the delegate is deleted at once or right after that |
| `TimerDueTimes.ExpireTakes` | gps/utils/LocTimer.cpp:355-381 | an Expire message takes the earliest timer out, due or not |
| `TimerDueTimes.CheckTakesDue` | gps/utils/LocTimer.cpp:355-381 | the expiration goes on with the earliest timer if and only if one is due, and else ends |
| `TimerTheorems.SystemProgresses` | gps/utils/LocTimer.cpp:355-381 | every step of the service decreases a lexicographic measure |
| `TimerProofs.EveryStepKeepsInv` | gps/utils/LocTimer.cpp:281-381 | every step of clients, message thread, poll thread and clock keeps the invariant |
| `TimerProofs.EveryStepIsSafe` | gps/utils/LocTimer.cpp:475-580 | under the invariant an enabled step touches existing objects only, if and only if it is not a stop() or callback whose client in hand is destroyed |
| `TimerProofs.SoonestInv` | gps/utils/LocTimer.cpp:281-308 | updateSoonestTime(NULL) leaves the fd about to be armed for the top, or the heap empty |
| `TimerProofs.DeleteCore` | gps/utils/LocTimer.cpp:344-345 | the delegate to be deleted exists and is in no other place |
| `TimerProofs.TakeRemoveCore` | gps/utils/LocTimer.cpp:328-350 | a Remove message takes its delegate out of the heap and leaves it pending for deletion |
| `TimerProofs.RunsOneTimer` | gps/utils/LocTimer.cpp:547-580 | of a client's timers exactly the one it names still runs |
| `TimerProofs.LockHeld` | gps/utils/LocSharedLock.h:42-57 | an undeleted delegate keeps its lock alive |
| `NatModel.HardwareIsActive` | data-ipa-cfg-mgr/ipacm/src/IPACM_Conntrack_NATApp.cpp:296-398 | without leaks the hardware holds exactly the rules of the installed connections, one each |
| `NatModel.CountIsConns` | data-ipa-cfg-mgr/ipacm/src/IPACM_Conntrack_NATApp.cpp:374-375 | the number of used slots is the number of connections |
| `NatModel.HwEnable` | data-ipa-cfg-mgr/ipacm/src/IPACM_Conntrack_NATApp.cpp:352-364 | adding a rule under a fresh handle keeps cache and hardware in agreement |
| `NatModel.HwDisable` | data-ipa-cfg-mgr/ipacm/src/IPACM_Conntrack_NATApp.cpp:585-596 | deleting an entry's rule keeps the agreement |
| `NatModel.HwLeak` | data-ipa-cfg-mgr/ipacm/src/IPACM_Conntrack_NATApp.cpp:273-288 | forgetting an entry whose rule was not deleted leaks exactly that rule |
| `NatSteps.OkFill` | data-ipa-cfg-mgr/ipacm/src/IPACM_Conntrack_NATApp.cpp:324-375 | filling a free slot adds exactly that connection |
| `NatSteps.OkClear` | data-ipa-cfg-mgr/ipacm/src/IPACM_Conntrack_NATApp.cpp:286-288 | clearing a slot removes exactly that connection |
| `NatSteps.OkAllOff` | data-ipa-cfg-mgr/ipacm/src/IPACM_Conntrack_NATApp.cpp:191-202 | after the table is gone every connection is cached and none installed |
| `NatSteps.AddingRefused` | data-ipa-cfg-mgr/ipacm/src/IPACM_Conntrack_NATApp.cpp:150-177 | a refused rule empties its own slot and no other |
| `NatApplication.NatApp.constructor` | data-ipa-cfg-mgr/ipacm/src/IPACM_Conntrack_NATApp.cpp:36-109 | an empty cache of the configured size, nothing in power save, no table |
| `NatApplication.NatDriver.AddTable` | data-ipa-cfg-mgr/ipanat/src/ipa_nat_drv.c:43-64 | at most one table; a failure leaves the handle zero or untouched |
| `NatApplication.NatDriver.DeleteTable` | data-ipa-cfg-mgr/ipanat/src/ipa_nat_drv.c:74-84 | deleting the table deletes all its rules |
| `NatApplication.NatDriver.AddRule` | data-ipa-cfg-mgr/ipanat/src/ipa_nat_drv.c:96-116 | a rule gets an unused handle, or is refused |
| `NatApplication.NatDriver.DeleteRule` | data-ipa-cfg-mgr/ipanat/src/ipa_nat_drv.c:128-147 | a live rule is deleted, or nothing changes |
| `NatApplication.NatApp.AddTable` | data-ipa-cfg-mgr/ipacm/src/IPACM_Conntrack_NATApp.cpp:129-189 | a new table gets every cached connection if the address is the last table's, less those refused, which are forgotten; otherwise it stays empty |
| `NatApplication.NatApp.Reset` | data-ipa-cfg-mgr/ipacm/src/IPACM_Conntrack_NATApp.cpp:191-202 | no table, no address, nothing enabled |
| `NatApplication.NatApp.DeleteTable` | data-ipa-cfg-mgr/ipacm/src/IPACM_Conntrack_NATApp.cpp:204-228 | refused for another address or without a table; otherwise everything stays cached and nothing is installed |
| `NatApplication.NatApp.ChkForDup` | data-ipa-cfg-mgr/ipacm/src/IPACM_Conntrack_NATApp.cpp:231-251 | true exactly if a slot has the tuple |
| `NatApplication.NatApp.DeleteEntry` | data-ipa-cfg-mgr/ipacm/src/IPACM_Conntrack_NATApp.cpp:254-293 | the entry goes, with its rule unless the driver fails; the cache stays consistent if and only if the tuple is not the all-zero one of a free slot |
| `NatApplication.NatApp.AddEntry` | data-ipa-cfg-mgr/ipacm/src/IPACM_Conntrack_NATApp.cpp:296-398 | each refusal, and otherwise the first free slot filled, installed exactly if neither end is in power save; connections known and installed grow accordingly |
| `NatApplication.NatApp.CacheEntry` | data-ipa-cfg-mgr/ipacm/src/IPACM_Conntrack_NATApp.cpp:871-929 | complete, new connections fill the first free slot, not installed; all others change nothing |
| `NatApplication.NatApp.IsAlgPort` | data-ipa-cfg-mgr/ipacm/src/IPACM_Conntrack_NATApp.cpp:522-535 | true exactly for a configured protocol and port |
| `NatApplication.NatApp.IsPwrSaveIf` | data-ipa-cfg-mgr/ipacm/src/IPACM_Conntrack_NATApp.cpp:537-551 | true exactly for a nonzero recorded address |
| `NatApplication.NatApp.UpdatePwrSaveIf` | data-ipa-cfg-mgr/ipacm/src/IPACM_Conntrack_NATApp.cpp:553-600 | the client's rules go, save those the driver fails to delete; nothing happens if it is known already |
| `NatApplication.NatApp.ResetPwrSaveIf` | data-ipa-cfg-mgr/ipacm/src/IPACM_Conntrack_NATApp.cpp:602-659 | the client's parked connections are installed or, if refused, forgotten; all of them are when there is no table |
| `NatApplication.NatApp.AddTempEntry` | data-ipa-cfg-mgr/ipacm/src/IPACM_Conntrack_NATApp.cpp:671-719 | the first blank place gets the entry unless it uses an ALG port or is known |
| `NatApplication.NatApp.DeleteTempEntry` | data-ipa-cfg-mgr/ipacm/src/IPACM_Conntrack_NATApp.cpp:721-747 | the first matching place becomes empty |
| `NatApplication.NatApp.FlushTempEntries` | data-ipa-cfg-mgr/ipacm/src/IPACM_Conntrack_NATApp.cpp:749-788 | place by place: connections that do not concern the address stay; those to be added are offered to AddEntry, leave when it succeeds and wait on in the form offered when it fails, with its effect on cache and rules; the others leave |
| `NatApplication.NatApp.DelEntriesOnClntDiscon` | data-ipa-cfg-mgr/ipacm/src/IPACM_Conntrack_NATApp.cpp:790-835 | the client's rules go, its connections stay cached, and it is in power save no more |
| `NatApplication.NatApp.DelEntriesOnSTAClntDiscon` | data-ipa-cfg-mgr/ipacm/src/IPACM_Conntrack_NATApp.cpp:837-869 | the client's connections are forgotten with their rules, save those the driver fails to delete |
| `NatTheorems.CacheMirrorsHardware` | data-ipa-cfg-mgr/ipacm/src/IPACM_Conntrack_NATApp.cpp:129-398 | while no deletion has failed the hardware is exactly one rule per installed connection; the count is the number of connections and within bounds |
| `NatTheorems.AddingAll` | data-ipa-cfg-mgr/ipacm/src/IPACM_Conntrack_NATApp.cpp:146-184 | after restoring, a connection is cached if and only if it was and its rule was not refused, and all are installed |
| `NatTheorems.WanBounce` | data-ipa-cfg-mgr/ipacm/src/IPACM_Conntrack_NATApp.cpp:129-228 | WAN down, any conntrack traffic, WAN up with the same address: one rule for each known connection the driver accepts; with another address: none |
| `NatTheorems.TwoBounces` | data-ipa-cfg-mgr/ipacm/src/IPACM_Conntrack_NATApp.cpp:129-228 | connections cached under one address come back into the hardware under another one after a second bounce under that: then it holds one rule for each known connection the driver accepts |
| `NatTheorems.PowerSaveRoundTrip` | data-ipa-cfg-mgr/ipacm/src/IPACM_Conntrack_NATApp.cpp:553-659 | power save and back restores every slot up to its handle, and the hardware's rules, unless the driver refuses a rule |
| `NatWaiting.FlushInstalls` | data-ipa-cfg-mgr/ipacm/src/IPACM_Conntrack_NATApp.cpp:749-788 | with a table, room to the end and no refusal, a flush adds exactly the waiting connections that concern the address, belong to the public address, are complete and use no ALG port; installed are the new ones whose clients are awake |
| `NatWaiting.WaitingIsLikeLate` | data-ipa-cfg-mgr/ipacm/src/IPACM_Conntrack_NATApp.cpp:671-788 | a connection that waits and is flushed leads to the same known and installed connections as one that opens after the flush if and only if the temp table took it, or it cannot be added, or it is known anyway |
| `NatSnapshots.FlushSettles` | data-ipa-cfg-mgr/ipacm/src/IPACM_Conntrack_NATApp.cpp:749-788 | each waiting connection is looked at once, as it was before the flush, and what that look leaves is final: nothing, the form offered exactly when AddEntry fails, or the connection untouched |
| `NatSnapshots.FlushLeaves` | data-ipa-cfg-mgr/ipacm/src/IPACM_Conntrack_NATApp.cpp:749-788 | an offered connection that waits on had a reason: no table, an ALG port, cached already, the cache full, or refused by the driver |
| `NatSnapshots.FlushAway` | data-ipa-cfg-mgr/ipacm/src/IPACM_Conntrack_NATApp.cpp:749-788 | a flush for an address that is gone empties exactly the places that concern it and changes nothing else |
| `NatSnapshots.FlushKeepsTempOk` | data-ipa-cfg-mgr/ipacm/src/IPACM_Conntrack_NATApp.cpp:671-788 | a flush leaves only empty places and connections with an address and a public address |
| `NatSnapshots.TempRestored` | data-ipa-cfg-mgr/ipacm/src/IPACM_Conntrack_NATApp.cpp:671-747 | a new waiting connection comes and goes without a trace if and only if the first blank place is empty or there is none |
| `NatLaws.ClientConnects` | data-ipa-cfg-mgr/ipacm/src/IPACM_ConntrackListener.cpp:689-823 | a client behind the NAT connects (established TCP, new UDP): with the WAN up, a table and room its new connection is known, installed and its rule in the hardware, unless the driver refuses it |
| `NatLaws.ClientDisconnects` | data-ipa-cfg-mgr/ipacm/src/IPACM_ConntrackListener.cpp:824-850 | it disconnects (finished TCP, or destroyed and not established; destroyed UDP): the connection is neither known nor installed, and without leaks has no rule |
| `NatLaws.OthersAreIgnored` | data-ipa-cfg-mgr/ipacm/src/IPACM_ConntrackListener.cpp:793-858 | other protocols, and events of TCP and UDP that neither open nor close, change nothing |
| `NatLaws.RouteIs` | data-ipa-cfg-mgr/ipacm/src/IPACM_ConntrackListener.cpp:689-768 | by the addresses alone: unchanged behind the NAT or passed through, waiting at most for a STA client; from the public address and port on another interface outside STA mode; embedded from the public port; else waiting if an end is private; else ignored |
| `NatLaws.HandledTakes` | data-ipa-cfg-mgr/ipacm/src/IPACM_ConntrackListener.cpp:770-858 | which protocol, TCP state and kind of event adds, caches, queues or ends a connection, and that every other one changes nothing |
| `NatLaws.Hear` | data-ipa-cfg-mgr/ipacm/src/IPACM_ConntrackListener.cpp:1093-1127 | the two together, for any event through the listener, on known, installed and waiting connections and the hardware's rules |
| `NatLaws.AnswerInstalls` | data-ipa-cfg-mgr/ipacm/src/IPACM_Conntrack_NATApp.cpp:296-398 | adding a connection: known and installed with its rule, only known if an end sleeps, or nothing but the refusal logged, each under its condition on the five fields, the ALG ports, what is known, the room and the power-save list |
| `NatLaws.OpenCaches` | data-ipa-cfg-mgr/ipacm/src/IPACM_Conntrack_NATApp.cpp:871-929 | caching a connection without WAN: known with its public address, not installed, if it has all five fields, is new and there is room; ALG ports do not matter |
| `NatLaws.OpenQueues` | data-ipa-cfg-mgr/ipacm/src/IPACM_Conntrack_NATApp.cpp:671-719 | a connection that has to wait gets the first place without addresses unless it uses an ALG port, is known or waits already |
| `NatLaws.CloseEnds` | data-ipa-cfg-mgr/ipacm/src/IPACM_Conntrack_NATApp.cpp:254-293 | closing: exactly this connection is not known, installed or waiting any more, and exactly its rule is gone unless the driver failed to delete it |
| `NatLaws.SubnetIsOctets` | data-ipa-cfg-mgr/ipacm/src/IPACM_ConntrackListener.cpp:985-1019 | two addresses are in one subnet if and only if their first three octets are equal |
| `NatLaws.WaitsHeldBack` | data-ipa-cfg-mgr/ipacm/src/IPACM_ConntrackListener.cpp:985-1019 | a connection is held back if and only if its target lies in the first client's subnet and is not in the first places of the list |
| `NatLaws.InterfaceUp` | data-ipa-cfg-mgr/ipacm/src/IPACM_Conntrack_NATApp.cpp:749-788 | a flush for an address that is up, with a table, room to the end and no refusal: known afterwards is what was known and every waiting connection with that address as private or target one, the current public address, all fields and no ALG port; installed are the new ones whose ends are awake; places of other addresses stay |
| `NatLaws.InterfaceDown` | data-ipa-cfg-mgr/ipacm/src/IPACM_Conntrack_NATApp.cpp:749-788 | a flush for an address that is gone empties exactly the places with it as private or target address and changes nothing else |
| `NatLaws.FlushPlaces` | data-ipa-cfg-mgr/ipacm/src/IPACM_Conntrack_NATApp.cpp:749-788 | a flush empties the places of the address with another public address, and the others of it unless they keep their connection in the form offered |
| `NatLaws.TargetArrives` | data-ipa-cfg-mgr/ipacm/src/IPACM_ConntrackListener.cpp:1142-1176 | a STA-mode client arrives: the connections that waited for it as their target are known and, if new and awake, installed |
| `NatLaws.TargetLeaves` | data-ipa-cfg-mgr/ipacm/src/IPACM_Conntrack_NATApp.cpp:837-869 | a STA-mode client leaves: if the driver fails no deletion, exactly the connections with it as their target are forgotten, and without leaks no rule with that target is left |
| `NatLaws.ClientSleeps` | data-ipa-cfg-mgr/ipacm/src/IPACM_Conntrack_NATApp.cpp:553-600 | a client goes to power save: it is remembered if there is a place, its connections stay known, and if the driver fails no deletion exactly its own are installed no more and, without leaks, no rule of it is left; otherwise exactly the slots with a failed deletion stay enabled |
| `NatLaws.ClientLeaves` | data-ipa-cfg-mgr/ipacm/src/IPACM_Conntrack_NATApp.cpp:790-835 | a client leaves: the same, and it is in power save no more |
| `NatLaws.ClientWakes` | data-ipa-cfg-mgr/ipacm/src/IPACM_Conntrack_NATApp.cpp:602-659 | a client leaves power save: each of its connections is installed or was refused and forgotten, all others are as before |
| `ConntrackListener.Listener.AddIface` | data-ipa-cfg-mgr/ipacm/src/IPACM_ConntrackListener.cpp:689-768 | the passed-through client, else NAT interface, else outside STA mode non-NAT interface in dummy form, else waiting if in a private subnet, else ignored |
| `ConntrackListener.Listener.CheckSTAClient` | data-ipa-cfg-mgr/ipacm/src/IPACM_ConntrackListener.cpp:985-1019 | in STA mode a connection has to wait if its target is in the first client's subnet and not among the first places of the list, as many as counted |
| `ConntrackListener.Listener.HandleSTAClientAddEvt` | data-ipa-cfg-mgr/ipacm/src/IPACM_ConntrackListener.cpp:1142-1176 | the client takes the first empty place unless known or surplus, and its waiting connections are flushed to the cache |
| `ConntrackListener.Listener.HandleSTAClientDelEvt` | data-ipa-cfg-mgr/ipacm/src/IPACM_ConntrackListener.cpp:1178-1200 | the client's place, its waiting connections and its cached ones go, save those whose rule the driver fails to delete |
| `ConntrackListener.BlankWaits` | data-ipa-cfg-mgr/ipacm/src/IPACM_ConntrackListener.cpp:689-768 | a connection that has to wait lacks an address only if its message did, and the address 0 is private or passed through |
| `ConntrackListener.HandledTemp` | data-ipa-cfg-mgr/ipacm/src/IPACM_ConntrackListener.cpp:770-858 | an event leaves the temp table with proper entries if and only if it does not put a connection without addresses into it |
| `ConntrackListener.BlankIsOverwritten` | data-ipa-cfg-mgr/ipacm/src/IPACM_Conntrack_NATApp.cpp:671-719 | such a connection counts for nothing: the next one to wait takes its place |
| `StaClients.PackedHoldsStrangers` | data-ipa-cfg-mgr/ipacm/src/IPACM_ConntrackListener.cpp:985-1019 | as long as the clients fill the first places, exactly the strangers in the first client's subnet have to wait |
| `StaClients.ClientHeldBack` | data-ipa-cfg-mgr/ipacm/src/IPACM_ConntrackListener.cpp:985-1019 | a client's own connections have to wait if and only if it has no place among the first ones and is in the first one's subnet |
| `StaClients.AddKeepsPacked` | data-ipa-cfg-mgr/ipacm/src/IPACM_ConntrackListener.cpp:1142-1176 | clients that come keep the list filled from the front |
| `StaClients.DelKeepsPacked` | data-ipa-cfg-mgr/ipacm/src/IPACM_ConntrackListener.cpp:1178-1200 | a client that goes keeps it so if and only if it is the last one |
| `StaClients.ChangeKeepsPacked` | data-ipa-cfg-mgr/ipacm/src/IPACM_ConntrackListener.cpp:1142-1200 | a client that changes its address to one not in the list keeps it so |
| `StaClients.AddKeepsCounted` | data-ipa-cfg-mgr/ipacm/src/IPACM_ConntrackListener.cpp:1142-1176 | the count covers the clients and is exact unless the address 0 is added |
| `StaClients.AddPlaces` | data-ipa-cfg-mgr/ipacm/src/IPACM_ConntrackListener.cpp:1142-1176 | an add puts a client into one more place if and only if there is room and an empty place before all of its own |
| `StaClients.AddedTwiceStays` | data-ipa-cfg-mgr/ipacm/src/IPACM_ConntrackListener.cpp:1142-1200 | a client listed once that is added again and then deleted is still listed if and only if the list had room and a hole before it |
| `StaClients.PackedAddsOnce` | data-ipa-cfg-mgr/ipacm/src/IPACM_ConntrackListener.cpp:1142-1176 | in a list filled from the front nothing is listed twice |
| `StaClients.ForgottenClient` | data-ipa-cfg-mgr/ipacm/src/IPACM_ConntrackListener.cpp:985-1019 | three clients come and the second goes: the third one's connections have to wait |
| `ConntrackListener.Listener.AddOrDeleteNatEntry` | data-ipa-cfg-mgr/ipacm/src/IPACM_ConntrackListener.cpp:770-858 | established or new connections go through the right door and finished ones out, anything else changes nothing |
| `ConntrackListener.Listener.ProcessMsg` | data-ipa-cfg-mgr/ipacm/src/IPACM_ConntrackListener.cpp:1093-1127 | any event is routed, held back if its STA-mode target is unknown, and then handled in its final form; the temp table stays proper unless the connection has no addresses and gets a place in it |
| `ConntrackListener.Listener.OpenThenClose` | data-ipa-cfg-mgr/ipacm/src/IPACM_ConntrackListener.cpp:770-858 | a connection that opens and closes leaves cache, temp table and count as before, and the hardware if and only if the driver deleted the rule |
| `ConntrackListener.Listener.TriggerWanDown` | data-ipa-cfg-mgr/ipacm/src/IPACM_ConntrackListener.cpp:456-469 | the WAN counts as down whether or not the table could be deleted |
| `ConntrackListener.Listener.TriggerWanUp` | data-ipa-cfg-mgr/ipacm/src/IPACM_ConntrackListener.cpp:345-373 | address 0 is ignored; otherwise the WAN counts as up and the table is opened for the address |
| `ConntrackListener.Listener.WanFlap` | data-ipa-cfg-mgr/ipacm/src/IPACM_ConntrackListener.cpp:345-469 | the same as WanBounce through the listener: WAN down, any conntrack events as routed, WAN up |
| `ConntrackListener.DownStep` | data-ipa-cfg-mgr/ipacm/src/IPACM_ConntrackListener.cpp:796-853 | an event while there is no WAN caches or forgets its connection and leaves the hardware alone |
| `ConntrackListener.OpenCloseRestores` | data-ipa-cfg-mgr/ipacm/src/IPACM_Conntrack_NATApp.cpp:254-398 | the same on snapshots, whichever of the three tables took the connection |
| `ConntrackListener.OpenedGrows` | data-ipa-cfg-mgr/ipacm/src/IPACM_ConntrackListener.cpp:796-823 | in any case the connection was ignored, put in the first free slot or put in the temp table |
| `DispatchModel.DeliveryIsSafe` | data-ipa-cfg-mgr/ipacm/src/IPACM_EvtDispatcher.cpp:118-148 | delivery follows no freed node if and only if no leaver's node in its turn is followed by another of its own; then everyone has their turn in order |
| `DispatchModel.LastIsSafe` | data-ipa-cfg-mgr/ipacm/src/IPACM_IfaceManager.cpp:283-286 | leaving upon the event registered last is safe |
| `DispatchModel.OneLeaver` | data-ipa-cfg-mgr/ipacm/src/IPACM_EvtDispatcher.cpp:118-148 | with one leaver it is safe if and only if the node after its first node for the event belongs to another listener |
| `DispatchModel.LeavingEarlyFollowsFreedNode` | data-ipa-cfg-mgr/ipacm/src/IPACM_EvtDispatcher.cpp:118-148 | a list and an event for which delivery follows a freed node |
| `DispatchModel.EveryoneIsCalled` | data-ipa-cfg-mgr/ipacm/src/IPACM_EvtDispatcher.cpp:118-148 | whoever stays is called once per registration, whoever leaves exactly once if registered |
| `DispatchModel.DeliveryIs` | data-ipa-cfg-mgr/ipacm/src/IPACM_EvtDispatcher.cpp:118-148 | the same from any position on |
| `EvtDispatcher.Dispatcher.ProcessEvt` | data-ipa-cfg-mgr/ipacm/src/IPACM_EvtDispatcher.cpp:118-148 | the pointer loop does what delivery does; the list afterwards is the old one without the leavers that were called |
| `EvtDispatcher.Dispatcher.Registr` | data-ipa-cfg-mgr/ipacm/src/IPACM_EvtDispatcher.cpp:150-179 | the registration is appended |
| `EvtDispatcher.Dispatcher.Deregistr` | data-ipa-cfg-mgr/ipacm/src/IPACM_EvtDispatcher.cpp:182-214 | the pointer loop frees exactly the listener's nodes and keeps the others in order |
| `EvtDispatcher.KeepRegs` | data-ipa-cfg-mgr/ipacm/src/IPACM_EvtDispatcher.cpp:182-214 | taking nodes out of the list is taking registrations out of the sequence |
| `LinkedLists.LinkedList.Add` | gps/utils/linked_list.c:109-154 | appends at the head end; NULL data is refused |
| `LinkedLists.LinkedList.Remove` | gps/utils/linked_list.c:161-203 | takes the oldest element, or reports an empty list |
| `LinkedLists.LinkedList.Empty` | gps/utils/linked_list.c:210-222 | true exactly for the empty list |
| `LinkedLists.LinkedList.Flush` | gps/utils/linked_list.c:229-259 | empties the list and deallocates each element's data once, newest first |
| `LinkedLists.FreedNewestFirst` | gps/utils/linked_list.c:229-259 | of two parts of a list the newer one is deallocated before the older one |
| `LinkedLists.FreedOne` | gps/utils/linked_list.c:229-259 | an element's data is deallocated exactly if a function for it was given |
| `LinkedLists.LinkedList.Search` | gps/utils/linked_list.c:266-326 | finds the newest match and, if asked, takes it out, deallocating only data that was not handed out |
| `MsgQueue.MsgQ.Snd` | gps/utils/msg_q.c:184-220 | accepted exactly if the data is not NULL and the queue not unblocked |
| `MsgQueueHistory.Serve` | gps/utils/msg_q.c:184-335 | in any interleaving of any calls, sends and receives are let in exactly while no unblock has happened, a waiting receiver returns exactly when there is a message or an unblock, with a message exactly when there is one; what receivers got, in order, is what the queue counts as received, and what it accepted is what senders were told |
| `MsgQueueHistory.ServeInOrder` | gps/utils/msg_q.c:184-268 | a new queue that is not flushed hands out exactly the messages sent, oldest first, under any interleaving |
| `MsgQueueHistory.NobodyAfterUnblock` | gps/utils/msg_q.c:305-335 | after an unblock every send and every new receive fails |
| `MsgQueueHistory.OnlyWaitersAfterUnblock` | gps/utils/msg_q.c:227-335 | after an unblock at most those receivers return that were waiting then, and nothing more is accepted |
| `MsgQueue.MsgQ.RcvFinish` | gps/utils/msg_q.c:255-268 | receives the oldest accepted message that has no fate yet |
| `MsgQueue.MsgQ.Flush` | gps/utils/msg_q.c:275-298 | every queued message is dropped and, if it was to be, deallocated once |
| `MsgQueue.MsgQ.Unblock` | gps/utils/msg_q.c:305-335 | sets the flag for good |
| `MsgQueue.NothingLostOrDoubled` | gps/utils/msg_q.c:184-298 | each accepted message is received once, deallocated once, dropped because it came without a deallocation function, or still queued, and no two of these |
| `MsgQueue.FlushRest` | gps/utils/msg_q.c:275-298 | a flush changes nothing received and deallocates exactly the rest |

## Left out

- LanToLan: the interface objects, their peer lists and client lists are maps of one controller object indexed by interface, and lists are sets or maps where the code never depends on the order; aliasing of list nodes is not captured.
- LanToLan: an interface's name, L2 type, WLAN category and number of transmit properties are fixed attributes of the interface, the number of properties is within the size of the handle arrays, and a client is identified by its MAC.
- LanToLan: the ioctls behind the header, routing and filter calls succeed; the FEATURE_IPA_V3-less variant is not modelled.
- LanToLanController.LanToLan.HandleMode: IPACM_Main sets the flag from its own thread; in the model it changes between two events and not in the middle of one.
- LanTheorems.DeleteBeforeUpIsLost: a witness only; the exact condition is LanTheorems.DelBeforeUp.
- LocHeap: detaching data from a node that is freed afterwards, and the destructors, are not modelled; a node that has been popped is no longer part of the heap.
- Timer service: modelled as a transition system over values because its point is the interleaving of threads; the heap is the proved tree, and the classes LocTimer and LocTimerDelegate are records with a history.
- Timer service: one container of the two; a destructor's stop and its drop of the lock are one step, and so is what a callback does.
- Timer service: due times are totals of nanoseconds; Timers.RanksIsTimeOrder says when ranks orders them so.
- Timer service: LocTimerWrapper and the C interface, thread creation, epoll errors and failing timer fds.
- Timers.ProcessExpire: does not run the callbacks; these only send messages, which TimerService models.
- NatApp: handles of deleted rules may be used again; the driver's own tables (ipa_nat_drvi.c) appear as a map that may refuse and fail, with one table at most.
- NatApplication.NatDriver.AddTable: memory that a failure leaves mapped is not modelled.
- NatApplication.NatDriver.DeleteTable: a failure after the table's memory has been unmapped leaves the table as it was.
- NatApplication.NatDriver.AddRule: a rule that has been written to the shared table before posting it fails is taken as not installed.
- NatApplication.NatDriver.DeleteRule: a rule whose deletion command fails half-way is taken as installed.
- NatApp: UpdateUDPTimeStamp and its conntrack update, the timeouts read from /proc, GetTableHdl, and the singleton's creation.
- ConntrackListener: reading the tuple out of the conntrack object, the events that change the two lists of interface addresses, thread creation, and the CT_OPT code, which refers to functions that are not there.
- ConntrackListener.Listener.OpenThenClose: supposes that no event that changes the routing comes in between.
- EvtDispatcher: PostEvt and the command queue; a callback may deregister its listener, but callbacks that register new ones during delivery are not modelled.
- EvtDispatcher: a freed node is a node marked as freed, so that following one is a result and not undefined behaviour.
- LinkedList: invalid list handles and failing allocation; msg_q: the mutex and the condition variable, the wait being the gap between RcvStart and RcvFinish; msg_q_init, init2 and destroy.
- IPACM_Filtering, IPACM_Header, the bulk of IPACM_Lan and IPACM_Iface, configuration files and logging: input and output, or easy next to the above.

# Thread manager: verified model

This project models the publish/subscribe kernel that the thread manager package adds to RT-Thread, and
proves what its message paths, its start and stop protocols and its configuration tool promise.

The number of tasks, the registry table, the message contents, the number of senders and the interleaving
of all threads are arbitrary throughout. `dafny verify dfyconfig.toml` checks everything.

## What is modelled

* **Registry** (`RegistrySpec`, `RegistryIndex`, `Registry`, `QSort`, `Lists`). The ROM table is copied to
  an array of entries, sorted by (subscriber, publisher, msg_id); a second array holds pointers into the
  first, sorted by (publisher, msg_id, subscriber). A pointer is an index, so both arrays see one set of
  flags. `Registry.Registry` is the object with these arrays; its methods are the loops of the source:
  initialisation, toggles, queries, message dispatch by binary search or by linear scan, and event
  dispatch. `Delivered` says independently of either path what a dispatch owes: one copy to each task the
  table asks for, each firing callback once, nothing else; `Performs` says the same on the table's fields.
* **Message network** (`Network`, `FanOut`, `Quiescence`, `TaskNetwork`). One mailbox and one consumer per task. A
  dispatch is broken into the steps other threads can observe: take a message, examine one forward entry
  (perhaps sending a copy), call one entry, finish. Publications, toggles and refusals interleave freely
  with them. `TaskNetwork` gives every task its real mailbox, pool and wake-up, and shows that its runs are runs
  of `Network` in which the mailboxes decide what is refused.
* **Mailbox, blocks and wake-up** (`Mailbox`, `TaskControl`). One task's mailbox, slab, heap messages and
  notify event, with any number of senders stopped between any two kernel calls. `TaskControl.TaskControl`
  is the control block with its calls as the source writes them; `UninterruptedSend` connects the two.
* **Manager** (`Lifecycle`, `ManagerEvents`). The start handshake, the ready latch and the exit barrier,
  interleaved with the tasks; and the manager's own event loop on top of the registry's event dispatch.
* **Delayed events** (`DelayedSlots`, `SlotGaps`). The slot table and the event loop entries that point into it.
* **Configuration tool** (`ConfigIds`, `ConfigFile`). The task-id part of merging a new task into
  `thread_config.h`: a file is a list of lines, kept as matched groups where one of the tool's patterns
  matches and as text elsewhere.

RT-Thread's mailbox, memory pool, event and semaphore calls are atomic steps; a timeout or a failed
allocation is a free choice. `qsort` is known by its contract only: a sorted permutation, nothing about
equal elements (section 7.22.5.2 of ISO/IEC 9899:2011). Callbacks are identities that land in a trace.

Where the code and its description differ, the model follows the code:

* The tool's own description (`samples/thread_file_gen.py:507-514`) says that the manager and the mux
  number both go up by one. The code leaves the manager alone when the new macro already occurs anywhere in
  the file, and raises the mux number regardless. `ConfigIds.AnyIntegrations` gives the exact condition
  under which the numbering stays dense, `ConfigIds.PrefixIsSkipped` a whole family that breaks it and
  `ConfigIds.GapAfterPrefix` one file.
* The manager's events are documented as individual bits (`inc/thread_manager.h:27-31`), but the loop
  dispatches the received word as one id. `ManagerEvents.DispatchedAsSent` and
  `ManagerEvents.CoalescedEvents` say exactly which handlers survive, `ManagerEvents.TwoEventsTogether` shows
  two events that cancel each other out.
* When the pointer array cannot be allocated, dispatch still takes the indexed path and forwards nothing:
  `RegistrySpec.WithoutForwardIndex` and `Registry.Registry.DispatchMessage` state exactly which messages
  that affects, `RegistrySpec.CopyLostWithoutIndex` shows one.
* A delayed send claims its slot and pushes its entry in two steps, and a fired event runs its hook and
  releases its slot in two steps. The conservation results take each pair as one. `SlotGaps.SplitSendVerdict`
  and `SlotGaps.SplitFireVerdict` say, for any atomic operations that fall into the gap, exactly when everything
  those results rest on holds again afterwards: the slot must still belong to the request that opened the gap,
  which the second step could check under the mutex. Otherwise a cancel has reported success for an event that
  fired or may still fire (`SlotGaps.CancelAfterFire`, `SlotGaps.FiresAfterCancel`), and a later request may lose its
  slot (`SlotGaps.SplitFireBreaksBijection`).

## Model

| member | source | states |
|---|---|---|
| `RegistrySpec.OrdersAreTotal` | src/thread_msg.c:165-207 | both comparators are total preorders whose zero means an equal key |
| `RegistrySpec.OrdersAreLexicographic` | src/thread_msg.c:165-207 | on the fields, the orders are ascending (subscriber, publisher, msg_id) and (publisher, msg_id, subscriber), and the pair order is that of the first two |
| `RegistrySpec.ForwardRefinesPair` | src/thread_msg.c:177-207 | the pointer sort order refines the (publisher, msg_id) order the searches use, by subscriber within a pair |
| `QSort.QSort` | src/thread_msg.c:357 | sorted permutation for any total preorder; stability is not promised |
| `RegistryIndex.LowerDirect` | src/thread_msg.c:209-225 | on every sorted table, terminates in bounds at the number of rows below the key |
| `RegistryIndex.UpperDirect` | src/thread_msg.c:227-243 | on every sorted table, terminates in bounds at the number of rows not above the key |
| `RegistryIndex.LowerForward` | src/thread_msg.c:245-260 | the same through the pointers, for the pair order |
| `RegistryIndex.UpperForward` | src/thread_msg.c:262-277 | the same through the pointers, for the pair order |
| `RegistryIndex.EqualRangeDirect` | src/thread_msg.c:209-243 | the two searches bracket exactly the rows of the triple: the range is the filter of the table |
| `RegistryIndex.EqualRangeForward` | src/thread_msg.c:245-277 | the two searches bracket exactly the pointers to rows of the (publisher, msg_id) pair |
| `RegistryIndex.CopyAndSort` | src/thread_msg.c:345-358 | the RAM table is a permutation of ROM, flags included, sorted by triple |
| `RegistryIndex.CountCrossTask` | src/thread_msg.c:361-366 | the pointer count is the number of rows with subscriber != publisher |
| `RegistryIndex.BuildForward` | src/thread_msg.c:374-381 | the pointer array references exactly the rows with subscriber != publisher, once each, in forward order |
| `Registry.Registry.Init` | src/thread_msg.c:319-389 | for every table and every allocation outcome: which arrays exist; on the fields, the RAM table is the ROM entries in ascending order, and the pointers reference exactly those with subscriber != publisher, once each, in ascending order |
| `Registry.Registry.SetActive` | src/thread_msg.c:434-453 | on the fields, exactly the entries of the triple that name the callback, or all of the triple if none is given, get the flag; every other entry and field is unchanged; the index stays built; without a RAM table nothing happens |
| `Registry.Registry.IsActive` | src/thread_msg.c:455-483 | on the fields, true exactly when some entry of the triple names the callback, or any is there if none is given, and all such entries are active; false without a RAM table |
| `RegistrySpec.ReplayIsLastCall` | src/thread_msg.c:434-453 | after any toggles an entry's flag is the value of the last call that addressed it, or its ROM value |
| `RegistrySpec.SwitchSeenThroughPointers` | src/thread_msg.c:434-453 | a toggle made through the triple view is what the pointer view then reads |
| `RegistrySpec.SwitchKeepsBuilt` | src/thread_msg.c:434-453 | every toggle keeps both sorted views and their agreement |
| `RegistrySpec.DisabledIsSilent` | src/thread_msg.c:434-453 | after any toggles, switching off a triple or one callback of it removes exactly the addressed entries: every active entry with another callback still runs it, the task is owed a copy exactly if another of its entries is active, and no other task's copy is affected |
| `RegistrySpec.ScanDelivers` | src/thread_msg.c:282-314 | the linear scan does what a dispatch owes, for every table and message |
| `RegistrySpec.DeliveredPermutes` | src/thread_msg.c:357-358 | what a dispatch owes depends on the entries and their flags, not on how the table is arranged |
| `RegistrySpec.IndexedDelivers` | src/thread_msg.c:500-543 | the indexed path does what a dispatch owes, whichever arrangement of equal rows the sort produced |
| `RegistrySpec.DeliveredOnFields` | src/thread_msg.c:293-311 | on the fields of the table, how often each callback runs, which tasks get a copy, and what is reported, whenever what is owed is delivered |
| `RegistrySpec.IndexedRefinesLinear` | src/thread_msg.c:486-544 | the indexed trace is a reordering of the linear trace with every forward first, and reports the same verdict |
| `RegistrySpec.WithoutForwardIndex` | src/thread_msg.c:369-373 | without the pointer array the two paths agree exactly for the messages nobody is owed a copy of |
| `RegistrySpec.CopyLostWithoutIndex` | src/thread_msg.c:508-509 | one subscriber of another task's message: a copy with the array and by the scan, none without the array |
| `Registry.Registry.DispatchMessage` | src/thread_msg.c:486-544 | on the fields, each callback runs once for every active entry of (task, publisher, msg_id) that names it; a task's own message is copied once to each other registered task with an active entry, unless the index has no pointer array; the result says whether a callback ran; and what is owed is delivered exactly when the table is unindexed, the pointer array exists, or no copy is owed |
| `Registry.DispatchLinear` | src/thread_msg.c:282-314 | the loop over ROM with `forwarded[]` performs exactly the specified scan, with the callbacks and copies of the fields |
| `Registry.DispatchIndexed` | src/thread_msg.c:500-543 | the two ranges and `forwarded[]` perform exactly the specified indexed trace, with the callbacks and copies of the fields |
| `Registry.Registry.DispatchEvent` | src/thread_msg.c:546-578 | on the fields, runs the callback of the first active entry of (task, task, id) that has one, at most one, and returns whether there was one |
| `RegistrySpec.EventArrangements` | src/thread_msg.c:546-578 | RAM and ROM order handle the same events; they run the same callback for every sorted arrangement exactly when all firing entries name one callback |
| `Network.NoForwardingLoops` | src/thread_msg.c:293-304 | in every run, drops and toggles included, each queued message is the task's own or was asked for by a row of the registry, no task ever forwarded a message it did not publish, and a task holding a copy has nothing to forward |
| `Network.PublisherOrder` | src/thread_msg.c:150-159 | in every run, drops and toggles included, what t takes from p is a subsequence, in order, of the publications p's mailbox accepted |
| `Network.OwnMailIsPublished` | src/thread_msg.c:581-591 | in every run, p's own messages in its mailbox's history are exactly its accepted publications, in order |
| `Network.FlagsFollowToggles` | src/thread_msg.c:434-453 | in every run the flags in force are the toggles so far, replayed |
| `Network.CopiesFollowToggles` | src/thread_msg.c:516-531 | on the fields, whether a forward entry gets its copy is decided by the flag the toggles so far leave it, and an accepted copy is the message itself |
| `Network.CallsFollowToggles` | src/thread_msg.c:533-541 | on the fields, whether a callback entry runs is decided by the flag the toggles so far leave it |
| `FanOut.LogsAreIndexedTraces` | samples/thread_test.c:257-266 | in every run with fixed flags an idle task's log is the concatenation of the indexed traces of the messages it took, each of which forwards once to each owed task and runs each firing callback once |
| `FanOut.ExactlyOnce` | src/thread_msg.c:124-160 | once drained, with fixed flags, what t has taken from p and the refused copies add up to what the table asks for; and t has taken exactly that, once each, unchanged and in order, exactly when no copy from p to t was refused |
| `FanOut.AllServed` | samples/thread_test.c:257-266 | once drained, every message a mailbox accepted has been taken |
| `FanOut.CallbacksExactlyOnce` | src/thread_msg.c:533-541 | once drained, if no copy from p to t was refused, the callbacks that ran at t for p's messages are exactly the active ones of the table on (t, p, id), once for each message t was owed, t = p included |
| `FanOut.CopiesCounted` | src/thread_msg.c:508-531 | once drained, a message p published n times has been taken n times by each other registered task with an active entry (t, p, id), and never by another task, if no copy from p to t was refused |
| `FanOut.CallbacksCounted` | src/thread_msg.c:533-541 | once drained, for a message p published n times a callback has run at t n times for each active entry (t, p, id) that names it, if t is p or a registered task to which no copy was refused |
| `FanOut.NoRefusals` | src/thread_msg.c:150-155 | if every copy p attempts is accepted, none is counted as refused |
| `Quiescence.StepDecreases` | src/thread_msg.c:508-541 | every dispatch lowers the weight of the queued messages (N+1 for a task's own, 1 for a copy), no consumer step raises it, and every step lowers the measure |
| `Quiescence.RunsAreBounded` | src/thread_msg.c:486-544 | from any reachable state, a run into which nobody publishes has no more consumer steps than the measure of that state, whatever is toggled or refused on the way |
| `Quiescence.Progress` | samples/thread_test.c:257-266 | until everything is drained some consumer can step |
| `Quiescence.EveryStateDrains` | samples/thread_test.c:257-266 | every reachable state can be drained by consumer steps alone with every copy accepted, so the premises of exactly-once delivery can be met |
| `TaskNetwork.Refines` | src/thread_msg.c:124-160 | every run with bounded mailboxes, finite pools and explicit wake-ups is a run of the network, each send refused or accepted as its mailbox and pool decide |
| `TaskNetwork.OrderWithMailboxes` | src/thread_msg.c:150-159 | per-publisher order holds with the mailboxes deciding what is dropped |
| `TaskNetwork.AcceptedUnlessFull` | samples/thread_test.c:30-32 | with msgq_depth + 2 blocks, a message that fits a block is refused only by a full mailbox |
| `TaskNetwork.DeliveredUnlessFull` | src/thread_msg.c:486-544 | with such pools and fixed flags, once drained, what t has taken from p and the copies that met a full mailbox add up to what t is owed; delivery is exactly-once exactly when none did, and then every callback has run once for each publication and active entry that names it |
| `TaskNetwork.NeverStuck` | samples/thread_test.c:214-266 | in no run is mail left undelivered with every consumer blocked: one can wake, receive or get on with its dispatch |
| `TaskNetwork.EveryStateDrains` | samples/thread_test.c:214-266 | from every reachable state the consumers' own steps can empty all mailboxes and bring them back to their loops |
| `Mailbox.NoLostWakeup` | src/thread_msg.c:150-158 | in every interleaving, undelivered mail has a wake-up set, about to be set, or taken by a consumer that has not yet seen the mailbox empty |
| `Mailbox.ExitDrainsFirst` | samples/thread_test.c:214-229 | a consumer that leaves has served every message that had arrived when it last took the message bit |
| `Mailbox.ExitWithMail` | samples/thread_test.c:214-267 | a task that takes EXIT together with a pending MSG never waits again: it serves everything that had arrived, receives until it finds its mailbox empty, and only then leaves |
| `Mailbox.ExitCompletes` | samples/thread_test.c:222-243 | whatever has happened since a task was asked to exit, its own steps alone can take it to its signal |
| `Mailbox.MailInOrder` | src/thread_msg.c:150-155 | in every run the consumer handles exactly the messages the mailbox accepted, unchanged and in order; the rest is still in the mailbox |
| `Mailbox.SenderKeepsMessage` | src/thread_msg.c:143-150 | until it enqueues, a sender keeps the block it got and the message it was called with |
| `Mailbox.OneOwner` | src/thread_msg.c:82-160 | in every reachable state each pool block and live heap message is in exactly one place, no other block is anywhere, and each will be released by the allocator it came from |
| `Mailbox.AllocatorAgreement` | src/thread_msg.c:417-431 | for every filled message of every run, the choice the release recomputes from the header is the one the allocation made, so the silent no-free case is unreachable; and the message is in a pool block exactly when the block holds it with its twelve-byte header |
| `Mailbox.HeldBlockFits` | src/thread_msg.c:95-118 | the same of a block whose message is not written yet |
| `Mailbox.SlabConservation` | src/thread_msg.c:82-160 | free blocks and blocks in the mailbox, in the consumer's hand and in senders' hands always add up to the pool |
| `Mailbox.IdleIsClean` | samples/thread_test.c:257-266 | an idle, empty system has a full pool and no heap messages |
| `Mailbox.SlabSizing` | samples/thread_test.c:31-32 | with depth + 2 blocks, an empty pool means the mailbox holds at least depth + 1 less the messages in senders' hands |
| `Mailbox.FewSendersAllocate` | samples/thread_test.c:31-32 | an empty pool needs another sender in flight, and with only one the mailbox is full |
| `Mailbox.SizingIsTight` | samples/thread_test.c:31-32 | the bound is attained by a run, for every number of other senders the pool leaves room for |
| `Mailbox.TakeThenGiveBack` | src/thread_msg.c:95-118 | allocating and releasing restores the allocators, for every length and control block |
| `Mailbox.UninterruptedSend` | src/thread_msg.c:124-160 | the steps of a send run alone: an accepted message is queued and signalled, a refused one leaves no trace |
| `TaskControl.TaskControl.Malloc` | src/thread_msg.c:82-119 | exactly when the call succeeds; a pool block exactly when 12 bytes and the payload fit one, else the heap; and what it takes |
| `TaskControl.TaskControl.EvtFree` | src/thread_msg.c:417-431 | what a release gives back, to the heap exactly when 12 bytes and the payload exceed a pool block |
| `TaskControl.TaskControl.Forward` | src/thread_msg.c:139-160 | ENOMEM exactly when no block can be had, else EINVAL exactly when the mailbox is full; failure changes nothing; success appends one message with the given id, publisher and payload and sets the bit; ownership is kept |
| `TaskControl.ForwardTo` | src/thread_msg.c:124-160 | with the lookup: an unknown subscriber is EINVAL and nothing changes, a known one gets the send above, its message queued whole |
| `TaskControl.TaskControl.Drain` | samples/thread_test.c:257-266 | serves every queued message in order and leaves a full pool and no heap messages |
| `Lifecycle.SerialStartup` | src/thread_manager.c:132-166 | without timeouts at most one task is between wait and end, and tasks pass in increasing order of id |
| `Lifecycle.StartupCompletes` | src/thread_manager.c:157-190 | some run without timeouts starts every registered task but the manager, in increasing order, publishes the latch if there is one, and leaves the manager serving and each of these tasks in its loop |
| `Lifecycle.MailIsServed` | samples/thread_test.c:214-229 | mail posted to a task in its loop can wake it and run its callback |
| `Lifecycle.PassesAfterEarlier` | src/thread_manager.c:132-166 | timeouts or not, a task passes only after every earlier one signalled or was given up on |
| `Lifecycle.ReadyAfterAll` | src/thread_manager.c:185-190 | with the ready gate every message callback comes after the latch, and the latch after every task signalled or timed out |
| `Lifecycle.CallbackAfterReady` | samples/thread_test.c:206-214 | with the ready gate, no message callback can run in a state without the latch |
| `Lifecycle.ReadyIsSticky` | src/thread_sysready.c:48-69 | the latch is never cleared, in any run |
| `Lifecycle.CollectMask` | src/thread_manager.c:215-229 | the exit mask is exactly the registered tasks other than the manager |
| `Lifecycle.RequestExit` | src/thread_manager.c:231-246 | exactly those tasks get the EXIT bit |
| `Lifecycle.ShutdownAsksAll` | src/thread_manager.c:231-276 | left to itself, the shutdown sequence asks every application task and then waits for exactly those |
| `Lifecycle.AskIsRemembered` | src/thread_manager.c:231-246 | a task that was asked keeps its EXIT bit until it takes it, and then is draining towards its exit, leaving or parked |
| `Lifecycle.ExitIsKept` | samples/thread_test.c:217-243 | a task whose wake-up takes EXIT is, in every later state, draining towards its exit, leaving or parked |
| `Lifecycle.ShutdownCompletes` | src/thread_manager.c:248-276 | from every reachable state in which the manager waits for the exits and all tasks are past the gate, some run ends with the wait satisfied and every registered task but the manager parked |
| `Lifecycle.BarrierParksAll` | src/thread_manager.c:248-267 | after an exit wait returned RT_EOK for a non-zero mask every registered application task has signalled and is parked |
| `Lifecycle.BarrierIsFinal` | samples/thread_test.c:235-243 | no application callback runs in any continuation |
| `Lifecycle.RanAreCallbacks` | samples/thread_test.c:257-266 | the history of callbacks is that of the run's callback steps |
| `ManagerEvents.IdInjective` | src/thread_manager.c:281-285 | different received words are different event ids |
| `ManagerEvents.IdIsBinary` | inc/thread_manager.h:27-31 | bit i is the event id 2 to the power i, and the ids of words without a common bit add up |
| `ManagerEvents.SystemEventIds` | inc/thread_manager.h:27-31 | the five system events are 1, 2, 4, 8 and 16 |
| `ManagerEvents.MaskValue` | src/thread_manager.c:195-196 | the awaited mask is 0x4000FFFF |
| `ManagerEvents.DispatchedAsSent` | src/thread_manager.c:195-208 | a sent event is the one dispatched exactly when all its bits are awaited and its batch adds no other awaited bit |
| `ManagerEvents.CoalescedEvents` | src/thread_manager.c:198-208 | with one-bit events and any awaited mask, an event's handler runs exactly when no other awaited bit came with it; otherwise that receive runs none |
| `ManagerEvents.ReceivesBatches` | src/thread_manager.c:198-208 | in any run each receive takes exactly the awaited bits of the events sent since the one before |
| `ManagerEvents.EventsOfARun` | src/thread_manager.c:198-208 | the exact condition for any event of any run to be dispatched under its own id |
| `ManagerEvents.HandlersOfARun` | src/thread_manager.c:281-285 | in any run the k-th receive runs a handler exactly when an active entry with a callback is registered for the union of the awaited bits sent since the receive before |
| `ManagerEvents.TwoEventsTogether` | src/thread_manager.c:198-208 | two events, each with an active handler, sent before one receive: no handler runs |
| `ManagerEvents.Manager.EventSend` | src/thread_manager.c:310-313 | adds the event's bits to the pending word |
| `ManagerEvents.Manager.Serve` | src/thread_manager.c:198-208 | takes the awaited bits, leaves the others, and runs the registry's first callback for that word |
| `DelayedSlots.Conservation` | src/thread_msg.c:593-650 | in every run slots in use and event loop entries are in bijection, and accepted = fired + cancelled + pending |
| `DelayedSlots.FatesExclude` | src/thread_msg.c:394-411 | a cancelled request never fires, a fired one fired once, with its own task and id, and each fire runs the dispatch hook exactly when the task has one |
| `DelayedSlots.RefusedWhenFull` | src/thread_msg.c:608-623 | with a dispatch hook, ENOMEM exactly when as many requests are pending as there are slots; otherwise exactly this request becomes pending |
| `DelayedSlots.CancelVerdict` | src/thread_msg.c:633-650 | a cancel succeeds exactly when a request of that task and id is pending, and takes back one such request and no other |
| `DelayedSlots.SlotTable.SendDelayed` | src/thread_msg.c:593-631 | on the fields, EINVAL without a hook, ENOMEM with every slot in use, else the first free slot holds the request and has one entry more and nothing else changes |
| `DelayedSlots.SlotTable.LoopFire` | src/thread_msg.c:394-411 | on the fields, the hook runs if the task has one, with the slot's task and id, and the slot is released either way |
| `DelayedSlots.SlotTable.CancelDelayed` | src/thread_msg.c:633-650 | on the fields, OK exactly when some slot waits for the request; then the first such slot is free and has no entry, and nothing else changes |
| `SlotGaps.HalvesMakeFire` | src/thread_msg.c:394-411 | the two halves of a fire, with nothing between them, are the atomic fire |
| `SlotGaps.HalvesMakeSend` | src/thread_msg.c:608-630 | the two halves of a send, with nothing between them, are the atomic send |
| `SlotGaps.SplitFireVerdict` | src/thread_msg.c:404-410 | in any run, whatever comes between the hook and the release, bijection, count and fates all hold after the release exactly when the slot still belongs to the fired request, that is, no cancel took it back; the bijection alone exactly when no later request holds the slot |
| `SlotGaps.SplitSendVerdict` | src/thread_msg.c:623-630 | in any run, whatever comes between the claim and the push, bijection, count and fates all hold after the push exactly when the slot still belongs to the request, that is, no cancel took it back |
| `SlotGaps.CancelAfterFire` | src/thread_msg.c:404-410 | a cancel after the hook and before the release reports success for an event that has fired |
| `SlotGaps.FiresAfterCancel` | src/thread_msg.c:627-629 | a cancel between the claim and the push reports success, and the request fires all the same |
| `SlotGaps.SplitFireBreaksBijection` | src/thread_msg.c:404-410 | a run where the bijection breaks: after such a cancel a new request claims the slot and loses it to the release |
| `ConfigIds.NameIsVisible` | samples/thread_file_gen.py:526-529 | a text that lacks a macro has no line whose macro starts with it |
| `ConfigIds.ContainsMeans` | samples/thread_file_gen.py:526-529 | a macro is found in a text exactly when the text is something, the macro, and something |
| `ConfigIds.InsertedEnum` | samples/thread_file_gen.py:538-573 | if the macro is absent, the first manager enum line gives way to the text of a line for the new id with its number and one for the manager with the next; all other lines stay |
| `ConfigIds.InsertedDefine` | samples/thread_file_gen.py:546-562 | the same in the #define form, the new macro padded to 40 columns and the manager's spacing kept |
| `ConfigIds.NotInserted` | samples/thread_file_gen.py:529-530 | a macro that occurs is skipped; an absent one without a manager line is an error |
| `ConfigIds.BumpedText` | samples/thread_file_gen.py:580-604 | the text of the mux line, in either form, with its number plus one; all other lines stay |
| `ConfigIds.SuffixMeaning` | samples/thread_file_gen.py:441-443 | what follows the comma keeps its text up to trailing white space, with one space before it if it has none |
| `ConfigIds.ValueReadsDigits` | samples/thread_file_gen.py:587 | numbers are read in base ten |
| `ConfigIds.ReformatPreserves` | samples/thread_file_gen.py:428-444 | the reformatter keeps every indent, name and number and every other line, and aligns all names with spaces to the widest one |
| `ConfigIds.ReformatIdempotent` | samples/thread_file_gen.py:428-444 | reformatting twice is reformatting once |
| `ConfigIds.InsertNumbers` | samples/thread_file_gen.py:528-576 | a fresh name gets the manager's number and the manager the next one; every other id keeps its number |
| `ConfigIds.BumpNumbers` | samples/thread_file_gen.py:580-604 | the mux number goes up by one and no other id changes |
| `ConfigIds.IntegrateNumbers` | samples/thread_file_gen.py:528-606 | one integration: a fresh name extends the numbering, any name moves the mux number |
| `ConfigIds.IntegrationsNumber` | samples/thread_file_gen.py:528-606 | from any numbered enum, any sequence keeps tasks 0, 1, ... in file order, the manager next and the mux number ahead by the length of the sequence |
| `ConfigIds.AnyIntegrations` | samples/thread_file_gen.py:528-606 | any sequence keeps old ids and keeps all ids distinct and below the mux number; the numbering stays dense exactly when every name was absent from the file when its turn came |
| `ConfigIds.PrefixIsSkipped` | samples/thread_file_gen.py:529-530 | a name that begins an existing task's name gets no id, and the mux number moves all the same |
| `ConfigIds.GapAfterPrefix` | samples/thread_file_gen.py:529-606 | TEST merged into a file with TEST1, which has all the lines the tool needs to write it back: ids 0, 1, 2 become 0, 1, 3 |
| `ConfigIds.FreshMerge` | samples/thread_file_gen.py:529-606 | NEW merged into the same file: TEST1, NEW, MANAGER and MUX_NUMBER become 0, 1, 2, 3 |
| `ConfigFile.ConfigFile.InsertTask` | samples/thread_file_gen.py:528-576 | the two scans and the in-place edits perform the specified insertion; the error case changes nothing |
| `ConfigFile.ConfigFile.UpdateMux` | samples/thread_file_gen.py:580-604 | the two scans and the in-place edit perform the specified increment |
| `ConfigFile.ConfigFile.ReformatEnum` | samples/thread_file_gen.py:428-444 | collecting the enum lines and rewriting them one by one gives the specified alignment |
| `ConfigFile.ConfigFile.IntegrateTask` | samples/thread_file_gen.py:501-606 | the whole task-id merge succeeds exactly when the specification does, with its result |

## Left out

* RT-Thread itself: scheduling, priorities, tick arithmetic, memory pool layout. Its calls are atomic steps and its timeouts free choices.
* The `event_loop` package is not part of this model: it is a multiset of pending entries, a push succeeds, and removing an entry takes all entries of its slot.
- QSort.QSort: has an insertion sort for a body because Dafny needs one; everything else uses only its contract.
- FanOut.ExactlyOnce: flags are fixed during the run; `Network.PublisherOrder` needs no such thing.
- TaskNetwork.Refines: a send runs uninterrupted, and EXIT is not requested. `Mailbox` takes sends apart and has EXIT, for one task.
- TaskNetwork.DeliveredUnlessFull: for messages that fit a slab block; a heap message can also be refused by the heap.
- Network.PublisherOrder: a callback that sends appears as a separate publication; a callback that itself dispatches a message is not modelled.
- Quiescence.RunsAreBounded: publications are excluded, and with them callbacks that send, since with them termination is false.
- Mailbox.OneOwner: assumes that 12 + length does not wrap in `rt_size_t`.
- Lifecycle.BarrierParksAll: a bit `1U << id` is its position, so at most 32 tasks; registrations are fixed during a run.
- Registry.Registry.DispatchMessage: callbacks leave the registry alone, and task lookups are fixed, during the call; the atomic accesses to one flag are plain accesses. Toggles between the steps of a dispatch are part of `Network`.
- DelayedSlots.Conservation: claim-plus-push and hook-plus-release are single steps.
- SlotGaps.SplitFireVerdict: one gap at a time; what falls into it is atomic.
- DelayedSlots.FatesExclude: that the sample's hook ignores a delayed msg_id of 0 (`samples/thread_test.c:274-276`) is not modelled.
- DelayedSlots.SlotTable.SendDelayed: for a non-zero delay; a zero delay is an immediate send, `TaskControl.ForwardTo`.
- ConfigIds.AnyIntegrations: for the enum form of the id block. Of the `#define` form the single edits are stated (`ConfigIds.InsertedDefine`, `ConfigIds.BumpedText`).
- ConfigIds.ReformatIdempotent: white space is the ASCII white space, digits the ASCII digits; the tool's library also knows others.
* Parsing of lines by regular expressions: a line arrives as its matched groups.
- ConfigFile.ConfigFile.IntegrateTask: the merge goes on with the STACK and PRIO blocks, which insert one line each and carry no numbering. If their manager lines are missing the tool raises an error and leaves the file as it was (`samples/thread_file_gen.py:619-622`, `638-641`).
* The templates and argument parsing of the generator.
* The slot table of `src/thread.c`: bounds-checked array accesses. It appears as the set of registered tasks.
* Message payload copying: a message is one value, so a copy is equal by construction.
* The MSH commands, logging, hardware and resource hooks, linker sections; `samples/thread_test1.c` and `samples/thread_test2.c`, which repeat the protocol of `samples/thread_test.c` with other ids.

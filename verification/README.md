# Verified model of the kernel event collectors

A Dafny model of the parts of this repository whose correctness depends on order, concurrency or a byte format. Each
part is a set of functions that say what the code computes, imperative methods and classes in the form of the source
that are proved against them, and lemmas that state what follows for every input or for every run.

Check it with `dafny verify dfyconfig.toml`. `Common.dfy` holds what several parts share.

| part | files | what is proved |
|---|---|---|
| merging the per-CPU event buffers | `EventMerge.dfy`, `BpfApi.dfy` | in every run the client sees timestamps in order; each CPU's records are conserved, in order; a batch is handed over within two polls |
| DNS names | `DnsName.dfy`, `DnsDecoding.dfy`, `DnsWalk.dfy`, `DnsParser.dfy` | the in-place decoder returns the name a message encodes exactly when the name is readable, for every placement of labels and pointers; what it returns for any message at all |
| disabling the collector | `ModuleState.dfy`, `DrainLoop.dfy` | no hook is active when the tables are freed, in every orderly run; each of the two ordering conditions is necessary |
| task labels | `TaskLabels.dfy`, `TaskFlags.dfy`, `TaskRuns.dfy`, `TaskUnique.dfy`, `TaskInForce.dfy`, `TaskWords.dfy`, `TaskCache.dfy`, `HashBuckets.dfy` | in every interleaving a dropped stall goes back, parent by parent, to a label the client set; how labels descend through forks; exactly when entries stay unique; runs without a race refine a reference store, and in them the label in force is the last one set; what every flag word comes to, bit by bit |
| inode cache | `InodeCache.dfy`, `InodeRuns.dfy`, `InodeHits.dfy`, `HashBuckets.dfy` | an open that skips its stall was enabled by the client and nothing took the entry out since; the two conditions under which no removal has returned since the client's answer, each of them necessary; exactly which opens are let through, by the number of opens and answers |
| stalls | `StallConfig.dfy`, `StallProtocol.dfy`, `StallVerdicts.dfy`, `StallTable.dfy` | a response reaches one waiter and ends its wait; exactly when a stall is denied, by an answer or by a timeout; how often and how long it waits; which entries are left behind |
| command lines | `ExecArgs.dfy`, `ExecMessages.dfy` | both encodings of an argument vector are read back, or cut where the limit says |
| raw paths | `PathSplit.dfy` | splitting off the last component and joining the parts again is the identity |
| messages to the client | `EventStream.dfy`, `EventRead.dfy`, `EventReadEnds.dfy` | what one read hands over, while events keep coming and the queue is cleared or switched off, splits back into exactly the events taken off the queue; exactly when a read ends |

## How the code is represented

Concurrency is a state machine whose steps are what the source does under one lock or in one store, in any
interleaving. A run is a sequence of steps, each enabled where it is taken. Time is whatever the steps make of it: a
clock is a number that does not go back.

- **Merging.** Steps: a CPU writes a record; a pass begins with the CPUs a poll reports (all of them after a pass that
  left records behind); the reader takes, refuses or runs out of records of one CPU; the pass ends. Records are stamped
  and written in one step, with a common clock that does not go back. Delivery within two polls also needs the clock to
  tick between records, since records with the stamp of the list's newest may be collected for as long as they come.
- **DNS.** Octets are integers from 0 to 255. The two octets of a pointer are read together, so the message buffer is
  one octet longer than the length it is parsed with. `char` is signed, as on x86: the test of a length octet against
  zero refuses 128 and up.
- **Disabling.** Reading the flag and counting the hook are two steps; a hook may count down on another CPU than it
  counted up; a scan reads the counters one at a time while hooks go on leaving. Sleeping is assumed to let some active
  hook finish. A run is orderly when no call to disable is accepted between the two stores that end an enable, and when
  the delay is over only after every hook that saw the flag up has counted itself.
- **Task cache.** Every locked section is one step, and a caller may be held up between its sections: between
  looking a task up, reading its parent's label and inserting it, or give up before it inserts for lack of memory. The
  log of causes is ghost state. A response is allowed at any time, which is more than the device accepts. Hash function
  and bucket geometry are arbitrary.
- **Inode cache.** A call begins in one step (for an answer: the client's response is taken), tests the enabled flag in
  a second and has its locked section in a third. Disabling sweeps the buckets one step at a time and lowers the flag at
  the end; clearing may empty any bucket at any time.
- **Stalls.** Request ids count up from 1 without an end. Steps: an event draws its id; its hook passes the test of
  the table and fills its entry in; it links the entry; it starts to wait, which copies the verdict for a timeout; at
  each turn it reads the three modes one by one; it is woken, times out or is interrupted; it unlinks its entry; the
  client responds by key; the table is disabled entry by entry; the configuration changes. Linked entries form one
  list, newest first, that a response searches.
- **Messages.** Strings are sequences of characters without an encoding. An event is its path fields and the rest of
  its fixed part. One octet stands for the event type, from which a client knows how many path fields there are. Before
  each turn of a read the queue may be switched on or off, cleared and added to.

## What the code does differently from what it says

- *DNS names* (`kernel_event_collector_module/src/dns-parser.c`). The tests for the root octet and for a pointer are
  applied to every octet, not only where a length may stand. A name is read as it is encoded exactly when its labels
  hold no zero octet and none of 192 or more, are shorter than 128, and take at most 255 octets without the root,
  behind at most 20 pointers. `DnsDecoding.DecodesExactlyReadableNames` states this, and
  `DnsDecoding.PointerInsideLabelMisread` shows a name that is not.
- *Enable and disable* (`kernel_event_collector_module/src/drvmain.c:532-533`). The state is set to enabled under the
  lock, the flag is raised after it. A disable accepted in between drains the hooks with the flag down, and the flag is
  raised afterwards. `ModuleState.DisableBetweenStoresUnsafe` and `ModuleState.ShortDelayUnsafe` show, from every state
  in which the condition is broken, a run that frees the tables under a hook.
- *Task cache* (`app_control_event_kernel_module/src/task_cache.c:613-731`). The lookup and the insertion of an
  event's task are two locked sections, and the second does not look again. `TaskUnique.TidyExactly` says exactly when
  entries stay unique, `TaskUnique.OneEntryPerTask` that they do without a race, and `TaskUnique.RaceDuplicates` gives
  a run in which a task is entered twice. `TaskInForce.RevokedLabelSurvives` continues it: the client takes the label
  back and the task's entry is removed, and the older entry with the label is found again.
  `TaskInForce.LabelInForceWasSetLast` says that without a race this does not happen. Also, the store of an event
  option at line 871 is never reached, so a response can only clear options (`TaskRuns.AnswerNeverRaisesOption`), and
  in every run no option is ever set (`TaskRuns.OptionsStayOffLabelsEnable`). The first event of a task that is new to
  the cache has its stall lifted even when it is not a reportable one, and the stall event remembered differs from
  that of a task which was entered at its fork (`TaskCache.ForkAndFirstEventAgree`).
- *Inode cache* (`app_control_event_kernel_module/src/inode_cache.c:146-152`). A call that is past its test of the flag
  may insert and enable an entry behind the sweep of a disable. While the cache is off, calls that should take the entry
  out return without doing so, and after the cache is on again an open is let through. `InodeRuns.InsertBehindSweep` is
  such a run.
- *Inode cache* (`app_control_event_kernel_module/src/stall_tbl.c:480-498`). A response is taken under the lock of the
  stall table and reaches the inode cache after it. A write-open, an unlink or a clearing that returns in between is
  undone: the next look-up enters the inode again and the old answer enables it. `InodeRuns.WriteBeforeAnswerArrives` is
  such a run, on a cache that is never disabled. `InodeRuns.QuietOpensAreTrusted` says that ruling out both is enough;
  `InodeRuns.NotQuietIsUnsafe` and `InodeRuns.NotPromptIsUnsafe` that either one alone is fatal.
- *Continuation timeout* (`app_control_event_kernel_module/src/wait.c:319-320`). It is raised to the stall timeout when
  it is set, not when the stall timeout is. `StallConfig.ContinuationNotShorterExactly` says after which series of
  requests it is not the shorter one.
- *Deny on timeout* (`app_control_event_kernel_module/src/wait.c:32`). The verdict for a timeout is copied after the
  entry can be answered, so an early answer replaces it; `StallProtocol.TimeoutVerdictExactly` says exactly how, and
  `StallProtocol.DenyOnTimeoutDisarmed` is a run from the start.
- *Retry loop* (`app_control_event_kernel_module/src/wait.c:48-57`). A stall that gives up there returns without taking
  its entry out of the table. `StallProtocol.FinishedLeavesTableExactly` says when, and
  `StallProtocol.ClosedCheckLeavesEntry` that the entry stays and still takes responses.
- *Copy limit* (`app_control_event_kernel_module/src/stall_reqs.c:164-168`). It is first looked at after the second
  event, so a limit of one lets two through, and no limit more than that; `EventRead.CopyLimitKeptExactly`.
- *Empty command lines* (`bpf_probe/examples/bcc_sample.py:444-452`). The final message of an empty argument vector
  opens a record, so nothing is reported and the task's next command line begins with a space;
  `ExecMessages.EmptyCommandIsNotReported`, `ExecMessages.FirstMessageStaysInFront`.

## Model

| member | source | states |
|---|---|---|
| EventMerge.StableSortSorts | bpf_probe/src/BpfApi.cpp:652 | The sorted list is in time order and holds the same events with the same multiplicity. |
| EventMerge.StableSortKeepsCpu | bpf_probe/src/BpfApi.cpp:652 | If each CPU's events are in order, sorting the whole list leaves every CPU's own sequence untouched: the sort is stable. |
| EventMerge.StepKeepsInv | bpf_probe/src/BpfApi.cpp:560-701 | Every step of a producer or of the reader keeps the invariant: conservation per CPU, stamps, nothing left behind older than what was delivered, and the bar below which swept buffers are empty. |
| EventMerge.DeliveryIsOrdered | bpf_probe/src/BpfApi.cpp:560-579 | In every run, any number of CPUs, any interleaving, the timestamps handed to the client never decrease. |
| EventMerge.NothingLostOrReordered | bpf_probe/src/BpfApi.cpp:560-579 | At every moment a CPU's records are exactly what was delivered of it, then what is listed, then what its buffer holds, in order. |
| EventMerge.SortKeepsNewest | bpf_probe/src/BpfApi.cpp:647-653 | A later pass over the same batch does not move the target timestamp. |
| EventMerge.BatchDeliveredWithinTwoPolls | bpf_probe/src/BpfApi.cpp:567-572 | However fast records arrive, what a completed poll left in the list has reached the client after two more completed polls. |
| BpfApi.BpfApi.constructor | bpf_probe/src/BpfApi.cpp:39-56 | A new object is the initial state of the merge. |
| BpfApi.BpfApi.OnPeek | bpf_probe/src/BpfApi.cpp:770-781 | A record is taken exactly when there is no target timestamp or it is not newer; a refusal is remembered. |
| BpfApi.BpfApi.OnEvent | bpf_probe/src/BpfApi.cpp:783-790 | The event is counted and goes to the end of the list. |
| BpfApi.BpfApi.BeginPass | bpf_probe/src/BpfApi.cpp:585-634 | Starting to read the reported CPUs is the step that begins a pass. |
| BpfApi.BpfApi.ReadOne | bpf_probe/src/BpfApi.cpp:800-822 | Offering one record to the callbacks is one enabled step of the merge. |
| BpfApi.BpfApi.ReadCpu | bpf_probe/src/BpfApi.cpp:593-634 | Reading one buffer to its end or to a refusal, while records keep coming, is a run of the merge, and it ends. |
| BpfApi.BpfApi.ReadReady | bpf_probe/src/BpfApi.cpp:593-634 | Reading all reported CPUs one after another is a run of the merge that leaves none of them to read. |
| BpfApi.BpfApi.HarvestEvents | bpf_probe/src/BpfApi.cpp:642-698 | The loop that sorts or hands over the list does what the end of a pass is in the merge. |
| BpfApi.BpfApi.PollEvents | bpf_probe/src/BpfApi.cpp:560-701 | One call is a run of the merge with exactly one completed pass, or none when the poll fails; so it keeps the invariant, what the client has got stays in order and only grows. |
| DnsName.CollectBound | kernel_event_collector_module/src/dns-parser.c:155-242 | What is copied leaves room for the terminator and holds neither zero octets nor pointer octets, for every message. |
| DnsDecoding.CollectEncoded | kernel_event_collector_module/src/dns-parser.c:155-242 | For a message that encodes a name the octets copied are the length-prefixed name, or the message is refused, exactly by the limits on length and pointers. |
| DnsDecoding.MovedEncoded | kernel_event_collector_module/src/dns-parser.c:229-234 | The cursor moves by what the name takes up where it starts: through the root octet or the first pointer. |
| DnsDecoding.RewriteLabels | kernel_event_collector_module/src/dns-parser.c:257-294 | Rewriting puts a dot behind every label, in place, whatever lies behind the name; a label of 128 or more is refused. |
| DnsDecoding.DecodePlain | kernel_event_collector_module/src/dns-parser.c:134-255 | For labels without odd octets: the name comes back, or one error for too many octets or pointers, or the other for a label of 128 or more. |
| DnsDecoding.DecodeOddOctet | kernel_event_collector_module/src/dns-parser.c:163-168 | A name with a zero octet or one of 192 and up in a label is never returned as it is. |
| DnsDecoding.DecodesExactlyReadableNames | kernel_event_collector_module/src/dns-parser.c:134-255 | The decoder returns the labels joined by dots if and only if the name is readable, for every message that encodes it. |
| DnsDecoding.StandardNamesDecode | kernel_event_collector_module/src/dns-parser.c:134-255 | Every name within the limits of section 2.3.4 of RFC 1035 and at most 20 pointers is decoded, and the cursor ends behind it. |
| DnsDecoding.WrittenOutEncodes | kernel_event_collector_module/src/dns-parser.c:181-224 | A name written out label by label is an encoding of it at any offset, so the results above are about real messages. |
| DnsDecoding.PointerInsideLabelMisread | kernel_event_collector_module/src/dns-parser.c:168-234 | A concrete message whose name comes back as another one, whatever the buffer held. |
| DnsWalk.CollectExactly | kernel_event_collector_module/src/dns-parser.c:155-242 | For every message: the copy loop succeeds with some octets if and only if a walk meets them, from octet to octet and from pointer to target, within the data, to a zero octet, with fewer than 256 octets and at most 20 pointers. |
| DnsWalk.MovedExactly | kernel_event_collector_module/src/dns-parser.c:155-242 | How far the cursor moves, for every message, by what stands behind the plain octets it begins with. |
| DnsWalk.LabelsRewrite | kernel_event_collector_module/src/dns-parser.c:257-294 | Whatever the buffer holds: if it begins with labels of 1 to 127 octets and a zero, the rewriting puts a dot behind each and leaves the rest. |
| DnsWalk.RewriteFinds | kernel_event_collector_module/src/dns-parser.c:257-294 | And it succeeds on no other buffer. |
| DnsWalk.DecodeExactly | kernel_event_collector_module/src/dns-parser.c:134-255 | What is returned for every message, offset and buffer: one error exactly for an offset beyond the data, one exactly when there is no walk, one exactly when the octets are not labels, and otherwise the labels joined by dots. |
| DnsParser.ShiftDown | kernel_event_collector_module/src/dns-parser.c:271-277 | Moves a label down over its length octet, all of it and nothing else, or fails exactly when it would reach the last octet. |
| DnsParser.RewriteLabel | kernel_event_collector_module/src/dns-parser.c:266-281 | One turn of the loop: the part done and the rewriting of the rest are together the rewriting of the whole; failing means the whole is unreadable. |
| DnsParser.NameFromDns | kernel_event_collector_module/src/dns-parser.c:257-294 | The loop in place is the rewriting of the buffer, or the failure of it. |
| DnsParser.CopyOctets | kernel_event_collector_module/src/dns-parser.c:155-242 | The copying loop terminates, copies the octets of the name and no more, leaves the rest of the buffer, and counts the cursor's move. |
| DnsParser.ParseName | kernel_event_collector_module/src/dns-parser.c:134-255 | The method in place returns the text, the error and the move that the decoding function defines, for every buffer, offset and message; a name only if a walk and labels give it, and the error for bad data exactly when there is no walk. |
| ModuleState.ZeroScanMeansQuiet | kernel_event_collector_module/src/drvmain.c:404-427 | A scan of the counters that came to zero, read one by one while hooks leave, means that no hook is active. |
| ModuleState.OrderlyRunKeepsInv | kernel_event_collector_module/src/drvmain.c:366-542 | Enabling, disabling and hook entry keep the invariant over orderly runs. |
| ModuleState.TablesOutliveHooks | kernel_event_collector_module/src/drvmain.c:328-364 | In every orderly run no hook is past the flag while the tables are gone. |
| ModuleState.FreedUnderHook | kernel_event_collector_module/src/drvmain.c:404-433 | A scan that may start before a late hook has counted itself can end in freeing the tables under it. |
| ModuleState.DisableBetweenStoresUnsafe | kernel_event_collector_module/src/drvmain.c:532-533 | From every state with an enabling thread between its stores, accepting a disable has an unsafe continuation. |
| ModuleState.ShortDelayUnsafe | kernel_event_collector_module/src/drvmain.c:391-395 | From every state with a hook between its two steps, ending the delay has an unsafe continuation. |
| ModuleState.WindowIsReached | kernel_event_collector_module/src/drvmain.c:514-533 | The state between the stores is reached by an ordinary enable. |
| DrainLoop.ModuleControl.Scan | kernel_event_collector_module/src/drvmain.c:406-412 | The sum read while hooks leave lies between the number active before and the number active after. |
| DrainLoop.ModuleControl.DisableModule | kernel_event_collector_module/src/drvmain.c:366-442 | Given the assumed delay and sleep: the loop terminates, and when it frees the tables no hook is active or entering; in any other state nothing changes and only a disabled module reports success. |
| DrainLoop.ModuleControl.EnableModule | kernel_event_collector_module/src/drvmain.c:485-542 | Succeeds exactly from enabled, or from disabled with memory; a failure leaves state, flag and tables. |
| HashBuckets.LookupAgrees | app_control_event_kernel_module/src/task_cache.c:216-227 | Searching the bucket's list finds a key exactly when the store has it, with its value. |
| HashBuckets.BucketMates | app_control_event_kernel_module/src/inode_cache.c:250-258 | The size field counts the keys of the bucket, and the last list entry is the one inserted first. |
| HashBuckets.PushInserts | app_control_event_kernel_module/src/inode_cache.c:248-259 | Adding a new key inserts it in the store and costs a full bucket exactly its oldest key. |
| HashBuckets.DeleteErases | app_control_event_kernel_module/src/inode_cache.c:339-345 | Unlinking an entry erases exactly its key. |
| HashBuckets.AssignRewrites | app_control_event_kernel_module/src/inode_cache.c:238-242 | Changing an entry in place changes exactly its key's value, and no ages. |
| HashBuckets.ClearErasesBucket | app_control_event_kernel_module/src/inode_cache.c:79-90 | Emptying a bucket erases exactly the keys that hash to it. |
| InodeCache.InodeCache.constructor | app_control_event_kernel_module/src/inode_cache.c:103-139 | A new cache is enabled and stands for the empty store. |
| InodeCache.InodeCache.Lookup | app_control_event_kernel_module/src/inode_cache.c:199-270 | A hit is counted only for an enabled entry; a miss inserts a disabled one and drops at most the oldest of its bucket; each error path leaves the store. |
| InodeCache.InodeCache.Update | app_control_event_kernel_module/src/inode_cache.c:272-318 | An enabling answer counts a hit on a known address, any other forgets it. |
| InodeCache.InodeCache.RemoveEntry | app_control_event_kernel_module/src/inode_cache.c:320-350 | Erases exactly the address. |
| InodeCache.InodeCache.Clear | app_control_event_kernel_module/src/inode_cache.c:67-101 | Nothing is left. |
| InodeCache.InodeCache.Disable | app_control_event_kernel_module/src/inode_cache.c:146-152 | An enabled cache is emptied before it is disabled. |
| InodeRuns.GivenIn | app_control_event_kernel_module/src/stall_tbl.c:480-498 | An answer that is on its way to the cache was given by the client in some step and has been on its way since. |
| InodeRuns.LiveSince | app_control_event_kernel_module/src/inode_cache.c:199-350 | For every entry that would let an open through, in every run, there is an enabling answer, the step in which the client gave it and the step in which it took effect, since which the entry has been there and nothing has taken it out. |
| InodeRuns.SkippedOpenWasEnabled | app_control_event_kernel_module/src/hooks.c:775-804 | In every run, with disabling and enabling as they come, an open that skips its stall was enabled by the client, and since that took effect no write-open, unlink, free, denial, other answer, clearing or eviction has taken its entry out. |
| InodeRuns.QuietOpensAreTrusted | app_control_event_kernel_module/src/inode_cache.c:146-159 | If a sweep leaves nothing behind it, the cache holds nothing live while it is off, and no removal returns while an enabling answer for its inode is on its way: then no call that should take the inode out has even returned since the client gave the answer. |
| InodeRuns.NotQuietIsUnsafe | app_control_event_kernel_module/src/inode_cache.c:146-159 | From every state of every run in which the first two fail, the run can go on to an open that is let through although such a call has returned since every enabling answer was given. |
| InodeRuns.NotPromptIsUnsafe | app_control_event_kernel_module/src/stall_tbl.c:480-498 | Every run whose last step is a removal that returns while an enabling answer for the inode is on its way can go on, without a further removal, to such an open. |
| InodeRuns.WriteBeforeAnswerArrives | app_control_event_kernel_module/src/stall_tbl.c:480-498 | A run from the start, for every inode, on a cache that is never disabled, that ends in such an open. |
| InodeRuns.OffAndLiveIsUnsafe | app_control_event_kernel_module/src/inode_cache.c:320-333 | With a live entry in a cache that is off: its inode is freed, the cache comes on, and an open is let through. |
| InodeRuns.InsertBehindSweep | app_control_event_kernel_module/src/inode_cache.c:212-258 | A run from the start in which a lookup inserts behind the sweep. |
| InodeHits.OpensSkipExactly | app_control_event_kernel_module/src/inode_cache.c:199-318 | In every run, for an inode that was entered and has been there since: before the first enabling answer every open stalls; after it every open and every answer counts, and an open is let through if and only if its count stays within 64 bits. |
| InodeHits.EnabledOpensSkip | app_control_event_kernel_module/src/hooks.c:775-804 | In every run, once an answer has enabled an inode, every open of it is let through until something takes its entry out, an insertion evicts it, or the counter is full. |
| TaskRuns.AnswerNeverRaisesOption | app_control_event_kernel_module/src/task_cache.c:733-878 | A response keeps an event option or clears it, never sets it. |
| TaskRuns.StallDroppedExactly | app_control_event_kernel_module/src/task_cache.c:236-349 | An event loses its stall exactly when it is reportable and the label or the option of its type lets it through, and never gains one. |
| TaskRuns.ClientLabelsEnable | app_control_event_kernel_module/src/task_cache.c:455-497 | A label that an ioctl or a response sets carries the enable flag or is zero. |
| TaskRuns.InheritedLabelDiffers | app_control_event_kernel_module/src/task_cache.c:500-611 | A label handed down differs from the parent's at most in the inherit bit. |
| TaskRuns.TracedToClient | app_control_event_kernel_module/src/task_cache.c:351-382 | From any label a path of inheritances, each earlier than the one before and each label derived from the next, leads up to the task on which a client set the root label. |
| TaskRuns.DescendsSame | app_control_event_kernel_module/src/task_cache.c:524-530 | Along such a path at most the inherit bit is lost. |
| TaskRuns.EntersWithInherited | app_control_event_kernel_module/src/task_cache.c:500-731 | What a fork and what a first event enters a task with both agree with the label function that the paths use. |
| TaskRuns.StepKeepsInv | app_control_event_kernel_module/src/task_cache.c:384-878 | Every locked section keeps that options are off, labels enable, and every label is traced. |
| TaskRuns.OptionsStayOffLabelsEnable | app_control_event_kernel_module/src/task_cache.c:384-878 | In every run no option is stored and every label that is set carries the enable flag. |
| TaskRuns.DroppedStallGoesBackToClient | app_control_event_kernel_module/src/task_cache.c:236-349 | In every interleaving an event of a known task loses its stall only if a client set an enabling label on that task or on one from which it descends, and the path of inheritances between them is given. |
| TaskRuns.FirstDroppedStallGoesBackToClient | app_control_event_kernel_module/src/task_cache.c:613-731 | The same for the first event of a task that is new to the cache, with the path up from its parent and the same label bits. |
| TaskUnique.PushDistinctExactly | app_control_event_kernel_module/src/task_cache.c:714-728 | Inserting without a look keeps keys distinct exactly when the key is absent or is the one evicted. |
| TaskUnique.StepTidyExactly | app_control_event_kernel_module/src/task_cache.c:384-937 | From every state with one entry per task, a step leads to such a state if and only if it is not an insertion that finds its task cached and does not evict it. |
| TaskUnique.TidyExactly | app_control_event_kernel_module/src/task_cache.c:384-937 | In every run tasks have one entry and buckets keep their limit at all times if and only if every step is of that kind. |
| TaskUnique.CachedComesFrom | app_control_event_kernel_module/src/task_cache.c:384-937 | A task that is cached after a step was so before, or the step is one that enters it. |
| TaskUnique.OneEntryPerTask | app_control_event_kernel_module/src/task_cache.c:613-731 | In every run in which nothing else enters a task between an event's lookup and its insertion, tasks have one entry and buckets keep their limit. |
| TaskUnique.RaceDuplicates | app_control_event_kernel_module/src/task_cache.c:641-728 | A run of four steps from the start, for every task and event: the event misses, the client labels, the event reads its parent and inserts, and the task is in its bucket twice, the label behind the new entry. |
| TaskUnique.StepRefines | app_control_event_kernel_module/src/task_cache.c:384-937 | Every locked section does to the reference store what it should: change in place, insert at the cost of the oldest, erase. |
| TaskUnique.UnracedRunsRefine | app_control_event_kernel_module/src/task_cache.c:384-937 | Every interleaved run without such a race is a run of the reference store. |
| TaskInForce.LabelInForceWasSetLast | app_control_event_kernel_module/src/task_cache.c:384-937 | In every run without a race the label found for a task was set by some step, and no later step has set another, removed the task or cleared the cache. |
| TaskInForce.RevokedLabelSurvives | app_control_event_kernel_module/src/task_cache.c:641-937 | With a race: a run from the start after which the label is found although the client has taken it back and the task has been removed. |
| TaskInForce.ForkReadsExactly | app_control_event_kernel_module/src/task_cache.c:500-557 | In every state of a run: what a fork is about to enter its task with is its cached parent's label, taken over, if that is inheritable, and nothing otherwise. |
| TaskInForce.EventReadsExactly | app_control_event_kernel_module/src/task_cache.c:641-704 | The same for the first event of a task, which otherwise enters it without a label. |
| TaskWords.IoctlExactly | app_control_event_kernel_module/src/task_cache.c:455-497 | A label request is refused exactly when it neither clears nor enables; clearing leaves no label; else each of the four label bits is set exactly as asked. |
| TaskWords.LabelResponseExactly | app_control_event_kernel_module/src/task_cache.c:758-874 | Which label words of a response are accepted; a clearing one takes the label and nothing else, one without label bits changes nothing, any other sets exactly its bits and drops the event options. |
| TaskWords.OptionResponseExactly | app_control_event_kernel_module/src/task_cache.c:789-874 | Which option words are accepted, which options they drop, and that they take the label unless they disable. |
| TaskWords.EventExactly | app_control_event_kernel_module/src/task_cache.c:236-349 | Exactly which events of a cached task are let through, with which mark, and what the entry remembers. |
| TaskWords.OptionsExactly | app_control_event_kernel_module/src/task_cache.c:266-333 | What each kind of event option does to the options of the task. |
| TaskWords.InheritsExactly | app_control_event_kernel_module/src/task_cache.c:524-704 | A new task takes its parent's label over if it is inheritable, and can hand it on exactly if it is a thread or the label recurses; the same for forks and first events. |
| TaskWords.FirstEventExactly | app_control_event_kernel_module/src/task_cache.c:673-713 | The label of a task that enters with its first event, how that event is reported and what is remembered of it. |
| TaskFlags.JudgeOption | app_control_event_kernel_module/src/task_cache.c:275-333 | The switch over an event option decides what the option rules say, and drops the options they drop. |
| TaskFlags.MatchOptions | app_control_event_kernel_module/src/task_cache.c:254-333 | Task options come first, event options after them. |
| TaskFlags.UpdateEntryData | app_control_event_kernel_module/src/task_cache.c:236-349 | The event as reported and the entry after it are those of the rules. |
| TaskFlags.TranslateAtFork | app_control_event_kernel_module/src/task_cache.c:524-557 | The block for a fork enters the child exactly when the parent's label is inheritable, with the label that survives. |
| TaskFlags.TranslateAtEvent | app_control_event_kernel_module/src/task_cache.c:673-704 | The block for a first event takes the label over and lifts the event's stall under it. |
| TaskFlags.CheckLabel | app_control_event_kernel_module/src/task_cache.c:775-787 | A label is accepted exactly when it is none, or enables and recurses only if it is inherited. |
| TaskFlags.ReadLabelFlags | app_control_event_kernel_module/src/task_cache.c:759-787 | The label part of a response is refused, clears or sets, by the rules. |
| TaskFlags.ReadCacheFlags | app_control_event_kernel_module/src/task_cache.c:789-841 | The option part of a response asks for at most one option, a clearing or both, by the rules. |
| TaskFlags.ApplyFlags | app_control_event_kernel_module/src/task_cache.c:857-874 | What the locked section does with the flags that were read. |
| TaskCache.TaskCache.constructor | app_control_event_kernel_module/src/task_cache.c:136-172 | A new cache is enabled and stands for the empty store. |
| TaskCache.TaskCache.FindParentTaskLabels | app_control_event_kernel_module/src/task_cache.c:351-382 | Finds the parent's label exactly when the parent is cached, 0 otherwise. |
| TaskCache.TaskCache.SetTaskLabelFlags | app_control_event_kernel_module/src/task_cache.c:384-453 | A known task gets the label and loses its options; an unknown one is inserted with it, or the store stays when there is no memory. |
| TaskCache.TaskCache.HandleTaskLabelIoc | app_control_event_kernel_module/src/task_cache.c:455-498 | After a successful request the task has the label asked for and no options; each refusal leaves the store. |
| TaskCache.TaskCache.InsertNewTask | app_control_event_kernel_module/src/task_cache.c:500-611 | A fork enters the child exactly when the parent's label is inheritable and the child is unknown; which code comes back. |
| TaskCache.TaskCache.EnterWithEvent | app_control_event_kernel_module/src/task_cache.c:613-731 | A task that is new to the cache enters it with what it inherits, and its event is matched against that. |
| TaskCache.TaskCache.SetLastEvent | app_control_event_kernel_module/src/task_cache.c:613-731 | The event as reported, the event before it and the new store, for known and new tasks and every error path. |
| TaskCache.TaskCache.HandleResponse | app_control_event_kernel_module/src/task_cache.c:733-878 | Only the task of the response changes, by what its flags ask for; refused and empty responses change nothing. |
| TaskCache.TaskCache.RemoveEntry | app_control_event_kernel_module/src/task_cache.c:907-937 | Erases exactly the task. |
| TaskCache.TaskCache.Clear | app_control_event_kernel_module/src/task_cache.c:101-134 | Nothing is left. |
| TaskCache.DescendedExactly | app_control_event_kernel_module/src/task_cache.c:500-611 | What a label has become after any number of forks: unchanged if it recurses, without the inherit bit in the child and gone below if it does not, gone if not inheritable. |
| TaskCache.LabelsAlongForkChain | app_control_event_kernel_module/src/task_cache.c:500-611 | Along a chain of forks of any length every task has exactly the label its depth allows. |
| TaskCache.ForkAndFirstEventAgree | app_control_event_kernel_module/src/task_cache.c:524-704 | The two separately written translations of a parent's label, and what the first event then leads to either way: same label and options always; exactly when the event is reported alike; exactly when the same stall event is remembered. |
| TaskCache.SameLabelEitherWay | app_control_event_kernel_module/src/task_cache.c:500-731 | In the store a task has the same label after its first event, whether or not its fork entered it. |
| StallConfig.TimeoutsStayInRange | app_control_event_kernel_module/src/wait.c:304-333 | Any series of requests leaves the timeouts within the limits of config.h. |
| StallConfig.LastTimeoutIs | app_control_event_kernel_module/src/wait.c:304-315 | The timeout after any series of requests is the last one asked for if that is from 1000 to 15000, and the nearer end if it is not. |
| StallConfig.LastContinueIs | app_control_event_kernel_module/src/wait.c:316-333 | The continuation timeout after any series is what the last request for it came to beside the timeout of that time. |
| StallConfig.ContinuationNotShorterExactly | app_control_event_kernel_module/src/wait.c:316-333 | After any series of requests the continuation timeout is no shorter than the timeout if and only if it was never set, or was asked to be as long, or the timeout has not grown beyond it since. |
| StallConfig.SwitchesAsLastAsked | app_control_event_kernel_module/src/wait.c:284-346 | Whether stalls are on and what a timeout means is what the last request for it said. |
| StallConfig.ContinuationCanBeShorter | app_control_event_kernel_module/src/wait.c:304-333 | Two requests after which it is shorter. |
| StallProtocol.ResponseReachesOneWaiter | app_control_event_kernel_module/src/stall_tbl.c:417-502 | Although ids are drawn and entries linked at different times and in any order: no two events share a key, and a response answers the linked entry with its key, if there is one, and changes nothing else. |
| StallProtocol.DeniedOnlyWithCause | app_control_event_kernel_module/src/wait.c:23-152 | In every run a denied stall had deny-on-timeout when its entry was filled in, or a denial was issued for its own key. |
| StallProtocol.WaitsAreBounded | app_control_event_kernel_module/src/wait.c:113-129 | However client and configuration behave, one stall waits at most 256 times and for a bounded total. |
| StallProtocol.FinishedLeavesTableExactly | app_control_event_kernel_module/src/wait.c:48-57 | In every run a hook that has returned left its entry in the table if and only if one of its reads at the head of the loop, each at its own time, found the table off, stalling off or bypass on. |
| StallProtocol.ClosedCheckLeavesEntry | app_control_event_kernel_module/src/wait.c:48-57 | From every state with a waiter at such a read: whatever follows, its entry stays in the table and takes every response to its key. |
| StallProtocol.EntryLeftBehind | app_control_event_kernel_module/src/wait.c:48-57 | A run from the start that leaves an entry behind. |
| StallProtocol.TimeoutVerdictExactly | app_control_event_kernel_module/src/wait.c:23-152 | In every run a stall that ends by a timeout or an interruption, after any number of continuations, is denied if and only if the last answer its entry got before it started to wait was a denial, or it got none and deny-on-timeout was on when it was filled in. |
| StallProtocol.EarlyContinuationDisarmsDeny | app_control_event_kernel_module/src/wait.c:23-152 | From every state with a stall about to wait, a run in which an early continuation makes its timeout not a denial. |
| StallProtocol.DenyOnTimeoutDisarmed | app_control_event_kernel_module/src/wait.c:23-152 | A run from the start in which a stall that was filled in under deny-on-timeout times out and is not denied. |
| StallVerdicts.AnswerEndsWait | app_control_event_kernel_module/src/stall_tbl.c:480-498 | In every run, once a waiting stall is answered or released it can be woken and cannot time out, whatever happens next. |
| StallVerdicts.AnsweredVerdictExactly | app_control_event_kernel_module/src/wait.c:93-135 | In every run a stall that is woken, unless to wait on, is decided by the last answer its entry got, so it is denied if and only if that was a denial. |
| StallVerdicts.FirstWaitExactly | app_control_event_kernel_module/src/wait.c:40 | In every run the first wait is as long as the timeout configured when the stall starts. |
| StallVerdicts.ContinuedExactly | app_control_event_kernel_module/src/wait.c:108-129 | In every run a continued stall goes back to wait exactly as long as the last answer asked for, up to 255 times; the 256th ends it without a denial. |
| StallTable.EnablesExactly | app_control_event_kernel_module/src/stall_tbl.c:417-502 | An answer enables or clears the inode cache exactly when it allows and asks for it. |
| StallTable.StallTable.constructor | app_control_event_kernel_module/src/stall_tbl.c:198-242 | A new table is disabled and has no stalls. |
| StallTable.StallTable.Insert | app_control_event_kernel_module/src/stall_tbl.c:357-415 | The event is stalled with the configured default verdict; no other entry changes; a disabled table takes nothing. |
| StallTable.StallTable.Resume | app_control_event_kernel_module/src/stall_tbl.c:417-502 | Which code comes back; on success exactly the entry of the key is answered, as the three response codes say and with the wait they ask for; what is to be done to the inode cache. |
| StallTable.StallTable.RemoveEntry | app_control_event_kernel_module/src/stall_tbl.c:504-531 | Exactly the entry is gone. |
| StallTable.StallTable.Disable | app_control_event_kernel_module/src/stall_tbl.c:140-162 | The loop over the buckets releases every entry with an allowance. |
| StallTable.DenialHasCause | app_control_event_kernel_module/src/wait.c:132-135 | A denial comes from the default verdict or from an answer that denies, never from continuations. |
| StallTable.OutcomeExactly | app_control_event_kernel_module/src/wait.c:48-152 | The end of a stall in closed form, by the first turn that is no continuation. |
| StallTable.DoStallInterruptible | app_control_event_kernel_module/src/wait.c:23-152 | The retry loop terminates; whether it denies, whether it takes the entry out, how often it waits and for how long in all, each exactly by the turns it gets. |
| ExecArgs.BlobContents | bpf_probe/src/sensor.bpf.c:502-561 | Up to 30 pieces the blob is every argument with its terminator; otherwise it is a beginning of that and an ellipsis; its size is bounded. |
| ExecArgs.BlobRoundTrip | bpf_probe/src/sensor.bpf.c:502-561 | Splitting the blob at its terminators gives back the arguments. |
| ExecArgs.ReadStr | bpf_probe/src/sensor.bpf.c:523 | A bounded string read: as much of the string as fits, always terminated, and the number of characters written. |
| ExecArgs.ReadChunk | bpf_probe/src/sensor.bpf.c:523-546 | One piece is written behind the others, without its terminator when the argument goes on. |
| ExecArgs.TakeChunk | bpf_probe/src/sensor.bpf.c:521-552 | One turn of the loop moves one piece from what is to come to what is done. |
| ExecArgs.WriteEllipsis | bpf_probe/src/sensor.bpf.c:554-556 | The ellipsis and its terminator go behind what is there. |
| ExecArgs.BlobifyStrArray | bpf_probe/src/sensor.bpf.c:502-561 | The loop writes the blob, within the buffer, for every argument vector. |
| ExecMessages.SubmitAllArgs | bpf_probe/src/bcc_sensor.c:634-682 | The loop sends the pieces, each marked as new or as a continuation, an ellipsis at the limit, and the final message. |
| ExecMessages.AllMsgsCount | bpf_probe/src/bcc_sensor.c:634-682 | There is one message per piece, the first one opens an argument and none is final. |
| ExecMessages.ShortCommandRoundTrip | bpf_probe/examples/bcc_sample.py:266-287 | Up to 29 pieces the reader reports the arguments joined by spaces, once, and keeps nothing. |
| ExecMessages.LongCommandTruncated | bpf_probe/src/bcc_sensor.c:634-682 | From 30 pieces on it reports a beginning of them and an ellipsis, once, and keeps nothing. |
| ExecMessages.FirstMessageStaysInFront | bpf_probe/examples/bcc_sample.py:266-287 | The text of whatever message opens a task's record stands in front of the command line that is reported next. |
| ExecMessages.EmptyCommandIsNotReported | bpf_probe/src/bcc_sensor.c:634-682 | An empty argument vector is sent as a final message alone, which opens a record and reports nothing. |
| ExecMessages.ExecMessagesLeaveArguments | bpf_probe/examples/bcc_sample.py:278-299 | Messages about the executed file, wherever they come within a command line, do not change what is reported of it. |
| ExecMessages.ExecReader.HandleExecEvent | bpf_probe/examples/bcc_sample.py:444-452 | A message changes and reports on its own task only. |
| ExecMessages.ExecReader.HandleAll | bpf_probe/examples/bcc_sample.py:444-452 | However the messages of many tasks are interleaved, each task gets what its own messages alone would give it. |
| PathSplit.ChompSlashes | app_control_event_kernel_module/src/path_utils.c:540-547 | Exactly the trailing slashes are blanked, and the length is what is left. |
| PathSplit.CopyComponent | app_control_event_kernel_module/src/path_utils.c:354-401 | The backward copy ends at the last slash with the component at the end of the buffer, or stops because it does not fit. |
| PathSplit.IsDotEntry | app_control_event_kernel_module/src/path_utils.c:364-370 | The test on the buffer's end recognises exactly the two dot entries. |
| PathSplit.FindComponent | app_control_event_kernel_module/src/path_utils.c:356-401 | Finds the outcome that the path and the room define, and the component in the buffer when there is one. |
| PathSplit.CutComponent | app_control_event_kernel_module/src/path_utils.c:372-380 | Leaves the directory part in the path buffer, nothing if there is none, and the name buffer as it was. |
| PathSplit.ParseLastComponent | app_control_event_kernel_module/src/path_utils.c:339-404 | Which of a position, no component and too long comes back, and what is in both buffers, for every input. |
| PathSplit.SplitRoundTrip | app_control_event_kernel_module/src/path_utils.c:339-404 | Directory, slash and component put together again are the path; the component is not empty and has no slash. |
| PathSplit.OutcomeExactly | app_control_event_kernel_module/src/path_utils.c:339-404 | No component exactly for the dot entries, too long exactly when it exceeds the buffer less its terminator. |
| EventStream.FillIn | app_control_event_kernel_module/src/factory.c:2027-2041 | Every path's offset is where the paths before it end, and the length field is the length of the whole message. |
| EventStream.PathRecovered | app_control_event_kernel_module/src/factory.c:915-979 | Following offset and size of any path field gives that path. |
| EventStream.LengthRecovered | app_control_event_kernel_module/src/factory.c:915-979 | A message begins with its own length, low octet first, whatever follows it. |
| EventStream.MessageRoundTrip | app_control_event_kernel_module/src/factory.c:915-979 | Decoding a message gives back the event, body and all paths. |
| EventStream.SplitMessages | app_control_event_kernel_module/src/stall_reqs.c:71-175 | Cutting any number of messages back to back at their length fields gives back the events. |
| EventRead.CopyEvent | app_control_event_kernel_module/src/factory.c:915-979 | Copying an event part by part writes its message behind what is there, the final comparison of lengths never fails, and the only error is a buffer that is too small. |
| EventRead.CopyLimitKeptExactly | app_control_event_kernel_module/src/stall_reqs.c:164-168 | The copy limit holds if and only if it is not one event with a second that is there by then, fits and is not cut off by a signal; even then two events are the most. |
| EventRead.ReadInOrder | app_control_event_kernel_module/src/stall_reqs.c:71-175 | Whatever happens to the queue during a read, what is handed over and then what is left are events of the queue and of those added, in that order. |
| EventRead.ReadConserves | app_control_event_kernel_module/src/stall_reqs.c:71-175 | Unless the queue is cleared meanwhile, nothing that was queued is lost and nothing is made up: handed over and left together are the queue and a beginning of what was added. |
| EventRead.HandFromIs | app_control_event_kernel_module/src/stall_reqs.c:117-168 | The loop read as one that adds to what it has taken, and read as what the rest comes to, are the same. |
| EventReadEnds.ReadEndsExactly | app_control_event_kernel_module/src/stall_reqs.c:71-175 | Whatever happens meanwhile: a read hands over what its looks at the queue find, and ends at the first point where a signal is pending, the limit is reached, the table is off, the queue is empty or the next event does not fit, and not before. |
| EventReadEnds.QuietReadIsLongest | app_control_event_kernel_module/src/stall_reqs.c:71-175 | A read that is left alone hands over the longest beginning of the queue that fits the buffer and the limit. |
| EventRead.EventQueue.Shift | app_control_event_kernel_module/src/stall_tbl.c:113-138 | The oldest event is taken exactly when it fits; otherwise the queue stays. |
| EventRead.EventQueue.TakeNext | app_control_event_kernel_module/src/stall_reqs.c:127-162 | One event moves from the front of the queue to the end of the client's buffer exactly when it fits. |
| EventRead.EventQueue.Turn | app_control_event_kernel_module/src/stall_reqs.c:117-162 | One turn on the queue as it is found then: the oldest event is handed over exactly when the table is on and the event fits. |
| EventRead.EventQueue.Round | app_control_event_kernel_module/src/stall_reqs.c:117-168 | One pass through the loop's body, with its tests of space and limit, leaves a state from which the loop goes on to the same end, or is that end. |
| EventRead.EventQueue.ReadMore | app_control_event_kernel_module/src/stall_reqs.c:117-168 | The loop after the first event, with the queue added to, cleared or switched off meanwhile, leaves the messages of exactly the events it took, in order, in the client's buffer, and how many it takes. |
| EventRead.EventQueue.Read | app_control_event_kernel_module/src/stall_reqs.c:71-175 | What is in the client's buffer splits into exactly the events taken, in order, within the buffer, whatever happens to the queue meanwhile; nothing is returned exactly when nothing is taken. |

## Left out

- The network, file, process and isolation logic of the collector module, and its tables: their members would be look-ups without a property across calls.
- Everything of a DNS message but its names.
- Loading and attaching of probes, lost-record counts, and the perf buffers' own ring format.
- Records that a CPU stamps and writes in two steps: stamp and write are one step here; the source allows for the gap with a short sleep before it polls again.
- Running out of memory for a record that was read.
- EventMerge.BatchDeliveredWithinTwoPolls: needs stamps that differ from record to record; with equal stamps a batch may grow for as long as such records come.
- DrainLoop.ModuleControl.Delay: assumes that 100 microseconds suffice for every hook that saw the flag up to count itself; `ModuleState.ShortDelayUnsafe` shows what happens if not.
- DrainLoop.ModuleControl.Sleep: assumes that some active hook finishes, which is what makes the drain loop end.
- DrainLoop.ModuleControl.DisableModule: rests on these two assumptions and has no second caller; `ModuleState` has the interleavings.
- Memory ordering: stores are seen in program order.
- The counter of hits of a task entry and the statistics of all caches.
- InodeRuns.SkippedOpenWasEnabled: says that nothing took the entry out since the answer took effect; that nothing did since the client gave it needs the conditions of `InodeRuns.QuietOpensAreTrusted`, because without them it is false.
- Request ids that wrap around at 64 bits.
- The counter that turns stalling off after many timeouts, and the timing records of waits.
- StallProtocol.ClosedCheckLeavesEntry: the entry keeps its contents; that its memory is freed when the hook returns is not modelled.
- Faults while copying to or from user memory.
- The multi-byte characters that a cut at a piece boundary may split.
- Kernels without a string read, where arguments are cut at one piece.
- Relative look-ups, mounts and the appending of the component to the directory's path.
- EventStream.FillIn: messages of 64 KiB and more are excluded; paths are limited to one page and no event has more than two, so the length field does not wrap.
- EventStream.MessageRoundTrip: one layout of path fields and a body stands for the event structures; where in the fixed part of its structure a field lies is not modelled, and neither are file descriptors passed along with an event.
- EventStream.PathRecovered: the same.
- ExecMessages.ExecReader.HandleExecEvent: of the messages about the executed file only that they leave the command line alone; the path and the ids they collect are not modelled.
- ExecMessages.ExecReader.HandleAll: the same.

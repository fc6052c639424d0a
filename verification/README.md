# LustreTools, modelled and verified in Dafny

Three parts of the repository are modelled, and their behaviour is proved over every input and every run.

**The SSCDT request scheduler** (`code/nrs_sscdt.c`). `SscdtOrder` is the comparator: time window, then client
nid, then pid. `BinaryHeap` is an array heap over any comparator. `SscdtHead` is one policy instance as a value
with its calls, `SscdtService` what those calls mean for service order and waiting, `SscdtSystem` any number of
instances sharing the module-wide `interval`, with start, stop, enqueue, poll, dequeue and ctl in any order.
`SscdtPolicy` is the same policy as objects that are updated in place: requests that store their heap index and
sequence number, the heap, an instance, and the shared interval. The main results:

- every run keeps every heap ordered and every poll returns a minimum of the queued bag, provided each interval
  write passes a test that its caller can make; the test is exact, and when it fails a four-call run hands out
  the wrong request;
- a drained queue is a sorted permutation whose key sequence depends on the queued keys alone;
- a queued request waits for at most the requests ahead of it plus the arrivals it does not precede;
- requests are conserved, and sequence numbers increase exactly as long as fewer than 2^64 were handed out.

**The controller and its nodes** (`batch/ctrl/multexu_lib.sh`, the deploy and install drivers). `SignalProtocol`
is a state machine: posted commands arrive late, out of order or never, workers are killed by restarts or fail,
and barriers poll one node at a time. It reads a script once per node (`TrackAfter`) and proves that this reading
is true in every run. `ProtocolLaws` says what single events leave alone,
what a pass counts and when exactly a barrier is left. `Drivers` holds the two driver scripts and the phase orders
that follow; `DriverScripts` shows that they are the scripts line by line. `PromptRuns` builds
runs in which everything is prompt but a few held commands; with them `DeployExactness` and `InstallExactness` show
that the conditions of the phase orders are exact, and that the scripts can complete:

- OSS workers end before client workers start in all runs exactly when the MDS is no OSS node, and deploy completes
  only after every mount exactly when no client is the MDS or an OSS node;
- install keeps its order, and ends only after every package worker, exactly when no node shows EXECUTE at the
  start: its first phase is not preceded by a reset, and one left-over signal can put every later barrier a phase ahead of its workers.

`Barrier` models the polling loops and their sleeps and says for which node tables a barrier means what it should.
`DriverCalls` takes the drivers' calls of multexu.sh through `Options` and `Dispatch` and shows that they are the
postings the state machine has: one command to each word of the table that the barriers count.

**multexu.sh and the fio test plan.** `Shell`, `Decimal`, `Addresses`, `Options`, `OptionLaws` and `Dispatch` take a command
line through word splitting, the option loop, address validation and dispatch; `FioPlan` models the nested test
loops and the result files. `Arithmetic` and `Common` hold shared helpers.

Where the code and its documentation disagree, the code is followed:

- `sscdt_req_compare` returns nonzero when its first argument comes first; the comment above it says the opposite.
- The header gives the default interval as 1000000 ns, the variable is 1000 and is used in milliseconds.
- Send times are whole seconds, so every interval from 1 to 1000 orders requests alike; the documented settings
  1000 and 250 do not differ.
- `nodes_all.out`, `nodes_oss.out` and `nodes_client.out` do not end their last line and `nodes_server.out` has a
  blank one. A barrier over a table whose last line is open exits while one node is not ready
  (`Barrier.OpenTableExitsEarly`), and no barrier opens for a table with more lines than words. The phase orders
  therefore ask for proper tables.
- multexu.sh strips carriage returns from table words and the barrier loops do not; `DriverCalls` asks for words
  without them.

Conventions: an `Rpc` id stands for the address of the request; `rq_sent` is a natural number whose product with
1000 fits 64 bits; `nid` and `pid` are natural numbers. Operations on queues require a nonzero interval, since the
comparator divides by it; `Ctl` itself accepts every value, and `SafeWrite` asks for a nonzero one. Operations are
serialised, as `nrs_lock` makes them. Time in the polling loops passes only while they sleep. What a node's file
or a control file holds at each moment is a parameter.

## Model

| member | source | states |
|---|---|---|
| `SscdtOrder.WindowIs` | code/nrs_sscdt.c:103-104 | a request is in window w if and only if it was sent in [w * interval, (w + 1) * interval) milliseconds |
| `SscdtOrder.OrderOnTimeAxis` | code/nrs_sscdt.c:103-116 | requests sent in one such stretch are ordered by (nid, pid) alone, requests of different stretches by time |
| `SscdtOrder.WindowMonotone` | code/nrs_sscdt.c:103-104 | later requests never fall into earlier windows, for every interval |
| `SscdtOrder.PrecedesIsLexicographic` | code/nrs_sscdt.c:103-116 | the comparator, which compares raw send times across windows, is strict lexicographic order on (window, nid, pid) |
| `SscdtOrder.NarrowOrderIgnoresInterval` | code/nrs_sscdt.c:103-116 | for every interval in 1..1000 the order is the one on (rq_sent, nid, pid), independent of the interval |
| `SscdtOrder.CoarserWindowsMerge` | code/nrs_sscdt.c:103-104 | equal windows stay equal when the width is multiplied |
| `SscdtOrder.CoarseningAgreement` | code/nrs_sscdt.c:103-116 | a width and its multiple order a pair alike unless the multiple merges two windows of the pair |
| `SscdtOrder.InterchangeableAgree` | code/nrs_sscdt.c:103-116 | equal widths, or two widths up to 1000, give the same comparator |
| `SscdtOrder.InversionExists` | code/nrs_sscdt.c:103-116 | any other two widths order some pair of requests in opposite ways |
| `BinaryHeap.InsertAdds` | code/nrs_sscdt.c:348 | insertion adds exactly the new element, under any comparator |
| `BinaryHeap.InsertOrders` | code/nrs_sscdt.c:348 | insertion keeps heap order under any strict weak order |
| `BinaryHeap.RemoveAtRemoves` | code/nrs_sscdt.c:369 | removal at any position takes out that element and nothing else |
| `BinaryHeap.RemoveAtOrders` | code/nrs_sscdt.c:369 | removal at any position, not only the root, keeps heap order |
| `BinaryHeap.RootIsLeast` | code/nrs_sscdt.c:307 | no element of an ordered heap precedes its root |
| `SscdtHead.ComparatorIsStrictWeak` | code/nrs_sscdt.c:87-123 | the comparator is asymmetric and its incomparability is transitive, for every interval |
| `SscdtHead.ApplyKeepsOrder` | code/nrs_sscdt.c:303-370 | enqueue, poll and dequeue keep the heap ordered under the interval in force |
| `SscdtHead.ApplyChangesBag` | code/nrs_sscdt.c:303-370 | each call changes the bag of queued requests by exactly the request it names |
| `SscdtHead.ReplyIsLeast` | code/nrs_sscdt.c:306-311 | what a poll returns is queued and no queued request precedes it |
| `SscdtHead.SwitchKeepsOrder` | code/nrs_sscdt.c:233-235 | an interval write between interchangeable widths, or over at most one request, keeps heap order |
| `SscdtHead.RunConserves` | code/nrs_sscdt.c:303-370 | over all calls and all intervals: queued and enqueued requests are served, dequeued or still queued, as bags |
| `SscdtHead.StopAssertionIffBalanced` | code/nrs_sscdt.c:184-196 | the emptiness assertion at stop holds exactly when the enqueued bag equals the served and dequeued bags |
| `SscdtHead.AssignedNumber` | code/nrs_sscdt.c:349 | the k-th attempt, refused or not, gets number 1 + k modulo 2^64 |
| `SscdtHead.NumbersIncreaseIffNoWrap` | code/nrs_sscdt.c:349 | numbers strictly increase exactly while fewer than 2^64 attempts were made |
| `SscdtHead.RunKeepsNumbered` | code/nrs_sscdt.c:337-351 | queued requests carry distinct numbers from 1 up, all below the counter, until it wraps |
| `SscdtService.DrainSorts` | code/nrs_sscdt.c:303-326 | as many polls as there are requests hand out a sorted permutation of the queue and empty it |
| `SscdtService.SameKeyIsContiguous` | code/nrs_sscdt.c:103-116 | requests of one client in one window are served next to each other |
| `SscdtService.ServersAgree` | code/nrs_sscdt.c:103-116 | two servers serve any two distinct keys they share in the same relative order |
| `SscdtService.KeySequenceIsDetermined` | code/nrs_sscdt.c:303-326 | two queues with the same keys are served in the same key sequence, whatever their histories |
| `SscdtService.EnqueueAll` | code/nrs_sscdt.c:337-351 | any requests with distinct ids can be queued in any order, and then exactly these are queued |
| `SscdtService.ServedInTime` | code/nrs_sscdt.c:303-351 | a request that is not dequeued is served once the polls exceed the requests ahead of it plus the arrivals it does not precede |
| `SscdtService.LaterWindowsNeverDelay` | code/nrs_sscdt.c:106-111 | arrivals from strictly later windows add nothing to that bound |
| `SscdtService.ApplyKeepsDistinct` | code/nrs_sscdt.c:337-370 | ids keep naming at most one queued request |
| `SscdtSystem.StepKeepsConsistent` | code/nrs_sscdt.c:140-370 | every operation with a safe write keeps all heaps ordered under the current interval |
| `SscdtSystem.RunKeepsConsistent` | code/nrs_sscdt.c:140-370 | so does every run over any number of instances sharing the interval |
| `SscdtSystem.StepRefinesBags` | code/nrs_sscdt.c:140-370 | every operation does to the bags what bags allow; a poll returns a minimum |
| `SscdtSystem.RunRefinesBags` | code/nrs_sscdt.c:303-370 | at every step of every safe run the heaps refine bags |
| `SscdtSystem.WriteIsHarmlessIff` | code/nrs_sscdt.c:230-236 | for given queue lengths, a write keeps every consistent system consistent if and only if the widths are interchangeable or no queue holds two requests |
| `SscdtSystem.UnsafeWriteMisserves` | code/nrs_sscdt.c:230-236 | for any other change of width, starting, two enqueues and the write lead to a poll that returns a request which another one precedes |
| `SscdtSystem.InstanceSeesOwnCalls` | code/nrs_sscdt.c:140-173 | between start and stop an instance depends only on its own calls and the intervals in force |
| `SscdtSystem.InstanceFromStart` | code/nrs_sscdt.c:140-164 | from its start an instance is a fresh head, counting from 1, that saw its own calls |
| `SscdtSystem.IntervalIsLastWritten` | code/nrs_sscdt.c:230-236 | after every run the interval is what 32 bits keep of the last value written, or what it was |
| `SscdtPolicy.Binheap.Bubble` | code/nrs_sscdt.c:125-129 | the loop towards the root computes the specified heap, fixes every stored index, and reports whether it moved |
| `SscdtPolicy.Binheap.Sink` | code/nrs_sscdt.c:125-129 | the loop towards the leaves computes the specified heap and fixes every stored index |
| `SscdtPolicy.Binheap.Insert` | code/nrs_sscdt.c:348 | the heap becomes the specified insertion, with right back-pointers and exactly one new node |
| `SscdtPolicy.Binheap.Remove` | code/nrs_sscdt.c:369 | the heap becomes the specified removal at the stored index; all other nodes stay, with right back-pointers |
| `SscdtPolicy.Binheap.Root` | code/nrs_sscdt.c:307 | the first node, or null when there is none |
| `SscdtPolicy.Tunables.constructor` | code/nrs_sscdt.c:66 | the interval starts at 1000 |
| `SscdtPolicy.Tunables.Ctl` | code/nrs_sscdt.c:212-240 | reads give the interval, writes keep the low 32 bits, other opcodes give -EINVAL and change nothing |
| `SscdtPolicy.Policy.constructor` | code/nrs_sscdt.c:140-164 | a started instance is empty and counts from 1 |
| `SscdtPolicy.Policy.Stop` | code/nrs_sscdt.c:184-196 | demands an empty heap |
| `SscdtPolicy.Policy.Get` | code/nrs_sscdt.c:303-326 | returns the root or null and moves the instance as the specified poll does; a peek changes nothing |
| `SscdtPolicy.Policy.Add` | code/nrs_sscdt.c:337-351 | moves the instance as the specified enqueue does and writes the counter into the request, also when the heap is full |
| `SscdtPolicy.Policy.Del` | code/nrs_sscdt.c:360-370 | removing through the stored index is the specified removal by identity |
| `SignalProtocol.BackgroundKeepsHolds` | batch/deploy/__configure_ossnode.sh:18-68 | arrivals, losses, endings and restarts never falsify what the script has established of a node |
| `SignalProtocol.MatchIsSound` | batch/ctrl/multexu_lib.sh:177-182 | reading EXECUTE from a node with one pending worker shows that it ended; reading REBOOT from an idle node shows that no EXECUTE is left |
| `SignalProtocol.RunKeepsInv` | batch/ctrl/multexu_lib.sh:161-195 | in every run, with commands delayed, reordered, lost or killed, the reading of the script is true of the cluster |
| `SignalProtocol.AcknowledgedBefore` | batch/ctrl/multexu_lib.sh:161-195 | a worker posted after a barrier starts only after the workers that the barrier acknowledges have ended |
| `SignalProtocol.SimultaneousAtExit` | batch/ctrl/multexu_lib.sh:171-187 | if signals persist through a successful pass over a well-formed table, all its nodes show the wanted signal at once when it exits |
| `ProtocolLaws.EventFrame` | batch/ctrl/multexu.sh:119-128 | an event of one command changes no other command, worker or file, except that a restart stops exactly the workers of its node |
| `ProtocolLaws.EventEffect` | batch/ctrl/multexu_lib.sh:57-77 | what an event does to its command, its worker and the file of its node |
| `ProtocolLaws.ControllerFrame` | batch/ctrl/multexu_lib.sh:171-187 | the controller changes no worker and no file, and a read that fails counts nothing |
| `ProtocolLaws.NothingIsRefused` | batch/ctrl/multexu.sh:126 | in every reachable state any command may arrive or be lost, any worker may end or die, and the controller can go on |
| `ProtocolLaws.CountIsHits` | batch/ctrl/multexu_lib.sh:173-183 | in every run the count is the number of answered reads of the pass that showed the wanted signal |
| `ProtocolLaws.LeavesBarrierIff` | batch/ctrl/multexu_lib.sh:185-187 | in every run the controller leaves a barrier if and only if it decides after a whole pass with exactly as many such reads as the table has lines |
| `ProtocolLaws.ConcurrentPhase` | batch/ctrl/multexu.sh:119-128 | from any still state some run has all workers of the next phase running at once, ends them in any given order, and passes the barrier |
| `Drivers.ProperIffLastLineEnded` | batch/ctrl/multexu_lib.sh:168-175 | a table of distinct addresses, one a line, is proper with its last line ended and improper without |
| `DriverScripts.DeployIsLines` | batch/deploy/auto_lustre2.8.0_deploy.sh:82-170 | the deploy program is the script's lines, each command posted to its table in order, each barrier where it stands |
| `DriverScripts.InstallIsLines` | batch/install/auto_lustre2.8.0_install.sh:53-112 | so is the install program; with `skip_install_kernel` only the package lines are left |
| `DriverScripts.InstallWithoutKernel` | batch/install/auto_lustre2.8.0_install.sh:103-112 | without the kernel step, one worker per server in order, one per client in order, one barrier, one clear each, and nothing else |
| `DriverScripts.DeployResets` | batch/deploy/auto_lustre2.8.0_deploy.sh:99-132 | at every REBOOT barrier the last three commands posted to each listed node are one clear, one mark and one restart, in this order |
| `DriverScripts.InstallResets` | batch/install/auto_lustre2.8.0_install.sh:59-93 | the same of the install script |
| `DriverScripts.DeployIsSent` | batch/deploy/auto_lustre2.8.0_deploy.sh:82-170 | everything the deploy script sends to a node, in order, by the tables that list it; between partitioning and configuration exactly one reset |
| `DriverScripts.InstallSends` | batch/install/auto_lustre2.8.0_install.sh:53-112 | everything a node is sent: three workers with one reset between each two, or one worker and no reset |
| `Drivers.TrackReset` | batch/deploy/auto_lustre2.8.0_deploy.sh:98-109 | a reset makes idle nodes of its table quiet and tells nothing of others |
| `Drivers.PhaseAcknowledges` | batch/deploy/auto_lustre2.8.0_deploy.sh:117-118 | the barrier of a phase acknowledges each of its workers whose node was quiet before |
| `Drivers.MdsAfterParted` | batch/deploy/auto_lustre2.8.0_deploy.sh:116-150 | no MDS, OSS or client worker starts before every partition worker has ended |
| `Drivers.OssAfterMds` | batch/deploy/auto_lustre2.8.0_deploy.sh:148-158 | no OSS or client worker starts before the MDS worker has ended |
| `Drivers.ClientsAfterOss` | batch/deploy/auto_lustre2.8.0_deploy.sh:156-166 | if the MDS is no OSS node, no client worker starts before every OSS worker has ended |
| `Drivers.DeployComplete` | batch/deploy/auto_lustre2.8.0_deploy.sh:164-171 | the script reaches its end only after every client mount has ended, clients being separate nodes |
| `Drivers.InstallOrder` | batch/install/auto_lustre2.8.0_install.sh:53-105 | with the kernel step, no package worker starts before every kernel worker has ended |
| `Drivers.InstallComplete` | batch/install/auto_lustre2.8.0_install.sh:103-107 | with or without the kernel step, the final barrier passes only after every package worker has ended |
| `PromptRuns.PromptRun` | batch/ctrl/multexu_lib.sh:161-195 | if every barrier finds its signals when all but some held commands are prompt, the controller gets through |
| `DeployExactness.StaleSignalRun` | batch/deploy/auto_lustre2.8.0_deploy.sh:148-166 | if the MDS is an OSS node, a client worker can start while that node's OSS worker has not even arrived |
| `DeployExactness.OrderHoldsIffMdsSeparate` | batch/deploy/auto_lustre2.8.0_deploy.sh:148-166 | OSS workers end before client workers start in all runs if and only if the MDS is no OSS node |
| `DeployExactness.StaleClientRun` | batch/deploy/auto_lustre2.8.0_deploy.sh:153-171 | if a client is the MDS or an OSS node, the script can complete before the mount on it has started |
| `DeployExactness.MountedAtEndIffClientsSeparate` | batch/deploy/auto_lustre2.8.0_deploy.sh:148-171 | all mounts have ended at completion in all runs if and only if no client is the MDS or an OSS node |
| `DeployExactness.DeployCanComplete` | batch/deploy/auto_lustre2.8.0_deploy.sh:82-171 | with proper, covered tables some run passes every barrier and ends every worker |
| `DeployExactness.OssWorkersTogether` | batch/deploy/_configure_ossnode.sh:55-61 | in some run all OSS workers run at the same time, end in any given order, and the OSS barrier opens |
| `InstallExactness.StaleKernelRun` | batch/install/auto_lustre2.8.0_install.sh:53-95 | from a state with one left-over EXECUTE a run reaches the packages while that node's kernel worker has not arrived |
| `InstallExactness.InstallOrderIffCleanStart` | batch/install/auto_lustre2.8.0_install.sh:53-105 | kernel workers end before package workers start in all runs from a state if and only if no node shows EXECUTE in it |
| `InstallExactness.InstalledIffCleanStart` | batch/install/auto_lustre2.8.0_install.sh:53-107 | with or without the kernel step, the final barrier implies that every package worker ended if and only if no node shows EXECUTE at the start |
| `InstallExactness.InstallCanComplete` | batch/install/auto_lustre2.8.0_install.sh:53-107 | with partitioned tables some run passes the final barrier |
| `DriverCalls.UnderscoreHides` | batch/ctrl/multexu.sh:191 | an option with an underscore between its dashes and its equals sign does not stop the command loop |
| `DriverCalls.DriverWordsArePlain` | batch/deploy/auto_lustre2.8.0_deploy.sh:99-166 | the drivers' commands, the one that writes REBOOT included, get through the option loop whole |
| `DriverCalls.CallPosts` | batch/deploy/auto_lustre2.8.0_deploy.sh:99-101 | a driver's call over a table file posts its command once to each word of the table, or to nobody |
| `DriverCalls.RebootPosts` | batch/deploy/auto_lustre2.8.0_deploy.sh:103 | a reboot call restarts exactly the listed nodes, or none |
| `Barrier.ClosedTable` | batch/ctrl/multexu_lib.sh:168-175 | with every line ended, the newline count equals the word count |
| `Barrier.ExitIsExactIff` | batch/ctrl/multexu_lib.sh:173-187 | a pass exits exactly when every node was ready, whatever it read, if and only if the table has as many lines as words |
| `Barrier.OpenTableExitsEarly` | batch/ctrl/multexu_lib.sh:168-187 | with the last line open, every exiting pass has seen exactly one node not ready |
| `Barrier.MatchesAreCounted` | batch/ctrl/multexu_lib.sh:180-182 | the count of a pass is the number of nodes that show the status, wherever they are in the table |
| `Barrier.NewlinesAreCounted` | batch/ctrl/multexu_lib.sh:168 | the line count is the number of newline characters |
| `Barrier.SleepHalves` | batch/ctrl/multexu_lib.sh:190-192 | if h is least with first / 2^h <= limit, the k-th sleep is first / 2^min(k, h) |
| `Barrier.HalvingsExist` | batch/ctrl/multexu_lib.sh:190-192 | there is such an h for every first sleep and limit |
| `Barrier.PollsAreSleepsApart` | batch/ctrl/multexu_lib.sh:189-192 | the first poll is at time 0 and polls are exactly these sleeps apart |
| `Barrier.SleepBounds` | batch/ctrl/multexu_lib.sh:190-192 | sleeps never rise and never fall below the smaller of the first sleep and (limit + 1) / 2 |
| `Barrier.PollTimeBound` | batch/ctrl/multexu_lib.sh:189-192 | k sleeps take at most twice the first one plus k times the limit |
| `Barrier.WaitBound` | batch/ctrl/multexu_lib.sh:110-124 | a loop still waiting before time T stops within one sleep of T, after at most T divided by the shortest sleep plus 2 polls |
| `Barrier.CheckStatus` | batch/ctrl/multexu_lib.sh:99-155 | the loop stops at the first poll that sees the status, and was still waiting before it was there for good |
| `Barrier.CountPass` | batch/ctrl/multexu_lib.sh:173-183 | one pass counts the ready nodes, and reaches their number exactly when all are |
| `Barrier.PollCluster` | batch/ctrl/multexu_lib.sh:171-194 | the loop stops at the first pass whose count is the line count |
| `Barrier.CheckClusterStatus` | batch/ctrl/multexu_lib.sh:161-195 | the loop stops at the first pass whose count equals the line count; with a proper table every node was ready then |
| `Shell.WordsOfJoin` | batch/ctrl/multexu.sh:264 | words joined by a whitespace character split back to the same words |
| `Shell.WordsOfConcat` | batch/ctrl/multexu_lib.sh:175 | blanks, tabs and newlines separate words, wherever they stand and however many there are |
| `Shell.WordAlone` | batch/ctrl/multexu_lib.sh:175 | nothing else does |
| `Addresses.SplitOfJoin` | batch/ctrl/multexu.sh:64-68 | splitting undoes joining of fields without the separator |
| `Addresses.ShowIsValid` | batch/ctrl/multexu.sh:29-42 | every printed quad passes validation |
| `Addresses.ShowIsInjective` | batch/ctrl/multexu.sh:29-42 | two quads with the same text are equal |
| `Addresses.AcceptedIffShown` | batch/ctrl/multexu.sh:29-42 | a text is accepted and free of leading zeros exactly when it is the print of a quad of 0..255, as for IPv4address in section 3.2.2 of RFC 3986 |
| `Addresses.ValidOctetIff` | batch/ctrl/multexu.sh:33-38 | an octet is accepted if and only if it is the print of a number up to 255 or two or three octal digits after a leading zero |
| `Addresses.ValidIpIff` | batch/ctrl/multexu.sh:29-42 | a text is accepted if and only if it is four accepted octets with dots between them |
| `Options.OptionLikeMeans` | batch/ctrl/multexu.sh:191 | the stop test of the command loop is the existence of a dash, letters, an equals sign and a letter in a row |
| `Options.Swallow` | batch/ctrl/multexu.sh:188-196 | the inner loop appends words up to the first one that looks like an option with a value |
| `Options.GetParameters` | batch/ctrl/multexu.sh:149-228 | the option loop ends on every argument list with the specified outcome |
| `OptionLaws.SettingsParse` | batch/ctrl/multexu.sh:153-216 | table, files, location and reboot options take effect in any order and number, the last of each kind, and the loop goes on behind them |
| `OptionLaws.ExitingArgument` | batch/ctrl/multexu.sh:155-212 | help and version exit with 0, an option without its value with 1, whatever was set before |
| `OptionLaws.PlainArgument` | batch/ctrl/multexu.sh:224-226 | a word that is no option ends the loop with what was set before it |
| `OptionLaws.DefineArgument` | batch/ctrl/multexu.sh:175-183 | `-u` without a next argument exits with 1; otherwise that argument is read as one of its own |
| `OptionLaws.UnknownArgument` | batch/ctrl/multexu.sh:217-223 | an unknown option is skipped |
| `OptionLaws.ShortCommand` | batch/ctrl/multexu.sh:188 | `-c=` does what `--cmd=` does |
| `OptionLaws.ShortTable` | batch/ctrl/multexu.sh:201 | `-i=` does what `--iptable=` does |
| `OptionLaws.ShortFiles` | batch/ctrl/multexu.sh:167 | `-s=` does what `--sendfile=` does |
| `OptionLaws.ShortLocation` | batch/ctrl/multexu.sh:159 | `-l=` does what `--location=` does |
| `OptionLaws.ShortReboot` | batch/ctrl/multexu.sh:213 | `-r` does what `--reboot` does |
| `Options.CommandReassembled` | batch/ctrl/multexu.sh:188-204 | table and command words come out as they went in, joined by single spaces |
| `Options.CommandSurvivesIff` | batch/ctrl/multexu.sh:188-196 | a command survives if and only if no word after the first looks like an option with a value |
| `Options.SuperSurvivesIff` | batch/ctrl/multexu.sh:184-187 | the last-resort form keeps all words if and only if no later word repeats its own name |
| `Dispatch.EntriesAreNonempty` | batch/ctrl/multexu.sh:102-104 | unquoted expansion of the address list drops exactly the empty entries |
| `Dispatch.CheckIpArray` | batch/ctrl/multexu.sh:100-112 | 0 exactly when every entry is a valid address |
| `Dispatch.ExecuteSshCmd` | batch/ctrl/multexu.sh:119-128 | the command goes once to each address, in order |
| `Dispatch.SendFiles` | batch/ctrl/multexu.sh:75-95 | the nested loops send each file to each address |
| `Dispatch.ScpIsProduct` | batch/ctrl/multexu.sh:88-94 | the copies are exactly the file-by-address product, in order |
| `Dispatch.Multexu` | batch/ctrl/multexu.sh:149-260 | the script does what options, table and validation prescribe, with that exit status |
| `Dispatch.AllOrNothing` | batch/ctrl/multexu.sh:230-259 | for every command line, one invalid nonempty address means that nothing is sent; otherwise commands and files go to all addresses in order, with status 1 exactly for an incomplete call |
| `Dispatch.CommandReachesExactly` | batch/ctrl/multexu.sh:51-264 | from the command line on, a command reaches exactly the nonempty addresses of its list, or nobody |
| `OptionLaws.FilesReachExactly` | batch/ctrl/multexu.sh:149-264 | a call with table, files and location, in any order, copies exactly the file-by-address product with status 0, or nothing with status 1 if an address is invalid |
| `OptionLaws.SendCall` | batch/ctrl/multexu.sh:149-264 | the same on the texts of the call, each option in short or long form |
| `Dispatch.UnspacedDropsBlanks` | batch/ctrl/multexu.sh:59-64 | white space is stripped from addresses and nothing else is |
| `Dispatch.AddressListRoundTrip` | batch/ctrl/multexu.sh:51-70 | a comma-joined list of dotted quads splits back to the same list and passes validation |
| `FioPlan.SizesAreThePowers` | batch/test/fio_start.sh:148 | the sizes are exactly start * step^i up to end, in order |
| `FioPlan.RunSizes` | batch/test/fio_start.sh:148-185 | the size loop adds its tests up to the first EXIT |
| `FioPlan.RunPatterns` | batch/test/fio_start.sh:141-186 | so does the pattern loop |
| `FioPlan.RunTests` | batch/test/fio_start.sh:136-187 | the tests run are the plan, or exactly its part before the first EXIT |
| `FioPlan.PlanIsProduct` | batch/test/fio_start.sh:136-148 | the plan is the product of policies, patterns and sizes, policy by policy and pattern by pattern |
| `FioPlan.FileNameReads` | batch/test/fio_start.sh:173 | cut at the dashes a file name gives back pattern, policy, size in decimal and unit |
| `FioPlan.PathReads` | batch/test/fio_start.sh:144-174 | cut at the slashes a path gives back directory, pattern and file name |
| `FioPlan.PathsAreDistinct` | batch/test/fio_start.sh:144-173 | with dash-free pattern names, different tests have different result paths |
| `FioPlan.NothingIsOverwritten` | batch/test/fio_start.sh:136-178 | no test of a plan writes over the result of another |

## Left out

- `cfs_binheap` is not part of the repository; the heap here is an ordinary array heap with stored indices, kept in a growing sequence.
- Kernel allocation other than a heap that cannot grow, spinlocks, CPT placement and debug output.
- `st_priority` and `nrs_sscdt_req_priority`, which the comparator does not use, and the resource callbacks, which do nothing.
- A comparison while the interval is zero, which the source answers by dividing by zero.
- The effects of ssh, scp, parted, mkfs, mount, rpm, yum and lctl: a worker clears its signal, works, and writes EXECUTE, which means that it ran to its end.
- Whether a REBOOT barrier shows that a node went down and came back: the mark is written before the restart, so that is a matter of timing.
- A table that lists one address twice: its commands are posted twice, and the phase orders ask for distinct addresses.
- `wait_util_cluster_host_available` and `wait_util_cluster_ssh_enabled` have the loop of `ssh_check_cluster_status`; `ping_get_node_livestat` never reports a live node.
- A first sleep or a limit of zero in the polling loops, with which time does not pass.
- Shell globbing, words that `echo` takes for its own options, and the `eval` in `ssh_get_execute_statu_signal`.
- A test plan whose next block size exceeds 63 bits.
- The authorize, build, lmt, tool and uninstall scripts and the configuration data: straight-line administration or text.

# Redis 5.0.7, modelled and proved in Dafny

The repository vendors the C sources of Redis 5.0.7 under `redis-stable/`. This project models the
five parts of them whose correctness rests on an argument rather than on reading one function, and
proves what those parts promise. `dafny verify dfyconfig.toml` checks everything.

Code that works in place is a class or a method with its loops; each is proved against a function
or a property stated without the loop. Protocols are state machines over all their steps, and the
main results hold over every run. System calls, clocks, random numbers, hashes and the network are
parameters: a write may be short, a packet late, a child process may die at any point.

| File | Part of Redis |
|---|---|
| `Common.dfy` | what the other files share |
| `Election.dfy` | failover elections of the cluster bus |
| `Collision.dfy` | resolution of equal configuration epochs |
| `Epochs.dfy` | the order of epochs across the cluster |
| `SlotTable.dfy`, `Claims.dfy` | the slot table, its bitmaps, claims and their convergence |
| `NodesConf.dfy` | the slots in `nodes.conf`, printed and loaded |
| `Routing.dfy` | MOVED and ASK redirections, resharding |
| `Resp.dfy`, `AofLoad.dfy`, `AofErrors.dfy` | the append-only file's encoding, loading it after a crash, and the files that are refused |
| `AofValues.dfy`, `AofSnapshot.dfy` | the commands that rebuild a value, and the snapshot of a dataset |
| `AofRewrite.dfy` | the background rewrite, two processes and a pipe |
| `AofBuffer.dfy` | writing the append-only file out |
| `Blocked.dfy`, `BlockedRuns.dfy` | clients blocked on keys, and what becomes of each through whole sessions |
| `SlotKeys.dfy` | the keys of each slot |
| `BitString.dfy`, `Popcount.dfy`, `Bitpos.dfy`, `Bitop.dfy`, `Bitfield.dfy` | BITCOUNT, BITPOS, BITOP and BITFIELD |

## What the proofs found

Some promises do not hold of the code as it is. For each there is an input, as a lemma or as a method
that reaches it, and the exact condition under which the promise holds.

- A vote that arrives between the scheduling of an election and the request for votes is counted
  for the new election. With three masters, one such vote elects two replicas in the same epoch
  (`StaleVoteElectsTwo`). When votes are asked for, those counted are votes of the new election if and
  only if there are none (`StaleVoteCondition`), and elections are safe when replicas ask so
  (`ElectionSafety`).
- A hard reset clears the epochs but nothing of an election. A node that had counted a vote, is reset
  and becomes a replica of a small cluster wins there with the old vote (`ResetAfterVote`); its
  configuration epoch is then above its current one if and only if the epochs of the new cluster are
  below that of the old election (`ResetThenWin`). The bound on epochs survives a hard reset if and only
  if the node never stood for election (`EventKeepsBounded`).
- Clients that block on one key for different kinds of values can overtake each other: a call that serves
  a sorted set moves those that wait for a list to the end, and stops when the set is empty
  (`MixedKindsOvertake`). One call keeps the order of those left if and only if it gets to everybody who
  stands behind such a client (`OrderKeptIff`); and a key whose list never holds clients of different
  kinds serves them in the order in which they blocked, through any sequence of commands
  (`BlockedRuns.Session`).
- A value that overwrites a key does not wake the clients that wait for it (`OverwriteUnnoticed`), so a key
  may hold a list that a blocked client wants. All keys stay quiet or queued if and only if the key is
  new, queued already, or nobody waits on it for such a value (`SetKey`).
- A claim to slots stops a server that is a replica without a master when the slot is unassigned
  (`ReplicaWithoutMaster`), and one that owns slots as a replica when its master has lost its last
  (`ReplicaWithSlots`); in no other case, and in particular never a master or a replica without slots of
  a known master (`ApplyClaim`). Adding slots to a replica is what leads there (`AddOrDelSlots`).
- A file cut inside a command of an open transaction is truncated to the last whole command, so
  its MULTI stays; commands appended later are swallowed by a transaction without an EXEC
  (`CutTransactionSwallows`). They survive if and only if the cut did not fall there
  (`AppendedCommandSurvives`).
- A signed BITFIELD SET with saturation stores the maximum instead of the minimum when the value is
  so low that `max - value` overflows (`LowestSaturatesToHighest`); the result is right if and only if it
  does not (`SignedSetCheck`).
- A slot marked both migrating and importing, which a claim can lead to (`BothMarks`), loses its importing
  mark in `nodes.conf` (`ImportingMarkIsLost`); saving and loading restores everything if and only if there
  is no such slot (`SaveAndLoad`).
- Closing a resharded slot at its old owner first leaves it with nobody until the new owner is told
  (`ClosedTooEarly`), and marking it as migrating before it is imported does so for the keys that are not
  there (`MarkedTooEarly`): both nodes redirect to each other. A command is served if and only if neither
  is the case (`FollowFindsKey`). Closing it at the new owner while the old one has keys makes both serve
  them (`EarlyCloseServesTwice`).

Epoch collisions are resolved faster than one might fear: a master takes at most one new epoch for each
master with a greater name (`FewBumps`), however many stale headers it receives.

## Model

| member | source | states |
|---|---|---|
| Election.Instance.ProcessAuthRequest | redis-stable/src/cluster.c:2707-2808 | the vote is granted exactly if this node is a master with slots, the request is of its current epoch, it has not voted in that epoch, the requester is a replica of a master that failed (or the failover is manual) and was not voted about for two timeouts, and no claimed slot is served by a newer configuration; only then vote and time are recorded. What this means over runs is stated without that condition below |
| Election.Instance.HandleSlaveFailover | redis-stable/src/cluster.c:2947-3116 | when a replica stays idle, schedules an election, asks for votes under a fresh epoch, or wins with a quorum, and its whole state afterwards |
| Election.VotesHaveReasons | redis-stable/src/cluster.c:2707-2808 | in every run a vote is logged exactly when a request reaches a master with slots that has reason to vote, spelt out field by field: no later epoch seen and no vote in this one, the requester's master failed or the failover forced, two timeouts since the last vote about that master, no claimed slot served under a newer configuration; and the vote is the requester's, in the epoch of the request |
| Election.VotesCountForReasons | redis-stable/src/cluster.c:2046-2058 | in every run a vote that arrives is counted exactly if its sender is a master with slots and it is not of an older election, and no count changes otherwise but to zero in a failover step of that replica |
| Election.ElectionsHaveReasons | redis-stable/src/cluster.c:2947-3116 | the exact conditions under which a replica schedules an election, falls back by a second per rank, asks for votes or wins, in terms of the times, the votes and who may take over; without the right to take over nothing changes, and only a victory changes the configuration epoch |
| Election.ElectionProgress | redis-stable/src/cluster.c:2947-3116 | from any state, a replica of a failed master with current claims, whose next epoch is new to a quorum of masters, wins in an orderly run without any manual failover: it schedules, asks in time, every master of the quorum votes, every vote is counted, and its configuration epoch is then that of the election or greater |
| Election.StepKeepsVotesLogged | redis-stable/src/cluster.c:2734-2741 | every step of the system keeps the votes of each node in strictly increasing epochs, below its current one |
| Election.OneVotePerEpoch | redis-stable/src/cluster.c:2734-2741 | in every run, whatever is lost, delayed or reordered, no node grants two votes in one epoch |
| Election.StepKeepsSafe | redis-stable/src/cluster.c:2046-2058 | every orderly step keeps: requests and votes never ahead of their replica, one acknowledgement in flight per uncounted vote, every counted vote one for this replica in the epoch of its election, and victories backed by a quorum of votes |
| Election.ElectionSafety | redis-stable/src/cluster.c:3096-3109 | in every run with a fixed set of voters in which a replica asks for votes only when it has counted none, two elections won in the same epoch were won by the same replica |
| Election.StaleVoteCondition | redis-stable/src/cluster.c:3083-3094 | when a replica asks for votes, everybody it has counted has voted for it in the new epoch if and only if it has counted nobody |
| Election.StaleVoteElectsTwo | redis-stable/src/cluster.c:3019-3025 | a run with three masters that elects two replicas in one epoch, because one of them asks for votes with a single old vote counted |
| Election.ResetThenWin | redis-stable/src/cluster.c:562-567 | a node reset hard while it holds a quorum of votes wins as a replica of its new cluster, and its configuration epoch exceeds its current one if and only if all epochs it learnt are below the old election |
| Election.ResetAfterVote | redis-stable/src/cluster.c:3017-3109 | the handlers from the start: a manual failover, one vote, a hard reset and a win with configuration epoch 1 and current epoch 0 |
| Collision.Master.ProcessPacket | redis-stable/src/cluster.c:1703-1714 | a header raises the epochs known, an UPDATE tells only news, and only a header with this master's own epoch from a greater name changes its epoch |
| Collision.ReceivesExactly | redis-stable/src/cluster.c:1703-1714 | a packet teaches a master what it says and nothing else; the master's own epoch changes if and only if a header from a greater name carries that epoch, and then to one above all it knows, or an UPDATE tells it a greater one of itself |
| Collision.StepKeepsInv | redis-stable/src/cluster.c:1990-1997 | every step, with packets late, repeated or lost, keeps: nobody overestimates a master's epoch, and every epoch a master gave up had been held by a master with a greater name; without a collision no epoch changes |
| Collision.FewBumps | redis-stable/src/cluster.c:1069-1076 | in every run a master takes at most one new epoch per master with a greater name, the greatest none |
| Collision.FewBumpsInAll | redis-stable/src/cluster.c:1069-1076 | all n masters together take at most n(n-1)/2 new epochs, however long the run |
| Collision.SettledIffDistinct | redis-stable/src/cluster.c:1063-1065 | in every reachable state, all epochs are distinct if and only if delivering anybody's latest header makes nobody take a new epoch |
| Collision.QuietExchangeAgrees | redis-stable/src/cluster.c:1063-1065 | after a stretch of a run in which every latest header was delivered and nobody took a new epoch, all masters have distinct epochs |
| Collision.EpochsCanSettle | redis-stable/src/cluster.c:1063-1076 | every run can be continued to a state in which all masters have distinct epochs |
| Collision.UpdateSpreads | redis-stable/src/cluster.c:2071-2087 | in every reachable state, what a master knows of a node reaches any other by one UPDATE |
| Epochs.MaxEpoch | redis-stable/src/cluster.c:969-982 | the greatest epoch of the nodes known and the current one |
| Epochs.Instance.BumpConfigEpochWithoutConsensus | redis-stable/src/cluster.c:1013-1030 | a new epoch is taken exactly if this node's is zero or not the greatest it knows |
| Epochs.Instance.Reset | redis-stable/src/cluster.c:555-575 | every other node is forgotten; a hard reset clears the epochs but that of the last election |
| Epochs.EventKeepsBounded | redis-stable/src/cluster.c:562-567 | whatever happens to a node keeps its current epoch above all epochs it knows and its last election's, except exactly a hard reset after an election |
| Epochs.GlobalEpochInvariant | redis-stable/src/cluster.c:2248-2296 | over every run without such a reset, all nodes and all packets, UPDATE payloads included, are bounded by their current epoch |
| Epochs.ReceivesExactly | redis-stable/src/cluster.c:1703-1714 | what a node knows after a packet is the least that includes what it knew and what the packet says |
| Epochs.OrderOfPackets | redis-stable/src/cluster.c:1703-1714 | two packets have the same effect in either order, and a packet delivered twice that of once |
| Epochs.KnowledgeSpreads | redis-stable/src/cluster.c:2248-2296 | from any state, what a node knows of the epochs can reach any node that knows it, by one packet with its payload |
| Epochs.SetByHand | redis-stable/src/cluster.c:4705-4733 | an epoch set by hand is taken exactly by a node that knows no other and has none, and leaves the current epoch at least as great |
| Epochs.KnownNodes | redis-stable/src/cluster.c:532-575 | which nodes are known after each event: only meeting, forgetting and resets change that |
| Epochs.MintedExceedsAll | redis-stable/src/cluster.c:1078-1087 | a collision always mints an epoch, a closed slot exactly if this node's is zero or smaller than another it knows, an election always; what is minted exceeds every epoch the node knows, nothing else of the node changes, and winning gives it the election's epoch |
| Epochs.BumpIffNotCurrent | redis-stable/src/cluster.c:1014-1022 | in a bounded node a closed slot needs no new epoch exactly if its own epoch is the current one and not zero |
| Epochs.WinKeepsBounded | redis-stable/src/cluster.c:3103-3109 | winning keeps known epochs below the current one if and only if the election's epoch is |
| SlotTable.BitUpdates | redis-stable/src/cluster.c:3627-3645 | setting or clearing a bit of a bitmap changes that bit and no other |
| SlotTable.Cluster.AddSlot | redis-stable/src/cluster.c:3706-3711 | an unassigned slot gets its owner, a taken one stays; table, bitmaps and counts agree |
| SlotTable.Cluster.DelSlot | redis-stable/src/cluster.c:3716-3723 | the slot is unassigned and the owner's bit, which the source asserts to be set, was set |
| SlotTable.Cluster.DelNodeSlots | redis-stable/src/cluster.c:3727-3737 | exactly the node's slots are unassigned and their number returned, found through the bitmap alone |
| SlotTable.Cluster.DelNode | redis-stable/src/cluster.c:906-933 | the node's slots, open slots and replicas' links are cleared, nothing else, and the two copies still agree |
| SlotTable.Cluster.SetNodeAsMaster | redis-stable/src/cluster.c:1504-1518 | a replica becomes a master without a master; slots are untouched |
| SlotTable.Cluster.ProcessRole | redis-stable/src/cluster.c:1884-1917 | a master that turns into a replica loses exactly its slots; the new master is recorded if known |
| SlotTable.Cluster.SetMaster | redis-stable/src/cluster.c:3933-3949 | this node becomes a replica, and a former master closes its open slots |
| SlotTable.Cluster.UpdateSlotsConfigWith | redis-stable/src/cluster.c:1531-1625 | a claim takes exactly the claimed slots that are unassigned or held under a smaller epoch and not imported; unless this node is demoted or stops, exactly the keys in the slots taken from it are deleted from the database |
| SlotTable.Cluster.ApplyClaim | redis-stable/src/cluster.c:1604-1613 | this node is demoted exactly if its master lost its last slot and it owns none itself; the server stops exactly if a replica without a master sees an unassigned slot taken or a replica with slots is to be demoted; a settled node stays settled |
| SlotTable.ReplicaWithSlots | redis-stable/src/cluster.c:3933-3935 | a replica that was given a slot stops when its master loses its last one |
| SlotTable.ReplicaWithoutMaster | redis-stable/src/cluster.c:1583-1604 | a replica without a master stops when an unassigned slot is claimed |
| SlotTable.PurgedIsRemaining | redis-stable/src/cluster.c:1573-1581 | deleting the keys of the slots whose counter is not zero deletes every key of the slots lost, because the counters are exact |
| SlotTable.Cluster.Rebind | redis-stable/src/cluster.c:1556-1591 | the slot loop: the new owners, whether a slot of this node's master (an unassigned one, if it has none) was taken, and which slots with keys were taken from this node |
| SlotTable.Cluster.SameBitmapClaimsNothing | redis-stable/src/cluster.c:1932-1938 | a claim with the bitmap already known for its sender changes no owner |
| SlotTable.Cluster.ProcessSlots | redis-stable/src/cluster.c:1926-1944 | skipping the claim when the bitmaps compare equal has the same outcome as never skipping it |
| SlotTable.Cluster.FailoverReplaceYourMaster | redis-stable/src/cluster.c:2909-2937 | the replica owns exactly the slots its master had, and the master none; a master, or a replica without one, changes nothing |
| SlotTable.Cluster.SetSlotNode | redis-stable/src/cluster.c:4368-4415 | refused exactly while keys would be left behind; otherwise the slot changes owner, marks are cleared as documented, and closing an import takes a new epoch unless this node has the greatest |
| SlotTable.Cluster.BumpConfigEpoch | redis-stable/src/cluster.c:1013-1030 | the slot table's own copy of the rule, with the same condition as in the epoch model |
| SlotTable.Cluster.AddOrDelSlots | redis-stable/src/cluster.c:4276-4325 | either all slots named change or none does; a settled node stays so unless it is a replica that takes slots |
| SlotTable.Cluster.CheckSlots | redis-stable/src/cluster.c:4284-4306 | accepted exactly if all slots exist, none is named twice, and all are free or all assigned |
| SlotTable.Cluster.Forget | redis-stable/src/cluster.c:4559-4578 | refused exactly for unknown nodes, this node and this replica's master; otherwise the node is gone |
| SlotTable.Cluster.Reset | redis-stable/src/cluster.c:532-575 | no slot is assigned or open and no other node known, and the two copies agree; a hard reset also clears the epochs and changes the name |
| Claims.TableAppliesClaims | redis-stable/src/cluster.c:1556-1591 | what the slot table computes for a header is what the claims below are proved about |
| Claims.ClaimRebindsUpwards | redis-stable/src/cluster.c:1568-1585 | a slot that changes hands goes to its claimant, was not being imported, and is held under a strictly greater epoch than before |
| Claims.ClaimsRebindUpwards | redis-stable/src/cluster.c:1568-1585 | the same through any sequence of claims, stale and contradictory ones included; an assigned slot never becomes unassigned |
| Claims.ClaimsConverge | redis-stable/src/cluster.c:1520-1530 | from an unassigned table, claims of distinct epochs give each slot to its greatest claimant, and unclaimed slots to nobody |
| Claims.OrderDoesNotMatter | redis-stable/src/cluster.c:1520-1530 | the same claims in any order and any number of times give the same owners |
| NodesConf.GenSlots | redis-stable/src/cluster.c:4018-4036 | one word per maximal run of slots, the run that ends at the last slot included |
| NodesConf.GenMarks | redis-stable/src/cluster.c:4038-4051 | one mark per open slot, migrating before importing |
| NodesConf.BitmapIsOwner | redis-stable/src/cluster.c:4020-4025 | a bitmap that agrees with the table has exactly the bits of the slots the table gives to the node, so printing bitmaps prints the table |
| NodesConf.RangeReads | redis-stable/src/cluster.c:262-272 | a printed range is read back as the same range |
| NodesConf.MarkReads | redis-stable/src/cluster.c:238-261 | a printed mark is read back as the same slot, direction and node |
| NodesConf.AddRange | redis-stable/src/cluster.c:272 | the free slots of the range go to the node, the two copies stay in agreement |
| NodesConf.LoadLine | redis-stable/src/cluster.c:235-273 | loading a line into the slot table does what the words say, nodes mentioned for the first time included, or fails where they are malformed |
| NodesConf.LinesLoad | redis-stable/src/cluster.c:4067-4084 | after the lines of some nodes, exactly their slots are assigned and the marks are there if this node's line was among them |
| NodesConf.NodesConfRoundTrip | redis-stable/src/cluster.c:4018-4051 | printing and loading restores owners and marks in any order of nodes, except importing marks of migrating slots: everything is restored if and only if there are none |
| NodesConf.SaveConfig | redis-stable/src/cluster.c:4067-4084 | the lines printed from the bitmaps are those of the table |
| NodesConf.LoadConfig | redis-stable/src/cluster.c:114-276 | loading a file into a new table does what its lines say, or fails where one is malformed |
| NodesConf.BadFileRefused | redis-stable/src/cluster.c:238-273 | a file with a malformed word anywhere in it is refused, whatever the rest says |
| NodesConf.FirstLineWins | redis-stable/src/cluster.c:262-272 | a slot that a line gave away keeps its owner through all later lines, and a line gives slots only to its own node |
| NodesConf.SaveAndLoad | redis-stable/src/cluster.c:4018-4051 | saving a table and loading it into a new one restores owners, every bitmap byte by byte, every count and the marks, importing marks if and only if no slot with one is also migrating |
| NodesConf.BothMarks | redis-stable/src/cluster.c:1562-1566 | a slot that migrates, is lost to a claim and imported back has both marks |
| NodesConf.ImportingMarkIsLost | redis-stable/src/cluster.c:4038-4051 | saving and loading that table loses the importing mark |
| Routing.ScanKeys | redis-stable/src/cluster.c:5491-5564 | the slot of all keys, whether they differ and whether one is missing, or the first error, key by key through a transaction |
| Routing.GetNodeByQuery | redis-stable/src/cluster.c:5453-5623 | where a command or a transaction is served or redirected, stated over the set of its keys; an EXEC without a transaction, and everything when redirections are off, is served |
| Routing.ServedByTheOwner | redis-stable/src/cluster.c:5420-5452 | in a cluster at rest, whose nodes agree on the slot map and have no open slot: a command on keys of different slots or of an unowned slot is served nowhere, and none with keys by a node that takes the cluster for down; any other is served where it arrives, if that is the owner or a replica of it with a read-only client, and otherwise by the owner after one redirection |
| Routing.ErrorsTold | redis-stable/src/cluster.c:5491-5574 | which error a command gets: an unowned first slot before keys of different slots, before the cluster being down; a command without keys gets none |
| Routing.MigrateStays | redis-stable/src/cluster.c:5579-5583 | MIGRATE is served by either side of an open slot, whichever keys are there |
| Routing.StepKeepsInv | redis-stable/src/cluster.c:5576-5622 | every step of clients, commands, marks, key moves and closing keeps one copy of each key, and no client asks for a key the old owner still has |
| Routing.ReshardingIsSafe | redis-stable/src/cluster.c:5420-5452 | from the first mark until the last node has learnt of the new owner, no two nodes hold a key and no command ran at a node while another had a copy of one of its keys; while a slot is open, a command on several keys ran only where all of them were |
| Routing.ReshardingCompletes | redis-stable/src/cluster.c:4330-4415 | from any state before the slot is closed there is a run that closes it at both sides and tells every node, after which the new owner has every key of both and commands on any key of the slot, wherever they come in, are served there after at most one redirection |
| Routing.EarlyCloseServesTwice | redis-stable/src/cluster.c:4368-4415 | if the importing node is made the owner while the old one has a key, it serves commands on that key beside the old copy |
| Routing.Circles | redis-stable/src/cluster.c:5576-5622 | while one side is marked or closed before the other, a command on an unreachable key is redirected for ever, whatever the number of redirections followed |
| Routing.FollowFindsKey | redis-stable/src/cluster.c:5576-5622 | from any node, a command on one key is served within two redirections if and only if the key is reachable, and then at the one node that has or may create it |
| Routing.CommandIsServed | redis-stable/src/cluster.c:5576-5622 | whenever the redirections of a command end somewhere, there is a run of the system in which it is issued, redirected and executed there, on the keys as they were, and nothing else changes |
| Routing.MarkedTooEarly | redis-stable/src/cluster.c:5576-5622 | a run, one mark long, after which a key is served nowhere, whatever the number of redirections followed |
| Routing.ClosedTooEarly | redis-stable/src/cluster.c:4368-4415 | a run in which the old owner closes the slot first, after which no key of it is served |
| Resp.CatAppendOnlyGenericCommand | redis-stable/src/aof.c:518-541 | the encoding is appended to the buffer and nothing else changes |
| Resp.NumberRoundTrip | redis-stable/src/aof.c:524-525 | a printed number followed by a non-digit reads as itself |
| Resp.CommandRoundTrip | redis-stable/src/aof.c:752-800 | an encoded command is read back whatever bytes its arguments hold and whatever follows |
| Resp.PartialCommand | redis-stable/src/aof.c:752-800 | a command cut anywhere is a short read, never a format error and never another command |
| AofLoad.ReadArgs | redis-stable/src/aof.c:771-802 | the argument loop reads what the encoding says, or reports the short read, bad format or impossible length |
| AofLoad.ReadCommand | redis-stable/src/aof.c:758-802 | one command at an offset, with the end of file told apart from errors |
| AofLoad.LoadAppendOnlyFile | redis-stable/src/aof.c:698-900 | for every file, the commands run, the length it is cut to, or the reason it is refused; which files get which outcome is stated in terms of their bytes below |
| AofLoad.CompleteIsGreatest | redis-stable/src/aof.c:836 | the number of whole commands is the greatest whose encodings fit |
| AofLoad.TruncationSafe | redis-stable/src/aof.c:836-872 | for every command sequence and every cut, exactly the whole commands take effect and the file is cut to their length, or to before the last MULTI when the cut falls between two commands of an open transaction |
| AofLoad.OpenTransactionHasNoEffect | redis-stable/src/aof.c:843-848 | a transaction without its EXEC has no effect, and its MULTI is where a clean end of file cuts to |
| AofLoad.KeptCommands | redis-stable/src/aof.c:866-872 | what is left in the file has exactly the effect that was run, and ends inside a transaction exactly if the cut fell inside a command of one |
| AofLoad.AppendedCommandSurvives | redis-stable/src/aof.c:866-890 | a command appended later is run by the next load if and only if that was not so; otherwise it is lost |
| AofLoad.CutTransactionSwallows | redis-stable/src/aof.c:853-872 | a transaction cut inside the command after its MULTI swallows a later command |
| AofLoad.WholeFileLoads | redis-stable/src/aof.c:850-858 | an intact file loads to the effect of all its commands |
| AofLoad.RanIsEffects | redis-stable/src/aof.c:836-858 | what was run, with what an open transaction has queued, is every command but MULTI and EXEC, in order |
| AofErrors.DefectsRefused | redis-stable/src/aof.c:769-802 | after any whole commands, a tail that does not begin as a command or an argument should, an argument count below one, a negative length, an unreadable line or an unknown command ends the load with its own reason, whether short files are cut or not |
| AofErrors.ShortRefused | redis-stable/src/aof.c:867-894 | where short files are not cut, a file that ends inside a command is refused |
| AofErrors.WholeOrRefused | redis-stable/src/aof.c:843-848 | where short files are not cut, a file of whole commands is loaded in full, or refused if and only if it ends inside a transaction |
| AofErrors.OnlyShortFilesAreCut | redis-stable/src/aof.c:860-894 | every file that is loaded, whatever its bytes, consists of known commands whose effect was run; it keeps its length unless short files are cut and it ends with bytes that more bytes would complete to a command, which are cut off, or inside a transaction, which is cut off from its last MULTI on |
| AofValues.RewriteItems | redis-stable/src/aof.c:930-947 | the items written one by one, with a header where a command begins, are the encodings of commands of at most limit items |
| AofValues.ChunksCarryItems | redis-stable/src/aof.c:930-947 | the commands carry all items in order, each at least one and at most limit of them, under the right name and key |
| AofValues.RewriteListObject | redis-stable/src/aof.c:922-952 | the commands written replay to the list, in order, for every size and limit |
| AofValues.RewriteSetObject | redis-stable/src/aof.c:956-999 | the commands written replay to the set |
| AofValues.RewriteHashObject | redis-stable/src/aof.c:1098-1122 | the commands written replay to the hash |
| AofValues.LoaderReadsChunks | redis-stable/src/aof.c:752-802 | the loader reads a rewrite back as exactly these commands, so every announced count is right |
| AofSnapshot.RewriteAppendOnlyFileRio | redis-stable/src/aof.c:1289-1362 | the bytes written are the encoding of the snapshot: a SELECT for each database that is not empty, then the commands of each key and its expiry |
| AofSnapshot.RecordReplays | redis-stable/src/aof.c:1318-1347 | replaying the commands of a key stores its value, of whatever type and size, with its expiry |
| AofSnapshot.SnapshotReplays | redis-stable/src/aof.c:1295-1356 | after the first databases of a snapshot exactly their keys are there |
| AofSnapshot.SnapshotIsDataset | redis-stable/src/aof.c:1364-1370 | replaying a snapshot gives the dataset, over all databases, if and only if no list, set, hash or sorted set in it is empty |
| AofSnapshot.SnapshotRunIsRun | redis-stable/src/aof.c:1289-1362 | a run whose children write the snapshot of the dataset they see meets the assumption of the rewrite, for every server that executes the rebuilding commands so and deletes values that become empty |
| AofSnapshot.RewriteKeepsDataset | redis-stable/src/aof.c:1660-1770 | in such a run, the file of a rewrite that succeeds replays to the dataset |
| AofRewrite.RewriteBuffer.Append | redis-stable/src/aof.c:125-169 | the content of the blocks grows by exactly the bytes given, and no block is empty or over its capacity |
| AofRewrite.RewriteBuffer.ChildWriteDiffData | redis-stable/src/aof.c:95-122 | what was sent and what remains are together what was there; nothing is sent after the stop, something if there is something and the pipe takes it, and everything if the pipe takes every block |
| AofRewrite.RewriteBuffer.Write | redis-stable/src/aof.c:174-194 | all of the content is written exactly if every write is full; otherwise an error is reported and a prefix written |
| AofRewrite.FeedAppendOnlyFile | redis-stable/src/aof.c:550-625 | the bytes fed decode to a SELECT exactly when the database changes and then to what is logged for the command, in which every expiry is an absolute time in milliseconds |
| AofSnapshot.ExpiryIsAbsolute | redis-stable/src/aof.c:550-618 | what is logged for EXPIRE, PEXPIRE, EXPIREAT, SETEX, PSETEX and SET with an expiry does, whenever it is replayed, what the command does at the time it is fed |
| AofRewrite.ReplayLogged | redis-stable/src/aof.c:584-593 | replaying what was fed applies the commands to their database, whatever was selected before |
| AofRewrite.FinishedFile | redis-stable/src/aof.c:1429-1445 | a finished child's file with the remaining blocks is the snapshot followed by everything fed |
| AofRewrite.StepKeepsInv | redis-stable/src/aof.c:1476-1497 | every step of parent, child, pipe and handshake keeps each byte fed since the fork in exactly one place, and file plus buffer a log of the dataset |
| AofRewrite.AofIsDurable | redis-stable/src/aof.c:627-634 | at every moment with the AOF on, replaying file and buffer gives the current dataset |
| AofRewrite.RewriteDeliversOnce | redis-stable/src/aof.c:1660-1770 | a rewrite that succeeds with the AOF on or waiting leaves the snapshot followed by every command fed since, in order and once, and replaying that gives the dataset |
| AofRewrite.FailedRewriteKeepsFile | redis-stable/src/aof.c:1780-1808 | a rewrite that fails leaves file and buffer, which still give the dataset |
| AofRewrite.StopKeepsLog | redis-stable/src/aof.c:234-244 | switching the AOF off leaves the whole log in the file, and replaying it gives the dataset |
| AofRewrite.RewriteWhileOff | redis-stable/src/aof.c:1660-1770 | a rewrite that succeeds with the AOF off leaves the snapshot and what was fed, and turns nothing on |
| AofRewrite.RewriteCanFinish | redis-stable/src/aof.c:1425-1445 | in every run with a child at work and the AOF on or waiting, the handshake can be completed: four more steps end the rewrite with everything fed in the file, which replays to the dataset |
| AofRewrite.AofCanStart | redis-stable/src/aof.c:248-289 | in every run with the AOF off, a snapshot of the dataset and the handshake turn it on, with a file that gives the dataset |
| AofRewrite.DiffArrives | redis-stable/src/aof.c:1368-1425 | in every run with a child at work, everything fed since the fork can reach the child through the pipe, in order and once |
| AofRewrite.FlushCompletes | redis-stable/src/aof.c:337-516 | in every run with the AOF on, writing the buffer out leaves a file that alone gives the dataset |
| AofRewrite.ChildMayDie | redis-stable/src/aof.c:1780-1808 | in every run, a child that dies and is reaped leaves everything but its rewrite as it was |
| AofRewrite.CrashRecovers | redis-stable/src/aof.c:836-872 | whenever the server crashes with the AOF on, loading the bytes written so far runs exactly the commands of the log that had been written in full |
| AofRewrite.RestartAfterRewrite | redis-stable/src/aof.c:1660-1770 | a restart after a successful rewrite runs what the snapshot and everything fed since the fork say, transactions included, which gives the dataset unless the rewrite ended inside a transaction |
| AofBuffer.Aof.AofWrite | redis-stable/src/aof.c:297-316 | the file grows by exactly the bytes that were written before an error, and their number is returned |
| AofBuffer.TotalUntilError | redis-stable/src/aof.c:297-316 | short and interrupted calls do not matter: without an error everything is written, and an error ends the write with what the calls before it accepted |
| AofBuffer.Aof.WriteOut | redis-stable/src/aof.c:387-485 | a failed write leaves the rest in the buffer, and what was written in the file only if it could not be removed; the recorded size is the file's |
| AofBuffer.Aof.TryFsync | redis-stable/src/aof.c:491-515 | when the file is synchronised, and the offset and the time recorded for it |
| AofBuffer.Aof.Flush | redis-stable/src/aof.c:337-516 | when the write waits for a background fsync and since when it does, what it leaves in file and buffer when it does not, and exactly when the file is synchronised, with the offset and time recorded |
| AofBuffer.Session | redis-stable/src/aof.c:337-516 | for any sequence of feeds and flushes, after each file and buffer are together what was fed so far, in order and once, the size is right and the synchronised offset within it; the server ends only under the ALWAYS policy. While the clock runs, of two flushes two seconds apart with something to write at the first, one attempts the write or one between them does; and under the EVERYSEC policy a flush in a new second that can synchronise and leaves no error synchronises all that is written |
| Blocked.Server.BlockForKeys | redis-stable/src/blocked.c:508-550 | the client is at the end of the list of each of its keys, once, with a later time than everybody there, and the counters and both sides of the index agree |
| Blocked.Server.UnblockClient | redis-stable/src/blocked.c:162-181 | the client is out of every list, no list is left empty, the counters follow and the client is queued once |
| Blocked.Server.LeaveLists | redis-stable/src/blocked.c:554-587 | the loop over the client's keys: every list loses exactly this client |
| Blocked.CountersFollow | redis-stable/src/blocked.c:102-107 | changing one client's kind and its counters keeps all counters exact |
| Blocked.Server.SignalKeyAsReady | redis-stable/src/blocked.c:596-617 | a key is queued exactly if clients wait on it and it is not queued |
| Blocked.Server.ServeClientBlockedOnList | redis-stable/src/t_list.c:628-679 | the element is delivered, or pushed to the destination as well, or refused for its type; a destination that is created with clients waiting is queued |
| Blocked.Server.ServeReceiver | redis-stable/src/blocked.c:298-321 | the first client is unblocked and gets the element of its end of the list; a refused element is put back |
| Blocked.ServingConserves | redis-stable/src/blocked.c:303-319 | what is served is taken out, moved or put back: nothing is lost and nothing doubled |
| Blocked.Server.ServeWaiters | redis-stable/src/blocked.c:274-381 | clients that want the list or sorted set are served in the order in which they wait, as far as the elements last; the list of the key, its value and the replies afterwards, and no other key's order changes |
| Blocked.LookedExactly | redis-stable/src/blocked.c:282-349 | a call looks at exactly the clients up to which the elements suffice: an empty sorted set ends it at once, an empty list at the next client that wants an element; a refused element, or one that comes back to the key, costs nothing |
| Blocked.OrderKeptIff | redis-stable/src/blocked.c:235-245 | a call keeps the order of the clients left if and only if it gets to everybody behind a client it got to that waits for something else |
| Blocked.MixedKindsOvertake | redis-stable/src/blocked.c:349-359 | three clients of two kinds on one key: the first is still waiting when the third is served |
| Blocked.Server.HandleKey | redis-stable/src/blocked.c:258-381 | the key is quiet afterwards and every other key quiet or queued; new keys are queued only if one client less is blocked, and only destinations of clients that waited; its value, list and replies are as stated for one call |
| Blocked.Server.HandleClientsBlockedOnKeys | redis-stable/src/blocked.c:246-477 | it terminates; no handled key holds a list or sorted set that a client waiting there wants, and, if all keys were quiet or queued before, no key at all does; elements are conserved. Everything that changed is what its replies did: those answered are exactly those who stopped waiting and are queued for their next command, everybody else waits on as before, in every list it was in, with the order of a list unchanged unless its key was handled and clients of different kinds wait there; and each element delivered stood at the end its client pops from |
| Blocked.ServingExactly | redis-stable/src/blocked.c:298-321 | one service, item by item: the element leaves the end the client asked for, goes to the front of the destination if there is one, and is refused with nothing changed if that holds something else; no other key is touched |
| Blocked.ReplyWasRight | redis-stable/src/blocked.c:298-321 | in the replies of a whole call, each is to a client that waited on that key and was not answered before, with the element that stood at its end when its predecessors had been served |
| Blocked.AnsweredOnce | redis-stable/src/blocked.c:246-477 | whoever waited and stopped was answered exactly once, from a key it waited on and with the time at which it blocked; whoever was not answered is as before |
| Blocked.QueueExactly | redis-stable/src/blocked.c:151-158 | exactly those who were answered join the queue of clients with a next command, behind those already there, and nobody is in it twice |
| BlockedRuns.Session | redis-stable/src/blocked.c:235-245 | through any sequence of blocks, timeouts, pushes, additions, overwrites, deletions and handling, each operation does to clients, lists, keys and replies what it should, and a key whose list never held clients of different kinds has its clients in the order in which they blocked and replied to them in that order; a key for which all blocks ask for one kind is such a key |
| BlockedRuns.FateOfBlock | redis-stable/src/blocked.c:246-477 | at every later moment of every session, a client that blocked still waits as it asked to, without a reply; or was answered exactly once, from a key it asked for; or gave up, without a reply: one of the three, and what is over stays over |
| BlockedRuns.NobodyStarves | redis-stable/src/blocked.c:246-477 | as long as clients block only when nothing they want is there, as the commands do, and no overwrite brings a waiting client what it wants, every key is quiet or queued at every moment, and after each handling no key holds anything that a client waiting on it wants |
| Blocked.Server.Push | redis-stable/src/t_list.c:197-225 | a push keeps every key quiet or queued, because a key it creates is signalled |
| Blocked.Server.AddToZset | redis-stable/src/db.c:173-182 | the same for a sorted set that is created |
| Blocked.Server.SetKey | redis-stable/src/db.c:189-225 | an overwrite keeps every key quiet or queued if and only if the key is new or queued, or nobody who waits on it wants the value |
| Blocked.OverwriteUnnoticed | redis-stable/src/db.c:189-207 | a client waits for a list, its key is set to a string and then to a list: the list is there, the client waits and nothing is queued |
| Blocked.Server.GiveUp | redis-stable/src/blocked.c:162-181 | a client that times out leaves every list, in which all others keep their places, is queued for its next command, and every key stays quiet or queued |
| SlotKeys.OrderedBySlot | redis-stable/src/db.c:1497-1499 | entries of the index are ordered by slot first |
| SlotKeys.Database.Add | redis-stable/src/db.c:173-182 | dictionary, index and counters agree after a key is added |
| SlotKeys.Database.Overwrite | redis-stable/src/db.c:189-207 | the value changes, the key's slot and expiry do not |
| SlotKeys.Database.Delete | redis-stable/src/db.c:271-281 | the key is gone from dictionary, expiries, index and counters |
| SlotKeys.Database.SetKey | redis-stable/src/db.c:216-225 | the key has the value and no expiry |
| SlotKeys.Database.Rename | redis-stable/src/db.c:869-909 | value and expiry move to the new name, an old expiry there does not survive, and the reply tells why not |
| SlotKeys.Database.Flush | redis-stable/src/db.c:342-377 | everything is empty and every counter zero |
| SlotKeys.Database.CountKeysInSlot | redis-stable/src/db.c:1566-1568 | the number of keys stored in the slot |
| SlotKeys.Database.GetKeysInSlot | redis-stable/src/db.c:1526-1541 | distinct keys of that slot only, as many as asked for or all there are |
| SlotKeys.Database.DelKeysInSlot | redis-stable/src/db.c:1545-1564 | it terminates, having deleted exactly the slot's keys, and returns their number |
| Popcount.RedisPopcount | redis-stable/src/bitops.c:40-92 | the number of set bits, for every length and alignment |
| Popcount.Fold28 | redis-stable/src/bitops.c:52-87 | seven words folded in parallel count the bits of 28 bytes: no lane and no sum overflows |
| Popcount.Gather | redis-stable/src/bitops.c:80-86 | the multiplication gathers four lanes of at most 56 in the top byte |
| Bitpos.RedisBitpos | redis-stable/src/bitops.c:101-186 | the first position of the bit in the string padded with zeros, or -1 exactly if a set bit is sought and there is none |
| Bitpos.ScanWord | redis-stable/src/bitops.c:151-185 | the scan of the last word finds the bit before it runs off its end, so the panic is unreachable |
| Bitpos.Load64Uniform | redis-stable/src/bitops.c:132-142 | a word is all zeros, or all ones, exactly if its bytes are |
| Bitop.Bitop | redis-stable/src/bitops.c:616-745 | each bit of the result is the operation on the bits of the inputs, shorter ones padded with zeros |
| Bitop.FastStep | redis-stable/src/bitops.c:667-728 | four words of every input at a time give the bytes of the definition |
| Bitop.SlowTail | redis-stable/src/bitops.c:731-744 | the bytes after the fast part, with inputs that have ended, give those of the definition |
| Bitop.OutputBits | redis-stable/src/bitops.c:732-743 | a byte folded over the inputs is the operation bit by bit |
| Bitfield.SetUnsignedBitfield | redis-stable/src/bitops.c:209-222 | the field holds the low bits of the value and no other bit changes |
| Bitfield.GetUnsignedBitfield | redis-stable/src/bitops.c:229-241 | the number the field's bits stand for |
| Bitfield.GetSignedBitfield | redis-stable/src/bitops.c:243-263 | the same in two's complement, for widths up to 63 |
| Bitfield.UnsignedCheck | redis-stable/src/bitops.c:288-323 | overflow is reported exactly if value or sum does not fit, and the limit is the wrap or the saturation, for every 64-bit increment |
| Bitfield.SignedCheck | redis-stable/src/bitops.c:325-375 | the same for signed fields whose old value fits |
| Bitfield.SignedSetCheck | redis-stable/src/bitops.c:332-352 | for SET the overflow flag and the wrap are right, and the saturation if and only if the difference to the maximum does not overflow |
| Bitfield.LowestSaturatesToHighest | redis-stable/src/bitops.c:332-352 | the least number, set with saturation in a signed field of eight bits, gives 127 |
| Bitfield.StoreThenRead | redis-stable/src/bitops.c:209-263 | a number that fits is read back as it was stored, and no other bit changes |
| Bitfield.IncrByExact | redis-stable/src/bitops.c:1028-1089 | INCRBY leaves and replies the true sum, its wrap or its saturation; FAIL writes nothing; no other bit changes |
| Bitfield.SetExact | redis-stable/src/bitops.c:1028-1089 | SET replies what the field held and leaves the number, its wrap or its saturation (the maximum for a signed number too low to compare); FAIL writes nothing; no other bit changes |
| Bitfield.ExecuteWrite | redis-stable/src/bitops.c:1018-1089 | the write path of the command has that meaning |
| Bitfield.ExecuteGet | redis-stable/src/bitops.c:1090-1122 | the copy of nine bytes reads the same field as the string padded with zeros |
| Bitfield.Bitfield | redis-stable/src/bitops.c:914-1125 | the string is grown to what the writes need and the operations take effect in order |
| Bitfield.NeededIsReached | redis-stable/src/bitops.c:970-1010 | the string is not grown further than the last byte some write reaches |

## Left out

- The Laravel application: configuration, migrations and framework wiring.
- Links, handshakes, node addresses, gossip, failure detection, publish/subscribe and module messages, replica migration, and the timing of manual failovers in `cluster.c`.
- Election.ElectionSafety: the voters are a fixed set, no node loses its last vote in a crash or a hard reset, and no packet is duplicated; without these the source promises nothing either. The situation of a replica (its rank, the age of its data, its master's state) is an input.
- Election.ResetThenWin: that the node is a replica again, and which epochs it has learnt, are inputs.
- Collision.FewBumps: masters are compared by the order of their names, so a name is its rank; no other source of epochs is active.
- Epochs.GlobalEpochInvariant: nodes still in handshake, whose packets the source treats apart, are not modelled; a win is possible at any time, which allows more than the code does.
- SlotTable.Cluster.SetSlotNode: the number of keys in the slot is read from the counters, which `SlotKeys.dfy` proves exact.
- SlotTable.Cluster.DelNode: lists of replicas and failure reports are not modelled, only each node's own master.
- NodesConf.LoadLine: splitting a line into words, addresses, flags and epochs are not modelled; a mark whose name is too short is malformed here.
- Routing.ReshardingIsSafe: the operator moves keys only when both sides are marked, and closes the import only when the old owner has no key left; a resharding that is abandoned half way is not modelled.
- Routing.GetNodeByQuery: the keys of each command are given, as is whether a key is present; expiry on lookup is not modelled.
- AofLoad.LoadAppendOnlyFile: RDB preambles, read errors of the device and failures to truncate are not modelled; numbers are read without the range limits of C, and what a command does beyond MULTI and EXEC is its caller's.
- AofRewrite.FeedAppendOnlyFile: the clock is read once; the source reads it again when it feeds a command, so the expiry logged is that of the feeding. Times are unbounded numbers.
- AofRewrite.RewriteDeliversOnce: that the child's snapshot replays to the dataset at the fork is an assumption of the run; `AofSnapshot.SnapshotRunIsRun` discharges it for datasets of strings, lists, sets, hashes and sorted sets with their expiries. Streams, module values and snapshots in RDB format are left out.
- AofSnapshot.SnapshotIsDataset: scores are printed strings, and no expiry time is before 1970.
- AofBuffer.Aof.AofWrite: a write of no bytes repeated for ever would hang the source; here the results of the calls are a finite list.
- Blocked.Server.HandleKey: keys that hold lists or sorted sets are served; the branch for streams, and clients blocked in WAIT or by modules, are not modelled. A sorted set is the sequence of its members in order of score.
- SlotKeys.Database.Delete: deletion in the background has the same effect and is not told apart.
- Bitfield.GetSignedBitfield: widths 1 to 63; the source shifts by 64 for a signed field of 64 bits, which C leaves undefined.
- Memory, reference counts, logging, latency sampling and notifications.
- The hash functions and checksums, which are arbitrary functions here.

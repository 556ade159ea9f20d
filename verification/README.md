# Redis 6.0.10, modelled and verified in Dafny

This project models the hard parts of the C code under `redis-6.0.10/src` and proves what that
code is for. Each component has a specification on values (datatypes and functions), the
imperative code of the source as methods and classes proved against it, and theorems about the
specification over every input, run or reachable state. `dafny verify dfyconfig.toml` checks
everything.

| component | files | main results |
|---|---|---|
| Redis Cluster | `slot_table`, `cluster_model`, `cluster_server`, `elections`, `cluster_bus`, `election_window`, `slot_convergence`, `epoch_collisions`, `cluster_laws`, `failover`, `cluster_commands`, `resharding`, `redirections` | election safety of the whole message-passing system, winners that own exactly what their masters owned, epoch bounds over whole runs, slot tables that always agree, convergence of slot ownership, termination of epoch collision resolution, resharding with one authoritative copy, redirections that lead home within three visits |
| Append-only file | `decimals`, `aof_codec`, `aof_loader`, `aof_recovery`, `aof_translate`, `aof_handover`, `aof_server`, `aof_durability` | crash recovery for a cut at any byte, log translation that preserves meaning, a rewrite handover that loses and duplicates nothing |
| CRC-64 | `crc64`, `crc64_tables`, `crc64_algebra`, `crc64_check` | slice-by-8 in both byte orders equals the bit-by-bit algorithm, which is the remainder of polynomial division over GF(2) |
| ACL rules | `strings`, `acl_model`, `acl_describe`, `acl_user`, `acl_rules` | the printer of rules and their interpreter are inverse, the printer's panic is unreachable, what each rule means for passwords, keys and commands |
| Blocked clients | `adlist`, `blocking_index`, `blocking_keys`, `blocked_data`, `blocked_server` | the two-way index with raw list-node handles agrees in every state, serving terminates, is fair and conserves elements |
| Bit operations | `bits`, `words`, `popcount`, `bitpos`, `bitfields`, `bitfield_command`, `bitop` | word-parallel code equals the plain definitions, bitfield arithmetic matches ideal integers |

The cluster is a state machine: nodes with the state the handlers keep, packets that are delayed,
reordered, lost and repeated, and one step per handler. The server classes (`ClusterServer`,
`AofServer`, `AclUser`, `Crc64Machine`, `List`, `Keys`, `BlockedServer`) carry the fields of the
source and update them in place. What the kernel, the clock, the network and the other process do
is a parameter, so every theorem is about all their behaviours.

## Where the code falls short of a property

These properties are false of the code. For each there is a member with an input on which it
fails, and one that says exactly when it holds.

- clusterUpdateSlotsConfigWith reads through a NULL `curmaster` on a replica that does not know its
  master: `ClusterModel.UpdateIsUndefinedIff`, `ClusterModel.OrphanDies`. No command and no packet
  makes such a replica: `ClusterBus.NullIsNeverRead`.
- The assertion of clusterSetMaster fails on a replica that was given slots, which CLUSTER ADDSLOTS
  does not refuse: `ClusterModel.AssertionFailsIff`, `ClusterModel.StrayDies`,
  `ClusterBus.NobodyDies`.
- The vote counter is reset when an election is scheduled, not when it starts, so that an older
  vote that arrives in between is counted: `Elections.StartIsHonestIff`,
  `ElectionWindow.TwoWinnersWithoutTheHypothesis`.
- `valid_up_to` also advances inside MULTI, so a log torn inside a transaction is cut to an open
  MULTI, and what is appended later is lost at the next load: `AofRecovery.CrashRecovery`,
  `AofRecovery.AppendsAreLost`, `AofRecovery.TornExample`.
- The log writer looks for EX and PX at positions that the SET parser takes for arguments:
  `AofTranslate.ScanFollowsParser`, `AofTranslate.AClashingCommand`.
- A relative expiry logged later than it was executed is off by the delay: `AofTranslate.Drift`,
  `AofTranslate.DriftExample`.
- A SET with a time to live is logged as two commands, so a log cut between them restores a key that
  never expires: `AofDurability.RecoveredIsLiveIff`, `AofDurability.KeyOutlivesCrash`.
- A slot stays with an owner that no longer announces it when no claimant has a greater epoch:
  `SlotConvergence.ConvergesIff`, `SlotConvergence.SilentOwnerStays`.
- Two nodes send a client back and forth for ever when the source has given the slot away and the
  destination has not taken it: `Redirections.RedirectionsLeadHome`, `Redirections.ClosedTooEarly`.
- A signed BITFIELD SET near the lowest 64-bit integer is taken for too high:
  `Bitfields.CheckSigned`, `Bitfields.LowestIsTakenForHigh`, `BitfieldCommand.SetIsExactIff`.

## Hypotheses

- The cluster: a start in which replicas know their masters; a node has no link to itself.
- Elections: all candidates agree on one set of voters, each vote is delivered at most once, and a
  candidate's counter is zero when its election starts, as it is when no vote that it would count
  arrives between the reset and the start.
- Convergence: fixed claims with distinct epochs and no slot being imported; a node announces the
  slots it serves, and its own slots are its own or belong to a greater epoch.
- Collisions: only the collision handler changes config epochs.
- Resharding: a MIGRATE is fully acknowledged or no RESTORE was applied, ASKING is sent only after
  an ASK, and the destination is closed when the source is empty.
- Rewrite: the child's reads end only when the pipe is empty.
- ACL: a fixed command table with distinct names and with distinct ids below the reserved bit.

## Model

| member | source | states |
|---|---|---|
| `SlotTables.OwnerHasBit` | redis-6.0.10/src/cluster.c:3847-3854 | In agreeing tables the owner of a slot has the slot's bit set, so the assertion in clusterDelSlot cannot fire. |
| `SlotTables.AddKeepsAgreement` | redis-6.0.10/src/cluster.c:3837-3842 | clusterAddSlot keeps "slots[j] is n exactly when bit j of n is set". |
| `SlotTables.DelKeepsAgreement` | redis-6.0.10/src/cluster.c:3847-3854 | clusterDelSlot keeps the agreement of slot table and bitmaps. |
| `SlotTables.MoveOneSlot` | redis-6.0.10/src/cluster.c:1670-1671 | clusterDelSlot then clusterAddSlot, on agreeing tables, is the move of exactly that slot to the new owner. |
| `SlotTables.RebindKeepsAgreement` | redis-6.0.10/src/cluster.c:1640-1677 | Moving any set of slots to a known node, or unassigning it, keeps the agreement. |
| `ClusterServers.ClusterServer.constructor` | redis-6.0.10/src/cluster.c:454-546 | A new node knows itself only, as a master without slots; all its tables are well formed. |
| `ClusterServers.ClusterServer.AddSlot` | redis-6.0.10/src/cluster.c:3796-3842 | In place: refused exactly when the slot has an owner; numslots stays the number of set bits. |
| `ClusterServers.ClusterServer.DelSlot` | redis-6.0.10/src/cluster.c:3819-3854 | In place: refused exactly when the slot has no owner; the bit it clears is set (asserted in the body and proved), numslots stays the number of set bits. |
| `ClusterServers.ClusterServer.DelNodeSlots` | redis-6.0.10/src/cluster.c:3858-3868 | The loop over 16384 slots unassigns exactly the slots of the node and returns how many they were. |
| `ClusterServers.ClusterServer.GrabSlots` | redis-6.0.10/src/cluster.c:3069-3075 | The loop moves exactly the old master's slots to the winner. |
| `ClusterServers.ClusterServer.RebindClaim` | redis-6.0.10/src/cluster.c:1640-1677 | The loop moves exactly the claimed slots that are unassigned or owned under a smaller epoch and not being imported, and sets newmaster exactly when one of them was ours or our master's. |
| `ClusterServers.ClusterServer.SetMaster` | redis-6.0.10/src/cluster.c:4064-4080 | Becoming a replica keeps the state well formed; a former master closes its open slots. |
| `ClusterServers.ClusterServer.UpdateSlotsConfigWith` | redis-6.0.10/src/cluster.c:1617-1711 | The whole handler: it outlives the claim exactly when UpdateIsSafe holds (no NULL curmaster, no failed assertion in clusterSetMaster); then it equals UpdateSlots and keeps bitmaps, slot table and numslots in agreement. |
| `ClusterServers.ClusterServer.HandleConfigEpochCollision` | redis-6.0.10/src/cluster.c:1153-1168 | The handler equals HandleCollision (the master with the smaller name bumps, the other does nothing) and keeps the state valid. |
| `ClusterServers.ClusterServer.GetMaxEpoch` | redis-6.0.10/src/cluster.c:1044-1057 | The loop returns the maximum of the current epoch and all config epochs in the table. |
| `ClusterServers.ClusterServer.BumpConfigEpochWithoutConsensus` | redis-6.0.10/src/cluster.c:1088-1105 | Bumps exactly when this node's epoch is zero or not the greatest. |
| `ClusterServers.ClusterServer.SendFailoverAuthIfNeeded` | redis-6.0.10/src/cluster.c:2857-2958 | Votes exactly when all the tests of the source pass, and records the vote by lastVoteEpoch := currentEpoch. |
| `ClusterServers.ClusterServer.FailoverReplaceYourMaster` | redis-6.0.10/src/cluster.c:3059-3087 | The winner owns every slot that was its master's and every other slot keeps its owner; the old master has none, the winner is a master under the election's epoch or a greater one of its own, and no other node's entry changes. |
| `ClusterServers.ClusterServer.HandleSlaveFailover` | redis-6.0.10/src/cluster.c:3169-3262 | Schedules, starts or concludes an election; concludes exactly when the counted votes reach the majority, and then every slot of the old master, and no other, is the winner's, while tables and numslots stay in agreement. |
| `ClusterServers.ClusterServer.ClusterSize` | redis-6.0.10/src/cluster.c:3926-3948 | The loop counts the masters with at least one slot. |
| `ClusterServers.ClusterServer.SwitchRole` | redis-6.0.10/src/cluster.c:1980-2014 | The role switch of a known sender, master to replica and back, in place; the state stays valid. |
| `ClusterServers.ClusterServer.ProcessPing` | redis-6.0.10/src/cluster.c:1980-2093 | The PING/PONG branch: role switch, claim if the bitmap differs, then collision handling; alive exactly when the claim is safe, and valid again. |
| `ClusterServers.ClusterServer.ReceiveAck` | redis-6.0.10/src/cluster.c:2142-2154 | A vote is counted exactly when its sender is a master with slots and its epoch is at least the election's. |
| `ClusterServers.ClusterServer.Learn` | redis-6.0.10/src/cluster.c:1799-1810 | The epochs of a packet are learnt as LearnEpochs says; the state stays valid. |
| `ClusterServers.ClusterServer.ProcessUpdate` | redis-6.0.10/src/cluster.c:2167-2187 | An UPDATE about a known node, this one included, with a newer epoch promotes it, stores the epoch and applies the claim; alive exactly when the claim is safe, and valid again. |
| `ClusterServers.ClusterServer.ProcessPacket` | redis-6.0.10/src/cluster.c:1799-2187 | The handler, for every packet, is alive exactly when Survives says, then equals the function Receive and is valid again (numslots included); the vote it sends is exactly Grants. |
| `ClusterServers.ClusterServer.ForgetNode` | redis-6.0.10/src/cluster.c:937-959 | The loop removes the node from the failure reports and the slaveof fields of all others, then from the table. |
| `ClusterServers.ClusterServer.UnassignSlotsOf` | redis-6.0.10/src/cluster.c:984-994 | The loop removes exactly the importing, migrating and owner entries that point to the node. |
| `ClusterServers.ClusterServer.DelNode` | redis-6.0.10/src/cluster.c:981-1008 | The handler equals DelNode of the model and keeps a valid state valid. |
| `ClusterModel.UpdateSlotsKeepsAgreement` | redis-6.0.10/src/cluster.c:1617-1711 | A claim of any content and epoch keeps every state well formed: tables agree and no reference dangles. |
| `ClusterModel.DelNodeLeavesNoReference` | redis-6.0.10/src/cluster.c:981-1008 | After the deletion no slot, importing, migrating, slaveof or failure-report entry names the node. |
| `ClusterModel.BumpIsFresh` | redis-6.0.10/src/cluster.c:1088-1105 | A bump takes an epoch strictly above every epoch the node knows and keeps the epochs bounded. |
| `ClusterModel.BumpIfBehindKeeps` | redis-6.0.10/src/cluster.c:1088-1105 | The conditional bump keeps the state well formed, epochs bounded, and everything else unchanged. |
| `ClusterModel.ProcessPingKeeps` | redis-6.0.10/src/cluster.c:1980-2093 | A PING with any claim keeps the state well formed and its epochs bounded. |
| `ClusterModel.ProcessUpdateKeeps` | redis-6.0.10/src/cluster.c:2167-2187 | So does an UPDATE, which also leaves the election fields alone. |
| `ClusterModel.ReceiveKeeps` | redis-6.0.10/src/cluster.c:1799-2187 | Every packet with bounded epochs leaves the state well formed, its epochs bounded and its current epoch no smaller. |
| `ClusterModel.TakeOverKeeps` | redis-6.0.10/src/cluster.c:3059-3087 | A promotion keeps the state well formed and its epochs bounded. |
| `ClusterModel.HeaderIsBounded` | redis-6.0.10/src/cluster.c:2442-2444 | Every packet a node builds carries a config epoch at most its current epoch. |
| `ClusterModel.UpdateIsUndefinedIff` | redis-6.0.10/src/cluster.c:1633 | The handler reads through a NULL curmaster exactly when this node is a replica that does not know its master and the claim holds an unassigned slot it is not importing. |
| `ClusterModel.OrphanDies` | redis-6.0.10/src/cluster.c:1633 | Such a node: a replica loaded without a master reads through NULL when another node claims an unassigned slot. |
| `ClusterModel.AssertionFailsIff` | redis-6.0.10/src/cluster.c:4064-4066 | When curmaster is known, the assertion of clusterSetMaster fails exactly when this node is a replica that keeps slots of its own while the claim takes all the slots of its master. |
| `ClusterModel.StrayDies` | redis-6.0.10/src/cluster.c:4064-4066 | Such a node: a replica that was given a slot by ADDSLOTS dies when another node takes the last slot of its master. |
| `ClusterModel.ReceiveKeepsRoles` | redis-6.0.10/src/cluster.c:1799-2187 | Every packet keeps "a replica knows its master" and "a replica has no slots of its own". |
| `ClusterModel.GoodRolesSurvive` | redis-6.0.10/src/cluster.c:1617-1711 | A node that knows its master if it is a replica never reads through NULL, and if besides it has no slots of its own no packet kills it. |
| `ClusterModel.Quorum` | redis-6.0.10/src/cluster.c:3100 | The smallest number of votes that is more than half of the masters with slots. |
| `ClusterLaws.HeaderTellsSlots` | redis-6.0.10/src/cluster.c:2433-2444 | A header carries exactly the slots this node knows of its master, or of itself, with that node's config epoch. |
| `ClusterLaws.ClaimMovesSlots` | redis-6.0.10/src/cluster.c:1640-1677 | For every slot: it is the claimant's if it is claimed, not being imported, and without an owner or owned under a smaller epoch; otherwise it keeps its owner. No other node's entry changes. |
| `ClusterLaws.LosersFollow` | redis-6.0.10/src/cluster.c:1692-1700 | The node turns into a replica of the claimant exactly when the claim takes the last slot of its master (of itself, for a master), and a former master closes its open slots. |
| `ClusterLaws.ReplicasOwnNothing` | redis-6.0.10/src/cluster.c:1980-2014 | A PING of a node that calls itself a replica leaves it a replica of the master it names, and without slots if it was a master. |
| `ClusterLaws.UpdateIsAdopted` | redis-6.0.10/src/cluster.c:2167-2187 | An UPDATE with a newer epoch makes the node a master with that epoch and moves exactly the listed slots that yield; an older one changes nothing but the epochs learnt. |
| `ClusterLaws.WinnerReplacesMaster` | redis-6.0.10/src/cluster.c:3059-3087 | A promotion moves every slot of the old master to the winner and no other slot, under an epoch at least the election's. |
| `Failover.VoteVouches` | redis-6.0.10/src/cluster.c:2857-2958 | A vote is a serving master's, for a known replica of a failed master (or a manual failover), in a new epoch, and no claimed slot is known under a greater epoch than the request's. |
| `Failover.StaleClaimGetsNoVote` | redis-6.0.10/src/cluster.c:2932-2949 | One claimed slot known under a greater epoch is enough to refuse the vote. |
| `Failover.WinnersOwnTheSlots` | redis-6.0.10/src/cluster.c:3245-3260 | In every reachable state of the cluster, the replica that concludes its election owns exactly what it owned and what its master owned. |
| `Failover.FailoverSpreads` | redis-6.0.10/src/cluster.c:2025-2040 | A node that hears the winner's next PING hands over every slot of the old master that it knows under a smaller epoch, or under none. |
| `ClusterCommands.SlotCommandsDo` | redis-6.0.10/src/cluster.c:4412-4551 | ADDSLOTS, DELSLOTS and SETSLOT: which slot changes hands, which open slots close, and that closing an import gives the node the greatest epoch it knows; nothing else changes. |
| `ClusterCommands.NodeCommandsDo` | redis-6.0.10/src/cluster.c:4364-4906 | BUMPEPOCH, SET-CONFIG-EPOCH, MEET, FORGET and REPLICATE: which node's entry changes and how; FORGET unassigns exactly the node's slots. |
| `ClusterCommands.BumpGivesGreatest` | redis-6.0.10/src/cluster.c:1088-1105 | After a bump no node in the table has a greater config epoch than this one; it takes the next epoch, or stays if it was ahead already. |
| `ClusterCommands.UpdateTellsSlots` | redis-6.0.10/src/cluster.c:2726-2736 | An UPDATE packet carries the config epoch and exactly the slots the sender knows of the node it is about. |
| `Elections.NextKeepsInv` | redis-6.0.10/src/cluster.c:2857-2958 | Every step keeps the election invariant: one vote per voter and epoch, lastVoteEpoch at most currentEpoch, counters that count distinct voters of the last election. |
| `Elections.InvGivesSafety` | redis-6.0.10/src/cluster.c:3247 | Two quorums of one voter set meet, hence two wins of the same epoch are one candidate's. |
| `Elections.ElectionSafety` | redis-6.0.10/src/cluster.c:2857-2958 | In every run whose elections start with an empty counter at most one candidate wins a given epoch. |
| `Elections.QuietIsFair` | redis-6.0.10/src/cluster.c:3169-3176 | When no vote that would be counted arrives between the reset of a counter and the start of the next election, every election starts with an empty counter. |
| `Elections.StartIsHonestIff` | redis-6.0.10/src/cluster.c:3233-3236 | The votes counted for an election that starts are votes of its epoch exactly when its counter is empty: the source does not reset it there. |
| `ElectionWindow.TwoWinnersWithoutTheHypothesis` | redis-6.0.10/src/cluster.c:3173-3235 | A run of the whole cluster, with real packets and candidates that agree on the voters, in which two old votes arrive in the window and two candidates win the same epoch. |
| `ElectionWindow.StaleVotesWin` | redis-6.0.10/src/cluster.c:2142-2154 | Its first winner: old votes counted after the reset win the next election at once. |
| `ElectionWindow.FreshVotesWin` | redis-6.0.10/src/cluster.c:2857-2958 | Its second winner: the same masters vote for another replica in that epoch. |
| `ClusterBus.ActKeeps` | redis-6.0.10/src/cluster.c:4330-4906 | Every administrator command (meet, forget, addslots, delslots, setslot, replicate, bumpepoch, set-config-epoch) keeps the state well formed, epochs bounded, current epoch no smaller, election fields unchanged. |
| `ClusterBus.ActKeepsRoles` | redis-6.0.10/src/cluster.c:4693-4751 | Every command keeps "a replica knows its master" (FORGET refuses the own master), and every one but ADDSLOTS on a replica keeps "a replica has no slots of its own". |
| `ClusterBus.AssignSlotKeeps` | redis-6.0.10/src/cluster.c:4504-4551 | SETSLOT NODE, with its bump when an imported slot is closed, keeps all of that. |
| `ClusterBus.DeliverKeepsBusInv` | redis-6.0.10/src/cluster.c:1722-2202 | Delivering any packet, any number of times, keeps the invariant of the whole cluster. |
| `ClusterBus.NextKeepsBusInv` | redis-6.0.10/src/cluster.c:1722-2202 | Every step of every node keeps every table well formed, every replica knowing its master and, in every table and packet, each config epoch at most the current epoch beside it. |
| `ClusterBus.RunKeepsBusInv` | redis-6.0.10/src/cluster.c:1799-1810 | The same over whole runs from any good start. |
| `ClusterBus.BusRefinesElections` | redis-6.0.10/src/cluster.c:2857-2958 | Every step of the real handlers is a step of the abstract election protocol. |
| `ClusterBus.ClusterElectionSafety` | redis-6.0.10/src/cluster.c:3169-3262 | In every run of the whole cluster in which candidates agree on the voters and start their elections with an empty counter, at most one candidate reaches quorum for an epoch. |
| `ClusterBus.NewEpochsAreFresh` | redis-6.0.10/src/cluster.c:3233-3259 | In every reachable state a bump or a new election takes an epoch above every config epoch the node knows. |
| `ClusterBus.NullIsNeverRead` | redis-6.0.10/src/cluster.c:1633 | From a start in which replicas know their masters, no packet in flight ever makes its receiver read through NULL. |
| `ClusterBus.NobodyDies` | redis-6.0.10/src/cluster.c:1617-1711 | If besides nobody gives slots to a replica, no packet in flight ever kills its receiver. |
| `SlotConvergence.ShortcutSkipsNothing` | redis-6.0.10/src/cluster.c:2025-2040 | When the bitmaps are equal the skipped call would not have changed anything. |
| `SlotConvergence.SlotAfter` | redis-6.0.10/src/cluster.c:1640-1677 | A slot after an announcement: the sender's when it claims it with a greater epoch than the owner's, else unchanged. |
| `SlotConvergence.HearKeepsProgress` | redis-6.0.10/src/cluster.c:1980-2093 | One announcement keeps earlier claims honoured and honours its own. |
| `SlotConvergence.HearingIsSafe` | redis-6.0.10/src/cluster.c:1617-1711 | No announcement kills the node that hears it. |
| `SlotConvergence.SlotsConverge` | redis-6.0.10/src/cluster.c:1640-1677 | Once every claimant was heard, before or in any sequence of announcements with repetitions, a slot whose starting owner claims it, gives way to a greater epoch or does not exist belongs to the claimant with the highest epoch, and to nobody if nobody claims it; the hearing node may be a claimant itself and lose slots or its role. |
| `SlotConvergence.ConvergesIff` | redis-6.0.10/src/cluster.c:1640-1677 | That condition on the starting owner is exact: a slot ends with its highest claimant in every complete sequence of announcements if and only if it holds. |
| `SlotConvergence.SomeRunSticks` | redis-6.0.10/src/cluster.c:1663-1672 | When it does not hold, a complete sequence of announcements that leaves the slot with its owner. |
| `SlotConvergence.SilentOwnerStays` | redis-6.0.10/src/cluster.c:1663-1672 | Such a table: the owner is silent and known under a greater epoch than the only claimant. |
| `SlotConvergence.OrderDoesNotMatter` | redis-6.0.10/src/cluster.c:2025-2040 | Any two nodes, serving masters included, with any two orders and starting tables whose slots settle, end with the same slot table. |
| `EpochCollisions.PingHears` | redis-6.0.10/src/cluster.c:2086-2093 | The epoch effect of clusterProcessPacket for a PING between masters is exactly Hear. |
| `EpochCollisions.MovesIff` | redis-6.0.10/src/cluster.c:1153-1168 | A master moves on hearing a fresh announcement exactly when a master with a greater name has its epoch. |
| `EpochCollisions.MovesAreFew` | redis-6.0.10/src/cluster.c:1153-1168 | In every reachable state a master has moved at most once per master with a greater name (tighter than 2^k - 1). |
| `EpochCollisions.RestMeansDistinct` | redis-6.0.10/src/cluster.c:1153-1168 | No new announcement makes anyone move exactly when all config epochs differ. |
| `EpochCollisions.AtRestIff` | redis-6.0.10/src/cluster.c:1153-1168 | With the packets in flight: nobody will move exactly when the epochs differ and no packet in flight still collides. |
| `EpochCollisions.RestIsForEver` | redis-6.0.10/src/cluster.c:1153-1168 | Once at rest, nobody moves again whatever is sent and delivered. |
| `EpochCollisions.CollisionsGetResolved` | redis-6.0.10/src/cluster.c:1153-1168 | For every run with late, repeated and reordered announcements: the move bound, and no new announcement moves anyone exactly at distinct epochs. |
| `Resharding.GetNodeByQuery` | redis-6.0.10/src/cluster.c:5649-5801 | MOVED names the owner of the slot and never this node; ASK comes from the owner only, names the node the slot migrates to, and a key is missing; serving is by the owner, or by an importing node for ASKING and MIGRATE; CROSSSLOT, unbound and TRYAGAIN each have exactly one cause. |
| `Resharding.ServesOnlyWhatItHolds` | redis-6.0.10/src/cluster.c:5649-5801 | A node that serves a command has all its keys in hand; a migrating source holds every key. |
| `Resharding.ReadsAreLatest` | redis-6.0.10/src/cluster.c:5649-5801 | Every value read by a served command is the latest one written. |
| `Resharding.NextKeepsInv` | redis-6.0.10/src/cluster.c:5418-5452 | Commands, MIGRATE steps and SETSLOT keep one authoritative copy of every key. |
| `Resharding.SourceNeverRegains` | redis-6.0.10/src/cluster.c:5761-5766 | In every run, a key absent at the source once the slot is leaving is never recreated there. |
| `Resharding.ReshardingIsTransparent` | redis-6.0.10/src/cluster.c:4504-4551 | In every interleaving: served keys are in hand, the destination answers only for keys the source dropped or is about to drop, reads are latest, and no key returns to the source. |
| `Resharding.SingleKeyDestination` | redis-6.0.10/src/cluster.c:5649-5801 | For single-key commands the destination never answers while the source holds the key. |
| `Redirections.OneKey` | redis-6.0.10/src/cluster.c:5761-5801 | The reply to a command on one key at either node, for a plain client and for one that says ASKING. |
| `Redirections.ServedInThree` | redis-6.0.10/src/cluster.c:5761-5801 | While the destination takes in whom the source sends away, a client that follows its redirections is served within three visits, wherever it starts. |
| `Redirections.NeverServed` | redis-6.0.10/src/cluster.c:5785-5801 | Otherwise no number of visits is enough. |
| `Redirections.RedirectionsLeadHome` | redis-6.0.10/src/cluster.c:5649-5801 | In every state that commands, MIGRATE and SETSLOT reach, a single key is served within three visits if and only if the destination takes in whom the source sends away; if not, it is never served. |
| `Redirections.ClosedTooEarly` | redis-6.0.10/src/cluster.c:4504-4551 | Such a state: an empty slot is given away at the source before the destination has taken it. |
| `AofCodec.CatAppendOnlyGenericCommand` | redis-6.0.10/src/aof.c:522-545 | The loop appends exactly the RESP array of bulk strings of the command. |
| `AofCodec.SelectBytes` | redis-6.0.10/src/aof.c:522-545 | The very bytes of SELECT 0 in the file. |
| `AofCodec.ScanLine` | redis-6.0.10/src/aof.c:781-786 | Where the line of at most 127 characters ends, and whether the end of the file was met. |
| `AofCodec.Stream.Fgets` | redis-6.0.10/src/aof.c:781-786 | Takes one line as the C library does; fails only at the end of the file. |
| `AofCodec.Stream.Fread` | redis-6.0.10/src/aof.c:806-824 | Takes n bytes, or meets the end of the file. |
| `Decimals.StrtolDecimal` | redis-6.0.10/src/aof.c:803 | Reading back a printed number gives the number, whatever follows it. |
| `Decimals.CutDigits` | redis-6.0.10/src/aof.c:788 | Any non-empty beginning of a positive number's digits is a positive number. |
| `AofLoader.ReadCommandBack` | redis-6.0.10/src/aof.c:781-827 | A command is read back as it was written, whatever bytes follow. |
| `AofLoader.ReadCommandCut` | redis-6.0.10/src/aof.c:781-827 | A command cut at any byte is an unexpected end of file and never a format error. |
| `AofLoader.LoadArg` | redis-6.0.10/src/aof.c:797-825 | The imperative reader of one argument does what ReadArg states on the bytes left. |
| `AofLoader.LoadArgs` | redis-6.0.10/src/aof.c:796-826 | The loop over the arguments does what ReadArgs states. |
| `AofLoader.LoadCommand` | redis-6.0.10/src/aof.c:781-827 | The imperative reader of one command does what ReadCommand states. |
| `AofLoader.LoadAppendOnlyFile` | redis-6.0.10/src/aof.c:766-900 | The loading loop, with MULTI queueing, valid_up_to and the truncation branches, equals Load on the bytes of the file. |
| `AofRecovery.LoadCut` | redis-6.0.10/src/aof.c:766-900 | The log cut at any byte p: exactly the complete commands are performed, the end is never a format error. |
| `AofRecovery.PlayEntries` | redis-6.0.10/src/aof.c:838-861 | Any number of commands of a log: whole entries ran, each transaction as a unit, and at most the last is open. |
| `AofRecovery.CrashRecovery` | redis-6.0.10/src/aof.c:861-900 | Any cut runs exactly the whole entries, never a format error; the file left ends between entries exactly when the cut is not inside a command of an open transaction. |
| `AofRecovery.WholeLogLoads` | redis-6.0.10/src/aof.c:766-900 | A log of whole entries loads completely. |
| `AofRecovery.AppendsSurvive` | redis-6.0.10/src/aof.c:870-900 | When not torn inside a transaction, entries appended after recovery are all recovered by the next load. |
| `AofRecovery.AppendsAreLost` | redis-6.0.10/src/aof.c:861-900 | When torn inside a transaction, the file left behind ends in an open MULTI and what is appended to it is not executed by the next load. |
| `AofRecovery.TornCut` | redis-6.0.10/src/aof.c:861-900 | In that case the cut falls after the last complete command of the transaction. |
| `AofRecovery.TornExample` | redis-6.0.10/src/aof.c:861-900 | Such a log exists. |
| `AofTranslate.ScanFollowsParser` | redis-6.0.10/src/aof.c:613-618 | On a command the parser accepts, the writer's EX/PX scan finds the same time to live, and its assertion holds, exactly when no argument of EX is spelled PX and no argument of PX is spelled EX. |
| `AofTranslate.AClashingCommand` | redis-6.0.10/src/aof.c:613-618 | A concrete accepted command on which the two differ. |
| `AofTranslate.OptionsAreSpelled` | redis-6.0.10/src/t_string.c:97-143 | Each option the parser of SET reports is spelled among the arguments, in any case; NX excludes XX and KEEPTTL excludes a time to live. |
| `AofTranslate.SetMeans` | redis-6.0.10/src/t_string.c:68-94 | SET stores the value, with the new expiry, the kept one or none, exactly when its time is a positive number and NX or XX does not object; every other key and database stays. |
| `AofTranslate.ExpireMeans` | redis-6.0.10/src/expire.c:500-540 | An expiry command changes the expiry of an existing key only, to the absolute time its unit and base mean, and keeps value and all other keys. |
| `AofTranslate.TranslateSet` | redis-6.0.10/src/aof.c:611-632 | SET with a time to live is a plain SET and a PEXPIREAT with the same effect, at any replay time, also when the time wraps around 64 bits. |
| `AofTranslate.TranslateSetEx` | redis-6.0.10/src/aof.c:603-610 | So for SETEX and PSETEX. |
| `AofTranslate.TranslateOne` | redis-6.0.10/src/aof.c:599-638 | Replaying a translation at any later time does what the command does when it is logged. |
| `AofTranslate.RunIsEffect` | redis-6.0.10/src/expire.c:497-540 | EXPIRE and its variants with a past time, on a master, delete the key and leave DEL or UNLINK to be logged; running any command does what loading the command it leaves does. |
| `AofTranslate.ReplayLogged` | redis-6.0.10/src/aof.c:584-638 | One logged command, with its SELECT if needed, replays to the same dataset from any selected database the log allows. |
| `AofTranslate.LogOfSnoc` | redis-6.0.10/src/aof.c:584-653 | Logging event after event gives the log of the whole sequence. |
| `AofTranslate.ReplayIsLiveAtFeed` | redis-6.0.10/src/aof.c:1656-1660 | For any run of commands and rewrites, replay gives the dataset of running each command, as execution left it, at the time it was logged. |
| `AofTranslate.ReplayIsLive` | redis-6.0.10/src/aof.c:584-653 | When commands are logged when they run, replay restores every value, every absolute expiry and every deletion of an expired key. |
| `AofTranslate.Drift` | redis-6.0.10/src/aof.c:554-582 | Otherwise the expiry is later by exactly the delay, up to wrap-around, and nothing else differs: the condition is exact. |
| `AofTranslate.DriftExample` | redis-6.0.10/src/aof.c:554-582 | Such a command: EXPIRE k 10, run at 0 and logged at 1. |
| `AofHandover.StepKeeps` | redis-6.0.10/src/aof.c:95-194 | Every step keeps: child diff, then pipe, then buffered blocks, is exactly the bytes fed since the fork. |
| `AofHandover.RunKeeps` | redis-6.0.10/src/aof.c:95-194 | So over every interleaving. |
| `AofHandover.FinishedIsExact` | redis-6.0.10/src/aof.c:1495-1521 | A well exited child's file and the rest of the buffer are the snapshot and all bytes fed. |
| `AofHandover.HandoverIsExact` | redis-6.0.10/src/aof.c:1734-1822 | The same for every run from the fork, with arbitrary partial writes and reads. |
| `AofHandover.DrainIsNeeded` | redis-6.0.10/src/aof.c:1499-1503 | Finishing with bytes in the pipe is exact if and only if the pipe is empty. |
| `AofServers.AofWrite` | redis-6.0.10/src/aof.c:300-317 | The retrying writer: which prefix reaches the file, and the value returned, for every kernel behaviour. |
| `AofServers.AppendTo` | redis-6.0.10/src/aof.c:125-161 | The block-wise append keeps the block bounds and the concatenation of the blocks grows by exactly the bytes. |
| `AofServers.WriteBlocks` | redis-6.0.10/src/aof.c:174-194 | All blocks reach the file, or the write is reported failed. |
| `AofServers.SendBlocks` | redis-6.0.10/src/aof.c:95-122 | What is sent and what is left are the blocks' bytes, in order, for every sequence of partial writes. |
| `AofServers.CatAppendOnlyExpireAtCommand` | redis-6.0.10/src/aof.c:554-582 | Appends the PEXPIREAT with the absolute time in milliseconds. |
| `AofServers.ScanSetOptions` | redis-6.0.10/src/aof.c:613-618 | The loop returns the arguments after the last EX and the last PX. |
| `AofServers.CatTranslated` | redis-6.0.10/src/aof.c:599-638 | The bytes of the translation, or the failed assertion exactly on an ambiguous SET. |
| `AofServers.LogBytes` | redis-6.0.10/src/aof.c:584-638 | SELECT exactly when the log has another database selected, then the translation. |
| `AofServers.AofServer.constructor` | redis-6.0.10/src/aof.c:251-291 | A server with a loaded file and logging on, or with logging off, satisfies the invariants. |
| `AofServers.AofServer.AppendFed` | redis-6.0.10/src/aof.c:640-650 | Bytes go to aof_buf when the log is on and to the rewrite buffer while a child runs; the log invariant is kept. |
| `AofServers.AofServer.Feed` | redis-6.0.10/src/aof.c:584-653 | The whole feed: invariant kept, exact bytes appended, exits exactly on an ambiguous SET. |
| `AofServers.AofServer.ShortWrite` | redis-6.0.10/src/aof.c:413-483 | A short write is undone by ftruncate, or its bytes are dropped from the buffer, or the server exits. |
| `AofServers.AofServer.Flush` | redis-6.0.10/src/aof.c:338-520 | Exactly when a flush is postponed (at most two seconds), complete, rejected, partial or fatal, and what each outcome leaves in the file and in aof_buf. |
| `AofServers.AofServer.TryFsync` | redis-6.0.10/src/aof.c:496-519 | When an fsync is due under each policy, and what it leaves: the whole file synced unless a background fsync still runs. |
| `AofServers.AofServer.FlushKeepsLog` | redis-6.0.10/src/aof.c:413-494 | file ++ aof_buf is conserved by every flush, so the file is always a prefix of the fed log. |
| `AofServers.AofServer.RewriteBufferAppend` | redis-6.0.10/src/aof.c:125-169 | The buffer grows by the bytes and a write handler is installed. |
| `AofServers.AofServer.ChildWriteDiffData` | redis-6.0.10/src/aof.c:95-122 | Moves a prefix of the buffer into the pipe, a Send step. |
| `AofServers.AofServer.ReadDiffFromParent` | redis-6.0.10/src/aof.c:1333-1343 | Drains the pipe into the child's diff, a Read step. |
| `AofServers.AofServer.AskToStop` | redis-6.0.10/src/aof.c:1484-1487 | The child's request, an Ask step. |
| `AofServers.AofServer.ChildPipeReadable` | redis-6.0.10/src/aof.c:1538-1559 | The parent stops sending and answers, an Answer step. |
| `AofServers.AofServer.GetAnswer` | redis-6.0.10/src/aof.c:1488-1493 | The child reads the answer. |
| `AofServers.AofServer.FinishRewrite` | redis-6.0.10/src/aof.c:1495-1521 | The child's file and the parent's remaining blocks are the snapshot and all bytes fed since the fork. |
| `AofServers.AofServer.ChildFails` | redis-6.0.10/src/aof.c:1523-1528 | A failing child leaves the invariant intact. |
| `AofServers.AofServer.StartRewrite` | redis-6.0.10/src/aof.c:1621-1665 | Forks exactly when no child runs and pipes and fork succeed: an empty handover, and the selected database is forgotten; otherwise nothing changes. |
| `AofServers.AofServer.RewriteDone` | redis-6.0.10/src/aof.c:1712-1860 | On success the file is the snapshot and exactly the bytes logged since the fork and aof_buf may be dropped; in every other case file and buffer stay. |
| `AofServers.AofServer.Install` | redis-6.0.10/src/aof.c:1785-1822 | The renamed file satisfies the log invariant with an empty aof_buf. |
| `AofServers.AofServer.KillChild` | redis-6.0.10/src/aof.c:213-232 | Killing the child drops its buffer and keeps the log. |
| `AofServers.AofServer.StopAppendOnly` | redis-6.0.10/src/aof.c:236-247 | From any state that is not off: the file is a prefix of the log, file ++ aof_buf is conserved, and logging, child and scheduled rewrite are off. |
| `AofServers.AofServer.StartAppendOnly` | redis-6.0.10/src/aof.c:251-291 | Fails exactly when the open or the rewrite fails; else waits for a rewrite that starts from an empty handover, or is scheduled while another child runs. |
| `AofDurability.CrashedCommands` | redis-6.0.10/src/aof.c:766-900 | Commands outside transactions: after a crash at any byte exactly the complete ones are executed. |
| `AofDurability.ReplayEntries` | redis-6.0.10/src/aof.c:838-861 | Replaying a log with marked transactions does what replaying their contents does. |
| `AofDurability.LogRestoresDataset` | redis-6.0.10/src/aof.c:1734-1822 | A snapshot followed by the log of the events since, with complete transactions, restores the dataset those events left, at any load time. |
| `AofDurability.CrashRestoresPrefix` | redis-6.0.10/src/aof.c:727-900 | The same file cut at any byte of its log restores the dataset after the events whose entries are whole, plus a SET whose expiry was cut off. |
| `AofDurability.WholeEventsBounds` | redis-6.0.10/src/aof.c:584-653 | The whole events are as many as fit into the entries that are whole. |
| `AofDurability.RecoveredIsLiveIff` | redis-6.0.10/src/aof.c:603-628 | The restored dataset is exactly that of the whole events if and only if the cut is not between a SET and the expiry of its key, or the SET changes nothing. |
| `AofDurability.KeyOutlivesCrash` | redis-6.0.10/src/aof.c:603-610 | Such a cut: SETEX k 10 v, whose key then never expires. |
| `Crc64.CrcReflect` | redis-6.0.10/src/crc64.c:69-78 | The loop reverses the lowest bits; for width 64 it is the full bit reversal. |
| `Crc64.Reverse64At` | redis-6.0.10/src/crc64.c:69-78 | Bit i of the reversal is bit 63 - i: what reversal means. |
| `Crc64.MsbByte` | redis-6.0.10/src/crc64.c:94-105 | The bit loop over one byte is the mirrored least-significant-first step. |
| `Crc64.Crc64Bitwise` | redis-6.0.10/src/crc64.c:88-111 | _crc64 equals the least-significant-first register fold over the bytes, which is the polynomial remainder of Crc64Algebra.CrcIsRemainder. |
| `Crc64.BitStepsMirror` | redis-6.0.10/src/crc64.c:88-111 | Most- and least-significant-first steps are mirror images of each other. |
| `Crc64.FoldConcat` | redis-6.0.10/src/crc64.c:121-123 | The CRC of a concatenation is the CRC continued over the second part. |
| `Crc64.Shift8Split` | redis-6.0.10/src/crcspeed.c:33-50 | XOR-linearity: eight shifts of a register are those of its low byte and the shifted rest. |
| `Crc64.EightBytes` | redis-6.0.10/src/crcspeed.c:122-135 | Consuming eight bytes is xoring them in as one word and shifting 64 times. |
| `Crc64.LookupsAreRounds` | redis-6.0.10/src/crcspeed.c:122-135 | The eight lookups of slice-by-8 sum to 64 shifts. |
| `Crc64Check.CheckValue` | redis-6.0.10/src/crc64.c:33 | The CRC of the nine digits is 0xe9c6d914c4b8d9ca, the published check value. |
| `Crc64Check.BitwiseCheckValue` | redis-6.0.10/src/crc64.c:134-135 | _crc64 gives it. |
| `Crc64Check.TableCheckValue` | redis-6.0.10/src/crc64.c:136-137 | crc64 gives it, in either byte order and at any address. |
| `Crc64Algebra.PolyIsGenerator` | redis-6.0.10/src/crc64.c:33 | POLY is the generator polynomial, given by its exponents, without its leading term. |
| `Crc64Algebra.StepIsDivision` | redis-6.0.10/src/crc64.c:94-105 | One turn of the bit loop multiplies by x, adds the message bit times x^64 and reduces by the generator. |
| `Crc64Algebra.RegisterIsRemainder` | redis-6.0.10/src/crc64.c:88-111 | After any bits the register is congruent to the message times x^64, and the start value moved up, modulo the generator. |
| `Crc64Algebra.RemainderIsUnique` | redis-6.0.10/src/crc64.c:88-111 | Two polynomials of degree below 64 that are congruent modulo the generator are equal. |
| `Crc64Algebra.CrcIsRemainder` | redis-6.0.10/src/crc64.c:88-123 | The CRC of every buffer from every start is the one polynomial of degree below 64 that is congruent to the message times x^64, plus the start moved up, modulo the generator over GF(2). |
| `Crc64Tables.EntryIsCrc` | redis-6.0.10/src/crcspeed.c:33-50 | Table entry k, n is the CRC of byte n followed by k zero bytes. |
| `Crc64Tables.LookupByte` | redis-6.0.10/src/crcspeed.c:117-120 | One lookup consumes one byte. |
| `Crc64Tables.LookupEight` | redis-6.0.10/src/crcspeed.c:122-135 | Eight lookups consume eight bytes. |
| `Crc64Tables.Rev8BySwaps` | redis-6.0.10/src/crcspeed.c:71-83 | The swap network of rev8 is the byte reversal. |
| `Crc64Tables.Rev8Twice` | redis-6.0.10/src/crcspeed.c:71-83 | rev8 is its own inverse. |
| `Crc64Tables.InitLittle` | redis-6.0.10/src/crcspeed.c:33-50 | The nested loops fill all 8 x 256 entries as Entry states. |
| `Crc64Tables.InitBig` | redis-6.0.10/src/crcspeed.c:87-95 | The big-endian table is the little-endian one with reversed entries. |
| `Crc64Tables.Little` | redis-6.0.10/src/crcspeed.c:112-144 | For every buffer and alignment the three loops equal the bitwise fold. |
| `Crc64Tables.Big` | redis-6.0.10/src/crcspeed.c:183-213 | So do the big-endian loops, on the reversed register. |
| `Crc64Tables.BigSlicesAreSlices` | redis-6.0.10/src/crcspeed.c:193-206 | The big-endian lookups are the little-endian ones reversed. |
| `Crc64Tables.Crc64Machine.constructor` | redis-6.0.10/src/crc64.c:116-118 | The tables of either byte order are initialised correctly. |
| `Crc64Tables.Crc64Machine.Crc` | redis-6.0.10/src/crc64.c:121-123 | Whatever byte order and address: the bit-by-bit CRC continued from crc, hence the remainder of Crc64Algebra.CrcIsRemainder. |
| `Crc64Tables.Crc64Machine.AgreesWithBitwise` | redis-6.0.10/src/crc64.c:88-123 | crc64 from 0 equals _crc64 on every buffer. |
| `Crc64Tables.Crc64Machine.InTwoParts` | redis-6.0.10/src/crc64.c:121-123 | crc64 over two parts equals crc64 over the whole. |
| `AclModel.RulesKeepUsersOk` | redis-6.0.10/src/acl.c:790-954 | Every rule keeps every user well formed: ALLCOMMANDS only with a full bitmap, bits of no command like the reserved one, subcommands only for clear bits, no duplicates. |
| `AclModel.ReachableUsersOk` | redis-6.0.10/src/acl.c:790-954 | Every user any sequence of rules makes is well formed. |
| `AclModel.PermsKeep` | redis-6.0.10/src/acl.c:880-943 | The command rules keep the permissions well formed. |
| `AclModel.SetCategoryKeeps` | redis-6.0.10/src/acl.c:399-414 | So does setting or clearing a category. |
| `AclDescribe.CountCategoryBits` | redis-6.0.10/src/acl.c:420-440 | The loop counts the set and clear bits of the category. |
| `AclDescribe.BestCategory` | redis-6.0.10/src/acl.c:496-521 | Returns a category not yet applied whose counts make it worth applying, best first, or none. |
| `AclDescribe.CoarseRules` | redis-6.0.10/src/acl.c:468-540 | The greedy loop ends, and its tokens applied to a fresh user give the fake user's permissions. |
| `AclDescribe.SubRules` | redis-6.0.10/src/acl.c:556-568 | The subcommand loop appends exactly the described subcommands. |
| `AclDescribe.FixOne` | redis-6.0.10/src/acl.c:543-568 | After fixing a command the fake user agrees with the described one on it. |
| `AclDescribe.DescribeCommandRules` | redis-6.0.10/src/acl.c:449-588 | The final bitmap comparison never fails, and the tokens give back bitmap and subcommands. |
| `AclDescribe.DescribeStatus` | redis-6.0.10/src/acl.c:599-620 | The printed flags and passwords give back status and passwords. |
| `AclDescribe.DescribeKeys` | redis-6.0.10/src/acl.c:622-633 | The printed patterns give back the key patterns. |
| `AclDescribe.DescribeUser` | redis-6.0.10/src/acl.c:596-640 | Replaying all tokens on a new user gives back status, passwords, patterns, bitmap and subcommands. |
| `AclDescribe.StartDoesNotMatter` | redis-6.0.10/src/acl.c:468-476 | After the first token the starting permissions are irrelevant. |
| `AclDescribe.CheckCommandPerm` | redis-6.0.10/src/acl.c:1113-1185 | The command is denied exactly when neither all commands, nor its bit, nor its subcommand is allowed and it is not AUTH; a denied key matches no pattern and is the first such; an allowed command has every key matched. |
| `AclDescribe.SameDecisions` | redis-6.0.10/src/acl.c:1113-1185 | The user made from the printed rules is allowed and denied exactly the same. |
| `AclDescribe.PrintAndRead` | redis-6.0.10/src/acl.c:449-640 | For a user made by any sequence of rules: what is printed makes, out of a new user, one that is alike and is allowed and denied exactly the same. |
| `AclRules.CheckCredentials` | redis-6.0.10/src/acl.c:1007-1041 | Logging in succeeds exactly when the user exists, is on, and needs no password or has the given one. |
| `AclRules.RemoveTakesOut` | redis-6.0.10/src/acl.c:855-858 | Removing a list entry takes out exactly that one and keeps the order of the others. |
| `AclRules.RuleAboutLogin` | redis-6.0.10/src/acl.c:793-862 | For every rule, user and password: exactly when the password is right afterwards, and exactly when the user is off. |
| `AclRules.RevokesOnePassword` | redis-6.0.10/src/acl.c:844-862 | A removal takes out exactly the named password, keeps the others in order, and changes nothing else of the user. |
| `AclRules.RuleAboutKeys` | redis-6.0.10/src/acl.c:799-879 | For every rule and key: exactly when the user may touch the key afterwards. |
| `AclRules.RuleAboutCommands` | redis-6.0.10/src/acl.c:880-954 | For every rule, command and arguments: exactly when the user may run the command afterwards, subcommands and categories included. |
| `AclRules.RefusalsHaveCauses` | redis-6.0.10/src/acl.c:790-954 | Each error of a rule has its cause: unknown names, a subcommand of an allowed command, a pattern when all keys are allowed, a password that is not there, a malformed hash, a malformed rule. |
| `AclRules.HashesAreHex` | redis-6.0.10/src/acl.c:171-186 | A password hash is accepted exactly when it is 64 lower-case hexadecimal digits. |
| `AclRules.PatternsHaveNoSpaces` | redis-6.0.10/src/acl.c:197-202 | A pattern is accepted exactly when it holds no space and no NUL. |
| `AclUsers.AclUser.constructor` | redis-6.0.10/src/acl.c:236-253 | A new user is off, without passwords, keys or commands. |
| `AclUsers.AclUser.SetCommandBit` | redis-6.0.10/src/acl.c:382-391 | In place: sets or clears a bit; clearing takes ALLCOMMANDS away. |
| `AclUsers.AclUser.ResetSubcommandsForCommand` | redis-6.0.10/src/acl.c:655-662 | In place: the command has no allowed subcommands afterwards. |
| `AclUsers.AclUser.AddAllowedSubcommand` | redis-6.0.10/src/acl.c:683-710 | Appended unless present in any case. |
| `AclUsers.AclUser.SetCommandBitsForCategory` | redis-6.0.10/src/acl.c:399-414 | The loop changes exactly the category's commands; an unknown or empty category is an error. |
| `AclUsers.AclUser.SetPerms` | redis-6.0.10/src/acl.c:880-943 | The command rules, in place, equal ApplyPerms, with the same errors and no change on error. |
| `AclUsers.AclUser.SetStatus` | redis-6.0.10/src/acl.c:793-862 | The flag and password rules, in place, with the same errors and no change on error; what they mean for logging in is AclRules.RuleAboutLogin and AclRules.RevokesOnePassword. |
| `AclUsers.AclUser.SetKeys` | redis-6.0.10/src/acl.c:799-879 | The key rules, in place; what they mean for the keys a user may touch is AclRules.RuleAboutKeys. |
| `AclUsers.AclUser.SetUser` | redis-6.0.10/src/acl.c:790-954 | ACLSetUser for every rule: the effect that AclRules.RuleAboutLogin, RuleAboutKeys and RuleAboutCommands describe, or the error with the cause of AclRules.RefusalsHaveCauses and no change. |
| `Adlists.List.constructor` | redis-6.0.10/src/adlist.c:42-54 | An empty list. |
| `Adlists.List.AddNodeTail` | redis-6.0.10/src/adlist.c:115-133 | One more node at the end; all other nodes stay the same objects in the same order. |
| `Adlists.List.DelNode` | redis-6.0.10/src/adlist.c:168-181 | The node at any position leaves; every other handle stays valid and in order. |
| `Adlists.List.RotateHeadToTail` | redis-6.0.10/src/adlist.c:346-358 | The same node objects, the first one now last. |
| `Adlists.List.Splice` | redis-6.0.10/src/adlist.c:362-372 | The pointers of a join make one chain of two. |
| `Adlists.List.Join` | redis-6.0.10/src/adlist.c:362-377 | All nodes of the other list follow; the other list is empty. |
| `Adlists.List.Walk` | redis-6.0.10/src/adlist.c:230-241 | Iteration from the head visits the values of all nodes in order. |
| `BlockingIndex.ExactlyOnce` | redis-6.0.10/src/blocked.c:556-635 | A client is in a key's queue exactly once if the key is among its keys, and not at all otherwise; the node on record is that node. |
| `BlockingIndex.JoinKeeps` | redis-6.0.10/src/blocked.c:566-595 | Joining a queue keeps the two directions in agreement. |
| `BlockingIndex.RotateKeeps` | redis-6.0.10/src/adlist.c:346-358 | Rotating a queue keeps every node on record. |
| `BlockingIndex.LeaveKeeps` | redis-6.0.10/src/blocked.c:601-635 | Leaving all queues keeps the agreement and no empty queue. |
| `BlockingKeys.Keys.First` | redis-6.0.10/src/blocked.c:223-224 | The client at the head of a key's list. |
| `BlockingKeys.Keys.RotateHeadToTail` | redis-6.0.10/src/blocked.c:226-231 | Rotation on the linked lists is rotation of the index. |
| `BlockingKeys.Keys.WaitFor` | redis-6.0.10/src/blocked.c:566-595 | Joins the list and stores the very node as the handle. |
| `BlockingKeys.Keys.Leave` | redis-6.0.10/src/blocked.c:601-635 | Removes the client from every list by its stored handle; empty lists go too. |
| `BlockedData.UndoPop` | redis-6.0.10/src/blocked.c:246-253 | Putting a popped element back at the same end restores the list. |
| `BlockedData.ServeConserves` | redis-6.0.10/src/blocked.c:233-259 | Serving a client loses and makes no element, also when source and destination are the same key. |
| `BlockedData.ElementArrives` | redis-6.0.10/src/t_list.c:667-680 | The element served is the first or the last one of the list; it arrives at the head of the destination, also when that is the list itself, or leaves the list; no other key changes, and nothing does when the destination is not a list. |
| `BlockedServers.BlockedServer.BlockForKeys` | redis-6.0.10/src/blocked.c:556-597 | The client joins every key's queue once, counters grow by one. |
| `BlockedServers.BlockedServer.UnblockClient` | redis-6.0.10/src/blocked.c:146-167 | The client leaves index and counters and is queued for reprocessing once. |
| `BlockedServers.BlockedServer.SignalKeyAsReady` | redis-6.0.10/src/blocked.c:644-665 | A key is queued exactly when somebody waits for it and it is not queued yet. |
| `BlockedServers.BlockedServer.HandOver` | redis-6.0.10/src/blocked.c:237-257 | The element goes to the client, to its destination, or back where it was. |
| `BlockedServers.BlockedServer.ServeFirst` | redis-6.0.10/src/blocked.c:233-259 | The head client is sent the element it pops (or its destination gets it), elements are conserved, and every key made ready is pending. |
| `BlockedServers.BlockedServer.LookAtFirst` | redis-6.0.10/src/blocked.c:222-260 | One turn of the loop: rotate a waiter of another type, or serve. |
| `BlockedServers.BlockedServer.ServeListKey` | redis-6.0.10/src/blocked.c:214-269 | List waiters are served in arrival order, each with the element it pops from what the ones before it left; the others keep their order, and the list ends deleted or without waiters. |
| `BlockedServers.BlockedServer.ServeQueue` | redis-6.0.10/src/blocked.c:218-260 | The loop reads no emptied queue and looks at every client at most once. |
| `BlockedServers.BlockedServer.ServeReadyKey` | redis-6.0.10/src/blocked.c:489-514 | One ready key. |
| `BlockedServers.BlockedServer.ServeRound` | redis-6.0.10/src/blocked.c:484-524 | One round over the keys taken over. |
| `BlockedServers.BlockedServer.HandleClientsBlockedOnKeys` | redis-6.0.10/src/blocked.c:474-527 | The rounds end for any BRPOPLPUSH targets; afterwards nobody waits for a list with elements, and every element is in a list or delivered. |
| `BlockedServers.BlockedServer.TakeReady` | redis-6.0.10/src/blocked.c:475-483 | The ready list is taken over and left empty. |
| `BlockedServers.BlockedServer.Block` | redis-6.0.10/src/blocked.c:556-597 | Blocking on keys without elements keeps the settled state. |
| `BlockedServers.BlockedServer.GiveUp` | redis-6.0.10/src/blocked.c:146-167 | A timeout or disconnect keeps the settled state. |
| `BlockedServers.BlockedServer.Push` | redis-6.0.10/src/blocked.c:644-665 | A push that creates a list signals it; the settled state is kept. |
| `BlockedServers.NobodyLeft` | redis-6.0.10/src/blocked.c:214-269 | Once every client of the queue was looked at, nobody in it waits for a list. |
| `BlockedServers.HeadLeaves` | redis-6.0.10/src/blocked.c:601-635 | The queue without its head client is the rest of it. |
| `Popcount.ParallelCounts` | redis-6.0.10/src/bitops.c:66-86 | The SWAR steps leave in each byte of a word the number of its set bits. |
| `Popcount.GatherDigits` | redis-6.0.10/src/bitops.c:80-86 | The multiply-shift sums the byte counts of seven words; no byte exceeds 224, so no carry is lost. |
| `Popcount.BlockCounts` | redis-6.0.10/src/bitops.c:54-87 | A 28-byte block adds exactly its number of set bits. |
| `Popcount.RedisPopcount` | redis-6.0.10/src/bitops.c:40-92 | For every buffer and alignment the result is the plain count of set bits. |
| `Bitpos.ScanBit` | redis-6.0.10/src/bitops.c:172-180 | Turn t of the shifting scan tests bit t of the eight bytes. |
| `Bitpos.SkipWords` | redis-6.0.10/src/bitops.c:131-142 | Bytes up to alignment and whole words without the bit are skipped, and only those. |
| `Bitpos.LoadRest` | redis-6.0.10/src/bitops.c:151-159 | The word assembled at the end is the remaining bytes and zeros. |
| `Bitpos.ScanWord` | redis-6.0.10/src/bitops.c:172-180 | Finds the first bit of the value in the word if there is one. |
| `Bitpos.RedisBitpos` | redis-6.0.10/src/bitops.c:101-186 | The first position of the bit in the zero-padded bitmap, -1 only for a 1 that is not there; the panic is unreachable. |
| `Bitfields.SetUnsigned` | redis-6.0.10/src/bitops.c:209-222 | The loop writes the bits of the value into the range and no other bit. |
| `Bitfields.SetSigned` | redis-6.0.10/src/bitops.c:224-227 | The same through the two's complement. |
| `Bitfields.GetUnsigned` | redis-6.0.10/src/bitops.c:229-241 | The loop reads the number whose binary digits are the range. |
| `Bitfields.FieldJoins` | redis-6.0.10/src/bitops.c:229-241 | A field is its first bits times a power of two plus its last bits: the order of the digits. |
| `Bitfields.HighestBitFirst` | redis-6.0.10/src/bitops.c:229-241 | An eight-bit field at any offset, by its bits: the first one counts 128, the last one 1. |
| `Bitfields.GetSigned` | redis-6.0.10/src/bitops.c:243-263 | Sign extension gives the two's complement value of the range. |
| `Bitfields.SetThenGet` | redis-6.0.10/src/bitops.c:209-241 | What is written is read back, cut to its width, at any offset and width. |
| `Bitfields.SetElsewhere` | redis-6.0.10/src/bitops.c:209-241 | A disjoint range reads as before. |
| `Bitfields.SetThenGetSigned` | redis-6.0.10/src/bitops.c:224-263 | A signed value in range is written and read back. |
| `Bitfields.SetThenGetUnsigned` | redis-6.0.10/src/bitops.c:209-241 | An unsigned value in range is written and read back. |
| `Bitfields.CheckUnsigned` | redis-6.0.10/src/bitops.c:288-323 | The check, in 64-bit arithmetic: for up to 63 bits and a value in range the ideal decision about the exact sum, for an increment of 0 about any value; for 64 bits, exactly which sums it misjudges. |
| `Bitfields.CheckSigned` | redis-6.0.10/src/bitops.c:325-377 | The check, in wrapping 64-bit arithmetic: for a value in range the ideal decision about the exact sum; for an increment of 0 the ideal decision if and only if the value wraps around or is not so low that its distance from the maximum does not fit 64 bits. |
| `Bitfields.UnsignedTests` | redis-6.0.10/src/bitops.c:288-315 | Up to 63 bits the two tests are the comparisons with the exact sum. |
| `Bitfields.FullUnsignedTests` | redis-6.0.10/src/bitops.c:288-315 | For 64 bits each test is right exactly for half of the values. |
| `Bitfields.SignedOverIff` | redis-6.0.10/src/bitops.c:325-346 | For a value in range the overflow test is the comparison with the exact sum. |
| `Bitfields.SignedUnderIff` | redis-6.0.10/src/bitops.c:347-356 | So is the underflow test. |
| `Bitfields.SetOverIff` | redis-6.0.10/src/bitops.c:332-346 | For an increment of 0 the overflow test holds exactly for values above the range and for those whose distance from the maximum does not fit 64 bits. |
| `Bitfields.WrapUnsigned` | redis-6.0.10/src/bitops.c:314-322 | Masking the bits above the width is the remainder. |
| `Bitfields.WrapSigned` | redis-6.0.10/src/bitops.c:358-376 | Copying the sign bit to, or clearing, the bits above the width is the wrapped two's complement value. |
| `Words.WordRoundTrip` | redis-6.0.10/src/bitops.c:314-322 | A number below 2^64 as a 64-bit word, and back. |
| `Words.ClearHigh` | redis-6.0.10/src/bitops.c:316-320 | Clearing the bits of a word from k up is taking the remainder by 2^k. |
| `Words.SetHigh` | redis-6.0.10/src/bitops.c:366-369 | Setting them adds 2^64 - 2^k to the remainder. |
| `Bitfields.Extended` | redis-6.0.10/src/bitops.c:243-263 | Sign extension of a word as a number. |
| `Bitfields.LowestIsTakenForHigh` | redis-6.0.10/src/bitops.c:332-335 | The check of the lowest 64-bit integer, for every width below 64: taken for too high. |
| `BitfieldCommand.SetIsExactIff` | redis-6.0.10/src/bitops.c:1033-1103 | SET does what its overflow type says if and only if it is unsigned, does not saturate, or its value is not too low (at least 2^(bits-1) - 2^63, for widths below 64). |
| `BitfieldCommand.StoredIsRead` | redis-6.0.10/src/bitops.c:1033-1137 | What is stored is what a later GET reads. |
| `BitfieldCommand.StoredFits` | redis-6.0.10/src/bitops.c:1033-1103 | Whatever is stored is in the range of the type. |
| `BitfieldCommand.OutcomeMeans` | redis-6.0.10/src/bitops.c:1033-1103 | What is stored and replied against the value asked for: exact if it fits, else the same modulo 2^bits, the nearest that fits, or refused. |
| `BitfieldCommand.StepMeans` | redis-6.0.10/src/bitops.c:1033-1103 | The same said of the strings before and after, with the replies as what a GET reads. |
| `BitfieldCommand.WindowValue` | redis-6.0.10/src/bitops.c:1104-1137 | The nine-byte copy gives the value in the string padded with zeros for ever. |
| `BitfieldCommand.ExecGet` | redis-6.0.10/src/bitops.c:1104-1137 | GET replies the value of the range in the zero-padded string. |
| `BitfieldCommand.ExecWrite` | redis-6.0.10/src/bitops.c:1033-1103 | INCRBY replies what a GET reads afterwards, SET what a GET read before; a value that fits is stored exactly, a wrapped one is the same number modulo 2^bits, a saturated one the nearest that fits; the reply is nil exactly when FAIL meets a value that does not fit, and then nothing changes; no other bit ever changes. |
| `BitfieldCommand.HighestWrite` | redis-6.0.10/src/bitops.c:978-981 | The loop finds the highest bit any operation writes: no operation writes beyond it and one writes it. |
| `BitfieldCommand.Grow` | redis-6.0.10/src/bitops.c:480-493 | The string grows by zeros to hold a bit, and never shrinks. |
| `BitfieldCommand.Execute` | redis-6.0.10/src/bitops.c:1002-1138 | The operations take effect one after the other, each write with the meaning and the reply stated for ExecWrite; the string grows by zeros to the byte of the highest write and no further, and not at all for GETs only. |
| `Bitop.ByBytes` | redis-6.0.10/src/bitops.c:677-730 | A word operation is the operation on each of its eight bytes. |
| `Bitop.WordOp` | redis-6.0.10/src/bitops.c:680-683 | One word of the result combined in place; the other bytes stay. |
| `Bitop.FourWords` | redis-6.0.10/src/bitops.c:679-684 | The 32 bytes of a stride combined in place; the other bytes stay. |
| `Bitop.Lengths` | redis-6.0.10/src/bitops.c:629-656 | The longest and the shortest source; a missing key counts as empty. |
| `Bitop.Stride` | redis-6.0.10/src/bitops.c:676-730 | One stride over all sources makes 32 more bytes final. |
| `Bitop.ByteLoop` | redis-6.0.10/src/bitops.c:735-747 | The byte loop makes all remaining bytes final. |
| `Bitop.FoldedBit` | redis-6.0.10/src/bitops.c:735-747 | A bit of the bytewise fold, by how many of the sources have it. |
| `Bitop.Execute` | redis-6.0.10/src/bitops.c:593-747 | Every bit of the result, for any lengths and missing keys: set under AND when all zero-padded sources have it, under OR when one has, under XOR when an odd number have, under NOT when the source has not; the result is as long as the longest source; only NOT with several keys is refused. |

## Left out

- The Express application (controllers, routes, worker, main files): plumbing over MongoDB, Redis and Bull clients.
- Cluster gossip, handshakes, links, node timeouts and wall-clock delays: a step may happen at any time instead; the failure flag of a node changes by a step of its own.
- Hard and soft reset, 64-bit wrap-around of epochs, replica ranks, replica migration, manual failover and TAKEOVER.
- Deletion of the keys of lost slots (cluster.c:1700-1710), READONLY replicas and cluster-down replies.
- A process that died and is started again from its configuration file: it takes no further step.
- Resharding.ReshardingIsTransparent: leaves out expiry and eviction of keys, SETSLOT STABLE while keys are on the move, and failovers of the two nodes.
- The RDB preamble of the append-only file, the per-type rewriters and module data: the snapshot is bytes that rebuild the dataset at the fork.
- fsync timing and page-cache loss: a crash keeps a prefix of the bytes written to the file.
- Read errors other than the end of the file, and failing allocations for huge announced lengths.
- AofRecovery.CrashRecovery: assumes aof-load-truncated (otherwise the loader exits at a short read) and a successful truncate; a cut at byte 0 is the loader's own case for an empty file, which runs nothing.
- The deletion of expired keys on access and by the background cycle: the DEL commands logged for them are events like those of a client. Times that overflow 64 bits wrap around, which the C standard leaves undefined.
- Bitfields.CheckSigned: says nothing about a value below the range together with an increment, which no caller passes.
- Bitfields.CheckUnsigned: for 64 bits the wrapped value is not promised, since the source shifts by the width of the word; no caller passes 64.
- AofServers.AofServer.Flush: the bytes after an ftruncate to a size other than the real one are not described; the size is right whenever the log is on.
- ACL text splitting, SHA-256, constant-time comparison, modules and their commands; glob matching and key extraction are parameters; bitmaps are sets of ids and not 64-bit words.
- AclDescribe.DescribeCommandRules: works on rule tokens, not on the text made of them.
- Blocked sorted-set, stream and module clients and WAIT: clients of other types only stay in the queues; timeouts are a step at any time; one database.
- BITOP, BITFIELD, BITCOUNT and BITPOS argument parsing, type errors, the storing of BITOP's result under the target key, and the contents of the bitsinbyte table, which is taken as the count of bits of a byte.
- The 16-bit CRC routines of crcspeed.c, which nothing uses.
- ae.c, anet.c, bio.c, config.c and the other wrappers of system calls.

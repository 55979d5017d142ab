# A verified model of orbit

orbit is a small overlay network. A server (`orbitd`) gives every device a leased virtual address,
keeps the online devices of an account in a hub, relays IP packets between them, bills each forwarded
packet, and refuses packets once a daily quota is used up. A client either sends its traffic directly
to another device of the account or wraps it for an exit device, which unwraps it and answers.

This Dafny project models that core and proves what it keeps over whole runs. Operations that change
state in place are classes and methods with loops, each proved equal to a specification function. The
theorems are about those functions and about state machines built from them. Clocks, save errors,
write errors and the tier table are inputs. Address values are 32-bit numbers, and the byte
arithmetic behind them is proved to agree.

| part | files |
|---|---|
| usage ledger, its file and its report | `Usage`, `LedgerText`, `LedgerFile`, `Report`, with `MapSum`, `Clock` |
| quota counters, concurrent admission | `Quota`, `QuotaRace` |
| addresses and leases | `Bytes`, `Subnet`, `Leases`, `LeaseRuns`, `LeaseStore` |
| hub tables, relay, the server machine | `Registry`, `Server`, `Hub` (object graph) |
| properties of every server run | `HubRuns`, `Relays`, `DeliveryLog`, `MeterRuns`, `QuotaRuns`, `Attribution`, `ExitGrants` |
| peer tables of the clients | `Peers`, `Membership`, `MembershipRuns` |
| packets, frames, client decisions | `Checksum`, `Packets`, `Frames`, `Writers`, `Client`, `MeshPath`, `ExitPath` |
| limiter and log | `RateLimit`, `RollingLog` |

How the layers meet: `Hubs.Hub`, `LeaseStores.LeaseStore`, `Quotas.QuotaTrk`, `Usage.UsageStore` are the
objects; their method contracts say that each operation is the step of the same name in `Server`,
`Leases`, `Quotas` and `Usage`. The run theorems quantify over every finite sequence of those steps.
A step that the surroundings rule out (an unknown connection, a clock running backward) does nothing
in a run.

## Results worth knowing

Several properties one would expect hold only under a condition. Each is stated with its exact
condition, or with a run that breaks it.

- In every run, a relay being one step of it, the ledger sum since midnight exceeds a quota counter by exactly the bytes the counter does
  not know of (`QuotaRuns.CountersAgree`). Two kinds of step can make such bytes, and each has its exact
  condition: a relay whose payer has no limit, or that is counted before midnight and booked after it
  (`QuotaRuns.RelayAgreesExactly`), and a restart that finds no lease on file naming the counter's key
  (`QuotaRuns.RestartAgreesExactly`). So one failed lease save can make a restart forget a used-up quota
  (`QuotaRuns.FailedSaveForgetsQuota`). `QuotaRuns.RestartIsInvisible` says exactly when a restart changes
  no decision.
- Admission and counting are separate critical sections, so k concurrent connections can pass the
  limit by (k-1) packets and no more (`QuotaRace.OvershootBound`, `QuotaRace.BoundIsReached`).
- The allocator gives up after 65536 steps. Prefixes /15 and longer are unaffected; for /1 to /14 a run
  exists that refuses a device while addresses are free (`LeaseRuns.ShortPrefixesRefuseEarly`). A /0
  subnet hands out its own network address (`LeaseRuns.ZeroPrefixLeasesNetworkAddress`).
- A failed lease save is reported to the device, but the lease stays in memory. The address survives a
  reopening exactly when some granting request, this one or a later one of any network, was saved while
  the device held it (`LeaseRuns.SurvivesExactly`); otherwise it can go to someone else
  (`LeaseRuns.FailedSaveLosesAddress`).
- The late leave of a node that has been replaced changes nothing on the server
  (`HubRuns.LateLeaveChangesNothing`), but it is broadcast all the same. The hub's lock is released between
  registering, Welcome, announcement, taking a node out and every write of a broadcast. With all of these
  as steps of their own, only a write can make an up-to-date client's table wrong: a late arrival or
  departure of an address whose truth is another by now and that no later message will put right
  (`Membership.PutKeepsExactly`).
- A client keeps its peer table when it connects again, and the Welcome is laid over it. It is right after
  the Welcome exactly when every address of the old table is still online and not the client's own
  (`Membership.WelcomeRightExactly`). A peer that has left meanwhile stays in it until that address is
  heard of again (`MembershipRuns.ReconnectKeepsGone`). Apart from such entries and from misleading writes, a
  client that gets its Welcome first sees exactly who is online (`MembershipRuns.ViewsAreExact`); one that gets
  another message first gives up.
- A node whose Welcome cannot be written is not taken out. It stays online, and listed to everyone who
  connects, until its device or another at its address registers (`MembershipRuns.UngreetedStays`).
- The frame length field has 16 bits while docs/DESIGN.md and the guard allow 16 MiB; a frame survives
  the round trip exactly when its payload is at most 65535 bytes (`Frames.FrameRoundTrip`).
- The client's lock covers a whole frame. The server's covers one write, and a run of two relays to one
  peer gives the peer a frame nobody sent (`Writers.SingleWriteLocksInterleave`). Runs in which no frame is
  divided read back right (`Writers.UndividedWritersAreSequential`).
- Whether a packet is routed, admitted and delivered is settled exactly (`Relays.RoutedExactly`,
  `Quotas.AdmittedExactly`, `Relays.OutcomeExactly`). Between two devices of an account a packet arrives byte
  for byte unless its own protocol is IP-in-IP, which the addressee's client takes for exit traffic and
  unwraps (`MeshPath.MeshTrip`).
- Asking to be an exit is not enough: a device that is never allowed and never granted it is never billed as
  one (`ExitGrants.NeverAllowedNeverBilled`).
- The exit path answers an echo exactly when the exit's client runs an exit's network stack and the
  consumer's does not (`ExitPath.AnsweredExactly`). A consumer that asked to be an exit and was not granted
  it runs one all the same, and never sees its answers.
- One limiter serves windows of a minute and of an hour. Pruning a table above 10000 entries is invisible
  to a key whose window no caller undercuts, which holds of the minute keys; it can forget an hour key
  (`RateLimit.PruneChangesExactly`, `RateLimit.ShorterWindowForgets`).
- A limit of L calls per window means at most 2L-1 calls in any window length, and that many can happen
  (`RateLimit.LessThanTwiceTheLimit`, `RateLimit.TwiceLessOneIsReached`).

Where the code and its own words differ, the model follows the code:

- The comment at internal/account/usage.go:118-119 says the lane totals feed session summaries and
  notices. internal/server/hub.go:215 and 340 use `EgressTotals`, the traffic a device served, not what
  it consumed (`Attribution.NoticesShowServedNotConsumed`).
- The comment at internal/server/hub.go:29 describes the exit access list as admitting other accounts.
  A device's network is its account's own (internal/server/server.go:152), so a packet never reaches
  another account's exit and the list is never consulted to effect (`HubRuns.TrafficStaysInAccount`).
- internal/server/rate.go:8 calls the limiter a sliding window; it is a fixed window per key.

## Model

| member | source | states |
|---|---|---|
| Usage.UsageStore.Add | internal/account/usage.go:72-88 | adding traffic changes one hour bucket, by exactly the given bytes |
| Usage.UsageStore.Accumulate | internal/account/usage.go:94-101 | the loop's result is the order-free sum over the selected buckets, whatever the map order |
| Usage.UsageStore.Totals | internal/account/usage.go:91-102 | an account's sum since the hour of `since` |
| Usage.UsageStore.EgressTotals | internal/account/usage.go:105-116 | the sum of what an exit served |
| Usage.UsageStore.EgressLaneTotals | internal/account/usage.go:120-131 | the sum of what a consumer sent and got through exits |
| Usage.AddedTotal | internal/account/usage.go:72-131 | adding moves exactly those sums that select the bucket, by the bytes added |
| Clock.HourBucketsFollowDays | internal/account/usage.go:77-96 | a query from midnight on selects exactly the buckets of that day and later |
| LedgerText.IntRoundTrip | internal/account/usage.go:61-61 | a printed hour parses back exactly when it is a 64-bit integer |
| LedgerText.IntRead | internal/account/usage.go:61-61 | any digits, signed or not, read as the nearest 64-bit integer |
| LedgerText.IntNotRead | internal/account/usage.go:61-61 | text that stops being digits before it overflows reads as 0 |
| LedgerText.SplitCut | internal/account/usage.go:57-57 | one cut at a bar returns a bar-free part whole and any other part short |
| LedgerText.KeyRoundTrip | internal/account/usage.go:57-62 | parsing a printed ledger key gives the bucket back if and only if no id holds a bar and the hour fits 64 bits |
| LedgerText.ReadExactly | internal/account/usage.go:57-62 | any text is skipped if and only if it has fewer than three bars; else it reads as three ids and a number |
| LedgerText.KeysDistinct | internal/account/usage.go:171-178 | distinct buckets of bar-free ids never share a key |
| LedgerFile.KeyedBuckets | internal/account/usage.go:171-178 | the saved map holds every bucket under its key and nothing else, in any visiting order |
| LedgerFile.OpenUsage | internal/account/usage.go:37-68 | the opened ledger holds the readable rows, folded where rx equals tx, and nothing else |
| LedgerFile.Reopened | internal/account/usage.go:51-63 | save then open keeps every bucket and only folds double-counted rows |
| LedgerFile.ReopenIsIdentity | internal/account/usage.go:54-56 | save then open is the identity if and only if no row is double-counted |
| LedgerFile.ReloadTwice | internal/account/usage.go:52-56 | a second reload changes nothing, and no reload changes a tx sum |
| LedgerFile.BarredIdsCollide | internal/account/usage.go:174-175 | with bars in ids two buckets can share one key, and saving keeps only one of them |
| Report.Enter | internal/account/usage.go:153-165 | one bucket goes into the one row of its key, found or appended; all other rows stay |
| Report.PerConsumer | internal/account/usage.go:143-168 | one row per grouping key in range, each carrying its key's sums, whatever the map order |
| Report.OneRowPerDevice | internal/account/usage.go:153-158 | every device with traffic has its own row if and only if grouping keys tell devices apart; no device has two |
| Report.CleanAccountsSeparate | internal/account/usage.go:153-153 | bar-free account ids are enough for that |
| Report.ReportAgreesWithTotals | internal/server/api.go:410-421 | the rows of an account add up to its `Totals`, a device's exit figures to its `EgressLaneTotals` |
| Quotas.QuotaTrk.constructor | internal/server/quota.go:46-68 | the counters start on the day of the first clock reading from the ledger's sums since the midnight of the second, for every owner of a lease |
| Quotas.QuotaTrk.Backfill | internal/server/quota.go:57-66 | the refill loop fills exactly the owners and devices of the leases, each once |
| Quotas.QuotaTrk.Rollover | internal/server/quota.go:127-133 | counters of another day are cleared, others kept |
| Quotas.QuotaTrk.AdmitPacket | internal/server/quota.go:93-109 | the verdict on both lanes with the refused figures; nothing but the day's turn changes |
| Quotas.AdmittedExactly | internal/server/quota.go:93-109 | a packet is admitted if and only if the pool, and when it goes through an exit the lane, has no limit or room for it; the pool refuses first, with the total it would come to and its limit, else the lane |
| Quotas.LimitsOf | internal/server/quota.go:79-90 | an account the tier table resolves has its tier's limits, any other the fallback |
| Quotas.RoomForTwo | internal/server/quota.go:93-133 | room for two packets at once is room for one after the other, counted in between, whichever midnights pass |
| Quotas.QuotaTrk.IncPacket | internal/server/quota.go:112-124 | both lanes count the packet, unless the account has no limit at all |
| QuotaRace.OvershootBound | internal/server/hub.go:309-332 | in any interleaving of admit, write and count steps of k connections, counted plus in-flight bytes stay within the limit plus (k-1) packets, over midnights, failed writes and changing limits, on both lanes |
| QuotaRace.SingleConnectionNeverExceeds | internal/server/quota.go:93-124 | one connection at a time never exceeds the limit |
| QuotaRace.BoundIsReached | internal/server/quota.go:93-124 | for every k and either lane, with room for one packet on the other, some legal interleaving reaches the bound in flight, and after the k counting steps in the counter itself |
| Subnet.NextIP | internal/account/lease.go:188-197 | big-endian addition modulo 256^len for any length and non-negative step; a negative step is ignored |
| Subnet.OrFillsLowBits | internal/account/lease.go:203-203 | or-ing ones into cleared low bits adds them |
| Subnet.BroadcastAddr | internal/account/lease.go:200-206 | the last address is the network address plus 2^(bits-p) - 1 |
| Subnet.ValueInjective | internal/account/lease.go:121-123 | addresses of equal length are the same exactly when their values are |
| LeaseStores.NextAddress | internal/account/lease.go:75-75 | on four bytes `nextIP` is the successor on address values, wrapping at 2^32 |
| LeaseStores.LastAddress | internal/account/lease.go:117-117 | on four bytes `broadcastAddr` is the last address value of the subnet |
| LeaseStores.LeaseStore.Open | internal/account/lease.go:56-64 | reloading any list gives its leases by network and address, of doubles the later, with every cursor recomputed; on a list without doubles that is the machine's reopening |
| LeaseStores.LeaseStore.Load | internal/account/lease.go:60-63 | the reload loop groups any list by network and address, the later entry winning |
| LeaseStores.LeaseStore.RecomputeNext | internal/account/lease.go:81-99 | every cursor moves past the leased block, at most 65536 steps |
| LeaseStores.LeaseStore.Allocate | internal/account/lease.go:102-137 | reuse, scan, refusal and failed save are exactly the machine's request step and answer |
| LeaseStores.LeaseStore.Save | internal/account/lease.go:169-185 | a successful save writes all leases of all networks, a failed one nothing |
| LeaseStores.LeaseStore.Array | internal/account/lease.go:156-166 | lists every lease and nothing else |
| Leases.ScanFindsFrontier | internal/account/lease.go:112-136 | from a cursor at or below the frontier the scan finds exactly the frontier, when it is in reach |
| Leases.RefusedExactly | internal/account/lease.go:112-136 | a request is refused if and only if the device holds nothing and all addresses are taken or out of reach; a new lease is always the lowest free address |
| Leases.GrantKeepsShape | internal/account/lease.go:102-137 | leases always fill the subnet from the bottom and the cursor never runs ahead |
| Leases.SkipReaches | internal/account/lease.go:85-97 | recomputing puts the cursor on the frontier, or 65536 above the first address |
| Leases.SaveThenLoad | internal/account/lease.go:169-185 | reading back a saved file gives every network its leases |
| Leases.RunInv | internal/account/lease.go:42-137 | every run of requests and reopenings keeps the store invariant, in memory and on disk |
| LeaseRuns.AnswersExactly | internal/account/lease.go:102-137 | a device that has an address is told it and nothing is written; any other gets the lowest free one if and only if that is in reach and is saved, and is refused for the one reason or the other |
| LeaseRuns.LeasesAreSafe | internal/account/lease.go:102-137 | in every reachable store devices and addresses correspond one to one, and no address is the network or broadcast address |
| LeaseRuns.RefusedOnlyWhenFull | internal/account/lease.go:112-136 | for /15 and longer, after any run, a new device is refused if and only if every usable address is leased |
| LeaseRuns.LeasedUpToCursor | internal/account/lease.go:81-137 | for /16 and longer, after any run, the leased addresses are exactly those below the cursor, minus broadcast |
| LeaseRuns.ReopenedCrowd | internal/account/lease.go:88-97 | after m leases and a reopening the next device is refused exactly when the subnet is full or m is 131072 or more |
| LeaseRuns.ShortPrefixesRefuseEarly | internal/account/lease.go:88-112 | for every prefix /1 to /14 some run refuses a device while addresses are free |
| LeaseRuns.ZeroPrefixLeasesNetworkAddress | internal/account/lease.go:113-116 | with a /0 subnet some run leases the network address |
| LeaseRuns.OnDiskExactly | internal/account/lease.go:126-134 | after any run, whichever saves failed, an address is on file if and only if some granting request was saved while its device held it |
| LeaseRuns.SurvivesExactly | internal/account/lease.go:54-64 | a device has its address after a reopening if and only if it was secured so before |
| LeaseRuns.AddressesAreStable | internal/account/lease.go:101-134 | an address held at some point of any run stays its device's to the end if and only if it is secured before every reopening on the way |
| LeaseRuns.ReopenKeeps | internal/account/lease.go:55-64 | a reopening keeps exactly the addresses on disk |
| LeaseRuns.FailedSaveLosesAddress | internal/account/lease.go:130-133 | after one failed save a device's address can go to another device |
| Registry.RemovedAgrees | internal/server/hub.go:256-266 | taking a node out keeps the two indexes equal, and changes neither when the node has been replaced |
| Registry.RegisteredAgrees | internal/server/hub.go:133-155 | entering a node keeps the two indexes equal and puts exactly it at its key |
| Hubs.Hub.RemoveLocked | internal/server/hub.go:256-266 | the object's removal is the table removal |
| Hubs.Hub.Enter | internal/server/hub.go:136-155 | the object's entry, old node first taken out, is the table entry |
| Hubs.Hub.Register | internal/server/hub.go:123-177 | registration is the join step: lease, node object and tables; a refused lease enters nobody |
| Hubs.Hub.WelcomePeers | internal/server/hub.go:157-166 | the Welcome lists exactly the others online in the network |
| Hubs.Hub.BroadcastCtrl | internal/server/hub.go:387-411 | exactly the online nodes of the network but the excluded one get the message, once |
| Hubs.Hub.NotifyPeerJoined | internal/server/hub.go:232-239 | the join is told to exactly the others |
| Hubs.Hub.Unregister | internal/server/hub.go:242-253 | leaving is the leave step, and the others are told even when the node had been replaced |
| Hubs.Hub.UpdateEgress | internal/server/hub.go:198-209 | the grant of one online node of the device changes, or there is none and nothing changes |
| Hubs.Hub.Lookup | internal/server/hub.go:271-288 | where a packet goes, with the three refusals |
| Hubs.Hub.Bill | internal/server/hub.go:296-307 | who pays |
| Hubs.Hub.SendQuotaNotice | internal/server/hub.go:337-359 | exactly one notice goes out, with the account's day total, what the device served as an exit, and the two limits |
| Hubs.Hub.Relay | internal/server/hub.go:270-334 | one relay is the machine's step: refused and failed relays change nothing but the counters' day; the first quota refusal of a connection sends its notice, later ones nothing; nobody else's connection is written to |
| HubRuns.StepKeepsHub | internal/server/hub.go:123-334 | every join, leave, grant, relay, save and restart keeps the hub invariant |
| HubRuns.TablesAreExact | internal/server/hub.go:123-266 | after any run both indexes agree, every node holds the lease of its address, and a device has at most one live node per network |
| HubRuns.LateLeaveChangesNothing | internal/server/hub.go:256-266 | the late leave of a replaced node changes no server state |
| HubRuns.TrafficStaysInAccount | internal/server/hub.go:276-288 | after any run a packet only reaches the sender's own account, and the access list never refuses |
| HubRuns.RouteInAccount | internal/server/hub.go:274-288 | the node found is the one at the packet's destination address, in the sender's account |
| Relays.RoutedExactly | internal/server/hub.go:270-288 | a packet is routed to a node if and only if it has 20 bytes and that is the live node of the sender's network at its destination; shorter ones and free addresses have no route |
| Relays.OutcomeExactly | internal/server/hub.go:289-326 | a routed packet is delivered, at the charge its wrapping and the two exit grants call for, if and only if there is room for it and the write succeeds; without room it is blocked |
| Relays.UndeliveredChangesNothing | internal/server/hub.go:309-326 | a packet that fails, is blocked or cannot be written changes no node, table, lease, ledger, history or counter |
| Relays.DeliveredIsMetered | internal/server/hub.go:327-328 | a delivered packet moves the sender's and the addressee's meter by its length, and nothing else of nodes, leases and tables |
| Relays.DeliveredIsBooked | internal/server/hub.go:332-332 | it moves exactly the ledger sums that select its charge at the hour of booking, in the tx column |
| Relays.DeliveredIsCounted | internal/server/hub.go:329-329 | and exactly the counters of its charge, if the payer has any limit |
| Relays.MeshPacketArrives | internal/server/hub.go:270-333 | in any run an unwrapped packet to a device online in the account that has room and is written arrives, on the sender's own charge |
| Relays.JoinEnters | internal/server/hub.go:129-155 | a join with an address makes the live node there, an exit if and only if the device asked and its record allows it; without one nobody enters; other node objects stay |
| Relays.JoinReplaces | internal/server/hub.go:136-155 | of the live nodes only the one at the new node's address gives way |
| Relays.LeaveTakesOut | internal/server/hub.go:256-266 | after a leave every other live node is still live, and the leaving one is not |
| Relays.GrantSets | internal/server/hub.go:201-206 | a change of grant sets grant and access list of one node and changes nothing else |
| ExitGrants.ExitExactly | internal/server/hub.go:145-204 | after any run a node is an exit if and only if the last event that decided about it allowed it: its join, by asking and record, or a later grant |
| ExitGrants.NeverAllowedNeverBilled | internal/server/hub.go:145-307 | in any run a device that never joins allowed and is never granted it is never an exit, never billed as one, and has an exit total of 0, however often it asks |
| DeliveryLog.LedgerTotals | internal/server/hub.go:330-332 | every ledger sum is the sum of the matching forwarded packets, all in tx, none in rx |
| DeliveryLog.DayOnLane | internal/server/quota.go:56-66 | a query since midnight adds up exactly the day's packets on the lane |
| DeliveryLog.LedgerSurvives | internal/account/usage.go:171-193 | a ledger made of deliveries survives saving and opening unchanged |
| MeterRuns.BytesAreConserved | internal/server/hub.go:327-332 | after any run the ledger's tx column and the node meters add up to the forwarded bytes, in both directions, and the meters of one device to what was forwarded from it and to it |
| QuotaRuns.CountersAgree | internal/server/quota.go:46-133 | after any run, at any later time, on every lane, ledger sum minus counter is exactly the bytes the counter does not know of |
| QuotaRuns.AdmittedByLedger | internal/server/quota.go:93-109 | after any run a packet is admitted if and only if the ledger's charges since midnight, but for the uncounted bytes, leave room for it |
| QuotaRuns.AgreesExactly | internal/server/quota.go:112-133 | counter and ledger are equal if and only if the counter knows of every packet of the day |
| QuotaRuns.RelayAgreesExactly | internal/server/hub.go:329-332 | a relay keeps a lane's agreement if and only if the packet is not the lane's, or its payer has a limit and it is counted and booked on one day |
| QuotaRuns.RestartAgreesExactly | internal/server/quota.go:46-68 | a restart makes a lane agree, whatever was before, if and only if a lease on file names its key or the lane has no traffic that day |
| QuotaRuns.OthersKeepAgreement | internal/server/hub.go:123-209 | no join, leave, grant or save changes the agreement of any lane |
| QuotaRuns.BackfilledCounter | internal/server/quota.go:56-66 | a refilled counter, read at any later time, is the ledger's sum when a lease names its key, else 0, also over a midnight between the two clock readings |
| QuotaRuns.RestartRefills | internal/server/quota.go:46-68 | after any run, save and restart set each counter to the ledger's sum when a lease on file names its key, else to 0 |
| QuotaRuns.RestartIsInvisible | internal/server/quota.go:46-109 | after any run a restart leaves every answer about a charge unchanged, for all limits, sizes and later times, if and only if its counters already equal what the refill sets |
| QuotaRuns.CarefulRestartIsInvisible | internal/server/quota.go:46-109 | where packets had a limit, were counted and booked on one day, and payers have their leases on file, no restart changes any decision |
| QuotaRuns.SavedLeasesCoverPayers | internal/server/quota.go:57-66 | while lease saves succeed every payer the ledger names has its lease on file |
| QuotaRuns.FailedSaveForgetsQuota | internal/account/lease.go:104-133 | a run on one day, under a limit, in which one failed lease save makes the restart set a used counter back to 0 |
| Attribution.LanesFollowPaths | internal/server/hub.go:290-307 | after any run a device's lane is its wrapped bytes to and from exits, an exit's total the same seen from the exit; unwrapped traffic is in neither |
| Attribution.ServingIsFree | internal/server/hub.go:293-304 | serving adds nothing to an exit's own lane while no consumer is an exit itself |
| Attribution.NoticesShowServedNotConsumed | internal/server/hub.go:337-351 | the exit figure of notices is 0 for a device that is never an exit, whatever it consumed |
| Attribution.NoticeTellsTheDay | internal/server/hub.go:337-351 | after any run a notice tells the bytes charged to the account that day, the wrapped bytes the device served as an exit, and the two limits |
| Attribution.ExitTotalByConsumer | internal/account/usage.go:104-116 | an exit's total is the sum over its consumers |
| Peers.PeerRegistry.HandleCtrl | internal/client/client.go:225-248 | handling a message changes the table as the message says |
| Peers.AppliedAt | internal/client/client.go:231-247 | a join lists its peer, a leave takes out the peer at its address, nothing else changes, and a notice changes nothing |
| Peers.PeerRegistry.UpsertMany | internal/client/peers.go:30-38 | a list is entered in order, the last entry of an address winning |
| Peers.PeerRegistry.ResolveEgress | internal/client/peers.go:61-72 | finds an online authorised exit of that name if and only if there is one |
| Peers.PeerRegistry.ByIPEgress | internal/client/peers.go:75-83 | an address may serve as exit if and only if it is online and authorised |
| Peers.PeerRegistry.Snapshot | internal/client/peers.go:91-99 | lists every peer, one entry each |
| Peers.OverlayOfList | internal/client/peers.go:30-38 | entering a list in any order lays it over the table at once |
| Membership.WelcomeRightExactly | internal/client/client.go:137-137 | a table shows exactly who is online after the Welcome if and only if every address the client had before is online and not its own |
| Membership.WelcomeLists | internal/server/hub.go:158-166 | a Welcome lists exactly the others online, each with its names and its present exit grant |
| Membership.RegisterKeeps | internal/server/hub.go:123-177 | a registration, also one that replaces a node, keeps every client's table right up to the news due to it |
| Membership.UnlistKeeps | internal/server/hub.go:246-266 | so does taking a node out of the tables |
| Membership.OthersKeep | internal/server/server.go:154-171 | so does every other step that is not a write of a broadcast, in any order |
| Membership.PutKeepsExactly | internal/server/hub.go:387-411 | one write of an arrival or departure keeps all tables right if and only if its reader is not an up-to-date client of a live node, or what it says is so, or more news about that address are due to the reader |
| MembershipRuns.ViewsAreExact | internal/client/client.go:225-241 | after any run without misleading writes a client that got its Welcome first, with its messages read and no news due, sees exactly the others online, plus the entries it brought along that no message has touched |
| MembershipRuns.ReconnectKeepsGone | internal/client/client.go:65-137 | a run in which nothing is late and a client that connects again lists a peer that has left |
| MembershipRuns.UngreetedStays | internal/server/server.go:163-165 | a node whose Welcome is never written stays online through any run in which nobody registers at its address |
| Checksum.WordSumFits | internal/client/icmp.go:36-42 | the 32-bit accumulator cannot overflow for buffers up to 131072 bytes |
| Checksum.FoldCarries | internal/client/ipip.go:157-159 | the fold loop ends and keeps the one's-complement value, 0 only from 0 |
| Checksum.IpChecksum | internal/client/ipip.go:152-161 | the header checksum is the complement of the one's-complement word sum |
| Checksum.IcmpChecksum | internal/client/icmp.go:35-47 | the same with a zero-padded odd last byte |
| Checksum.StoringVerifies | internal/client/icmp.go:27-30 | storing the checksum in its cleared field makes the buffer sum to all ones, for odd and even lengths |
| Checksum.SwapKeepsSum | internal/client/icmp.go:23-24 | exchanging source and destination keeps the header sum |
| Packets.Encapsulate | internal/client/ipip.go:115-129 | the buffer's front becomes the wrapped packet, the rest stays |
| Packets.OuterHeaderFields | internal/client/ipip.go:116-125 | version, service type, length modulo 65536, lifetime, protocol 4 and both addresses are in their places |
| Packets.OuterHeaderVerifies | internal/client/ipip.go:126-126 | the outer header's checksum is right |
| Packets.WrapUnwrap | internal/client/ipip.go:132-141 | unwrapping gives the packet back byte for byte at the node it was wrapped for, and nothing anywhere else |
| Packets.UnwrapsExactly | internal/client/ipip.go:132-141 | a packet unwraps if and only if it is IPv4 of protocol 4 to this node; what is left is everything behind 20 bytes |
| Packets.IcmpEchoReply | internal/client/icmp.go:13-32 | the method computes the reply, or none for anything but an echo request |
| Packets.RepliesExactly | internal/client/icmp.go:15-20 | a reply is given if and only if the packet is IPv4 of 28 bytes or more with protocol 1 and ICMP type 8 |
| Packets.EchoReplyIsCorrect | internal/client/icmp.go:21-31 | the reply has the addresses exchanged, type and code 0, the same data, a right ICMP checksum, and a header that verifies exactly when the request's did |
| Frames.WriteFrame | internal/protocol/frame.go:15-26 | appends one encoded frame, nothing above the guard, and only the frame's front when the connection fails in either write |
| Frames.ReadFrame | internal/protocol/frame.go:29-47 | consumes exactly one frame whatever buffer is passed, or fails when the stream is too short |
| Frames.ReadAll | internal/client/client.go:178-187 | the receive loop with its reused buffer yields exactly the frames of the stream |
| Frames.FrameRoundTrip | internal/protocol/frame.go:19-46 | a written frame reads back with the rest of the stream intact if and only if its payload fits 16 bits |
| Frames.StreamRoundTrip | internal/protocol/frame.go:15-47 | reading any list of written frames gives the list, nothing left over |
| Frames.ReadsExactly | internal/protocol/frame.go:15-47 | a stream reads as a list of frames with nothing left over if and only if it is that list as written and every payload fits |
| Writers.LockedWritersAreSequential | internal/client/client.go:164-199 | in any interleaving of writers under the lock the peer reads whole frames in lock order, each writer's in its own order, none lost |
| Writers.UndividedIsLocked | internal/server/server.go:223-234 | a run of writers with a lock per write in which no writer writes between another's two writes is a run of writers that lock whole frames |
| Writers.UndividedWritersAreSequential | internal/server/server.go:223-234 | so it reads back frame by frame, each writer's in its own order |
| Writers.HeadsFirst | internal/server/hub.go:318-325 | two relays to one peer can put both heads before both payloads |
| Writers.HeadsFirstReadsRight | internal/server/hub.go:318-325 | then the peer reads the two frames if and only if the second head and the first payload commute, for any two frames |
| Writers.SingleWriteLocksInterleave | internal/server/server.go:230-234 | some such run, with nothing left unwritten, gives the peer a frame nobody sent |
| Clients.Client.MatchRoute | internal/client/ipip.go:51-62 | the first matching rule, or none matches |
| Clients.Client.ResolveVia | internal/client/ipip.go:70-81 | for a text that spells an address that address, for any other a peer of that host name, if it is an online authorised exit; nothing exactly when there is none |
| Clients.Client.GlobalExit | internal/client/ipip.go:84-94 | the configured exit, else the host name of an exit peer, which is resolved as an address where it spells one, else none |
| Clients.Client.FromTun | internal/client/client.go:255-290 | a packet bound for an exit leaves wrapped for an online authorised exit or not at all, never bare; local and unbound packets leave unchanged |
| Clients.SameNetIsRange | internal/client/ipip.go:97-112 | two addresses agree under the mask if and only if one is in the range of 2^(32-p) addresses the other is in |
| Clients.BindsExactly | internal/client/ipip.go:51-94 | the first rule whose range has the destination binds it, and no other; without one global mode does, to the configured exit or any listed one |
| Clients.TurnsExactly | internal/client/client.go:263-287 | anything but IPv4 is skipped; a packet leaves unchanged if and only if it is for the subnet or nothing binds it; any other leaves wrapped for an online authorised exit or not at all |
| Clients.DroppedExactly | internal/client/client.go:273-280 | a packet bound for a named exit is dropped if and only if no peer serves as that exit, and else wrapped for one that does |
| Clients.Client.FromServer | internal/client/client.go:203-222 | an exit answers echo requests and hands other wrapped packets to its stack; any other client unwraps for its interface |
| Clients.HandledExactly | internal/client/client.go:203-222 | what is not wrapped for this node goes to the interface as it is; what is goes unwrapped to the interface without an exit's stack, and with one is answered if it asks for an echo and else handed to the stack; all as equivalences on header bytes |
| Clients.Client.NetStackOutput | internal/client/client.go:294-304 | an answer is wrapped for the consumer it is addressed to |
| MeshPath.MeshTrip | internal/client/client.go:203-290 | any IPv4 packet that a frame carries and that has room, from one device to another online in its account, leaves unchanged, is relayed on the sender's own charge, and reaches the addressee's interface byte for byte if and only if it is no IP-in-IP, whatever rules, modes and exit settings |
| ExitPath.BothDirectionsBilled | internal/server/hub.go:297-307 | the request is billed to the consumer, and so is the answer if and only if the consumer is no exit |
| ExitPath.LeavesWrapped | internal/client/client.go:266-282 | a packet to a destination outside the subnet that rules, mode and peer table lead to one exit only leaves wrapped for that exit |
| ExitPath.AnsweredExactly | internal/client/client.go:203-222 | the request is answered and the answer reaches the consumer's interface if and only if the exit's client runs an exit's stack and the consumer's does not |
| ExitPath.EchoPackets | internal/client/ipip.go:115-141 | every packet of the round trip fits a frame and unwraps byte for byte, and the answer is the request turned around with both checksums right |
| ExitPath.EchoRelays | internal/server/hub.go:270-333 | with room for both packets both relays deliver to the right node and bill the consumer |
| ExitPath.EchoThroughExit | internal/client/client.go:203-304 | the whole trip of any echo request that fits a frame wrapped and has room, from the consumer's interface on: it leaves wrapped for the exit, both relays deliver and bill the consumer, all packets are right, and it is answered exactly under that condition |
| ExitPath.TwoJoinsMakeAPair | internal/server/hub.go:123-177 | a consumer and a granted exit of one account that join are such a pair from any hub state, and the trip is answered exactly when the consumer did not ask to be an exit |
| ExitPath.TableLeads | internal/client/ipip.go:66-94 | a table that lists an exit leads to it, and to no other, whatever rules or mode bind for texts that name it |
| ExitPath.EchoAfterJoins | internal/client/client.go:203-304 | the same trip starting from the two joins: the exit's announcement reaches the consumer, and laid into any table it had it leads any bound echo request through that exit, answered exactly when the consumer did not ask to be an exit |
| ExitPath.EchoAfterWelcome | internal/server/hub.go:157-175 | the same when the exit is online first and the Welcome tells the joining consumer of it |
| RateLimit.RateLimiter.Allow | internal/server/rate.go:24-38 | the answer and the new table, pruned when a window opens in a table above 10000 entries |
| RateLimit.RateLimiter.Prune | internal/server/rate.go:40-46 | exactly the entries expired under the caller's window go |
| RateLimit.PruneChangesExactly | internal/server/rate.go:29-46 | another key's call changes a key's answer by pruning if and only if it opens a window in a table above 10000 entries, the key's entry has expired under the caller's window and not under its own, and a fresh start and the running count fall on different sides of the limit |
| RateLimit.PruningIsInvisible | internal/server/rate.go:24-46 | in any trace of mixed windows whose calls spare the key's window, the key is answered as if nothing was ever pruned |
| RateLimit.WideWindowsSpare | internal/server/server.go:123-123 | calls whose windows are no shorter than the key's always spare it, as all callers do the keys of a minute |
| RateLimit.LessThanTwiceTheLimit | internal/server/rate.go:24-38 | in the same traces any interval of one window length sees at most 2L-1 allowed calls of the key |
| RateLimit.RefusedOnlyWhenBusy | internal/server/rate.go:24-38 | in the same traces a call is refused only if its key was called at least its limit of times within the window length before |
| RateLimit.TwiceLessOneIsReached | internal/server/rate.go:29-37 | for every limit and window some trace reaches 2L-1 |
| RateLimit.ShorterWindowForgets | internal/server/rate.go:32-46 | sparing is needed: for any two windows, limit and key, a trace from the empty table in which 10000 shorter-window calls let the key have twice its limit in one window |
| RollingLog.Manager.constructor | internal/rollinglog/rollinglog.go:21-35 | settings of 0 or less fall back to 64 MiB and three backups |
| RollingLog.Manager.Rotate | internal/rollinglog/rollinglog.go:56-65 | the descending loop of renames is the rotation |
| RollingLog.Manager.Write | internal/rollinglog/rollinglog.go:38-54 | a write rotates a full log first and then appends |
| RollingLog.RotatedIs | internal/rollinglog/rollinglog.go:56-65 | rotation moves every file up by one and loses only the backup beyond the last slot |
| RollingLog.RotatesExactly | internal/rollinglog/rollinglog.go:38-54 | after any writes the next one finds a full log if and only if afterwards the log is that write alone and backup 1 the former log; then all files have moved up by one, and else no backup changes |
| RollingLog.LogStaysSmall | internal/rollinglog/rollinglog.go:38-54 | the log is always smaller than the maximum plus its last write, every backup smaller than the maximum plus the largest write |
| RollingLog.LogKeepsSuffix | internal/rollinglog/rollinglog.go:38-65 | after any writes the backups are 1..m, and with the log they are a suffix of everything written; nothing is lost below `keep` backups, and at least min(total, keep*maxBytes) bytes remain |

## Left out

- TLS, sockets, deadlines, the transport package and goroutine scheduling; mutexes appear as the steps they make atomic.
- TUN devices, the network stack of exits, dialers, system routes: foreign calls. What reaches them is an output of the model.
- HTTP handlers, the admin pages, JSON and YAML encoding, certificates: persistence is an abstract value, except for the text of the ledger keys.
- Device tokens, password hashes, random ids and invite codes; device ids are nonempty and ids hold no bar.
- Account and device records and the tier table: `Quotas.Limits` is an abstract account-to-limits function, and a joining device's hello carries what the client asked for and what its record allows.
- Session summaries as a whole: their two figures are those of a quota notice.
- IPv6, IP options, fragmentation, the parsing of rules, and which texts spell an IPv4 address: the address parser of exit names is a parameter (`Clients.Setup.spelled`).
- Host name and address text: an address is its 32-bit value, so the empty-address guard of the peer table has no counterpart; `Resolve`, `Count`, the lease query, `KickDevice` and `ListClients` would add easy members.
- Lease timestamps, and clocks before 1970 or finer than a second.
- Overflow of 64-bit byte counters.
- Errors of a broadcast or notice write, which the server only logs, and failed ledger saves, which are the same as no save.
- A write that fails between the header and the payload of one frame: a failed relay delivers nothing in the model.
- Claims about whole frames on concurrent server writes: one delivered frame is one step of the server machine.
- Claims about the exit flag in clients' tables after a grant changes: no message announces it.
- Rolling log directories that are not empty at the start, failing renames, and the disabled log.
- QuotaRuns.CountersAgree: a relay is one step; between counting and booking of concurrent relays the counter is ahead of the ledger by the packets counted and not yet booked.

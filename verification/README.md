# stormlb, modelled and proved in Dafny

stormlb keeps virtual IP addresses (VIPs) alive on a group of nodes. VRRP
elects the node that holds an address, a registry of VIPs with pools of
health-checked backends decides what is served, a BGP session announces the
address while it can be served, and an HTTP router passes requests on. This
project models that logic and proves what it promises.

`dafny verify dfyconfig.toml` checks the whole project.

## How it is organised

| file | what it models |
| --- | --- |
| `Bytes.dfy` | machine integers and their bits, big-endian words, addresses |
| `VrrpCodec.dfy` | the VRRP advertisement: checksum, encoder, parser |
| `Vrrp.dfy` | the VRRP state machine |
| `ControlLoop.dfy` | the loop that drives it and claims and releases the address |
| `VrrpTiming.dfy` | takeover, advertisement and stability times of that loop |
| `VrrpReplacement.dfy` | one instance replaced by another on the same address |
| `Election.dfy` | any number of nodes on an unreliable network |
| `VrrpTakeover.dfy`, `VrrpContest.dfy` | any number of Backups, their Master silent: one well ahead, or several at once |
| `Pool.dfy`, `PoolFairness.dfy`, `PoolProbes.dfy` | the backend pool, its round-robin pick, and its members under probes |
| `Registry.dfy`, `RegistryRuns.dfy`, `RegistrySaves.dfy` | the VIP registry, what it keeps over changes and restarts, and saves at the same time |
| `BgpCodec.dfy`, `BgpSession.dfy` | the BGP messages and one peering session |
| `Http.dfy`, `HeaderText.dfy`, `ReadingHeads.dfy`, `ForwardedHeader.dfy` | request heads: their text, reading them, rewriting them |
| `Netlink.dfy` | rtnetlink messages, attributes and addresses |
| `Metrics.dfy` | label texts and the series kept under them |
| `Histogram.dfy` | the latency histogram and its quantile |

Code that changes things in place is a class or a method with loops, proved to
compute a function of the old state; the properties are lemmas about those
functions. Everything the outside world decides is an input of the model and
arbitrary: datagrams and their order, clock readings, health, the stop flag,
whether a socket, a bind or a file write works, after how many bytes a write is
cut, and in what pieces a stream arrives.

## What came out

Some obvious claims are false of the code. Each is stated with the exact
condition under which it holds.

* **Saved VIPs can be lost in a restart.** If the state file cannot be read or
  parsed, the process goes on with nothing loaded, and the next saved change
  drops all other VIPs from the file
  (`RegistryRuns.FailedReadDropsTheRest`). If it is read, a valid saved VIP
  named `default` is put over the config file's VIP and is then neither an API
  VIP nor pending. A restart is safe exactly if neither can happen
  (`RegistryRuns.RestartSafeExactlyWhen`).
* **Two changes at once can leave an old file**, since each collects and writes
  without one lock over both (`RegistrySaves.CrossedSavesLoseOne`); which map is
  on disk is told by `RegistrySaves.FileIsView`.
* **A refused change can move a listener or the members**, exactly if the health
  client builds when tested but not when set, and they differ
  (`RegistryRuns.RefusedChangesNothing`).
* **The address can be lost in a replacement**, exactly if the new instance has
  claimed it for good before the old one's release
  (`VrrpReplacement.HandedOverExactlyWhen`). A healthy priority-255 instance
  claims at once; if for half a second nobody resigns and no Master it hears
  advertises faster than once a second, every other one is safe
  (`VrrpReplacement.SoonHandsOverExactlyWhen`). A resignation, or a faster
  Master, can make it claim too soon (`VrrpReplacement.EarlyClaimLosesIt`).
* **Traffic delays the timers, without a bound.** The loop looks at them only
  when a read times out, so every ignored datagram from the time due on may cost
  10 ms (`VrrpTiming.ActsInTime`), and a steady stream of them stops
  advertisements and takeovers alike (`VrrpTiming.NoiseStarves`).
* **Two lost advertisements in a row are harmless only with enough skew.** With
  m such datagrams a Master advertises up to 10m + 9 ms late, and a Backup
  survives two losses if and only if its Skew_Time is at least 3(m+1)
  centiseconds (`VrrpTiming.RealMasterStable`); a priority-255 Backup of a
  one-second Master has none (`VrrpTiming.OwnerHasNoSkew`).
* **A higher priority need not wake first.** It claims before a lower one's
  deadline if and only if its Skew_Time is smaller, and advertises before it if
  and only if that is 2 centiseconds smaller
  (`VrrpTiming.ClaimsFirstExactlyWhen`, `VrrpTiming.AdvertisesFirstExactlyWhen`).
  So it is for every two priorities only if the Master advertises every 2.55 or
  5.11 seconds or slower (`VrrpTiming.PrioritiesWakeInOrder`).
* **A pick can miss the only healthy backend** when its scan crosses the
  counter's wrap at 2^64, exactly if the pool's size does not divide 2^64
  (`PoolFairness.PickMissesNobody`).
* **A hold time of 0 still expires**, 365 days after the session was
  Established (`BgpSession.HoldZeroStillExpires`).
* **A bare LF can move the end of a rewritten head**
  (`ForwardedHeader.HeadEndKeptExactlyWhen`, `ForwardedHeader.BareLfMovesTheEnd`).
* **A head that ends just past the limit** is read or refused depending on how it
  was cut into reads, exactly if it ends past 16 KiB and a byte but within one
  read of 16 KiB; one that ends later is always refused
  (`ReadingHeads.CutMattersExactlyWhen`).
* **The VRRP loop's error exits release nothing**: a Master whose socket fails
  leaves the address claimed (`ControlLoop.HeldExactlyWhileMaster`).
* **The bucket after the last of the histogram starts at 0**: `lower(496)` wraps
  (`Histogram.Buckets`).

## Model

| member | source | states |
| --- | --- | --- |
| VrrpCodec.FoldMeaning | src/vrrp.rs:238-242 | folding keeps the residue modulo 65535, and gives zero for zero only |
| VrrpCodec.FoldCarry | src/vrrp.rs:238-241 | adding the carries back in, as the source does, comes to casting out 65535 |
| VrrpCodec.WordSumBound | src/vrrp.rs:230-237 | the sum of the words is bounded by their number, so the 32-bit sum cannot overflow up to 131074 bytes |
| VrrpCodec.WordSumUpdate | src/vrrp.rs:231-237 | changing one byte shifts the sum by the difference times the byte's weight |
| VrrpCodec.ChecksumZero | src/vrrp.rs:270-272 | the receiver's test passes exactly for a nonzero sum divisible by 65535 |
| VrrpCodec.OnesComplementChecksum | src/vrrp.rs:229-242 | the two loops, in 32-bit arithmetic that never overflows, compute the RFC 1071 checksum |
| VrrpCodec.SealedChecks | src/vrrp.rs:211-213 | whatever is sealed passes the receiver's test |
| VrrpCodec.EncodeAdvertisement | src/vrrp.rs:198-214 | the encoder, patching its buffer in place, computes the sealed payload |
| VrrpCodec.RoundTrip | src/vrrp.rs:198-274 | an encoded advertisement behind any IPv4 header, told by its bytes (version 4, its own length in words, TTL 255, the source), options or not, parses to its priority, source and 12-bit interval, for any address list; one of another virtual router does not parse |
| VrrpCodec.AddressesInPlace | src/vrrp.rs:198-214 | the payload counts its addresses and holds each in its place |
| VrrpCodec.FieldsInPlace | src/vrrp.rs:198-214 | version 3 and type 1, the virtual router, the priority and the low 12 bits of the interval stand in their places |
| VrrpCodec.CoveredSum | src/vrrp.rs:216-237 | beside the payload the checksum covers the source address, 224.0.0.18, protocol 112 and the length |
| VrrpCodec.AcceptedExactlyWhen | src/vrrp.rs:255-274 | a datagram is accepted if and only if it has an IP header of five words or more with a whole VRRP header behind it, TTL 255, version 3, type 1, our virtual router and a right checksum; and as what |
| VrrpCodec.DetectsByteError | src/vrrp.rs:255-274 | any one byte changed in the payload or the source address of an accepted datagram makes it rejected |
| VrrpCodec.WordErrorsMissed | src/vrrp.rs:229-242 | a changed 16-bit word goes unnoticed if and only if all zeros and all ones were exchanged |
| VrrpCodec.Masks | src/vrrp.rs:265-273 | the parser's shifts and masks for version, type, header length and interval, taken bit by bit, read what the model's comparisons and remainders do |
| Vrrp.VirtualRouter.constructor | src/vrrp.rs:110-120 | a new router is in Initialize, with its own interval learned |
| Vrrp.VirtualRouter.SkewCentis | src/vrrp.rs:123-125 | the skew, without 32-bit overflow |
| Vrrp.VirtualRouter.MasterDownCentis | src/vrrp.rs:129-131 | the master-down time, without 32-bit overflow |
| Vrrp.VirtualRouter.Start | src/vrrp.rs:135-138 | the object goes to the state that the machine starts in |
| Vrrp.VirtualRouter.OnMasterDownTimeout | src/vrrp.rs:143-150 | the object takes the machine's step for a timeout |
| Vrrp.VirtualRouter.OnHealth | src/vrrp.rs:154-160 | the object takes the machine's step for a health answer |
| Vrrp.VirtualRouter.OnAdvertisement | src/vrrp.rs:163-191 | the object takes the machine's step for an advertisement |
| Vrrp.IntervalIs | src/vrrp.rs:110-111 | the interval is the seconds in centiseconds, at least 100 and at most 4095 |
| Vrrp.TimesAre | src/vrrp.rs:122-131 | the skew and the master-down time are those of section 6.1 of RFC 5798 |
| Vrrp.StartsAs | src/vrrp.rs:135-138 | a healthy priority 255 starts as Master, all else as Backup, and nothing is heeded before |
| Vrrp.BackupFollowsExactlyWhen | src/vrrp.rs:164-177 | an advertisement of nonzero priority restarts a Backup's timer if and only if it does not preempt or the priority is at least its own, for three of the Master's intervals and a skew; a resignation cuts the wait to the skew |
| Vrrp.MasterYieldsExactlyWhen | src/vrrp.rs:178-188 | a Master gives up if and only if it hears a higher priority, or its own from a numerically higher address; it answers a resignation and ignores the rest |
| Vrrp.SkewBound | src/vrrp.rs:123-125 | Skew_Time is below one learned interval |
| Vrrp.SkewOrdersPriorities | src/vrrp.rs:123-131 | priorities d apart have skews at least d times the interval over 256 apart, the higher's shorter |
| Vrrp.ApartExactlyWhen | src/vrrp.rs:123-125 | no two priorities share a skew if and only if the interval is at least 2.55 s, and all are two centiseconds apart if and only if it is at least 5.11 s |
| ControlLoop.Instance.constructor | src/vrrp.rs:311-329 | the loop starts as `Begin` says, claiming at once only as Master |
| ControlLoop.Instance.CheckHealth | src/vrrp.rs:341-346 | the health check of a turn and what it does |
| ControlLoop.Instance.Receive | src/vrrp.rs:356-363 | what a datagram does: nothing unless it is a peer's advertisement |
| ControlLoop.Instance.Hear | src/vrrp.rs:363-373 | what a peer's advertisement does to state, timers and address |
| ControlLoop.Instance.Wake | src/vrrp.rs:375-394 | what a receive timeout does |
| ControlLoop.Instance.Stop | src/vrrp.rs:333-340 | what a stop does |
| ControlLoop.Instance.RunLoop | src/vrrp.rs:332-398 | the loop, turn after turn until it ends, is the fold of `Turn` over its inputs |
| ControlLoop.GrammarAlternates | src/vrrp.rs:332-398 | a trace that follows the grammar claims and releases in turn, and holds the address exactly between the two |
| ControlLoop.TurnKeeps | src/vrrp.rs:332-398 | every turn, whatever arrives and however it ends, keeps trace and state in step |
| ControlLoop.HeldExactlyWhileMaster | src/vrrp.rs:298-399 | in every run claims and releases alternate, at every loop head the address is held if and only if the state is Master, Master implies the learned interval is its own, a clean stop holds nothing, and an error exit holds it exactly if it was Master |
| ControlLoop.ShownExactlyWhen | src/vrrp.rs:332-398 | what the handle shows: an ended loop Initialize, a running one whether it held the address and was healthy when its last turn began |
| ControlLoop.OwnerStarts | src/vrrp.rs:311-380 | a healthy priority 255 claims the address at its start and advertises at the first timeout |
| ControlLoop.StopResigns | src/vrrp.rs:333-340 | in every run a Master told to stop sends priority 0 and then releases, last; a Backup does nothing |
| ControlLoop.TurnNeedsHealth | src/vrrp.rs:341-394 | a turn advertises only if it began healthy and claims only on a healthy answer at or past the deadline |
| ControlLoop.OwnershipFollowsHealth | src/vrrp.rs:341-394 | in every run, a turn whose health answers both fail ends with the address let go, by whatever exit |
| ControlLoop.UnhealthyMasterLetsGo | src/vrrp.rs:341-394 | in every run, a Master whose turn begins unhealthy has let go at its end, except exactly if the turn lasts for the master-down time, at least 3 s, and health is back |
| VrrpTiming.ActsWhenDue | src/vrrp.rs:332-398 | in silence the loop acts when it is due, at most 10 ms late, and not before |
| VrrpTiming.IdleTurnActs | src/vrrp.rs:348-394 | a turn that brings nothing to heed does what is due if its read times out at or after that, and nothing else |
| VrrpTiming.ActsWhenWoken | src/vrrp.rs:332-398 | over any idle turns, with any ignored datagrams among them, the loop acts in the first whose read times out at or after the time due, and does nothing before |
| VrrpTiming.ActsInTime | src/vrrp.rs:348-394 | that is at most 10 ms late, and 10 ms for each ignored datagram from the time due on; a run that lasts longer than that has such a turn |
| VrrpTiming.NoiseStarves | src/vrrp.rs:348-394 | there is no other bound: with a datagram every 10 ms the loop does nothing for as long past the time due as one likes |
| VrrpTiming.LatestIsReached | src/vrrp.rs:348-394 | with m such datagrams a loop can be 10m + 9 ms late |
| VrrpTiming.TakeoverBound | src/vrrp.rs:123-150 | a Backup that hears nothing to heed claims at least 3 learned intervals after its timer was restarted and under 4, and 10 ms for each ignored datagram from its deadline on |
| VrrpTiming.RestartsTimer | src/vrrp.rs:363-393 | hearing the Master, being demoted, or a timeout without health restart the timer at the right interval |
| VrrpTiming.SilentMasterReplaced | src/vrrp.rs:332-398 | after each of these a silent Master is replaced at least 3 of its intervals later and under 4, and 10 ms for each such datagram, whatever else arrives |
| VrrpTiming.PreemptsBelow | src/vrrp.rs:163-394 | a preempting Backup claims by its deadline however often Masters of lower priority advertise, and 10 ms later for each such datagram from the deadline on |
| VrrpTiming.ResignedMasterReplaced | src/vrrp.rs:166-168 | a Backup that hears a resignation claims Skew_Time later and at most 10 ms more, and 10 ms for each such datagram |
| VrrpTiming.ResignationAnswered | src/vrrp.rs:179-181 | a Master that hears a resignation advertises at its next timeout |
| VrrpTiming.AdvertGap | src/vrrp.rs:348-380 | a Master's advertisements are at least its interval apart and less than 10 ms more, and 10 ms for each ignored datagram from the time due on |
| VrrpTiming.LatestAdvert | src/vrrp.rs:348-380 | with m such datagrams two advertisements can be the interval and 10m + 9 ms apart |
| VrrpTiming.ClaimsFirstExactlyWhen | src/vrrp.rs:332-394 | of two Backups restarted together one claims before the other's deadline in every silent run, if and only if its Skew_Time is smaller |
| VrrpTiming.AdvertisesFirstExactlyWhen | src/vrrp.rs:332-394 | its first advertisement leaves before that deadline in every silent run, if and only if its Skew_Time is smaller by at least 2 centiseconds |
| VrrpTiming.PrioritiesWakeInOrder | src/vrrp.rs:123-394 | for every two priorities the higher claims first, if and only if the interval is at least 2.55 s, and advertises in time, if and only if it is at least 5.11 s |
| VrrpTiming.HigherWakesFirst | src/vrrp.rs:123-191 | priorities d apart claim in order in every silent run if d times the interval is at least 256, and the first advertisement comes in time if it is at least 512 |
| VrrpTiming.StableExactlyWhen | src/vrrp.rs:123-191 | in every life with at most two advertisements lost in a row a Backup never takes over, if and only if three gaps are shorter than its master-down time |
| VrrpTiming.RealMasterStable | src/vrrp.rs:348-380 | for a Master that runs this loop, with at most m ignored datagrams after an advertisement is due, that is the case if and only if the Backup's Skew_Time is at least 3(m+1) centiseconds |
| VrrpTiming.NoSkewIsEnough | src/vrrp.rs:348-380 | without a bound on those datagrams no Skew_Time is enough |
| VrrpTiming.OwnerHasNoSkew | src/vrrp.rs:123-125 | a priority-255 Backup of a Master faster than 2.56 s has no skew |
| VrrpReplacement.ActsLate | src/vrrp.rs:321-394 | a new instance that starts as Backup does nothing before three seconds while it hears nothing faster and no resignation |
| VrrpReplacement.HandsOver | src/vips.rs:308-313 | however the two threads interleave, once the old one has stopped the address is held if and only if the new one holds it, unless the new one holds it by a claim from before that |
| VrrpReplacement.LastCallWins | src/vips.rs:308-313 | the last call of two interleaved threads is the later of their last calls |
| VrrpReplacement.HandedOverExactlyWhen | src/vips.rs:308-313 | for every Master and every run of its replacement, all ways the old one can stop by a time and all interleavings leave the address with the new one, if and only if the new one does not hold it by a claim made by that time |
| VrrpReplacement.CalmHandsOverExactlyWhen | src/vips.rs:308-313 | for every Master, every calm run of under three seconds hands over, if and only if the new instance is not a healthy one of priority 255 |
| VrrpReplacement.StopsSoon | src/vrrp.rs:332-353 | a Master whose stop flag is set has stopped within 500 ms, as its reads return within their timeout |
| VrrpReplacement.SoonHandsOverExactlyWhen | src/vips.rs:308-313 | so every replacement whose first 500 ms are calm hands over, if and only if the new instance is not a healthy one of priority 255 |
| VrrpReplacement.EarlyClaimLosesIt | src/vrrp.rs:163-177 | a new Backup that hears a resignation or a Master it follows loses the address in some interleaving, if the old one can run past the wait that sets |
| VrrpReplacement.ResignationLosesIt | src/vrrp.rs:166-168 | a new instance with no Skew_Time that hears a resignation loses it however soon the old one stops |
| Election.StartsInv | src/vrrp.rs:321-329 | freshly started nodes are a network of the kind the theorems are about |
| Election.RunKeepsInv | src/vrrp.rs:163-191 | in every run every packet on the network is an advertisement or a resignation of its sender |
| Election.DemotedOnlyByGreater | src/vrrp.rs:178-187 | in every run a healthy Master gives up the address only to a node strictly above it in priority and address, whose advertisement was sent |
| Election.TopStaysMaster | src/vrrp.rs:163-191 | the greatest node, once Master, stays Master in every run that leaves it alone |
| Election.HearingTurn | src/vrrp.rs:163-191 | a healthy turn that hears a peer leaves Master if and only if it is outranked, and makes nobody Master |
| Election.DeliveriesElect | src/vrrp.rs:163-191 | after any deliveries in any order a node is Master if and only if it was and heard nobody above it |
| Election.ElectionLeavesTheGreatest | src/vrrp.rs:163-191 | of any nonempty set of Masters whose advertisements all reach each other, exactly the greatest is left |
| VrrpTakeover.AdvertisesInTime | src/vrrp.rs:332-394 | an idle Backup claims and then advertises, at most 20 ms after its deadline and 10 ms for each ignored datagram |
| VrrpTakeover.HearerYields | src/vrrp.rs:363-373 | a Backup that hears the new Master before its own deadline, and else nothing to heed, has done nothing but restart its timer |
| VrrpTakeover.OneTakesOver | src/vrrp.rs:123-394 | when a Master falls silent and the timer of one of any number of Backups runs out before the others' by 20 ms, 10 ms for each ignored datagram that delays it, and the network's delay, then once its first advertisement is heard it is the only Master, and that is within four intervals; each may have heard the Master at its own time |
| VrrpTakeover.SkewsWellAhead | src/vrrp.rs:123-131 | of two that heard the Master at the same time one is that far ahead if and only if its skew is that much smaller |
| VrrpContest.TopKeeps | src/vrrp.rs:178-187 | the greatest of those that claimed stays Master whatever it hears of the others |
| VrrpContest.WaitsOn | src/vrrp.rs:163-191 | any other that claimed is a waiting Backup from when it hears the greatest, for three seconds |
| VrrpContest.GreatestClaimantLeft | src/vrrp.rs:163-191 | whatever the timers of any number of Backups, exactly the greatest of those that claimed is Master, once each other that claimed has heard it |
| Pool.DedupOrder | src/pool.rs:58-69 | no address twice, each at its place of first occurrence |
| PoolFairness.PickFromNone | src/pool.rs:79-85 | a scan finds nobody if and only if everyone it looks at is unhealthy |
| Pool.Pool.constructor | src/pool.rs:41-49 | a new pool's members are new and unhealthy |
| Pool.Pool.SetAddrs | src/pool.rs:58-69 | a member that stays is the same object with its health, every other is new and unhealthy; members are distinct |
| Pool.Pool.Pick | src/pool.rs:72-86 | the member picked is the scan's, and the counter moves on as `CounterIs` tells |
| Pool.Pool.HealthyCount | src/pool.rs:88-90 | the number of healthy members, positive exactly if there is one |
| PoolProbes.SetMembers | src/pool.rs:58-69 | applying a list takes the pool and its objects from one moment to the next |
| PoolProbes.Happen | src/health.rs:77-89 | so does a probe begun for a member, and an answer written to the object it was begun for |
| PoolProbes.Interleave | src/health.rs:77-89 | any events, in any order, take the pool through a trace of such moments |
| PoolProbes.ApplyKeepsObjects | src/pool.rs:55-69 | in every trace, after a list is applied the members are its addresses, each once in first-occurrence order; a member whose address stays is the same object, nobody's health has changed, and whoever is new is unhealthy |
| PoolProbes.GoneForGood | src/pool.rs:58-69 | in every trace an object that has left the pool never comes back, though its address may |
| PoolProbes.HealthIsLastAnswer | src/health.rs:77-89 | in every trace an object's health is the last answer to a probe of that very object, begun while it was a member, and before one what it started with: unhealthy for one added since |
| PoolProbes.LateAnswer | src/health.rs:77-89 | a probe begun for a member that has since left, answered at any later moment, changes no member's health, also if its address came back |
| PoolFairness.PickMissesNobody | src/pool.rs:79-85 | a pick finds a healthy member whenever there is one, for every health, if and only if the scan does not wrap or the size divides 2^64 |
| PoolFairness.BeforeAreUnhealthy | src/pool.rs:79-85 | the members counted before a position are those unhealthy ones in a row just before it |
| PoolFairness.UnsteadyMisses | src/pool.rs:80-80 | otherwise there is a member that the scan never looks at |
| PoolFairness.CountUpTo | src/pool.rs:79-85 | of the positions just before a member those that choose it are the last ones, one more than the unhealthy members before it |
| PoolFairness.WholeTurn | src/pool.rs:72-86 | a whole turn counts the same wherever it starts |
| PoolFairness.CounterIs | src/pool.rs:72-80 | after k picks the counter is k further, modulo 2^64 |
| PoolFairness.RoundRobinShare | src/pool.rs:72-86 | of n picks from n members a healthy one gets one, and one for each unhealthy member just before it |
| PoolFairness.AllHealthyOnceEach | src/pool.rs:72-86 | with all healthy each is picked exactly once |
| Registry.CheckVip | src/vips.rs:434-481 | the method's loop and branches answer as `Check`, whose answers `CheckedExactlyWhen` tells |
| Registry.CheckedExactlyWhen | src/vips.rs:434-481 | a spec is accepted if and only if each of its fields is good, the ranges spelled out; it listens on the bind address if there is one and else on the VIP, at its port, its backends are those listed, in order, and the VRRP address is the VIP exactly if there is a VRRP part |
| Registry.NameExactlyWhen | src/vips.rs:420-431 | a name is 1 to 63 of a-z, 0-9 and the hyphen, which is neither first nor last |
| Registry.Registry.constructor | src/vips.rs:180-182 | a new process runs nothing |
| Registry.Registry.PutVip | src/vips.rs:288-330 | the object's step for a put, refusals included |
| Registry.Registry.ChangeVip | src/vips.rs:297-317 | the object's step for a replacement, its listener, members, probe spec and VRRP loop in order |
| Registry.Registry.MoveVip | src/vips.rs:299-306 | the listener moves, if it must and can, before the members change |
| Registry.Registry.SwapLoop | src/vips.rs:308-313 | the VRRP loop is replaced exactly if its settings or the address changed |
| Registry.Registry.StartLoop | src/vips.rs:397-418 | a VRRP loop is started exactly if the spec has one and the address is IPv4 |
| Registry.Registry.SaveState | src/vips.rs:333-345 | the file becomes the pending and the API VIPs, or stays |
| Registry.Registry.ApplyVip | src/vips.rs:235-244 | the object's step for an apply |
| Registry.Registry.RemoveVip | src/vips.rs:248-267 | the object's step for a removal |
| Registry.Registry.StopEverything | src/vips.rs:271-273 | the object's step for stopping all |
| Registry.Registry.LoadState | src/vips.rs:212-232 | loading puts every saved VIP in order, those that fail staying pending, and counts those that run; from a file that cannot be read nothing is loaded |
| RegistryRuns.PutWellFormed | src/vips.rs:288-330 | whatever fails, every put keeps listeners distinct and running VRRP loops exactly the entries' own; it keeps entries what their specs determine where the health client that builds for the test builds for the change |
| RegistryRuns.EntryAsSaid | src/vips.rs:288-330 | a running entry listens, balances, probes and runs VRRP as its own spec says |
| RegistryRuns.LoopKeptExactlyWhen | src/vips.rs:308-313 | a changed VIP keeps its running VRRP loop if and only if the VRRP settings and the address are the same; else that one is told to stop and a new one runs if the spec has one |
| RegistryRuns.ReapplyChangesNothing | src/vips.rs:288-330 | a VIP applied again as it is runs on with the same listener, members and loop |
| RegistryRuns.RefusedChangesNothing | src/vips.rs:288-330 | a refused change leaves the whole registry unchanged, except exactly if the health client builds for the test but not for the change and the listener or the members differ |
| RegistryRuns.ApplyAcceptedExactlyWhen | src/vips.rs:235-330 | exactly when an apply takes effect, when it is a conflict (the config file's VIP, a listener taken or one that cannot be bound) and when it is not saved; it answers whether the VIP was created |
| RegistryRuns.RefusedRemoveChangesNothing | src/vips.rs:248-267 | a refused removal changes nothing and there was nothing to remove |
| RegistryRuns.RemoveAcceptedExactlyWhen | src/vips.rs:248-267 | a removal takes effect if and only if an API VIP runs or is pending; exactly the config file's VIP is a conflict and exactly an unknown name is not found |
| RegistryRuns.ConfigVipUntouched | src/vips.rs:235-267 | neither apply nor remove touches the config file's VIP |
| RegistryRuns.ApplyRefines | src/vips.rs:235-244 | an apply, accepted or refused, is an update of the map of wanted specs or nothing, and of the saved map if saved |
| RegistryRuns.RemoveRefines | src/vips.rs:248-267 | a removal is a deletion from those maps |
| RegistryRuns.RestartRefines | src/vips.rs:205-232 | whatever fails, after a restart the map is what was on disk, without a `default` that was put over the config VIP, and empty if the file was not read |
| RegistryRuns.RestartCounts | src/vips.rs:212-232 | the number of saved VIPs running again and the number left pending add up to all of them |
| RegistryRuns.RestartKeepsExactlyWhen | src/vips.rs:212-232 | a restart keeps the saved map if and only if the file was read and no `default` was put over the config VIP, or nothing was saved |
| RegistryRuns.RestartSafeExactlyWhen | src/vips.rs:212-232 | a restart loses nothing whatever else fails, if and only if the file is read or nothing was saved, and there is no config VIP, no saved `default`, or the saved one is invalid |
| RegistryRuns.FailedReadDropsTheRest | src/vips.rs:214-220 | after a failed read the next saved change leaves the file with that VIP alone |
| RegistryRuns.RereadRestores | src/vips.rs:212-232 | if there is no change in between, the next restart that reads the file brings all back |
| RegistryRuns.RunRefines | src/vips.rs:212-267 | in every run of applies, removals and restarts, whatever binds, builds, is read or written, running API VIPs and pending ones are disjoint and are the specs accepted or reloaded last, the file is those as of the last successful save, listeners are distinct and the running VRRP loops are the entries' own |
| RegistryRuns.EverySavedVipSurvives | src/vips.rs:212-267 | a saved VIP that no operation names is wanted and saved as it was after every run whose restarts read the file and have no clash with the config VIP, whatever else fails |
| RegistryRuns.StopAllStops | src/vips.rs:147-155 | stopping everything stops every VRRP loop there is and leaves the file |
| RegistryRuns.CleanStart | src/vips.rs:180-182 | a process on a clean disk is such a registry |
| RegistrySaves.FileIsView | src/vips.rs:333-360 | after any interleaving of any number of changes the file holds the map as it was when the text last renamed into place was collected |
| RegistrySaves.UpToDate | src/vips.rs:333-360 | so it is up to date if nothing was changed since |
| RegistrySaves.CrossedSavesLoseOne | src/vips.rs:333-360 | of two applies that both take effect and are both saved, the file can lack the second |
| BgpCodec.ReadMessage | src/bgp.rs:99-109 | reading a message gives it back and leaves what follows |
| BgpCodec.ReadExactlyWhen | src/bgp.rs:99-109 | reading gives a message and a rest if and only if the stream is that message, of at most 4096 bytes, and that rest |
| BgpCodec.FramingInverse | src/bgp.rs:99-109 | reading any messages written one after the other gives exactly those messages |
| BgpCodec.CutMessageIncomplete | src/bgp.rs:99-109 | no proper prefix of a message reads as one |
| BgpCodec.HeaderBytes | src/bgp.rs:237-245 | the header is the marker, the length in two bytes, the type, and the body follows |
| BgpCodec.BodiesOnTheWire | src/bgp.rs:247-263 | OPEN is 1 with version 4, our AS, hold time and identifier and no options, UPDATE 2, NOTIFICATION 3 with code and subcode, KEEPALIVE 4 with nothing |
| BgpCodec.UpdateAnnounce | src/bgp.rs:276-293 | the encoder, growing its buffers, computes the announcement |
| BgpCodec.UpdateWithdraw | src/bgp.rs:296-303 | the encoder computes the withdrawal |
| BgpCodec.AnnounceDecodes | src/bgp.rs:276-293 | a decoder after section 4.3 of RFC 4271 recovers ORIGIN, a path of our AS, the next hop and the prefix |
| BgpCodec.WithdrawDecodes | src/bgp.rs:296-303 | the same decoder recovers the withdrawn prefix and nothing else |
| BgpCodec.BodyDecodes | src/bgp.rs:287-302 | the decoder finds the three parts of any UPDATE body where its length fields say |
| BgpCodec.PrefixBytesMeaning | src/bgp.rs:267-267 | a prefix takes its bits over eight, rounded up, in bytes |
| BgpCodec.AcceptedExactlyWhen | src/bgp.rs:123-139 | an OPEN is accepted with a hold time if and only if it is ten bytes or more that begin with version 4, the wanted AS and that hold time, not 1 or 2; an AS beyond 16 bits never is |
| BgpCodec.RefusedExactlyWhen | src/bgp.rs:123-139 | why an OPEN is refused and with which code and subcode: short, version, AS, hold time, the first that applies |
| BgpCodec.OpenAccepted | src/bgp.rs:247-255 | the OPEN that is sent is accepted by a peer that wants its AS, unless its hold time is 1 or 2 |
| BgpSession.Session.constructor | src/bgp.rs:158-158 | a session starts with its OPEN |
| BgpSession.HoldNegotiated | src/bgp.rs:170-174 | whatever OPEN is accepted, the hold time is the least of the two, 0 exactly if the peer asked for 0, and else 3 to 180 s; a peer that does the same comes to the same |
| BgpSession.Session.WriteAll | src/bgp.rs:158-158 | a write puts a whole message on the wire or ends the session part-way |
| BgpSession.WrittenOnTheWire | src/bgp.rs:158-230 | a write adds the whole message to the bytes on the wire, or a proper prefix of it and ends the session |
| BgpSession.Session.Notify | src/bgp.rs:116-119 | a NOTIFICATION ends the session, written or not |
| BgpSession.Session.AwaitOpen | src/bgp.rs:160-175 | the session's step in OpenSent |
| BgpSession.Session.AwaitKeepalive | src/bgp.rs:177-187 | the session's step in OpenConfirm |
| BgpSession.Session.Select | src/bgp.rs:199-230 | the session's step for each arm of the select loop |
| BgpSession.Session.Meet | src/bgp.rs:160-230 | the session takes the step of the state that it is in |
| BgpSession.OpenSentExactlyWhen | src/bgp.rs:160-175 | in OpenSent exactly a good OPEN, answered, leads on; every other message, error or timeout ends the session, with the code for its cause, and a NOTIFICATION is answered by nothing |
| BgpSession.OpenConfirmExactlyWhen | src/bgp.rs:177-195 | in OpenConfirm exactly a KEEPALIVE leads on, with nothing announced and the deadline a hold time away; all else ends the session likewise |
| BgpSession.EstablishedExactlyWhen | src/bgp.rs:199-230 | an Established session lives on if and only if its hold timer is not due, no read or write fails, health is told and what arrives is a KEEPALIVE or an UPDATE; which NOTIFICATION is sent for which cause, and none for a NOTIFICATION |
| BgpSession.Session.Drive | src/bgp.rs:158-232 | the session is the fold of its steps over what happens, until it ends |
| BgpSession.TraceOfEveryRun | src/bgp.rs:143-232 | every run sends OPEN, then KEEPALIVE only after a valid OPEN, then UPDATEs only after the peer's KEEPALIVE, announcements and withdrawals in turn, nothing after a NOTIFICATION; the hold time is 0 or 3 to 180 s |
| BgpSession.NothingAfterTheEnd | src/bgp.rs:116-119 | after a NOTIFICATION or any other end nothing changes, whatever happens |
| BgpSession.TableOfLawful | src/bgp.rs:204-217 | the last UPDATE of such a trace decides the peer's table |
| BgpSession.PeerTableFollows | src/bgp.rs:143-232 | a peer that reads the bytes of any run, cut writes included, gets exactly the messages sent, and its table holds the VIP if and only if the session holds it announced |
| BgpSession.AnnouncedFollowsHealth | src/bgp.rs:204-217 | while the session lives, what is announced is the last health it was told of |
| BgpSession.DeadlineMeaning | src/bgp.rs:190-196 | the deadline is a hold time after the peer was last heard, or 365 days after Established for hold 0 |
| BgpSession.HoldTimerExactlyWhen | src/bgp.rs:201-203 | the hold timer ends the session if and only if that time has passed |
| BgpSession.HoldZeroStillExpires | src/bgp.rs:191-196 | with hold 0 it does so after 365 days however often the peer is heard |
| Http.HeadEndPrefix | src/router.rs:551-553 | what is found in some bytes is found in more at the same place, and nothing else is |
| Http.LinesOfJoin | src/router.rs:535-535 | splitting undoes joining for lines |
| Http.JoinOfLines | src/router.rs:535-535 | joining undoes splitting for every byte string |
| Http.HeadEndsLast | src/router.rs:551-553 | of lines with anything behind them the head ends with the last, if and only if it is the only blank one behind CR LF |
| HeaderText.GivesExactlyWhen | src/api.rs:113-122 | splitting at the first colon and comparing without case finds exactly the lines that start with the name, in any letter case, and a colon, and the value behind it |
| HeaderText.Utf8ExactlyWhen | src/api.rs:105-105 | text is accepted if and only if it is the UTF-8 of some code points |
| HeaderText.TrimmedText | src/api.rs:115-115 | trimming takes all white space of Unicode from both ends of a text and nothing else |
| HeaderText.SecondWordText | src/router.rs:520-520 | the second word of a text, whatever white space stands around the words |
| HeaderText.ReadExactlyWhen | src/api.rs:117-117 | a length is read exactly from its decimal digits, zeros and one plus sign before them allowed, if 64 bits hold it |
| ReadingHeads.ReadHead | src/router.rs:331-345 | the router's read loop computes the fold of the reads |
| ReadingHeads.Accumulates | src/router.rs:331-345 | what any reader makes of any pieces: the stream's own head end, or none, or one too late; it never holds more than the limit and one read |
| ReadingHeads.HeadReadExactlyWhen | src/router.rs:331-345 | a head is read whatever the pieces, if and only if it ends within 16 KiB and a byte |
| ReadingHeads.CutMattersExactlyWhen | src/router.rs:331-345 | a head is read for one way of cutting the stream and refused for another, if and only if it ends past 16 KiB and a byte but within one read of 16 KiB |
| ReadingHeads.RouterReads | src/router.rs:331-345 | whatever is sent and however it ends, the router holds at most 18 KiB, the stream's beginning; what it reads is the stream's head |
| ReadingHeads.ReadUntilHead | src/api.rs:92-104 | the API's own loop computes the same fold of the reads |
| ReadingHeads.ReadBody | src/api.rs:127-135 | its second loop reads on until the body is long enough, and cuts it |
| ReadingHeads.ReadRequest | src/api.rs:89-137 | the API's two read loops compute the answer |
| ReadingHeads.BodyGrows | src/api.rs:127-135 | the body is the first bytes of what follows, as many as asked for, if there are so many |
| ReadingHeads.AnswerIndependent | src/api.rs:89-137 | the API's answer is the same for every way of cutting the stream, unless the head ends past 16 KiB and a byte but within one read of 16 KiB |
| ReadingHeads.AnsweredAlikeExactlyWhen | src/api.rs:89-137 | all ways of cutting a stream are answered alike, if and only if its head does not end there |
| ReadingHeads.AcceptedBounded | src/api.rs:124-135 | no accepted body is over 1 MiB |
| ReadingHeads.HeadParsed | src/api.rs:105-126 | a head with any header lines in any order parses to its method, path, the trimmed value of the last authorization line in any letter case and the number in the last content-length, or 413 beyond 1 MiB |
| ReadingHeads.HeadRefused | src/api.rs:112-123 | the first faulty line refuses a head: a transfer-encoding with 411, a content-length that is no number with 400 |
| ReadingHeads.NoRequestLine | src/api.rs:105-111 | a head that is not UTF-8, or whose first line has no space or starts with one, is refused with 400 |
| ReadingHeads.HeadOfEnds | src/router.rs:551-553 | a head of nonempty lines ends at its blank line, whatever follows |
| ReadingHeads.ClientRequestRead | src/api.rs:89-137 | such a request, however cut, is read back with its method, path, last authorization and exactly the body that its last content-length says |
| ReadingHeads.ClientRequestRefused | src/api.rs:89-126 | a request refused for its head is refused with that status however it is cut |
| ReadingHeads.BrokenOff | src/api.rs:92-104 | a stream that breaks off in its head is answered 400, or 431 if it is over 16 KiB |
| ReadingHeads.BrokenOffLater | src/api.rs:127-133 | one that breaks off in its body is answered 400 |
| ForwardedHeader.ForwardedHttps | src/router.rs:533-549 | the rewriting loop computes the new head |
| ForwardedHeader.RewriteKeeps | src/router.rs:530-549 | the request line is first, exactly one line claims a scheme, every other line keeps its place, and the bytes after the head are unchanged |
| ForwardedHeader.ProtoIs | src/router.rs:539-539 | the line put in is `X-Forwarded-Proto: https` and CR LF, letter by letter |
| ForwardedHeader.ClaimsExactlyWhen | src/router.rs:541-544 | the lines dropped are exactly those of that name, in any letter case |
| ForwardedHeader.Idempotent | src/router.rs:533-549 | rewriting twice is rewriting once |
| ForwardedHeader.HeadEndKeptExactlyWhen | src/router.rs:533-553 | the new head ends where the old one did, if and only if no blank line is uncovered before the last and the last is not |
| ForwardedHeader.BareLfMovesTheEnd | src/router.rs:533-553 | a family of heads with a bare LF whose end moves |
| ForwardedHeader.CrlfHeadEndKept | src/router.rs:533-553 | where every LF follows a CR the end is kept |
| ForwardedHeader.ClaimsIsNoHost | src/router.rs:556-573 | the search for the host passes over a line that claims a scheme |
| ForwardedHeader.RoutingKept | src/router.rs:517-573 | for every head that has a host, the new head has the same host, path and target |
| ForwardedHeader.ClientHostRead | src/router.rs:556-573 | the host is the first Host line's value in lower case without its port, whatever spaces that line has, whatever other lines stand before it and any lines behind |
| ForwardedHeader.NoPortRead | src/router.rs:565-569 | what follows the last colon stays if it is not all digits |
| ForwardedHeader.NoHostRead | src/router.rs:556-573 | no host is found behind a blank line or a line that is not UTF-8 |
| ForwardedHeader.ClientPathRead | src/router.rs:517-522 | the path is the request line's second word up to its query, if it has one |
| ForwardedHeader.ClientTargetRead | src/router.rs:517-528 | the target is the second word, if it starts with a slash |
| ForwardedHeader.NoTargetRead | src/router.rs:517-528 | a request line that is not UTF-8 or has one word only has neither path nor target |
| Netlink.WalkAttrs | src/vip.rs:164-175 | the attribute walk ends in bounds on every byte string |
| Netlink.AttrsInverse | src/vip.rs:164-175 | it undoes padded encoding of any attributes |
| Netlink.LastUnpadded | src/vip.rs:164-175 | the last attribute needs no padding, and the two flag bits of its type are left out |
| Netlink.ReadLowestFirst | src/vip.rs:156-161 | numbers are read with their lowest byte first |
| Netlink.WriteNlMsg | src/vip.rs:139-150 | the writer computes header, payload and padding |
| Netlink.HeaderTold | src/vip.rs:139-150 | the request flag is set and the others kept, the port number is 0, and the padding is zeros |
| Netlink.Collect | src/vip.rs:271-301 | the two reply loops compute the fold of the replies |
| Netlink.WalkInverse | src/vip.rs:278-299 | messages written one after the other are walked through as they were, without padding, those of other requests left out |
| Netlink.DumpCollected | src/vip.rs:271-301 | a dump in any number of replies gives exactly its messages |
| Netlink.AckWalked | src/vip.rs:287-292 | an acknowledgement ends the request well if its error number is 0, and with that error otherwise |
| Netlink.DumpBroken | src/vip.rs:271-301 | bytes that are no message make the request fail, and so does silence |
| Netlink.WriteAddrPayload | src/vip.rs:127-136 | the writer computes the /32 address message whose bytes `PayloadBytes` tells |
| Netlink.PayloadBytes | src/vip.rs:127-136 | the bytes that claim or release a VIP: family 2, /32, the index, and the address as attributes 2 and 1 |
| Netlink.ParseAddrs | src/vip.rs:201-223 | the two loops compute the interface's addresses |
| Netlink.LastAddrIs | src/vip.rs:207-216 | of the attributes of one type that hold four bytes the last counts |
| Netlink.AddrsRead | src/vip.rs:127-223 | from any list of messages, IPv4 address messages of any prefix length and with any attributes or others, exactly the interface's addresses are read, in order |
| Netlink.InterfaceIpv4 | src/vip.rs:84-99 | the loop chooses the first address that is not a /32, or else the first |
| Netlink.VipIsNoSource | src/vip.rs:82-99 | a claimed VIP never becomes the source while the interface has an address of its own, wherever it is listed |
| Netlink.VipListed | src/vip.rs:127-136 | what is written to claim a VIP reads as that address, a /32 |
| Netlink.InterfaceAddressesRead | src/vip.rs:84-99 | so from the bytes of a whole dump, and with them the source chosen |
| Netlink.AlignMeaning | src/vip.rs:152-154 | rounding up is rounding up to a multiple of four |
| Metrics.PrintLabels | src/metrics.rs:89-112 | the loops compute the label text |
| Metrics.LabelsRead | src/metrics.rs:89-112 | a reader of the text format recovers the values, whatever they contain |
| Metrics.LabelsInjective | src/metrics.rs:89-112 | different values never share a text |
| Metrics.NoNewline | src/metrics.rs:101-106 | a label text is one line |
| Metrics.SpliceIsLabel | src/metrics.rs:178-184 | splicing `le` in gives what printing one more label would have |
| Metrics.Recorded | src/metrics.rs:131-137 | an observation adds one to every bucket at or above it, and to the count |
| Metrics.Family.Observe | src/metrics.rs:127-138 | every bucket of every series counts its own observations |
| Metrics.Family.Active | src/metrics.rs:141-145 | every gauge is the number of its own living guards |
| Metrics.Family.Drop | src/metrics.rs:211-217 | and stays so when one ends |
| Metrics.BucketsRise | src/metrics.rs:186-189 | buckets never fall from one to the next and never exceed the count |
| Metrics.BoundsSteps | src/metrics.rs:37-37 | the 11 bounds go from 5 ms to 10 s, each twice or two and a half times the one before |
| Histogram.InBucket | test/src/long.rs:418-431 | a value lies in its bucket, for values of any size |
| Histogram.Buckets | test/src/long.rs:418-431 | every 64-bit value has one of 496 buckets, whose lower end is at most the value and within an eighth of it; the next starts above it, except behind the last |
| Histogram.IndexMonotone | test/src/long.rs:418-424 | greater values have no lower bucket |
| Histogram.IndexOfLower | test/src/long.rs:418-431 | a bucket's lower end lies in it |
| Histogram.Hist.Add | test/src/long.rs:432-434 | recording a value keeps the counters those of what was recorded |
| Histogram.Hist.Merge | test/src/long.rs:435-439 | merging is recording both |
| Histogram.Hist.Count | test/src/long.rs:440-442 | the counters add up to how many were recorded |
| Histogram.StopsAtRank | test/src/long.rs:449-455 | the walk stops at the bucket of the value of that rank in every sorting of what was recorded |
| Histogram.Hist.Quantile | test/src/long.rs:443-457 | the quantile of rank k is at most the k-th smallest value, and within an eighth of it |

## Left out

- Sockets, TLS, the filesystem, kernel calls and HTTP clients: their outcomes are inputs of the model. A process without the API neither loads nor saves VIPs.
- A claim or release that the kernel refuses: the model records the calls, which the source makes and only logs when they fail.
- Logging and the counters that only grow: no decision of the program depends on them. Whole exposition pages: a concatenation of texts that are proved to be one line and to read back. Floating-point sums: their content is rounding.
- Parsing of IP address text: an address is a text that parses to an address or does not.
- The VRRP loop's clock is read once before and once after each receive; a failing receive-timeout setting is a failing receive.
- A VRRP payload beyond 131074 bytes, whose 32-bit checksum sum could overflow: the source sends one address.
- The results on runs of the registry take each change and its save as one step; saves that interleave are module `RegistrySaves`, where writing the temporary file is one step.
- A config VIP that does not start: the process ends, so restarts are those where it did.
- The pool of a registry entry is its list of addresses there; the members' health and identity are module `Pool`'s.
- Connecting, reconnecting and the reader task of a BGP session: a session is one connection, its keepalive ticker may tick at any time, and so may its waits for OPEN and KEEPALIVE be over, whose lengths are not modelled.
- VrrpTiming.SilentMasterReplaced: the socket's timeouts are exact and health stays good; scheduling delays come on top.
- VrrpTiming.RealMasterStable: the gap is between arrivals, so varying network delay comes on top of the Master's lateness.
- Election.ElectionLeavesTheGreatest: between the deliveries no node times out or restarts; what may happen at any other time is `DemotedOnlyByGreater` and `TopStaysMaster`.
- Quantiles take the rank as an integer; the source computes it from a fraction in floating point.
- Counters of the histograms are unbounded; the source's are 64-bit.
- Netlink numbers are little-endian; `parse_links` is not modelled, and messages are not bounded by the 64 KiB receive buffer.
- The router's table, redirects, backends and TLS, the route poller, the balancer's splicing and the HTTP handlers of the API.

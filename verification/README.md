# Forebay, modelled and proved

Forebay's node agent lends a node's disk revocably and serves an immutable-content
cache from the loan. This project models the parts of it whose correctness is a claim
about whole runs, interleavings or crash points, and proves those claims for every run:

- **The fast tier** (`FastTier`, `TierRuns`, `TierCache`, `HitRun`). A cache over fixed slots in
  per-lease extents. `Read` drops the mutex while it touches its slot, so its unlocked
  half is modelled one byte at a time against `Admit`, `Revoke`, `AddCapacity` and
  `ReclaimOrder`. A hit is exact however the unlocked read was torn, no slot is ever
  owned twice or released twice, and eviction takes the one block it should.
- **The data server** (`DataServer`, `ReadRuns`). A byte range assembled on the block grid
  from tier and backend is the plain slice of the object, whatever fails in between, with
  the tier filled by the server's own offers and read by its own hits in any interleaving.
- **The lease manager** (`Leases`, `ReclaimHistory`, `LeaseManager`, `LeaseRuns`,
  `TermRuns`, `ManagerClass`). Its books, caps and quotas over every run, with journal saves that
  fail before or after their rename and with restarts; the reclaim ladder; the pruned
  reclaim history and its cooldown.
- **The agent's crash protocol** (`PoolNames`, `AgentRuns`, `GrantPromise`, `AgentClass`,
  `AgentSteps`, `RegrantRace`).
  Grants, releases and reclaims as concurrent sequences of journal and directory steps,
  killed between any two of them. Startup makes journal and disk agree from anything,
  and a lease whose grant returned survives, exactly under the condition it began with.
- **Checkpoint staging** (`StagingRuns`, `StagingClass`, `StagingSteps`, `StagedRun`), on
  top of the agent's own steps: a staged checkpoint is held under a guarantee until the
  store has all of it.
- **The prefetch detector** (`Prefetch`, `PrefetchClass`) and **the lineage graph**
  (`Lineage`).
- **Codecs and normalisers**: protobuf (`ProtoWire`, `Csi`), the agent's frames in Go
  and in C (`AgentWire`), paths and keys (`PathKey`), and paged directories (`Paging`).

Code that updates things in place is a class or a method with loops, each proved against
a value-level specification; what the source promises is proved about that specification.
Concurrency is a state machine whose steps are those specifications. I/O outcomes
(a save that fails before or after its rename, a removal that is refused, a torn read)
are inputs of the model, so that every theorem holds for all of them. `Common` holds the
64-bit arithmetic; `Sorting` and `NameLists` the sorting that several parts share.

## What turned out to need a condition

Seven promises do not hold as they are usually said. Each has a concrete input that shows it
and the condition under which it does hold.

- A prediction's offset is an int64 product. What is offered is the block it is filed under
  if and only if the index is one a read can address
  (`DataServer.PredictionIsHonestExactly`); `ReadRuns.WrappedPredictionOffersTheWrongBlock`
  takes three ordinary reads to a prediction that wraps. No read can ask for such an index,
  so reads stay slices (`ReadRuns.ReadCached`).
- The cooldown is the term doubled once per further reclaim, up to the window, for every
  history if and only if no doubling below the window leaves 64 bits
  (`ReclaimHistory.BoundedDoublingExactly`); `ReclaimHistory.DoublingWraps` is a policy that
  does. The same condition is exactly when the cooldown alone covers the term
  (`ReclaimHistory.TermIsKeptExactly`), even where a short window makes the cooldown itself
  shorter than the term (`ReclaimHistory.CooldownCoversTheTerm`).
- No grant follows a reclaim within the term exactly under the policies whose churn budget,
  where the doubling can wrap, is spent before there are enough reclaims in the window to
  wrap it: over every history (`ReclaimHistory.GrantsKeepTheTermExactly`) and over every run
  of a node (`TermRuns.RunsKeepTheTermExactly`). `TermRuns.TwoReclaimsOpenTheNode` is a run
  that grants at the moment of two reclaims under a term of 2^62 ns without a budget, and
  `TermRuns.BudgetOfOneKeepsTheTerm` the same policy with a budget of one, which keeps it.
- A restart forgets the reclaim history. `LeaseRuns.RestartLetsAGrantThrough` is a run that
  grants within the term of a reclaim before it, and after any restart no grant is refused
  for churn or cooldown until a reclaim drops something
  (`LeaseRuns.RestartOpensToGrants`).
- A grant's promise holds if, as it begins, no call outstanding on its name can both let it
  succeed and undo it (`GrantPromise.GrantedLeaseSurvives`), and in every state where one
  can, some continuation breaks it (`GrantPromise.CalmIsNeeded`).
  `RegrantRace.RegrantLosesItsExtent` is such a run: a release asked for twice takes the
  extent of a later grant of that name.
- A start that cannot read its journal replaces it by an empty one, and every lease is
  then forgotten, exactly when that write happens (`AgentRuns.UnreadIsForgotten`).
  `RegrantRace.UnreadStartForgetsTheGrant` is a run: granted, killed, and started over a
  journal that cannot be read.
- The served path of a reference has the reference's object key if and only if no
  component is empty, "." or ".." (`PathKey.ViewsAgreeExactly`); `PathKey.DotsNameAnother`
  is a valid reference whose served path is another's key.

A durable `Stage` whose caller's context ends while it waits reports that, although the
object may be stored and its capacity given back: `StagingClass.Stager.Stage` says what holds
then.

`Accounting.Validate` also accepts an accounting overcommitted by more than 2^63 bytes,
because `Free` wraps: `Leases.ValidateIffBalancedOrWrapped` says exactly which.

## Model

| member | source | states |
|---|---|---|
| `TierRuns.HitReturnsTheAdmittedBytes` | internal/fasttier/cache.go:152-244 | In every interleaving, bytes returned by a Read of k are those of the one Admit of k that made the occupancy it looked up; offer, commit and lookup precede the answer in that order and the commit's generation is the one looked up. |
| `TierRuns.EveryReachableStateKeepsInv` | internal/fasttier/cache.go:110-306 | Every state every interleaving reaches keeps the whole invariant: slot conservation, one owner per slot, generations and stamps never repeat, first-read record within its limit and apart from the resident set. |
| `TierRuns.StepKeepsInv` | internal/fasttier/cache.go:110-306 | Each step of lookup, unlocked byte read, recheck, offer, byte write, write error, commit, revoke, add and reorder keeps that invariant. |
| `TierRuns.PrefetchRemovesNothing` | internal/fasttier/cache.go:214-274 | From the offer of a prefetch to the end of its Admit, whatever unlocked steps come between, every block resident before stays resident where it was. |
| `TierRuns.ResidentOnlyAfterTwoOffers` | internal/fasttier/cache.go:214-244 | Under demand only, a block becomes resident after at least two offers of it during which it was never resident. |
| `TierRuns.SeenWasOffered` | internal/fasttier/admission.go:30-53 | A key in the first-read record was offered and has not been resident since. |
| `TierRuns.StepKeepsLog` | internal/fasttier/cache.go:229-244 | Generations never repeat: no step overwrites what an earlier generation stands for. |
| `TierRuns.AdmitIsSteps` | internal/fasttier/cache.go:214-244 | A sequential Admit is an offer, its bytes and a commit or write error of the interleaving model, each enabled. |
| `HitRun.ABlockIsAdmittedAndRead` | internal/fasttier/cache.go:152-244 | A literal run that meets the conditions of HitReturnsTheAdmittedBytes and ResidentOnlyAfterTwoOffers: a block offered twice on demand, written, committed, looked up, read and returned. |
| `FastTier.PlaceKeepsInv` | internal/fasttier/cache.go:247-274 | Placing a block keeps the invariant with the slot taken; the error after an eviction is unreachable, a failure changes nothing, and a prefetch never evicts. |
| `FastTier.PlaceSucceedsExactly` | internal/fasttier/cache.go:247-274 | A slot is found if and only if a lease in order has one free or, on demand, holds a block. |
| `FastTier.DemandFindsASlot` | internal/fasttier/cache.go:247-274 | With every held lease in the order, a demand finds a slot if and only if any lease has a slot at all. |
| `FastTier.EvictionTakesTheColdestOfTheFirstLease` | internal/fasttier/cache.go:280-306 | If a block goes it goes on demand, no lease in order having a free slot; no lease before its own holds a block, and it is the least recently looked-up of that lease's blocks. |
| `FastTier.VictimIsUnique` | internal/fasttier/cache.go:280-306 | Distinct lookup stamps leave eviction exactly one choice, so map order does not matter. |
| `FastTier.RevokeKeepsInv` | internal/fasttier/cache.go:110-134 | Revoking a lease forgets all its blocks and keeps the invariant of every other slab. |
| `FastTier.RecheckKeepsInv` | internal/fasttier/cache.go:180-207 | A failed or stale read never releases a slot twice. |
| `FastTier.CommitKeepsInv` | internal/fasttier/cache.go:229-244 | The committed block is the only owner of its slot. |
| `FastTier.SawBeforeKeepsFirstInv` | internal/fasttier/admission.go:30-44 | The queue and the map hold the same keys once each within the limit; the answer is membership. |
| `FastTier.ForgetKeepsFirstInv` | internal/fasttier/admission.go:48-53 | Forgetting removes exactly that key from both. |
| `TierCache.Slab.Take` | internal/fasttier/slab.go:59-66 | Pops the last free slot unless revoked or empty. |
| `TierCache.Slab.Write` | internal/fasttier/slab.go:72-83 | Overlays the slot with the bytes, or with those that landed before an error; nothing once revoked. |
| `TierCache.Slab.Read` | internal/fasttier/slab.go:86-95 | The first bytes of the slot, or nothing once revoked. |
| `TierCache.Cache.Read` | internal/fasttier/cache.go:152-207 | Uninterrupted, a hit exactly for a resident block, with its slot's bytes, the block stamped and the hit counted. |
| `TierCache.FirstReads.SawBefore` | internal/fasttier/admission.go:30-44 | The list and map updated together equal the specification. |
| `TierCache.FirstReads.Forget` | internal/fasttier/admission.go:48-53 | Removal from the linked list equals the specification. |
| `TierCache.Cache.AddCapacity` | internal/fasttier/cache.go:89-103 | A new slab under a new lease only, last in the order. |
| `TierCache.Cache.ReclaimOrder` | internal/fasttier/cache.go:141-145 | Replaces the order and nothing else. |
| `TierCache.Cache.Lookup` | internal/fasttier/cache.go:152-172 | Stamps the block and hands out its placement, or counts a miss. |
| `TierCache.Cache.Finish` | internal/fasttier/cache.go:173-207 | The recheck under the mutex, equal to the specification in state and answer. |
| `TierCache.Cache.Revoke` | internal/fasttier/cache.go:110-134 | Equal to the specification, and counts exactly the blocks dropped. |
| `TierCache.Cache.EvictOne` | internal/fasttier/cache.go:280-306 | Drops exactly the specified victim and frees its slot. |
| `TierCache.Cache.PlaceLocked` | internal/fasttier/cache.go:247-274 | Equal to the specification of placement in state and outcome. |
| `TierCache.Cache.Admit` | internal/fasttier/cache.go:214-244 | Equal to the specification of an admission, with its write failing anywhere. |
| `DataServer.Server.ReadRange` | internal/dataserver/dataserver.go:192-268 | For any faithful hits, bytes that come back are object[offset..offset+length]; a range error only for a range past the end; with nothing failing, success if and only if the range is inside and a range error otherwise; the assembled-length check and the loop's wrap are unreachable. |
| `DataServer.Server.BlockAt` | internal/dataserver/dataserver.go:333-396 | A block answered is the whole block, the exact tail, or the narrow read up to the wanted end; what it offers the tier is exactly the block. |
| `DataServer.Server.TailBySize` | internal/dataserver/dataserver.go:400-437 | With sizes, the exact tail or a range error, and the backend is never contradicted. |
| `DataServer.Server.FetchOne` | internal/dataserver/ahead.go:87-123 | Offers exactly the fetch at the int64 product of index and block, and nothing for a resident block; that is the block filed under if and only if the index is addressable. |
| `DataServer.DemandIsHonest` | internal/dataserver/dataserver.go:333-437 | Whatever a demanded read offers the tier is the whole block or the exact tail. |
| `DataServer.PredictionIsHonestExactly` | internal/dataserver/ahead.go:87-123 | What a prediction offers is the block it is filed under if and only if a read can address it. |
| `ReadRuns.WrappedPredictionOffersTheWrongBlock` | internal/dataserver/ahead.go:29-123 | Three addressable reads make the detector predict a block whose offset wraps to zero, and the object's first block is offered under that name. |
| `ReadRuns.FarBlockIsPredicted` | internal/prefetch/prefetch.go:119-142 | That prediction, with the default configuration. |
| `ReadRuns.OffersAreHonest` | internal/dataserver/dataserver.go:333-452 | In a run whose admissions are the server's own, every offer under an addressable name is that block. |
| `ReadRuns.ResidentIsTheBlock` | internal/dataserver/dataserver.go:240-249 | In every state of every such run a resident block under an addressable name is a whole block or the exact tail, in its slot in full. |
| `ReadRuns.TierHitsAreFaithful` | internal/dataserver/dataserver.go:333-347 | In every such run a hit is the block it was asked for. |
| `ReadRuns.ReadCached` | internal/dataserver/dataserver.go:192-268 | With hits drawn from any such run, bytes that come back are the slice, a range error only past the end, and what the read offers is again an offer such a run may hold. |
| `DataServer.AssembledGrows` | internal/dataserver/dataserver.go:228-258 | Appending one block's share extends the assembled slice by exactly the next piece. |
| `Leases.ValidateIffBalancedOrWrapped` | internal/pool/pool.go:75-101 | Validate accepts exactly the balanced accountings and those so overcommitted that Free wraps. |
| `Leases.LendKeepsBalance` | internal/pool/pool.go:104-133 | Lend refuses exactly what does not fit, keeps the balance, and Return undoes it. |
| `Leases.LadderIsUnique` | internal/lease/lease.go:807-817 | Class, age and id order leases totally, so the reclaim order is one sequence. |
| `Leases.LadderIs` | internal/lease/lease.go:395-402 | The listing is sorted and holds exactly the live leases. |
| `ReclaimHistory.PruningIsInvisible` | internal/lease/lease.go:687-787 | At every later time the pruned history answers churn and cooldown as the full history would. |
| `ReclaimHistory.CooldownIsBoundedDoubling` | internal/lease/lease.go:748-773 | Under autonomy with n > 1 reclaims in the window, and a policy that never wraps, the cooldown is min(MinTerm * 2^(n-1), ChurnWindow). |
| `ReclaimHistory.DoublingIsExact` | internal/lease/lease.go:748-773 | The doubling loop gives that for every n if and only if no doubling below the window leaves 64 bits. |
| `ReclaimHistory.BoundedDoublingExactly` | internal/lease/lease.go:748-773 | And the cooldown does for every history under exactly those policies. |
| `ReclaimHistory.WrappedCooldownIsOver` | internal/lease/lease.go:748-773 | Under any other policy some burst of reclaims gets a cooldown already over. |
| `ReclaimHistory.CooldownCoversTheTerm` | internal/lease/lease.go:748-773 | Where the doubling does not wrap, the cooldown is at least the term if and only if the window is not shorter or the cap does not engage. |
| `ReclaimHistory.DoublingWraps` | internal/lease/lease.go:748-773 | A concrete policy whose doubling wraps to a cooldown already over. |
| `ReclaimHistory.NoGrantWithinTheTerm` | internal/lease/lease.go:777-787 | Out of cooldown, the last reclaim is at least a term ago, also where a short window cuts the cooldown short, where churn is off and where autonomy is. |
| `ReclaimHistory.TermIsKeptExactly` | internal/lease/lease.go:748-787 | Of the cooldown alone: out of it the last reclaim is a term ago, for every history, if and only if the policy's doubling never wraps or autonomy is off. |
| `ReclaimHistory.DoubledBelow` | internal/lease/lease.go:748-773 | Below the step that leaves 64 bits, and below the window, the loop only doubles. |
| `ReclaimHistory.GrantIsATermLater` | internal/lease/lease.go:426-440 | Refused for neither churn nor cooldown, a grant is at least a term after the last reclaim, under every policy whose budget is spent before the doubling wraps. |
| `ReclaimHistory.BurstOpensAtOnce` | internal/lease/lease.go:426-440 | Under any other policy a burst of reclaims at one moment is refused for neither. |
| `ReclaimHistory.GrantsKeepTheTermExactly` | internal/lease/lease.go:426-440 | With both refusals of Accept, no grant comes within the term of the last reclaim under any history if and only if the budget is spent before the doubling can wrap. |
| `LeaseManager.LoadInvertsSave` | internal/lease/journal.go:80-183 | What a save that renamed its file wrote is what the next load reads. |
| `LeaseManager.ReadIsClean` | internal/lease/journal.go:137-183 | Whatever a journal holds, what is read from it has distinct ids and known classes. |
| `LeaseManager.AcceptKeepsInv` | internal/lease/lease.go:409-474 | Accept keeps books, caps and quotas, and a refusal leaves leases and accounting unchanged. |
| `LeaseManager.AcceptedStaysWithinCaps` | internal/lease/lease.go:409-474 | The cap and quota sums may wrap, but never for a grant that also fits. |
| `LeaseManager.TenantStaysWithinQuota` | internal/lease/lease.go:597-628 | Every named tenant stays within both quotas after any accepted grant. |
| `LeaseManager.DropKeepsBooks` | internal/lease/lease.go:635-641 | Returning the capacity of leases held never errors and keeps Borrowed the sum of the rest. |
| `LeaseManager.ReclaimKeepsInv` | internal/lease/lease.go:536-588 | Reclaim keeps the books; what it reports is the fall in Borrowed. |
| `LeaseManager.ReclaimMeetsItsContract` | internal/lease/lease.go:536-588 | All expired leases go, no live guarantee does, Bounded if and only if a live elastic lease went, and a shortfall leaves only live guarantees. |
| `LeaseManager.ReclaimDropsTheShortestPrefix` | internal/lease/lease.go:536-588 | Dropped is the expired leases, then exactly the shortest prefix of the live leases it may take, in ladder order, that reaches the need. |
| `LeaseManager.TakenIsTheShortestPrefix` | internal/lease/lease.go:553-579 | The ladder loop takes no lease more and none less than the shortest sufficient prefix. |
| `LeaseManager.ExpireKeepsInv` | internal/lease/lease.go:648-675 | Expiry leaves exactly the unexpired leases. |
| `LeaseManager.GuaranteedFreeIsWhatFits` | internal/lease/lease.go:368-384 | A guarantee passes the cap and fits if and only if it is no larger than GuaranteedFree. |
| `LeaseManager.RestoreKeepsBalance` | internal/lease/lease.go:310-353 | From any journal, Borrowed is the sum of the leases restored, which were recorded and unexpired. |
| `LeaseManager.RestoreKeepsASnapshot` | internal/lease/lease.go:310-353 | A restart over leases that fit together restores exactly the unexpired ones. |
| `LeaseRuns.EveryRunKeepsTheBooks` | internal/lease/lease.go:310-675 | In every run with failing saves and restarts: Borrowed is the sum of live leases, the pools fit, the guaranteed cap and every tenant's quotas hold. |
| `LeaseRuns.StepKeepsInv` | internal/lease/lease.go:310-675 | Each operation keeps that, and keeps the journal a set of leases once held together. |
| `LeaseRuns.ReclaimIsRemembered` | internal/lease/lease.go:580-582 | A reclaim that dropped something stays in the history until a restart. |
| `LeaseRuns.NoGrantSoonAfterAReclaim` | internal/lease/lease.go:426-440 | In any run, no grant is accepted within MinTerm of an earlier reclaim of the same process that dropped something, under every policy whose churn budget is spent before the doubling can wrap. |
| `TermRuns.RunsKeepTheTermExactly` | internal/lease/lease.go:409-588 | Over every run of every node with a policy, no grant is accepted within the term of an earlier reclaim of the same process if and only if the policy's budget is spent before the doubling can wrap. |
| `TermRuns.WrappedRunGrantsAtOnce` | internal/lease/lease.go:409-588 | For every other policy a run: as many grants as it takes, each reclaimed by its own dropping reclaim at one moment, and a grant accepted at that moment. |
| `TermRuns.TwoReclaimsOpenTheNode` | internal/lease/lease.go:409-588 | That run at a term of 2^62 ns, a window of 2^63-1 ns and no budget: two grants, two reclaims, a third grant. |
| `TermRuns.BudgetOfOneKeepsTheTerm` | internal/lease/lease.go:687-699 | The same term and window with a budget of one: the cooldown wraps and no grant comes within the term. |
| `LeaseRuns.RestartOpensToGrants` | internal/lease/lease.go:310-353 | After any restart, until a reclaim drops something, no grant is refused for churn or cooldown. |
| `LeaseRuns.RestartLetsAGrantThrough` | internal/lease/lease.go:310-353 | A concrete run: granted, reclaimed, restarted and granted again at one moment, with a term of 100. |
| `LeaseRuns.ReclaimTakesSomething` | internal/lease/lease.go:536-588 | A reclaim drops something whenever there is a lease it may take. |
| `ManagerClass.FileJournal.Save` | internal/lease/journal.go:80-121 | The file holds the whole set, or the old contents when the save failed before its rename. |
| `ManagerClass.FileJournal.Load` | internal/lease/journal.go:137-183 | The reading loop refuses exactly the duplicates and unknown classes the specification refuses. |
| `ManagerClass.Manager.LeasesLocked` | internal/lease/lease.go:395-402 | Whatever order the map gives, the listing is the ladder. |
| `ManagerClass.Manager.WithinQuota` | internal/lease/lease.go:597-628 | The quota loop refuses as specified by sums over the tenant's leases. |
| `ManagerClass.Manager.GuaranteedTotal` | internal/lease/lease.go:790-798 | The loop's total is the sum of guaranteed leases. |
| `ManagerClass.Manager.PromisesLeft` | internal/lease/lease.go:368-384 | The smaller of the share left and the device left, never negative. |
| `ManagerClass.Manager.IsChurning` | internal/lease/lease.go:687-699 | The counting loop decides churn as specified. |
| `ManagerClass.Manager.Cooldown` | internal/lease/lease.go:748-773 | The doubling loop gives the specified cooldown. |
| `ManagerClass.Manager.IsCooling` | internal/lease/lease.go:777-787 | The last reclaim plus the cooldown is still ahead. |
| `ManagerClass.Manager.PruneHistory` | internal/lease/lease.go:706-730 | Keeps exactly what is inside the retention. |
| `ManagerClass.Manager.Accept` | internal/lease/lease.go:409-474 | State, refusal and journal file after Accept, for every outcome of the save. |
| `ManagerClass.Manager.ReleaseLocked` | internal/lease/lease.go:635-641 | Cannot fail on a lease held, from any balanced books. |
| `ManagerClass.Manager.Release` | internal/lease/lease.go:482-497 | Drops exactly the named lease, and journals what remains. |
| `ManagerClass.Manager.ExpireLocked` | internal/lease/lease.go:661-675 | The loop over the ladder drops exactly the expired leases, in ladder order. |
| `ManagerClass.Manager.Expire` | internal/lease/lease.go:648-658 | Expiry and its journal write. |
| `ManagerClass.Manager.Reclaim` | internal/lease/lease.go:536-588 | State, report, history and journal file after Reclaim, for every outcome of the save. |
| `ManagerClass.Manager.Restore` | internal/lease/lease.go:310-353 | Restoring over any journal, readable or not, and what it writes back. |
| `PoolNames.ExtentsAreApart` | internal/agent/agent.go:379-397 | No invalidated extent and no file of the agent's own can have a valid lease id for a name. |
| `AgentRuns.EveryOpenReconciles` | internal/agent/agent.go:151-316 | From any journal and any directory, killed and restarted any number of times, a successful Open leaves exactly the live lease ids as extents and Borrowed the sum of their sizes. |
| `AgentRuns.StepKeepsOpenInv` | internal/agent/agent.go:242-316 | What every step of reconciling keeps, whatever it started from. |
| `GrantPromise.GrantedLeaseSurvives` | internal/agent/extent.go:42-136 | Over any run killed at any step, a lease whose Grant began calmly, returned success and was not released, reclaimed or expired is live with its extent whenever the agent is up, and recorded with its extent whenever it is down. |
| `GrantPromise.CalmIsNeeded` | internal/agent/extent.go:42-209 | In every state, a grant accepted that does not begin calmly can return success and then lose its extent or lease by outstanding calls moving on alone. |
| `GrantPromise.StepOnItsWay` | internal/agent/extent.go:42-209 | Each step of a grant begun calmly leaves it on its way, failed for good, or returned and pledged. |
| `AgentRuns.DroppedOnce` | internal/agent/extent.go:182-191 | A reclaim names each lease it drops once, so discards each extent once. |
| `AgentRuns.StepKeepsPledge` | internal/agent/extent.go:42-209 | No step but a release, a reclaim that takes it, the end of its term or a replaced journal loses a returned grant. |
| `AgentRuns.StepKeepsGrant` | internal/agent/extent.go:42-90 | An accepted grant stays under way, fails for good, or returns with its lease recorded and its extent made. |
| `AgentRuns.ThreatsDoNotAppear` | internal/agent/extent.go:99-136 | A call that is no threat to a live lease does not become one, moved on or not. |
| `AgentRuns.ExtentStays` | internal/agent/extent.go:117-136 | Only a call that clears a name takes its extent off the disk. |
| `AgentRuns.RestartRemembers` | internal/lease/lease.go:310-353 | A restart on the same device keeps every recorded unexpired lease, live and recorded. |
| `AgentRuns.UnreadIsForgotten` | internal/lease/lease.go:319-331 | A start that cannot read the journal forgets a recorded lease if and only if it gets to replace the file. |
| `RegrantRace.RegrantLosesItsExtent` | internal/agent/extent.go:99-136 | A concrete run: a release asked for twice takes the extent of a later successful grant of the same name. |
| `RegrantRace.FirstGrantIsPromised` | internal/agent/extent.go:42-56 | A concrete run that meets every condition the promise to a grant is stated under. |
| `RegrantRace.UnreadStartForgetsTheGrant` | internal/lease/lease.go:319-331 | A concrete run: a grant that returned and is recorded, a kill, a start that cannot read the journal, and the lease is no longer recorded. |
| `AgentSteps.GrantIsSteps` | internal/agent/extent.go:42-90 | A grant nobody interleaves with is a run of the interleaving model and ends exactly as the sequential method's contract says, for every outcome of every call. |
| `AgentSteps.DiscardIsSteps` | internal/agent/extent.go:117-136 | Likewise a discard: rename, then unlink, then on to freeing exactly when the extent is gone. |
| `AgentSteps.ReleaseIsSteps` | internal/agent/extent.go:99-136 | Likewise a release: its discard, and the lease given back exactly when the extent is gone. |
| `AgentSteps.ReclaimIsSteps` | internal/agent/extent.go:182-209 | Likewise a reclaim: the manager's choice, and every extent of it discarded as far as the filesystem lets it. |
| `AgentClass.Open` | internal/agent/agent.go:151-233 | An agent that starts has exactly its live leases as extents: those restored from the journal whose extents were there. |
| `AgentClass.Agent.Reconcile` | internal/agent/agent.go:242-316 | Directory and leases after a reconcile, each thing listed once, in order and under its cause; even a failed one loses no lease that has an extent. |
| `AgentClass.Agent.Grant` | internal/agent/extent.go:42-56 | Succeeds exactly when the manager accepts, the name is valid and new and the bytes are reserved; a failure leaves leases and accounting as they were. |
| `AgentClass.Agent.Allocate` | internal/agent/extent.go:64-90 | Never adopts an existing extent; when it fails, what may be left on disk. |
| `AgentClass.Agent.Release` | internal/agent/extent.go:99-105 | The accounting is freed only if the extent is gone. |
| `AgentClass.Agent.ReclaimCapacity` | internal/agent/extent.go:182-209 | The manager's choice, every chosen extent discarded, and one still under its name reported as failed. |
| `StagingRuns.StagedIsHeld` | internal/checkpoint/stage.go:152-252 | In every state of every run, grants of a staged name included while its lease is live, from staging until the capacity is given back or the term ends, the guaranteed lease is live (recorded if the agent is down), its extent is on disk and holds the whole source. |
| `StagingRuns.GivenBackOnlyWhenDurable` | internal/checkpoint/stage.go:202-212 | The capacity of a staged checkpoint is given back only by its own call and only once the store accepted an object equal to the whole source. |
| `StagingRuns.AcceptedIsWhole` | internal/checkpoint/stage.go:237-252 | What the store takes from a call is the whole source, even after the lease expired. |
| `StagingRuns.MoveKeepsInv` | internal/checkpoint/stage.go:152-262 | Each step of any Stage call and of the agent keeps what is promised to every call. |
| `StagingRuns.GuaranteeIsSpared` | internal/lease/lease.go:553-579 | No reclaim takes a guarantee before its term. |
| `StagingRuns.StagedIsWhole` | internal/checkpoint/stage.go:288-309 | Reading one byte past the reservation stages the whole source or nothing. |
| `StagingRuns.AllowedFits` | internal/checkpoint/checkpoint.go:77-95 | Check allows exactly the sizes the guaranteed cap and the device have room for. |
| `StagingRuns.OursStays` | internal/lease/lease.go:409-474 | While a call waits for its grant no other lease takes its name. |
| `StagingSteps.StageIsMoves` | internal/checkpoint/stage.go:152-262 | A Stage call nobody interleaves with is a run of the interleaving model and ends as the sequential method's contract says, for every outcome of every call: given back if it could not be staged, held if it was or its upload failed, stored whole and given back otherwise; other calls and other extents untouched. |
| `StagingSteps.Lift` | internal/checkpoint/stage.go:152-262 | A run of one of the agent's calls is a run of moves, and only the Stage call that waits for it hears of it. |
| `StagedRun.ACheckpointIsStaged` | internal/checkpoint/stage.go:152-200 | A run from a fresh start that meets every condition the promise to a staged checkpoint is stated under. |
| `StagingClass.Stager.StageTo` | internal/checkpoint/stage.go:288-309 | Writes the whole source or reports which of overrun and failure it was. |
| `StagingClass.Stager.Reserve` | internal/checkpoint/stage.go:152-200 | Exactly when a checkpoint gets staged, and that a failure gives the capacity back. |
| `StagingClass.Stager.Upload` | internal/checkpoint/stage.go:202-252 | Released only when the store took the whole source; a failure, or an extent taken away before it could be opened, leaves node and store as they were. |
| `StagingClass.Stager.Stage` | internal/checkpoint/stage.go:152-230 | A durable acknowledgement means the store holds the source, a staged one that this node does, a failed upload loses nothing, and a wait cut short reports neither although the upload ran. |
| `StagingClass.Checkpoint.Finish` | internal/checkpoint/stage.go:135-142 | The outcome is recorded once. |
| `Prefetch.PredictionIsConfirmed` | internal/prefetch/prefetch.go:119-172 | A prediction implies that the last runs+2 reads, repeats ignored, step by one non-zero stride, at least as many as confirm; its blocks are distinct, ahead on the stride and were not outstanding; and the accuracy floor is met. |
| `Prefetch.PredictsExactly` | internal/prefetch/prefetch.go:119-172 | A stream never muted is predicted if and only if its last Confirmations reads step by one non-zero stride. |
| `Prefetch.MuteSticks` | internal/prefetch/prefetch.go:144-212 | Once muted a stream predicts nothing until a stride other than the one that failed confirms. |
| `Prefetch.SameStrideConfirmsNoOther` | internal/prefetch/prefetch.go:151-172 | The failed stride going on never confirms another. |
| `Prefetch.AheadIsNew` | internal/prefetch/prefetch.go:132-140 | Predicted blocks are distinct and new, and every block ahead is predicted or was outstanding. |
| `Prefetch.CondemnOne` | internal/prefetch/prefetch.go:176-187 | Condemning one more overdue prediction gives the same stream whichever it is. |
| `Prefetch.EveryHistoryKeepsInv` | internal/prefetch/prefetch.go:119-212 | After every history the run is a real progression and an unmuted full window meets the floor. |
| `PrefetchClass.Detector.DoScore` | internal/prefetch/prefetch.go:176-187 | Visiting the predictions in any order, over the map as it was even when a miss replaces it, gives one specified state. |
| `PrefetchClass.Detector.DoRecord` | internal/prefetch/prefetch.go:191-212 | The window, the floor and the transition to muted. |
| `PrefetchClass.Detector.DoTrack` | internal/prefetch/prefetch.go:151-172 | The stride, the run and the lifting of a mute. |
| `PrefetchClass.Detector.DoObserve` | internal/prefetch/prefetch.go:119-142 | Only the stream read changes, as specified, and predictions stay within it. |
| `PrefetchClass.Share` | internal/prefetch/prefetch.go:235-243 | The counting loop gives the share of predictions read. |
| `ProtoWire.UvarintRoundTrip` | internal/protowire/protowire.go:230-257 | For every 64-bit value and suffix, decoding inverts encoding. |
| `ProtoWire.UvarintConsumes` | internal/protowire/protowire.go:244-257 | On any bytes a varint takes one to ten of them and fits in 64 bits. |
| `ProtoWire.EncodingIsShort` | internal/protowire/protowire.go:230-236 | No encoding is longer than ten bytes. |
| `ProtoWire.AppendUvarint` | internal/protowire/protowire.go:230-236 | The writing loop appends the specified encoding. |
| `ProtoWire.ReadUvarint` | internal/protowire/protowire.go:244-257 | The reading loop equals the specified decoding, errors and all. |
| `ProtoWire.TagIsExact` | internal/protowire/protowire.go:224-226 | A field number survives its tag if and only if it is positive and below 2^61. |
| `ProtoWire.NextInvertsVarint` | internal/protowire/protowire.go:48-51 | Next inverts AppendVarint and returns the suffix. |
| `ProtoWire.NextInvertsBool` | internal/protowire/protowire.go:59-65 | Next inverts AppendBool. |
| `ProtoWire.NextInvertsBytes` | internal/protowire/protowire.go:68-80 | Next inverts AppendString and AppendMessage. |
| `ProtoWire.NextShortens` | internal/protowire/protowire.go:138-195 | On arbitrary bytes Next fails or strictly shortens its input to a suffix of it. |
| `ProtoWire.NextExtends` | internal/protowire/protowire.go:138-195 | A field reads the same whatever follows it. |
| `ProtoWire.ReadNext` | internal/protowire/protowire.go:138-195 | The decoder equals the specification on all bytes. |
| `ProtoWire.ReadFixed` | internal/protowire/protowire.go:170-186 | The fixed-width loop, from the top byte down, reads little-endian. |
| `ProtoWire.StringMapRoundTrip` | internal/protowire/protowire.go:89-221 | A string map decodes to exactly the entries written, whatever follows. |
| `ProtoWire.StringMap` | internal/protowire/protowire.go:201-221 | One entry decoded into the map, or its error. |
| `Csi.RoundTrip` | internal/csi/message.go:80-144 | A whole volume capability decodes to what was encoded. |
| `Csi.DecodingConcatenates` | internal/csi/message.go:80-123 | Decoding one message after another is decoding both, for arbitrary bytes. |
| `Csi.UnknownIsSkipped` | internal/csi/message.go:80-144 | Any unknown fields before and after a capability change nothing. |
| `Csi.EveryWireTypeIsSkipped` | internal/protowire/protowire.go:138-195 | Unknown fields may be varints, strings and messages, and the two fixed widths. |
| `Csi.Write` | internal/csi/message.go:126-144 | The encoder builds the specified bytes. |
| `Csi.Read` | internal/csi/message.go:80-123 | The nested decoding loops equal the specification on all bytes. |
| `AgentWire.FrameDecodes` | fsal/forebay_client.c:261-278 | The frame either side builds decodes in Go to the same request exactly when its operation is known, whatever follows. |
| `AgentWire.RequestRoundTrip` | internal/dataserver/protocol.go:111-171 | decodeRequest inverts encode, operation 0 read as a read, and encode refuses exactly names over 1024 bytes. |
| `AgentWire.WriteRequest` | internal/dataserver/protocol.go:111-135 | Go's buffer filled at offsets is the specified frame. |
| `AgentWire.BuildFrame` | fsal/forebay_client.c:236-278 | The C client's header, written its own way, and its copies make the same frame. |
| `AgentWire.Put` | internal/dataserver/protocol.go:116-129 | Go's number writes are big-endian at their offset and touch nothing else. |
| `AgentWire.PutUp` | fsal/forebay_client.c:40-54 | The C loops, a shift per byte from the first up, write the same bytes. |
| `AgentWire.FillHead` | fsal/forebay_client.c:261-268 | The C client's header is the header Go writes. |
| `AgentWire.Get` | fsal/forebay_client.c:56-73 | The byte loop reads a big-endian number. |
| `AgentWire.GetInvertsPut` | fsal/forebay_client.c:40-73 | Reading inverts writing for every value that fits. |
| `AgentWire.ReplyRoundTrip` | internal/dataserver/protocol.go:221-269 | A reply reads back whole exactly when its payload is no more than asked for; only OK carries bytes. |
| `AgentWire.ReadersAgree` | fsal/forebay_client.c:286-309 | On every stream of bytes the C and Go readers of a reply agree, but for a status neither names. |
| `AgentWire.WriteReply` | internal/dataserver/protocol.go:221-238 | Go's reply buffer is the specified frame. |
| `AgentWire.Conn.Exchange` | fsal/forebay_client.c:236-310 | What is sent and read, and that a conversation which lost its place stays broken and silent. |
| `AgentWire.EntriesRoundTrip` | internal/dataserver/protocol.go:179-215 | decodeEntries inverts encodeEntries, which refuses exactly a name too long. |
| `AgentWire.WriteEntries` | internal/dataserver/protocol.go:179-195 | The encoding loop builds the specified listing. |
| `AgentWire.ReadEntries` | internal/dataserver/protocol.go:198-215 | The decoding loop equals the specification on all bytes. |
| `AgentWire.CursorReadsListing` | fsal/forebay_client.c:340-364 | On every listing Go encodes, the C cursor yields the same records and ends exactly at the end. |
| `AgentWire.WalkedDecodes` | fsal/forebay_client.c:340-364 | On any body at all, if the cursor reaches the end Go decodes it to the same names and sizes. |
| `AgentWire.CursorSeesTheSame` | fsal/forebay_client.c:340-364 | Record by record, exactly where the two readers differ: a flag over 1 and a name over 1024 bytes. |
| `AgentWire.Advance` | fsal/forebay_client.c:340-364 | 1, 0 or -1, the record, and the cursor moved past it. |
| `Lineage.Graph.Ancestry` | internal/lineage/lineage.go:233-287 | Each reachable node once, each claim about their pasts as often as it was recorded, observed and asserted counted, lost versions named, all in order; it terminates. |
| `Lineage.Graph.Add` | internal/lineage/lineage.go:161-170 | Refuses exactly an empty or known identity, and keeps the graph's invariant. |
| `Lineage.Graph.Link` | internal/lineage/lineage.go:173-196 | Accepts exactly the meaningful claims, and keeps the graph's invariant. |
| `Lineage.NoCycles` | internal/lineage/lineage.go:138-142 | No graph that Add and Link build has a cycle, and no ancestry is longer than four nodes. |
| `Lineage.AncestorEdgesAreOwned` | internal/lineage/lineage.go:291-304 | The claims found at a node are exactly those about its past, each as often as recorded. |
| `Lineage.TurnRound` | internal/lineage/lineage.go:240-245 | The reversed index holds every claim once under its target, in whatever order the map is ranged. |
| `Lineage.ReachedIsSeen` | internal/lineage/lineage.go:247-274 | A set closed under the claims holds everything reachable. |
| `PathKey.PathKeyIs` | fsal/forebay_path.c:28-71 | The key is the slash-join of the components with empty and "." dropped, if and only if none climbs, something is left and it fits. |
| `PathKey.ClimbingIsRefused` | fsal/forebay_path.c:54-60 | Exactly when a path is refused for climbing rather than for its length. |
| `PathKey.PathKeyIsIdempotent` | fsal/forebay_path.c:28-71 | The key of a key is itself. |
| `PathKey.WriteKey` | fsal/forebay_path.c:28-71 | The scanning loops compute the key inside the caller's buffer, terminated. |
| `PathKey.ViewsAgreeExactly` | internal/dataset/views.go:15-26 | The key of a reference's served path is its object key if and only if no component is empty, "." or "..". |
| `PathKey.KeyRoundTrip` | internal/dataset/views.go:36-46 | A valid reference is what its key parses to. |
| `PathKey.ParsedIsTheKey` | internal/dataset/views.go:36-46 | Only valid references come out of a key, and with that key. |
| `PathKey.DotsNameAnother` | internal/dataset/views.go:15-26 | A concrete valid reference whose served path is another's key. |
| `Paging.Readdir` | fsal/forebay_fsal.c:345-425 | For every directory size, the names delivered are those with a key, in order, up to where the callback stops; end of file exactly if it does not; and then in as many requests as full pages plus one. |
| `Paging.AllDelivered` | fsal/forebay_fsal.c:385-414 | With nothing skipped and nobody stopping, that is every name. |
| `Paging.KeyedAreDelivered` | fsal/forebay_fsal.c:385-414 | Only names with a key, and all of them unless the callback stops. |
| `Paging.DeliveredAscends` | fsal/forebay_fsal.c:385-414 | In strictly ascending order, so each once. |
| `Paging.List` | driver/filedriver/filedriver.go:62-105 | The listing loop gives the first names after the cursor, in order, up to the limit. |
| `Paging.PageStartsAfter` | driver/filedriver/filedriver.go:88-104 | Asking again from the k-th name gives exactly the next names. |
| `Paging.PageTravels` | fsal/forebay_fsal.c:52-53 | A page encodes, fits the buffer kept for it, and is walked back record for record. |

## Left out

- HTTP, gRPC, Kubernetes and S3 plumbing, command wiring, sockets and deadlines: their behaviour lives outside this code.
- Power loss: a crash is a process kill, so a completed system call stays done. Extents are not flushed by the source.
- Extent sizes after recovery: a kill between creating an extent and reserving it leaves a short one that startup keeps, so names are claimed and sizes are not.
- That every extent is written by the cache alone, and that distinct leases have distinct extents, is assumed of the tier; the command wiring also hands the tier a staging lease's extent, so staging assumes that its extent is written by the stager alone.
- ReclaimOrder lists that are not permutations of the held leases, and reuse of a cache after Close.
- TierRuns.HitReturnsTheAdmittedBytes: generation and clock are unbounded naturals, where the source counts in uint64.
- LeaseRuns.NoGrantSoonAfterAReclaim: speaks of reclaims since the process started, because a restart forgets the history, which RestartLetsAGrantThrough shows.
- StagingRuns.StagedIsHeld: Stage calls begin calmly, with no other grant of their name outstanding, and the name is not granted again once the lease is gone; nobody else releases it, and a journal that cannot be read is not replaced.
- GrantPromise.GrantedLeaseSurvives: says nothing of a grant that did not begin calmly, which CalmIsNeeded shows can be lost, nor after a start that replaced an unreadable journal, which UnreadIsForgotten shows forgets it.
- The guaranteed fraction of the device is a fixed integer limit; float rounding is not modelled. Accuracy in the prefetch detector is a real number.
- JSON and duration text in the journal, and its temporary file, are an opaque round trip; class names and duplicate rejection are kept.
- The pool probe for stale bytes, fallocate, fsync and flock are steps that succeed or fail.
- Deadlines and elapsed times of a reclaim.
- Lineage.Graph.Ancestry: claims between the same two nodes may come in either order, as an unstable sort leaves them.
- Csi.RoundTrip: the other CSI messages are read and written by the same two shapes of loop and would only add easy members.
- AgentWire.Conn.Exchange: a write or read that fails part way is one outcome, a broken conversation; memory for the frame is always there.
- ParseFilePath under a root other than "/", and the resolution of placements to backend addresses.
- Paging.Readdir: which paths have a key is a parameter, PathKey being over characters; stores whose listing is not by name.
- TierCache.Slab.Read: one read of the slot as it is; the read torn by a writer is in TierRuns.
- Residency levels, intent, KV spilling, topology, benchmarks and measurements.

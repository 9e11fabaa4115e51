# Purchase, payout and sign-in core: a verified model

This project models the parts of the platform where money, tree positions and sign-in limits
are decided, and proves what they promise. Everything is stated for all inputs, all runs or
all interleavings.

| part | files |
|---|---|
| Binary PV allocator: lots are consumed 500 PV per leg and block, oldest first, claims are incremental and guarded by a digest of the claimed prefix | `FifoSlices`, `FifoAllocation`, `LotOrder`, `BinaryPreview`, `BlockPricing`, `ClaimHistory`, `MembershipSource` |
| Binary genealogy: parent map, materialized paths, transitive closure and six leg totals, patched by deltas when a subtree moves | `TreeModel`, `TreeTables`, `TreeMove`, `TreeTotals`, `TreeGrowth`, `TreeRelocation`, `TreeStore`, `TreePlacement`, `TreeRuns`, `TreeCycleReset`, `TreeLostPlace`, `TreeDecision` |
| Recovery quota and one-time codes: any number of callers on compare-and-swap rows | `RecoveryBudget`, `RecoveryTightness`, `PhoneOtp` |
| Canonical JSON: the normal form a payment notification is signed over | `CanonicalNumber`, `CanonicalNotation`, `KeyOrder`, `JsonText`, `JsonPieces`, `JsonStrings`, `JsonSpelling`, `JsonMeaning`, `JsonCoverage`, `CanonicalJson`, `CanonicalRoundTrip`, `SignedBody` |
| Scoped compensation engine: daily returns, weekly closes, solvency | `NowLedger`, `NowAccrual`, `Theta`, `NowClose`, `NowPayout`, `NowWeek`, `NowDues`, `NowBooks`, `NowEngine`, `NowRuns`, `NowSchedule`, `NowVolumes`, `NowLegs`, `NowDrift`, `NowMovedBuyer`, `NowGrants`, `NowTogether` |
| Weekly bonus close and daily certificate returns sharing package caps | `CloseCandidates`, `ClosePayments`, `RankInstalments`, `WeekItems`, `WeekFits`, `WeekOwed`, `WeeklyClose`, `DailyReturns`, `BonusEngine`, `BonusRuns` |

`Prelude`, `Digits` and `PackageCap` hold shared definitions. `dafny verify dfyconfig.toml`
checks everything.

## How to read it

Each part has one layer of functions that say what the tables look like after an operation,
lemmas about those functions, and, where the program updates rows or loops, methods and
classes whose contracts tie every new state to those functions. What the functions compute is
said again without them: lemmas named `...Iff` and `...Is`, and the modules `NowLegs`,
`NowDues`, `NowPayout`, `WeekOwed`, `TreeDecision`, `CanonicalNotation`, `JsonPieces`,
`JsonMeaning` and `SignedBody`, tell in rows, amounts and characters who is paid what, which
requests are accepted and what is written. The `...Runs` modules and `ClaimHistory` state the
results over whole histories; `RecoveryBudget` and `PhoneOtp` are state machines whose steps are
single database calls, so their results cover every interleaving.

Money is whole cents in ledgers, finer units where the program keeps them (ten-thousandths for
membership costs, ten-millionths for exact entitlements, millionths of a cent in the weekly
close). Theta is in millionths, rates are scaled integers, division is floor on non-negative
values. Instants are integers: nanoseconds for the allocator, milliseconds for sign-in,
business-zone minutes and days for the engines.

## Findings

- A move can fail its negative-total check although it meets every rule, if the current-cycle
  columns are behind the lifetime ones. `MovePassesChecksIff` gives the exact condition,
  `MoveAfterResetIsRefused` an input. No code in the repository sets those columns back, so
  `RelocationsNeverFailChecks` holds for every history of the services themselves.
- The weekly binary step reads the genealogy as it is today, and its claims were made in the
  genealogy of earlier weeks. While the genealogy stays, no claim ever drifts
  (`FixedTreeNeverDrifts`). `DriftIffMoved` is the exact condition when it does not: the next
  claim of an ancestor is rejected if and only if one of the sales that its claimed blocks reach
  has been moved into or out of a leg, which fails the whole weekly close. `MovedBuyerDrifts` is
  such a genealogy, with two buyers and one block.
- The quota holds as long as every step is punctual: a row is removed only once it has expired by
  the clocks of the inserts under way, and of those who find the table empty later (`QuotaHolds`,
  `RecoveryQuotas`). This is exact (`PunctualIffSafe`): after any step that is not, punctual steps
  alone can exceed the limit. `OvertakenInsertBreaksQuota` and `LateReadingBreaksQuota` are whole
  runs from the empty table that end with one event too many.
- Canonical numbers and bodies are fixed points only as far as the input limits on numbers and on
  bodies reach: `CanonicalIsStable` and `CanonicalFormIsStable` are exact,
  `CanonicalCanLeaveLimits` is the input 10e1000.
- A placement can miss its sponsor if a relocation commits between its walk and its insert; the
  two take different advisory locks. `PlacementMissesSponsor` is such a history, `OneMoveIff` the
  exact condition for one move, `PlacedBelowIff` for any number of changes.
- The allocator's digest detects every change to a claimed cost, source or order
  (`DigestPinsSlices`), so accepted histories are right even under arbitrary changes to the lots
  (`InstalmentsEqualOneClaim`, `EveryBlockIsPaidOnce`); growth by later activations is what
  guarantees acceptance (`GrowingLegsNeverDrift`).

## Model

| member | source | states |
|---|---|---|
| `FifoSlices.SlicesAreUnits` | vp-engine/internal/membershipsource/policy.go:344-361 | Cutting [start, end) of a leg yields exactly the PV units numbered start to end-1, in activation order, for every leg and range |
| `FifoSlices.SlicesTotal` | vp-engine/internal/membershipsource/policy.go:344-361 | The slices of a range add up to the length of the range: no PV is lost or invented |
| `FifoSlices.SlicesIgnoreLaterLots` | vp-engine/internal/membershipsource/policy.go:344-361 | Lots appended behind a range never change its slices |
| `FifoSlices.SlicesFromPrefix` | vp-engine/internal/membershipsource/policy.go:363-385 | Any sub-range can be recovered from the slices of a prefix alone, so a digest of the prefix pins every block inside it |
| `FifoSlices.MergeKeepsUnits` | vp-engine/internal/membershipsource/policy.go:298-328 | Gluing adjacent slices of one lot keeps every unit and leaves nothing to glue |
| `FifoSlices.SlicesAreMaximal` | vp-engine/internal/membershipsource/policy.go:344-361 | With distinct source ids one cut is already fully glued |
| `FifoSlices.MaximalIsUnique` | vp-engine/internal/membershipsource/policy.go:344-361 | A fully glued list of slices is determined by its units |
| `FifoAllocation.Segments` | vp-engine/internal/membershipsource/policy.go:344-361 | The simple slicer's loop, with its early exit, renders exactly the slices of [start, end) |
| `FifoAllocation.SkipClaimed` | vp-engine/internal/membershipsource/policy.go:300-308 | The skip loop stops with the cursor on unit number `skip` and never leaves the leg |
| `FifoAllocation.FillBlock` | vp-engine/internal/membershipsource/policy.go:310-325 | The inner loop takes exactly the next 500 PV from the cursor and leaves the cursor right behind them |
| `FifoAllocation.BlockSegments` | vp-engine/internal/membershipsource/policy.go:298-328 | The fast slicer: block b is exactly the cut of the 500 PV after skip + 500 b, and no index leaves the lots |
| `LotOrder.SortSorts` | vp-engine/internal/membershipsource/policy.go:340-340 | Lots with distinct sequence numbers come out in strictly ascending activation order |
| `LotOrder.SortIsPermutation` | vp-engine/internal/membershipsource/policy.go:340-340 | Sorting neither drops nor repeats a lot |
| `LotOrder.SortedIsUnique` | vp-engine/internal/membershipsource/policy.go:340-340 | There is only one activation order, so the caller's listing order and the sorting algorithm do not matter |
| `LotOrder.SortOfGrowth` | vp-engine/internal/membershipsource/policy.go:340-340 | Lots that activate later end up behind all earlier ones |
| `BinaryPreview.ValidateLots` | vp-engine/internal/membershipsource/policy.go:330-342 | Accepts exactly the legs of valid, already effective sources with non-zero and unseen sequence numbers and unseen ids whose PV fits 64 bits; returns that PV, the extended id and sequence sets, and the lots sorted |
| `BinaryPreview.LegRecords` | vp-engine/internal/membershipsource/policy.go:370-382 | The hashed lines of a leg are one per slice of its claimed prefix, with the reviewed facts of the slice's source |
| `BinaryPreview.PrefixHash` | vp-engine/internal/membershipsource/policy.go:363-385 | The digest covers the claimed length and the records of both legs, left before right |
| `BinaryPreview.DigestPinsSlices` | vp-engine/internal/membershipsource/policy.go:363-385 | Equal digests mean equal claimed PV and the same slices of the same lots on both legs |
| `BinaryPreview.OpenRequest` | vp-engine/internal/membershipsource/policy.go:233-248 | A request passes exactly when its time, claim count, claim digest form, size and both legs are well formed, legs sharing no id or sequence |
| `BinaryPreview.PriceBlocks` | vp-engine/internal/membershipsource/policy.go:278-292 | The pricing loop appends the blocks in order and sums their raw amounts without rounding any of them |
| `BinaryPreview.NewBlocks` | vp-engine/internal/membershipsource/policy.go:276-292 | Both legs cut and priced from the first unclaimed block on |
| `BinaryPreview.PreviewBinaryFIFO` | vp-engine/internal/membershipsource/policy.go:230-296 | Every answer of the preview: the three error conditions in the order they are checked, and otherwise matched and new blocks, carries, nominal and rounded entitlement, segments, blocks and the next digest |
| `BlockPricing.MergedBlocksAreOneCut` | vp-engine/internal/membershipsource/policy.go:298-361 | The fast form refines the simple one: the blocks of a leg put one behind the other and glued are the single cut of the whole claimed range |
| `BlockPricing.BlockWeight` | vp-engine/internal/membershipsource/policy.go:281-288 | Every block takes exactly 500 PV from each leg and weighs between 97% and 99%, exactly 99% on provider-paid lots |
| `BlockPricing.BlocksAreNumbered` | vp-engine/internal/membershipsource/policy.go:278-292 | New blocks carry consecutive lifetime numbers and 500 PV per side each |
| `BlockPricing.ExactBounds` | vp-engine/internal/membershipsource/policy.go:278-292 | The unrounded sum lies between 97% and 99% of nominal for any number of blocks |
| `BlockPricing.PreviewConserves` | vp-engine/internal/membershipsource/policy.go:249-295 | Carry plus 500 times matched is each leg's total and one carry is below 500; every block is worth 10 dollars, 50 for founders, times its weight, the blocks' worth is summed unrounded and rounded down once; the entitlement lies between 97% and 99% of nominal, exactly 99% when all lots are provider-paid, which is the closed form of vp-engine/internal/nowengine/policy.go line 81 |
| `BlockPricing.WeightByKind` | vp-engine/internal/membershipsource/policy.go:281-288 | A leg's share of a block weighs 9900 for each PV paid through the provider and 9700 for each PV paid by hand |
| `BlockPricing.AcceptedIff` | vp-engine/internal/membershipsource/policy.go:225-268 | A preview is given exactly for at most 10000 reviewed and effective lots without a repeated id or activation number over both legs, with PV within 64 bits, whose claims both legs cover and still match the digest, and which leave at most 10000 new blocks |
| `ClaimHistory.SamePrefixSameBlocks` | vp-engine/internal/membershipsource/policy.go:250-256 | Legs that agree on the claimed prefix agree on every block cut from it |
| `ClaimHistory.InstalmentsEqualOneClaim` | vp-engine/internal/membershipsource/policy.go:225-296 | Over every history of accepted calls, each presenting the previous count and digest, the concatenated blocks are, piece by piece, those of one claim over the final lots, each at the unit price of the call that paid it, whatever happened to lots and founder flag in between |
| `ClaimHistory.SamePriceSameBlocks` | vp-engine/internal/membershipsource/policy.go:225-296 | ... and if the unit price never changed, they are those blocks exactly |
| `ClaimHistory.OneClaimIsAccepted` | vp-engine/internal/membershipsource/policy.go:258-262 | That one claim is itself accepted when its blocks fit one call, and consumes the same pieces |
| `ClaimHistory.GrowingLegsNeverDrift` | vp-engine/internal/membershipsource/policy.go:249-262 | If lots only arrive with higher activation numbers, presenting the previous result is never drift, and is accepted exactly when the new blocks fit one call, whatever the founder flag |
| `ClaimHistory.DriftIff` | vp-engine/internal/membershipsource/policy.go:249-256 | Presenting the previous result is drift if and only if the claimed part of a leg is no longer what it was; the founder flag plays no part |
| `NowVolumes.ClimbUp` | vp-engine/internal/nowengine/accrual.go:297-316 | One sale climbs at most ten ancestors, joining the leg its branch hangs in |
| `NowVolumes.CollectVolumes` | vp-engine/internal/nowengine/accrual.go:284-317 | The loops over sales and ancestors fill exactly the specified volumes, or fail on the first bad source or unknown side |
| `NowVolumes.CollectIsLegs` | vp-engine/internal/nowengine/accrual.go:284-317 | In an acyclic genealogy every ancestor's volume is exactly the sales before the end whose buyers hang within ten levels in its left and right leg |
| `NowLegs.LegIff` | vp-engine/internal/nowengine/accrual.go:284-317 | A leg holds exactly the sales before the end, under their own activation numbers, whose buyers reach the ancestor on that side within ten levels of parents |
| `NowLegs.CollectsIff` | vp-engine/internal/nowengine/accrual.go:284-317 | The volumes can be filled exactly if every sale before the end is a genuine source and every member with a parent, from its buyer ten levels up, has a side |
| `NowVolumes.OneLeg` | vp-engine/internal/nowengine/accrual.go:308-314 | A buyer hangs in at most one leg of an ancestor, so no source stands on both legs |
| `NowVolumes.RequestIsWellFormed` | vp-engine/internal/nowengine/accrual.go:342-346 | The allocator never turns a week's legs down as malformed |
| `NowVolumes.LegGrows` | vp-engine/internal/nowengine/accrual.go:286-317 | With a fixed genealogy and sales only appended, a later week's leg is the earlier one followed by higher activation numbers |
| `NowVolumes.WeeksNeverDrift` | vp-engine/internal/nowengine/accrual.go:333-346 | With a fixed genealogy and sales only appended, the week after an accepted one is never drift or malformed: it is accepted unless it has more than 10000 new blocks for the affiliate |
| `NowDrift.ReachIs` | vp-engine/internal/nowengine/accrual.go:284-317 | The sales a claim reaches: the first k sales fill the claimed PV of a leg, and the first k - 1 do not |
| `NowDrift.UnmovedKeepsClaim` | vp-engine/internal/nowengine/accrual.go:342-346 | If no sale that the claim reaches has joined or left the leg, the claimed part of the leg is what it was |
| `NowDrift.SameClaimIsUnmoved` | vp-engine/internal/nowengine/accrual.go:342-346 | ... and conversely: an unchanged claimed part means that none of them has |
| `NowDrift.DriftIffMoved` | vp-engine/internal/nowengine/accrual.go:342-346 | The week after an accepted one, over any other genealogy: the claim is rejected as drift if and only if one of the sales that the claimed part of a leg reaches has been moved into or out of that leg |
| `NowDrift.MovedClaimDrifts` | vp-engine/internal/nowengine/accrual.go:342-346 | If a claimed source is missing from the leg it was claimed from, for whatever reason, the ancestor's next week is rejected as drift |
| `NowMovedBuyer.FirstWeekPays` | vp-engine/internal/nowengine/accrual.go:342-349 | Two buyers with one 500 PV sale each, left and right of member 1: the first week pays one block |
| `NowMovedBuyer.MovedBuyerDrifts` | vp-engine/internal/nowengine/accrual.go:342-346 | Counterexample: with buyer 2 moved below buyer 3, presenting that claim a week later is rejected as drift |
| `NowGrants.BinaryState.Grant` | vp-engine/internal/nowengine/accrual.go:318-392 | The loop over the affiliates of a week: reads each stored claim, asks the allocator, stores the new count and digest and what every block consumed, hands on the entitlements; a week that fails changes nothing |
| `NowGrants.GrantsFit` | vp-engine/internal/nowengine/accrual.go:347-375 | A week hands on at most one grant per affiliate, in ascending order and each positive, so every new block is also written down |
| `NowGrants.EveryBlockIsPaidOnce` | vp-engine/internal/nowengine/accrual.go:318-392 | Over any weeks that were paid, with genealogy, sales, candidates and founders changing in between, every affiliate considered in a week has then consumed exactly what one claim over this week's legs consumes, and the others what they had: no block is paid twice over all weeks and none is skipped |
| `NowGrants.FixedTreeNeverDrifts` | vp-engine/internal/nowengine/accrual.go:284-346 | Over all weeks with a fixed genealogy and sales only appended, no claim ever drifts, and a week is refused only if some affiliate has more than 10000 unpaid blocks |
| `NowTogether.BooksOfRun` | vp-engine/internal/nowengine/service.go:370-424 | A run that asks the allocator for each week is, to the books, a run with the granted allocations; if the allocator refuses, nothing is kept |
| `NowTogether.BooksOfHistory` | vp-engine/internal/nowengine/service.go:370-424 | Every history of the engine with its stored claims is a history of the books, so solvency, balances and closed weeks hold in it |
| `NowTogether.CloseBooksGrants` | vp-engine/internal/nowengine/accrual.go:350-376 | A closed week books for every affiliate exactly what it was granted |
| `NowTogether.WeekTogether` | vp-engine/internal/nowengine/accrual.go:134-392 | A week closed in one transaction books exactly the grants and leaves every affiliate considered with the pieces of one claim over its legs |
| `NowTogether.EverythingHoldsTogether` | vp-engine/internal/nowengine/accrual.go:134-392 | In every history of memberships, accruals and weeks: books sound, each block paid once, and all binary booked for an affiliate between 9.70 and 49.50 dollars for each block its stored claim counts |
| `MembershipSource.AcceptedSourceIsExact` | vp-engine/internal/membershipsource/policy.go:77-115 | Every source that can exist has net equal to gross times its factor, and a manual one is the USD 100, 100 PV, net 97 membership |
| `MembershipSource.SourceIff` | vp-engine/internal/membershipsource/policy.go:77-115 | A source is accepted exactly for a canonical id, dollars, a positive PV, a valid instant and amounts at the exact cost of its payment method, one per cent or the one manual membership with three dollars; only wrong amounts are a cost error |
| `MembershipSource.MoneyReads` | vp-engine/internal/membershipsource/policy.go:117-125 | An amount of up to 30 characters reads as its dollars and up to the allowed decimals, in ten-thousandths of a dollar |
| `MembershipSource.MoneyIsText` | vp-engine/internal/membershipsource/policy.go:117-125 | ... and nothing else reads as an amount |
| `MembershipSource.IdReads` | vp-engine/internal/membershipsource/policy.go:46-46 | An identifier of five groups is canonical exactly if its digits are lower-case hexadecimal with version 4 and the variant 8, 9, a or b |
| `MembershipSource.GrossIsWholeCents` | vp-engine/internal/membershipsource/policy.go:117-125 | An accepted gross amount is in whole cents, so printing it with two decimals into the digest loses nothing |
| `TreeModel.LegsPartition` | vp-engine/internal/payments/admin_tree_relocation.go:728-745 | Every proper descendant hangs in the left or the right leg of its ancestor |
| `TreeModel.LegIsUnique` | vp-engine/internal/payments/admin_tree_relocation.go:728-745 | ... and in only one of them |
| `TreeModel.RelinkAbove` | vp-engine/internal/payments/admin_tree_relocation.go:865-946 | After relinking, what stands above the moved root is the new parent and its ancestors, at distances grown by one |
| `TreeModel.LegOfMovedAfter` | vp-engine/internal/payments/admin_tree_relocation.go:865-946 | Seen from any unmoved ancestor the whole subtree now hangs where the new slot hangs |
| `TreeModel.LegInside` | vp-engine/internal/payments/admin_tree_relocation.go:865-946 | Legs inside the moved subtree keep their members |
| `TreeTables.PathPrefix` | _meta/schema_mlm.sql:512-533 | An ancestor's path is a prefix of its descendants' paths, shorter by the distance |
| `TreeTables.PathNamesLeg` | vp-engine/internal/payments/admin_tree_relocation.go:728-745 | The label one level below an ancestor's depth names the leg its descendant hangs in |
| `TreeMove.MovedIsSubtree` | vp-engine/internal/payments/admin_tree_relocation.go:650-666 | The captured rows are exactly the target and everything below it |
| `TreeMove.MoveRelinks` | vp-engine/internal/payments/admin_tree_relocation.go:866-878 | The updates change the parent map in one place only: the target's link |
| `TreeMove.MoveKeepsShape` | vp-engine/internal/payments/admin_tree_relocation.go:866-890 | The new parent map is acyclic with depths one per level, and no slot holds two children |
| `TreeMove.MoveKeepsPaths` | vp-engine/internal/payments/admin_tree_relocation.go:880-890 | Every path after the cut-and-paste equals the path recomputed from its parent |
| `TreeMove.MoveKeepsClosure` | vp-engine/internal/payments/admin_tree_relocation.go:892-914 | After the delete and the cross-join insert the closure is exactly the ancestor relation of the new parent map, with exact distances |
| `TreeTotals.OldLegsAreTrue` | vp-engine/internal/payments/admin_tree_relocation.go:728-745 | The captured old ancestors are exactly those with the target below them, each with its true leg |
| `TreeTotals.NewLegsAreTrue` | vp-engine/internal/payments/admin_tree_relocation.go:747-763 | The captured new ancestors are exactly the new parent and those above it, each with the leg the target is about to join |
| `TreeTotals.LegOfOutsider` | vp-engine/internal/payments/admin_tree_relocation.go:916-943 | For an unmoved ancestor a leg after the move is the old leg without the subtree, plus the subtree if it enters there; old and new ancestors may overlap |
| `TreeTotals.TotalsAfterMove` | vp-engine/internal/payments/admin_tree_relocation.go:916-943 | Counts and lifetime PV after the two delta updates equal the true sums over the new legs, for every affiliate |
| `TreeTotals.MoveKeepsConsistent` | vp-engine/internal/payments/admin_tree_relocation.go:865-946 | After a move all derived columns - depth, path, closure, counts, lifetime PV - are what recomputation from the new parent map gives |
| `TreeGrowth.InsertKeepsConsistent` | _meta/schema_mlm.sql:512-604 | A new leaf with its path and closure triggers and the enrollment count keeps all derived columns exact |
| `TreeGrowth.LegAfterInsert` | _meta/schema_mlm.sql:561-604 | A new leaf joins exactly one leg of each of its ancestors and has empty legs itself |
| `TreeGrowth.CreditKeepsConsistent` | _meta/schema_mlm.sql:561-604 | A tree event adds its PV to the true leg of every ancestor and nowhere else |
| `TreeRelocation.WalkFindsSlot` | vp-engine/internal/payments/admin_tree_relocation.go:373-406 | The walk ends inside the subtree it started from, on a free slot unless it used up its levels |
| `TreeRelocation.WalkTakesWeaker` | vp-engine/internal/payments/activation.go:434-471 | Affiliate by affiliate: without a preferred side the walk never takes the side with more current PV, with equal PV never the one with more affiliates, and the left one where both are equal; with a preferred side it takes that side everywhere; it stops at the first free slot or after its last level |
| `TreeRelocation.WalkLeavesSubtreeOut` | vp-engine/internal/payments/admin_tree_relocation.go:357-406 | In the automatic branch the walk can never end inside the moved subtree |
| `TreeRelocation.ChosenSlot` | vp-engine/internal/payments/admin_tree_relocation.go:320-409 | Whichever branch chose it, the slot's parent is under the sponsor and outside the moved subtree |
| `TreeRelocation.AcceptedPlanIsMovable` | vp-engine/internal/payments/admin_tree_relocation.go:240-450 | The refusals that come before a move are enough for everything the move relies on |
| `TreeRelocation.RelocatedUnderSponsor` | vp-engine/internal/payments/admin_tree_relocation.go:240-450 | An accepted relocation puts the target below its new sponsor |
| `TreeRelocation.PathLegIsLeg` | _meta/migration/69_tree_pv_truth_safe_path.sql:8-25 | The reconciliation view's path-based legs are the true legs |
| `TreeRelocation.OnlyNegativesTrip` | vp-engine/internal/payments/admin_tree_relocation.go:1044-1167 | On exact columns the only integrity check that can fail is the negative-total check |
| `TreeRelocation.MovePassesChecksIff` | vp-engine/internal/payments/admin_tree_relocation.go:1044-1167 | After a move from exact columns the checks pass if and only if every ancestor losing the subtree from a leg still holds at least the subtree's PV in that leg's current-cycle column |
| `TreeRelocation.InStepMovePasses` | vp-engine/internal/payments/admin_tree_relocation.go:1044-1167 | While current-cycle columns equal the lifetime ones every move passes and keeps them equal |
| `TreeStore.RelocationIsSafe` | vp-engine/internal/payments/admin_tree_relocation.go:240-498 | Any relocation, previewed, refused, rolled back or applied, keeps the columns exact; an applied one leaves the target under its sponsor; with columns in step the checks never overturn the decision |
| `TreeStore.OwnTotal` | vp-engine/internal/payments/admin_tree_relocation.go:797-802 | The subtree's PV is the sum of its members' event totals, added up one by one |
| `TreeStore.FindOccupant` | vp-engine/internal/payments/admin_tree_relocation.go:688-707 | Finds who holds a slot, if anybody does |
| `TreeStore.FindSlot` | vp-engine/internal/payments/admin_tree_relocation.go:373-406 | The descent as a loop reaches the slot of the walk of at most 512 levels, on the preferred side, or on the weaker one by current PV, then count, then left |
| `TreeStore.FindPvDrift` | vp-engine/internal/payments/admin_tree_relocation.go:1101-1119 | Reports drift exactly when some affected ancestor's materialized leg PV differs from its true sum |
| `TreeStore.CheckIntegrity` | vp-engine/internal/payments/admin_tree_relocation.go:1044-1167 | All seven checks in their order, returning the first that fails |
| `TreeStore.CheckClosure` | vp-engine/internal/payments/admin_tree_relocation.go:1044-1079 | The self-row and cycle checks, which also run when only the sponsor changes |
| `TreeStore.PickSlot` | vp-engine/internal/payments/admin_tree_relocation.go:320-410 | The slot of a request, or the refusal the source gives, branch by branch; which slot that is `TreeDecision.AcceptedIff` and `TreeRelocation.WalkTakesWeaker` say |
| `TreeStore.PlanRelocation` | vp-engine/internal/payments/admin_tree_relocation.go:240-450 | The plan of a request, or the first refusal in the source's order; which requests have a plan `TreeDecision.AcceptedIff` says |
| `TreeStore.ChildLegsArePathLegs` | vp-engine/internal/payments/activation.go:501-507 | Reading an ancestor's leg off its child gives the same as reading it off the path |
| `TreeStore.EnrollmentVariantsAgree` | vp-engine/internal/payments/activation.go:487-510 | Counting an enrolment by tree event or by the direct counter update ends in the same database |
| `TreeStore.Genealogy.MoveStructure` | vp-engine/internal/payments/admin_tree_relocation.go:865-946 | The six updates in their order produce the moved database |
| `TreeStore.Genealogy.Apply` | vp-engine/internal/payments/admin_tree_relocation.go:460-488 | Writes the plan and reports what the checks say about what was written |
| `TreeStore.Genealogy.Relocate` | vp-engine/internal/payments/admin_tree_relocation.go:240-498 | One transaction: refusal, preview, rollback and commit all leave exactly the stated database, with exact columns |
| `TreeStore.Genealogy.CreditPv` | _meta/schema_mlm.sql:561-604 | A tree event rewrites one leg of every ancestor and the affiliate's own total |
| `TreeStore.Genealogy.InsertIfFree` | vp-engine/internal/payments/activation.go:472-510 | The guarded insert takes a free slot and changes nothing otherwise |
| `TreeStore.Genealogy.AutoPlace` | vp-engine/internal/payments/activation.go:410-514 | Placement with up to 16 attempts while others place, buy and move: the first attempt whose slot is still free when the insert comes takes it, and exhaustion means that all 16 were lost |
| `TreeStore.WhyLost` | vp-engine/internal/payments/activation.go:437-486 | An attempt is lost only to someone who took the slot between walk and insert, or to a walk that used up its 512 levels |
| `TreeDecision.AcceptedIff` | vp-engine/internal/payments/admin_tree_relocation.go:240-450 | A relocation is accepted with a plan exactly if target and sponsor are known and active, the target is no root, the sponsor is not in the moved subtree, the place is the named one under the sponsor and outside the subtree, or the target's own, or the end of the weaker-leg walk, nobody else holds it, and something changes or it is a preview |
| `TreeDecision.ChecksPassIff` | vp-engine/internal/payments/admin_tree_relocation.go:1044-1167 | The checks after a move pass exactly if the moved rows have their self rows, no affected total is negative, every affected leg has the PV and count of the affiliates whose paths name it, and the target has an ancestor row |
| `TreeDecision.CommittedIff` | vp-engine/internal/payments/admin_tree_relocation.go:452-498 | An accepted relocation that is no preview is committed if and only if it changes the sponsor only or every leg that loses the subtree still holds its PV in the current-cycle column; otherwise it is answered as a negative aggregate and nothing stays of it |
| `TreeDecision.RelocatedRow` | vp-engine/internal/payments/admin_tree_relocation.go:452-488 | After an applied relocation the target has its new place and sponsor, nobody else's link, sponsor or status changes, and current-cycle totals change by what the lifetime totals do |
| `TreeDecision.EnrolledRow` | vp-engine/internal/payments/activation.go:472-510 | A new affiliate has the slot and sponsor it was given, is active, with six totals of zero, and nobody else's link, sponsor or status changes |
| `TreeDecision.CreditedRow` | _meta/schema_mlm.sql:561-604 | A purchase adds to the buyer's own total, leaves every link, path and count, and changes lifetime and current-cycle totals alike |
| `TreePlacement.BelowAfterMove` | vp-engine/internal/payments/admin_tree_relocation.go:865-914 | After a move, what is carried along without an affiliate is below that affiliate exactly if the new parent is; whoever is not carried, or is carried together with it, stays where it was |
| `TreePlacement.OneMoveIff` | vp-engine/internal/payments/activation.go:437-486 | One move between walk and insert, in full: the placed affiliate misses its sponsor if and only if the move takes the chosen slot along, leaves the sponsor behind, and goes to a place not below the sponsor |
| `TreePlacement.PlacedBelowIff` | vp-engine/internal/payments/activation.go:437-486 | Any enrolments, purchases and moves between walk and insert: the placed affiliate is below its sponsor if and only if the last of the moves that carried the slot off without the sponsor, if there was one, went below the sponsor |
| `TreeLostPlace.MoveIsAccepted` | vp-engine/internal/payments/admin_tree_relocation.go:240-450 | Counterexample, part 1: in a tree of three, relocating the third to the right of the root is allowed by the rules |
| `TreeLostPlace.PlacementMissesSponsor` | vp-engine/internal/payments/activation.go:437-486 | Counterexample: a history of one answered enrolment, with that relocation committed between walk and insert, in which the new affiliate is not below its sponsor |
| `TreeRuns.HistoryKeepsHealthy` | vp-engine/internal/payments/admin_tree_relocation.go:865-946 | In every history of enrolments, purchases and relocations the derived columns are exact at every moment |
| `TreeRuns.RelocationsNeverFailChecks` | vp-engine/internal/payments/admin_tree_relocation.go:1044-1167 | In every such history the checks after a move never fail, and every applied relocation ends under its sponsor |
| `TreeRuns.EnrolmentsFindPlace` | vp-engine/internal/payments/activation.go:410-514 | In every such history an enrolment below a known sponsor fails if and only if all 16 attempts are lost, each to a competitor or to a walk of 512 levels; otherwise the first attempt that is not lost places it |
| `TreeRuns.EnrolledBelowIff` | vp-engine/internal/payments/activation.go:410-514 | In every such history, where it is placed depends on the winning attempt alone: below its sponsor if and only if its slot was not carried off without the sponsor between walk and insert, or was brought back below it |
| `TreeCycleReset.MoveAfterResetIsRefused` | vp-engine/internal/payments/admin_tree_relocation.go:1084-1099 | Counterexample: with current-cycle columns reset, a move that meets every rule is refused as a negative aggregate |
| `TreeCycleReset.ResetTreeIsConsistent` | vp-engine/internal/payments/admin_tree_relocation.go:1084-1099 | ... although all columns the checks compare are exact |
| `RecoveryBudget.QuotaHolds` | app/src/auth/recovery-daily-budget.ts:59-100 | In every interleaving of any number of callers with any clocks, up to any moment by which rows were removed only after they had expired by the clocks of the inserts under way and of those who found the table empty later (OnTime): no 24-hour window holds more than the limit, event times are sorted, the stored row can be read, and every event belongs to one successful caller |
| `RecoveryBudget.RecoveryQuotas` | app/src/auth/recovery-daily-budget.ts:5-7 | ... with the two limits in use: 5 requests and 10 validations in any 24 hours |
| `RecoveryBudget.QuotasAreReached` | app/src/auth/recovery-daily-budget.ts:5-7 | ... and no less: runs in which 5 requests and 10 validations share one instant |
| `RecoveryBudget.AttemptIs` | app/src/auth/recovery-daily-budget.ts:64-78 | One attempt: an unreadable row and a clock outside the safe range are refused; of a readable row only the events of the last 24 hours count, as many as the limit turn the attempt away, and fewer are followed by the attempt, no earlier than the newest, expiring 24 hours later |
| `RecoveryBudget.ReadableIs` | app/src/auth/recovery-daily-budget.ts:25-37 | A stored row is readable exactly if it holds one to limit sorted safe instants and expires 24 hours after the newest |
| `RecoveryBudget.GivesUpLast` | app/src/auth/recovery-daily-budget.ts:68-99 | A caller gives up only after it has lost every one of its limit + 3 writes |
| `RecoveryTightness.PunctualIffSafe` | app/src/auth/recovery-daily-budget.ts:59-100 | That condition is exact, step by step: in every reachable state, a possible step keeps the quota safe against everything punctual that can follow if and only if it is punctual itself; it compares the expiry of the removed row with the clock of an insert |
| `RecoveryTightness.LateStepBreaksQuota` | app/src/auth/recovery-daily-budget.ts:59-100 | After every cleanup or reading that is not punctual, callers can record more than the limit in 24 hours by punctual steps alone |
| `RecoveryBudget.QuotaIff` | app/src/auth/recovery-daily-budget.ts:59-100 | Seen from the recorded events, a run keeps the limit if and only if no write takes effect inside 24 hours that are full |
| `RecoveryBudget.PunctualNeverOverfills` | app/src/auth/recovery-daily-budget.ts:59-100 | ... which no write does as long as the steps are punctual |
| `RecoveryBudget.OnlyStarvedCallersGiveUp` | app/src/auth/recovery-daily-budget.ts:68-99 | No caller ever finds an unreadable row, and the limit + 3 attempts run out only if events recorded since it began have left the window again |
| `RecoveryBudget.StillInsideIs` | app/src/auth/recovery-daily-budget.ts:68-78 | The condition in it: every event since the caller began is within 24 hours of its reading and of the newest event |
| `RecoveryBudget.NoValueComesBack` | app/src/auth/recovery-daily-budget.ts:90-96 | A row value seen again was never changed in between, so comparing values cannot miss a change |
| `RecoveryBudget.RefusedIffFull` | app/src/auth/recovery-daily-budget.ts:39-46 | A caller whose clock is not behind the newest event is refused if and only if its last 24 hours are full |
| `RecoveryBudget.RetryAfterIsExact` | app/src/auth/recovery-daily-budget.ts:42-46 | After the announced wait the same row admits an attempt, and a second earlier it does not |
| `RecoveryBudget.ActiveIsSuffix` | app/src/auth/recovery-daily-budget.ts:39-41 | The active events of a sorted list are one suffix of it |
| `RecoveryBudget.AttemptIsReadable` | app/src/auth/recovery-daily-budget.ts:69-77 | Whatever a caller writes satisfies what the next reader insists on |
| `RecoveryBudget.RecordKeepsHistory` | app/src/auth/recovery-daily-budget.ts:69-97 | A recorded event extends the sorted, spaced history and the row keeps covering it |
| `RecoveryBudget.NextKeepsInv` | app/src/auth/recovery-daily-budget.ts:64-100 | Every atomic step - entering, reading, inserting, swapping, cleaning up - keeps the protocol invariant |
| `RecoveryBudget.RunKeepsInv` | app/src/auth/recovery-daily-budget.ts:64-100 | The invariant holds in every reachable state |
| `RecoveryBudget.OvertakenInsertBreaksQuota` | app/src/auth/recovery-daily-budget.ts:59-63 | Counterexample, a run from the empty table for every limit: callers fill the window while one insert stalls, a cleanup removes the row, the insert lands: limit + 1 events in one window. The cleanup is its first step that is not punctual |
| `RecoveryBudget.LateReadingBreaksQuota` | app/src/auth/recovery-daily-budget.ts:68-71 | Counterexample: the same with a caller whose clock is read late, after the cleanup |
| `RecoveryBudget.VerificationRow.Create` | app/src/auth/postgres-auth-adapter.ts:64-79 | Insert-if-absent: succeeds exactly on a missing row and otherwise changes nothing |
| `RecoveryBudget.VerificationRow.IncrementOne` | app/src/auth/postgres-auth-adapter.ts:80-100 | Compare-and-swap: succeeds exactly when value and expiry are still the given ones and otherwise changes nothing |
| `RecoveryBudget.Consume` | app/src/auth/recovery-daily-budget.ts:64-100 | The retry loop takes exactly the state machine's steps, whatever other callers leave between its calls |
| `PhoneOtp.ThreeChangesOneWinner` | app/src/auth/phone-otp.ts:33-51 | In every interleaving a challenge is changed at most three times, at most one caller is told yes, and that ends the challenge |
| `PhoneOtp.RightCodeRefused` | app/src/auth/phone-otp.ts:36-51 | A code is refused after a challenge was picked only because that challenge expired, was used, locked out or removed, or was already locked when sent; losing three races is never the reason |
| `PhoneOtp.LockedOutAfterAllowance` | app/src/auth/phone-otp.ts:39-46 | A lockout means the full remaining allowance was spent, by as many different callers, on codes that were not the six digits the row was sent for |
| `PhoneOtp.AcceptedIsRight` | app/src/auth/phone-otp.ts:24-46 | In every run a caller that was told yes had given the six digits whose digest the challenge it picked was sent with |
| `PhoneOtp.SpentIsWrong` | app/src/auth/phone-otp.ts:32-46 | In every run an attempt is spent only on a code that is not those six digits |
| `PhoneOtp.CodeStays` | app/src/auth/phone-otp.ts:20-33 | A caller is judged throughout by the code it came with and the digest it picked |
| `PhoneOtp.ResendUntouched` | app/src/auth/phone-otp.ts:29-49 | A caller that picked its challenge never changes one sent later |
| `PhoneOtp.WonSwap` | app/src/auth/phone-otp.ts:40-46 | A swap that applies is counted once, keeps the row within its allowance of three, and ends its caller |
| `PhoneOtp.PicksNewest` | app/src/auth/phone-otp.ts:20-33 | A caller begins with the newest challenge if it is there, parses and has not expired, and is refused otherwise |
| `PhoneOtp.SwapDoes` | app/src/auth/phone-otp.ts:40-46 | A swap that finds the value it saw, unexpired, removes the row for a right code and for the third wrong one, and else adds one attempt; any other swap changes nothing |
| `PhoneOtp.LostSwap` | app/src/auth/phone-otp.ts:43-49 | A lost swap sends its caller back to reload, and means the row is gone, expired, or another attempt was spent on it |
| `PhoneOtp.NextKeepsInv` | app/src/auth/phone-otp.ts:20-52 | Sending, removing, entering, looking and swapping all keep the protocol invariant |
| `PhoneOtp.RunKeepsInv` | app/src/auth/phone-otp.ts:20-52 | The invariant holds in every reachable state |
| `PhoneOtp.ChallengeTable.ConsumeOne` | app/src/auth/phone-otp.ts:40-45 | The delete this call asks for, guarded on id, value and unexpired time; the base adapter that carries it out is not part of the repository |
| `PhoneOtp.ChallengeTable.IncrementOne` | app/src/auth/postgres-auth-adapter.ts:80-100 | Guarded replacement of the value on the same conditions |
| `PhoneOtp.ConsumeOtp` | app/src/auth/phone-otp.ts:20-52 | The verification loop follows the state machine's path and answers yes only if the code is six digits and the row found held its digest and had not expired |
| `PhoneOtp.YesOnlyToRightCode` | app/src/auth/phone-otp.ts:20-46 | Whatever others do in between, a yes means six digits whose digest the newest row held, unexpired, when the call began |
| `PhoneOtp.UndisturbedAnswer` | app/src/auth/phone-otp.ts:20-52 | A call that nobody disturbs, before expiry and with an attempt left, answers yes if and only if the code is right; the right code removes the row, a wrong one spends an attempt, and the third removes it |
| `PhoneOtp.EveryTryCounts` | app/src/auth/phone-otp.ts:33-51 | Each of the three tries counts: as long as the caller finds its challenge live, the first swap that is not lost decides the answer |
| `CanonicalNumber.ParseCompose` | vp-engine/internal/nowpayments/ipn.go:240-251 | The number pattern accepts every well-formed spelling and recovers its parts |
| `CanonicalNumber.ParsedIsWellFormed` | vp-engine/internal/nowpayments/ipn.go:240-251 | ... and nothing else: an accepted spelling is its parts put together |
| `CanonicalNumber.NormalizeKeepsValue` | vp-engine/internal/nowpayments/ipn.go:260-265 | Trimming zeros and moving the point keeps the number |
| `CanonicalNumber.NormalIsUnique` | vp-engine/internal/nowpayments/ipn.go:260-265 | Two normal forms denote the same number if and only if they are equal |
| `CanonicalNumber.RenderRoundTrip` | vp-engine/internal/nowpayments/ipn.go:266-285 | Whichever notation the thresholds choose, reading the rendered number gives its normal form back |
| `CanonicalNotation.NotationFollowsSize` | vp-engine/internal/nowpayments/ipn.go:242-286 | Zero is 0 whatever its sign; a number from 10^-6 on and below 10^21 is written plainly and any other with an exponent, negative exactly if it is below zero, without a superfluous zero, sign or digit |
| `CanonicalNotation.AcceptedIff` | vp-engine/internal/nowpayments/ipn.go:242-259 | A spelling of the grammar is accepted exactly if it has at most 512 characters and an exponent from -1000 to 1000 |
| `CanonicalNotation.GrammarIs` | vp-engine/internal/nowpayments/ipn.go:240-240 | The grammar character by character: no leading zero, digits behind a point, and an exponent with at least one digit, which a minus sign makes negative |
| `CanonicalNotation.PlaceValue` | vp-engine/internal/nowpayments/ipn.go:260-265 | Digits count by their decimal place |
| `CanonicalNumber.CanonicalKeepsValue` | vp-engine/internal/nowpayments/ipn.go:242-286 | The canonical spelling obeys the grammar and denotes the same number |
| `CanonicalNumber.CanonicalIsComplete` | vp-engine/internal/nowpayments/ipn.go:242-286 | For accepted inputs two canonical spellings are equal if and only if the numbers are equal |
| `CanonicalNumber.CanonicalIsStable` | vp-engine/internal/nowpayments/ipn.go:242-286 | Canonicalizing again gives the same spelling if it is within the input limits, and is refused if it is not |
| `CanonicalNumber.CanonicalCanLeaveLimits` | vp-engine/internal/nowpayments/ipn.go:245-258 | Counterexample: 10e1000 is accepted and its canonical spelling is not |
| `KeyOrder.CompareUnits` | vp-engine/internal/nowpayments/ipn.go:202-208 | The comparison loop answers true exactly if the first list is a proper prefix of the second or smaller at the first unit that differs |
| `KeyOrder.KeyLessIs` | vp-engine/internal/nowpayments/ipn.go:192-209 | A key is before another exactly if it is an array index and the other is none or a larger one, or neither is an index and its UTF-16 units are a proper prefix of the other's or smaller at the first that differs |
| `KeyOrder.IndexIs` | vp-engine/internal/nowpayments/ipn.go:193-196 | An array index is the decimal text, without leading zeros, of a number below 4294967295 |
| `KeyOrder.UnitsAreUtf16` | vp-engine/internal/nowpayments/ipn.go:202-202 | A character below U+10000 is one code unit, any other is its high and low surrogate |
| `KeyOrder.KeyOrderIsTotal` | vp-engine/internal/nowpayments/ipn.go:192-209 | Any two different keys are ordered one way and never both ways |
| `KeyOrder.KeyOrderIsTransitive` | vp-engine/internal/nowpayments/ipn.go:192-209 | The key order is transitive across index keys and other keys |
| `KeyOrder.UnitsInjective` | vp-engine/internal/nowpayments/ipn.go:202-202 | Different strings have different code-unit sequences |
| `KeyOrder.IndexInjective` | vp-engine/internal/nowpayments/ipn.go:193-196 | An array index has one spelling only |
| `KeyOrder.SortKeeps` | vp-engine/internal/nowpayments/ipn.go:124-132 | Sorting members with distinct keys gives an ascending list with the same members |
| `KeyOrder.AscendingIsUnique` | vp-engine/internal/nowpayments/ipn.go:124-132 | There is only one ascending list of given members, so map iteration order cannot show |
| `JsonText.StringRoundTrip` | vp-engine/internal/nowpayments/ipn.go:211-238 | Every string, escaped as it is signed, is read back unchanged |
| `JsonPieces.PiecesRead` | vp-engine/internal/nowpayments/ipn.go:64-120 | Between quotes, characters that stand for themselves, short escapes, escapes by code and surrogate pairs, in any mixture, are read as what each of them says, a lone half of a pair as U+FFFD |
| `JsonPieces.ReadInPieces` | vp-engine/internal/nowpayments/ipn.go:64-120 | ... and nothing else is read: every string that is read consists of such pieces |
| `JsonPieces.EscapeIs` | vp-engine/internal/nowpayments/ipn.go:211-238 | Quotes and backslashes are written behind a backslash, five controls in short, the other controls by code in lower case, and every other character as itself |
| `JsonText.ReadString` | vp-engine/internal/nowpayments/ipn.go:64-120 | Reading a string always consumes input, so the reader ends on every text |
| `JsonText.ReadValue` | vp-engine/internal/nowpayments/ipn.go:64-120 | Reading a value always consumes input, so the nested reader ends on every text |
| `JsonStrings.StringIgnoresRest` | vp-engine/internal/nowpayments/ipn.go:64-120 | Reading a string stops at its closing quote, whatever follows, with any escapes |
| `JsonStrings.ReadIsSpelled` | vp-engine/internal/nowpayments/ipn.go:64-120 | Whatever is read as a string is raw text that spells it, a quote, and the rest |
| `JsonSpelling.ReadsCore` | vp-engine/internal/nowpayments/ipn.go:64-120 | Reading a spelling, with any escapes, at any depth gives its meaning, or is refused exactly when it is nested beyond 32 or repeats a key |
| `JsonSpelling.ReadingIsExact` | vp-engine/internal/nowpayments/ipn.go:64-120 | A spelled document with any whitespace, escapes and member order reads as exactly the value it spells, with nothing left over |
| `JsonMeaning.MeansIff` | vp-engine/internal/nowpayments/ipn.go:64-120 | A spelled document means something exactly if it is no deeper than 32 levels and no object repeats a key, and then it means the same members and items in the same order |
| `SignedBody.AcceptedIff` | vp-engine/internal/nowpayments/ipn.go:43-62 | A well-spelled body has a canonical form exactly if it is one object of at most 131072 bytes, no deeper than 32 levels, without a repeated key, and all its numbers have an exact normal form |
| `SignedBody.AcceptedIsBody` | vp-engine/internal/nowpayments/ipn.go:45-60 | ... and only well-spelled bodies have one |
| `SignedBody.AlikeItself` | vp-engine/internal/nowpayments/ipn.go:122-190 | Every document counts as the same as itself ... |
| `SignedBody.AlikeExchanged` | vp-engine/internal/nowpayments/ipn.go:122-140 | ... as itself with two members of an object exchanged ... |
| `SignedBody.AlikeNumbers` | vp-engine/internal/nowpayments/ipn.go:242-286 | ... and with a number spelled in another accepted way |
| `SignedBody.BlankIs` | vp-engine/internal/nowpayments/ipn.go:64-120 | Whitespace is blank, tab, line feed and carriage return |
| `SignedBody.BytesAre` | vp-engine/internal/nowpayments/ipn.go:45-48 | The size of a body counts one to four bytes for each character, as UTF-8 does |
| `JsonCoverage.AcceptedIsSpelled` | vp-engine/internal/nowpayments/ipn.go:45-60 | Every body that is accepted is such a spelling, so what is shown of spellings covers all bodies |
| `JsonCoverage.ReadFits` | vp-engine/internal/nowpayments/ipn.go:64-120 | Whatever is read is nested within 32, repeats no key, and its numbers obey the grammar |
| `CanonicalJson.AlikePrints` | vp-engine/internal/nowpayments/ipn.go:122-190 | Values that differ only in member order at any depth and in the spelling of numbers print alike |
| `CanonicalJson.AlikeMean` | vp-engine/internal/nowpayments/ipn.go:64-120 | Documents that differ only in spacing, escapes, spelling of numbers and member order are read together or refused together |
| `CanonicalJson.LayoutDoesNotMatter` | vp-engine/internal/nowpayments/ipn.go:43-62 | Two bodies that differ only in spacing, escapes, spelling of numbers and member order, at any depth, have one canonical form or are both refused, unless exactly one of them is over 128 KiB |
| `CanonicalRoundTrip.PrintIsTight` | vp-engine/internal/nowpayments/ipn.go:122-190 | The printed form is the blank-free spelling of the value with numbers in normal form and members in key order |
| `CanonicalRoundTrip.CanonicalReadsBack` | vp-engine/internal/nowpayments/ipn.go:43-190 | The canonical form of every accepted body reads back as the body's value, with normalized numbers and ordered members, and nothing left over |
| `CanonicalRoundTrip.CanonicalFormIsStable` | vp-engine/internal/nowpayments/ipn.go:43-190 | For every accepted body, the canonical form of its canonical form is itself if that form is within 128 KiB and each of its numbers within the input limits, and is refused otherwise |
| `NowLedger.CreateKeepsSound` | vp-engine/internal/nowengine/service.go:438-452 | Creating an obligation keeps every balance and the uniqueness of references |
| `NowLedger.PostKeepsSound` | vp-engine/internal/nowengine/service.go:454-489 | Posting up to what is outstanding keeps paid + excluded within entitlement, paid equal to the sum of payments, and every package's paid total equal to its return and binary payments and within its cap |
| `NowLedger.ExcludeKeepsSound` | vp-engine/internal/nowengine/accrual.go:225-230 | Writing off part of what is outstanding keeps every balance |
| `NowAccrual.EntryBounds` | vp-engine/internal/nowengine/accrual.go:71-98 | A day's amount is never negative and its credit is the amount or exactly what the package has left |
| `NowAccrual.DayEarns` | vp-engine/internal/nowengine/accrual.go:65-98 | One business day earns the qualified rate if the order is uplifted on that day and the base rate if not; its amount is what the earned total, rounded down to cents, has grown by, and its credit that amount or what the package has left |
| `NowAccrual.DueUntil` | vp-engine/internal/nowengine/accrual.go:51-68 | An order is due the business days after its last accrued one, or its start, up to the cutoff half an hour past midnight or its maturity |
| `NowAccrual.AccruedLedger` | vp-engine/internal/nowengine/accrual.go:85-103 | One accrued day adds at most one settled obligation and one payment of exactly the computed credit: the clip inside posting changes nothing |
| `NowAccrual.AccrueDayKeepsInv` | vp-engine/internal/nowengine/accrual.go:45-131 | One business day keeps sound balances, settled return obligations, and the state equal to the recorded days |
| `NowAccrual.DailyAmountsTelescope` | vp-engine/internal/nowengine/policy.go:89-91 | The daily amounts sum to the rounded-down exact total under any rate sequence, and at a constant rate to the closed form |
| `NowAccrual.AccrueNSplit` | vp-engine/internal/nowengine/accrual.go:45-131 | Accruing n days and then m days is accruing n + m days |
| `NowAccrual.CaughtUpIff` | vp-engine/internal/nowengine/accrual.go:67-68 | After n accruals exactly n fewer days are due, down to none: each business day is accrued once |
| `NowAccrual.RunsReachOneState` | vp-engine/internal/nowengine/accrual.go:45-131 | However the work is cut into runs, being caught up means the state of one uninterrupted run |
| `Theta.ThetaIsLargest` | vp-engine/internal/bonusengine/theta.go:5-23 | For a positive projection theta is the largest six-digit fraction of it that the funds cover, within [0, 1] |
| `Theta.ThrottledFits` | vp-engine/internal/bonusengine/theta.go:5-23 | Paid at their theta and rounded down, the projected amounts never exceed the funds |
| `NowClose.PayEntryKeeps` | vp-engine/internal/nowengine/accrual.go:206-230 | One entry posts exactly its clipped share and touches no other obligation |
| `NowClose.HeldFitsPackage` | vp-engine/internal/nowengine/accrual.go:207-230 | What an entry leaves owed still fits the package; exactly the rest is written off, and never for referrals and royalties |
| `NowClose.PayAllKeeps` | vp-engine/internal/nowengine/accrual.go:203-233 | The payment loop posts exactly what it counts, only commissions of this close, at most the throttled sum of what was owed |
| `NowClose.CloseStaysInBudget` | vp-engine/internal/nowengine/accrual.go:199-233 | A close credits at most its budget: the funding-review branch is unreachable |
| `NowClose.CloseIsSolvent` | vp-engine/internal/nowengine/policy.go:93-103 | A close that credits anything leaves returns plus commissions within alpha times inflows |
| `NowPayout.TakenUpIff` | vp-engine/internal/nowengine/accrual.go:176-197 | A close takes up an obligation if and only if it is not a return and its entitlement exceeds what was paid and excluded |
| `NowPayout.ProjectedIsOwed` | vp-engine/internal/nowengine/accrual.go:176-197 | What a close projects is the sum of what is outstanding over all of those, each counted once |
| `NowPayout.EachGets` | vp-engine/internal/nowengine/accrual.go:203-231 | Entry by entry: what is not taken up is untouched; a referral or royalty is paid exactly its rounded-down share; a binary obligation its share, or less only with its package used up; at full theta nothing stays owed |
| `NowPayout.InflowCounts` | vp-engine/internal/nowengine/accrual.go:159-165 | A sale counts towards the inflows exactly if it was activated before the week's end |
| `NowPayout.PaymentCounts` | vp-engine/internal/nowengine/accrual.go:166-172 | A payment counts towards its obligation, its package if it is a return or binary, and the returns or commissions before an instant if it was posted before it |
| `NowPayout.BudgetIsRest` | vp-engine/internal/nowengine/policy.go:93-99 | The budget is 45 per cent of the inflows in whole cents less everything paid before the end, and never below zero |
| `NowPayout.ClosingThetaIs` | vp-engine/internal/nowengine/policy.go:101-103 | Theta is in full if the budget covers what is owed, and otherwise the largest number of millionths of it that the budget covers |
| `NowPayout.CloseTakesUpAll` | vp-engine/internal/nowengine/accrual.go:176-231 | One close: every open commission gets its share, returns and settled commissions are left alone, and if the budget covers everything owed nothing stays owed |
| `NowWeek.DuesFit` | vp-engine/internal/nowengine/accrual.go:242-281 | A week's referrals and royalties have pairwise different references and well-formed amounts |
| `NowDues.SaleOwes` | vp-engine/internal/nowengine/accrual.go:242-281 | One sale owes five per cent of its net to a qualified sponsor, ten to a founder, and five to the sponsor's sponsor, each to the package of the one it is for, in whole cents, and nothing above a sponsor who is unknown, the root or inactive |
| `NowDues.WeekOwes` | vp-engine/internal/nowengine/accrual.go:242-246 | A week owes exactly what the sales activated from its start to before its end owe |
| `NowDues.GrantsOwe` | vp-engine/internal/nowengine/accrual.go:350-376 | Binary pay owes every affiliate granted something its entitlement, of which exactly the smallest of entitlement, weekly limit and package rest stays payable |
| `NowWeek.BinaryDuesFit` | vp-engine/internal/nowengine/accrual.go:350-376 | Binary obligations have one reference per affiliate and exclude between nothing and the whole entitlement |
| `NowWeek.AppendKeepsSound` | vp-engine/internal/nowengine/accrual.go:242-392 | Booking all of them keeps the ledger sound |
| `NowBooks.AccrualKeepsBooks` | vp-engine/internal/nowengine/accrual.go:45-131 | A due day may be accrued at any time without reopening a closed week |
| `NowBooks.JoinKeepsBooks` | vp-engine/internal/nowengine/service.go:147-203 | A membership joining with a package of its own keeps the books |
| `NowBooks.CloseKeepsBooks` | vp-engine/internal/nowengine/accrual.go:134-240 | Closing the next week keeps the ledger sound, the weeks contiguous, and this and all earlier closes solvent |
| `NowDues.CloseRecords` | vp-engine/internal/nowengine/accrual.go:134-240 | The record of a week tells its inflows and returns, the sum of all that was owed, what was paid, and the sum of all that is still owed; every obligation got its share, and with enough budget nothing is held |
| `NowRuns.RunKeepsBooks` | vp-engine/internal/nowengine/service.go:370-424 | A run of any size keeps the books and rewrites no closed week |
| `NowRuns.EveryCloseStaysSolvent` | vp-engine/internal/nowengine/accrual.go:159-233 | In every history, at every moment, each week that credited anything has returns plus commissions up to its end within alpha times inflows up to its end, and weeks follow without gaps |
| `NowRuns.EveryLedgerBalances` | vp-engine/internal/nowengine/service.go:426-489 | In every history obligations are never overpaid, returns are settled at once, and packages are paid exactly their payments and never beyond their cap |
| `NowRuns.WeeksStayClosed` | vp-engine/internal/nowengine/accrual.go:142-149 | A closed week is never rewritten |
| `NowSchedule.FirstWeekIsRight` | vp-engine/internal/nowengine/service.go:396-404 | In every history the first week closed is the calendar week in which the first membership was activated |
| `NowSchedule.DueWeeksAreClosed` | vp-engine/internal/nowengine/service.go:370-420 | A run that is caught up closes week after week until the next is not over by two hours, up to eight and the number it is allowed; it answers that data are frozen exactly if an order is |
| `NowEngine.Engine.AddOrder` | vp-engine/internal/nowengine/service.go:147-203 | The joined membership brings its package cap and nothing else |
| `NowEngine.Engine.CreateObligation` | vp-engine/internal/nowengine/service.go:438-452 | Insert unless the reference exists; the id reported tells which |
| `NowEngine.Engine.PostPayment` | vp-engine/internal/nowengine/service.go:454-489 | Clip to the package, book payment, obligation and package together, or nothing at all |
| `NowEngine.Engine.AccrueOne` | vp-engine/internal/nowengine/accrual.go:71-126 | One day of one order, row by row, is the specified day |
| `NowEngine.Engine.AccrueRoi` | vp-engine/internal/nowengine/accrual.go:16-131 | At most four days, oldest due first and deadline permitting; reports caught up if and only if nothing is due; marks exactly the completed certificates as matured |
| `NowEngine.Engine.Referrals` | vp-engine/internal/nowengine/accrual.go:242-281 | Books the week's referrals and royalties, or fails on an unknown buyer |
| `NowEngine.Engine.BinaryPay` | vp-engine/internal/nowengine/accrual.go:350-376 | Books one obligation per affiliate granted something, in affiliate order, excluding what the weekly limit or the package cannot take |
| `NowEngine.Engine.PayEntries` | vp-engine/internal/nowengine/accrual.go:178-233 | Budget, theta, payments and the budget check: everything owed is projected and gets its share, credited never exceeds the budget, and a budget that covers it all leaves nothing owed |
| `NowEngine.Engine.ClosePeriod` | vp-engine/internal/nowengine/accrual.go:134-240 | Closes the next week into the specified books with a record that tells what was owed, paid and held, or fails |
| `NowEngine.Engine.Run` | vp-engine/internal/nowengine/service.go:370-424 | A whole run equals the run on values: frozen data refused, accrual first, weeks only when caught up, at most eight and each two hours over, failures rolled back |
| `CloseCandidates.CandidateFits` | vp-engine/internal/bonusengine/candidate.go:357-414 | A candidate is brought exactly to its matched blocks; its gross fits the period cap and then the package, and both reductions account for the rest |
| `WeekOwed.CandidatesIff` | vp-engine/internal/bonusengine/candidate.go:327-414 | Candidates are exactly the active ancestors with a package, the directs the plan asks for and freshness unless the plan only reduces, whose weaker leg has new whole blocks; the gross is the least of bonus, period cap and package rest |
| `WeekOwed.PointsIff` | vp-engine/internal/bonusengine/v2_streams.go:229-268 | Point items are exactly the rows with a package whose points in dollars, limited by what binary leaves of the period cap and by the package, come to something |
| `WeekOwed.DueIff` | vp-engine/internal/bonusengine/v2_streams.go:350-372 | Due are exactly the instalments that are not settled and fall due by the end |
| `WeekOwed.ScheduleIff` | vp-engine/internal/bonusengine/v2_streams.go:326-347 | The instalments of a rank are numbered from 1, due at the end of the week and then every so many weeks, equal but for the last, which carries the rest, and empty ones are left out |
| `WeekOwed.PromotedIff` | vp-engine/internal/bonusengine/v2_streams.go:311-348 | Every rank reached for the first time is recorded and its instalments are written, and nothing else is |
| `WeekOwed.ItemsIff` | vp-engine/internal/bonusengine/binary_close.go:112-283 | A week pays exactly its binary candidates, yield shares, point items, due instalments, referrals and royalties |
| `WeekOwed.BinaryGrossAdds` | vp-engine/internal/bonusengine/binary_close.go:114-119 | The binary gross of an affiliate is the sum over its candidates |
| `WeekOwed.ProjectedAdds` | vp-engine/internal/bonusengine/binary_close.go:112-131 | The projection counts every item once with its full amount |
| `WeekOwed.PointsAdd` | vp-engine/internal/bonusengine/v2_streams.go:685-716 | A candidate earns points for each of its blocks that theta paid in full |
| `WeekOwed.NoPointsWithoutPlan` | vp-engine/internal/bonusengine/v2_streams.go:685-716 | Where a plan grants no points a close leaves them as they are or uses them up |
| `WeekOwed.ThetaIs` | vp-engine/internal/bonusengine/theta.go:5-23 | Theta of a week is in full if alpha of its inflows covers all items, and otherwise the largest number of millionths that it covers |
| `CloseCandidates.EnumerateCandidates` | vp-engine/internal/bonusengine/candidate.go:327-418 | The loop over ancestors yields exactly the qualified, fresh enough candidates with something to pay |
| `ClosePayments.SplitIsExact` | vp-engine/internal/bonusengine/retirement.go:15-27 | Retirement and wallet parts sum to the net, the retirement part rounded down |
| `ClosePayments.BookWrites` | vp-engine/internal/bonusengine/binary_close.go:150-274 | The credit an item writes goes to its affiliate or the one standing in, wallet and retirement parts sum to the net, the retirement part is the chosen share rounded down, nothing without a share and everything from 100 per cent on; an item credited before or paying nothing writes none |
| `ClosePayments.PaysAtTheta` | vp-engine/internal/bonusengine/binary_close.go:150-215 | An item pays its amount at theta in whole cents; a binary item of a stale affiliate the reduced part of it, one credited before nothing, and points no more than the package has left |
| `ClosePayments.BookMoves` | vp-engine/internal/bonusengine/binary_close.go:216-274 | Booking charges what is paid to the package, adds the item's blocks to those paid, uses up points and settles the instalment, and changes nothing else |
| `ClosePayments.CloseWithinTreasury` | vp-engine/internal/bonusengine/binary_close.go:131-283 | Theta from all items keeps everything paid within alpha times inflows, through rounding, reduction and caps |
| `ClosePayments.CreditsAddUp` | vp-engine/internal/bonusengine/binary_close.go:150-283 | On a first close wallet and retirement credits add up to what the close reports |
| `ClosePayments.BookKeepsLimits` | vp-engine/internal/bonusengine/binary_close.go:150-274 | No item lifts a package above its cap or an affiliate above its matched blocks |
| `ClosePayments.CloseKeepsLimits` | vp-engine/internal/bonusengine/binary_close.go:150-283 | ... nor does a whole close, binary and points sharing the caps |
| `ClosePayments.CloseSettles` | vp-engine/internal/bonusengine/v2_streams.go:626-660 | Each due instalment is settled once, within its amount, and settled ones never change |
| `RankInstalments.ScheduleIsExact` | vp-engine/internal/bonusengine/v2_streams.go:326-347 | For every bonus and number of instalments the amounts sum to the bonus, the last exceeding the others by less than one cent per instalment |
| `RankInstalments.WriteInstalments` | vp-engine/internal/bonusengine/v2_streams.go:326-347 | The writing loop produces exactly that schedule with its due dates |
| `RankInstalments.PromoteKeeps` | vp-engine/internal/bonusengine/v2_streams.go:311-348 | A reached rank is scheduled once, for exactly its bonus |
| `RankInstalments.RankPayWithinBonus` | vp-engine/internal/bonusengine/v2_streams.go:631-659 | Whatever the thetas, a rank never pays more than its bonus |
| `RankInstalments.PaidAdds` | vp-engine/internal/bonusengine/v2_streams.go:631-659 | What was paid for a rank is the sum of what its settled instalments got |
| `WeekItems.BinaryAndPointsShareCap` | vp-engine/internal/bonusengine/v2_streams.go:235-268 | For every point row, binary, which may be nothing, and points gross of the affiliate in one week stay together within its period cap, and the points within its package |
| `WeekItems.CandidatesDistinct` | vp-engine/internal/bonusengine/candidate.go:327-414 | No two candidates of a week share affiliate or package |
| `WeekFits.ItemsGood` | vp-engine/internal/bonusengine/v2_streams.go:127-438 | All items of a week have non-negative amounts and pairwise different references |
| `WeekFits.ItemsBinaries` | vp-engine/internal/bonusengine/binary_close.go:150-274 | The binary items of a week fit their packages and matched blocks together |
| `WeeklyClose.PeakGrows` | vp-engine/internal/bonusengine/candidate.go:357-364 | The high-water mark of matched blocks never falls and covers every enumerated ancestor |
| `WeeklyClose.PeakIsReached` | vp-engine/internal/bonusengine/candidate.go:357-364 | ... and is never higher than it was or than the whole blocks of an enumerated ancestor's weaker leg |
| `WeeklyClose.CloseIsSound` | vp-engine/internal/bonusengine/binary_close.go:112-283 | One close: within alpha times inflows, credits equal to the report, caps, blocks and bonuses within their limits |
| `DailyReturns.DueFits` | vp-engine/internal/bonusengine/cd_roi.go:125-167 | A posted return is within what was earned and what the package has left |
| `DailyReturns.DueIs` | vp-engine/internal/bonusengine/cd_roi.go:112-167 | A certificate is due principal times its rate for the days since its last accrual or start, no later than maturity, in whole cents, limited by its package, and nothing twice for one day |
| `DailyReturns.StepIs` | vp-engine/internal/bonusengine/cd_roi.go:112-199 | One day of one certificate credits what is due to the member's wallet or whoever stands in, charges the package, adds to the certificate, and ends it at maturity |
| `DailyReturns.DueIsCredit` | vp-engine/internal/bonusengine/cd_roi.go:215-245 | The uniqueness of references never holds back an earned return |
| `DailyReturns.JobKeepsSound` | vp-engine/internal/bonusengine/cd_roi.go:47-212 | One run of the job keeps every package within its cap and writes exactly the total it reports |
| `DailyReturns.RepeatedJobPaysNothing` | vp-engine/internal/bonusengine/cd_roi.go:42-45 | Running the job again on the same day changes nothing |
| `BonusEngine.CloseOnceKeeps` | vp-engine/internal/bonusengine/binary_close.go:30-74 | Closing a period keeps all limits; a first close stays within alpha times inflows and writes credits equal to its report |
| `BonusEngine.RunDayKeeps` | vp-engine/internal/bonusengine/cd_roi.go:47-212 | The daily job keeps all limits of the weekly close |
| `BonusEngine.OpenPackageKeeps` | _meta/schema_payouts.sql:216-237 | Opening a package keeps all limits |
| `BonusEngine.Engine.AddPackage` | _meta/schema_payouts.sql:216-237 | A new package starts unpaid, and an open one is left alone |
| `BonusEngine.Engine.AddCd` | vp-engine/internal/payments/activation.go:209-226 | A certificate starts active with nothing accrued, and one that is there is left alone |
| `BonusEngine.Engine.PromoteRanks` | vp-engine/internal/bonusengine/v2_streams.go:311-348 | Records reached ranks and writes their instalments, skipping ranks reached before |
| `BonusEngine.Engine.DueInstalments` | vp-engine/internal/bonusengine/v2_streams.go:350-372 | Lists exactly the unsettled instalments due by the period's end |
| `BonusEngine.Engine.PointEntries` | vp-engine/internal/bonusengine/v2_streams.go:229-268 | Point items clipped to the shared period cap and then the package |
| `BonusEngine.Engine.PayItem` | vp-engine/internal/bonusengine/binary_close.go:150-274 | One item: net, credit, package, blocks, points and instalment move as specified, or nothing does; the credit written has the right beneficiary and the right split |
| `BonusEngine.Engine.PayAll` | vp-engine/internal/bonusengine/binary_close.go:150-283 | The payment loops book all items in order and return what they paid |
| `BonusEngine.Engine.AccruePoints` | vp-engine/internal/bonusengine/v2_streams.go:685-716 | Points for the blocks theta really paid, summed per affiliate |
| `BonusEngine.Engine.ClosePeriod` | vp-engine/internal/bonusengine/binary_close.go:30-283 | Closes a period once into the specified tables, within treasury and with credits equal to the report |
| `BonusEngine.Engine.AccrueCd` | vp-engine/internal/bonusengine/cd_roi.go:112-199 | One certificate: clip, post once, charge the package, move the date, mature, exactly as specified |
| `BonusEngine.Engine.AccrueCdRoi` | vp-engine/internal/bonusengine/cd_roi.go:47-212 | The job over all certificates produces the specified tables and credits exactly its total |
| `BonusRuns.LimitsHoldForever` | vp-engine/internal/bonusengine/binary_close.go:112-283 | In every history of openings, closes and daily jobs no package exceeds its cap, no affiliate its matched blocks' high-water mark, no rank its bonus |
| `BonusRuns.CreditsAreReports` | vp-engine/internal/bonusengine/binary_close.go:271-283 | In every history the credits written are exactly what closes and jobs reported |
| `BonusRuns.SettledForever` | vp-engine/internal/bonusengine/v2_streams.go:626-660 | In every history settled instalments and closed periods stay as they are |
| `BonusRuns.EveryCloseWithinTreasury` | vp-engine/internal/bonusengine/binary_close.go:112-283 | In every history every close stays within alpha times its inflows, for good |

## Left out

- SQL text, locks, isolation levels and statement timeouts: each transaction, or each guarded call in the sign-in protocols, is one atomic step.
- Hash functions: a digest is an injective value of what is hashed; the 64 hex digits are a `Hash` constructor.
- HTTP, message queues, wallets' creation, audit rows, referral attribution, metrics and logging.
- Decimal division to 16 digits: modelled as exact division. Theta, daily returns and yield differ from that only when the 16th digit rounds up to a value the exact quotient stays below.
- Time zones and month-end clamping: business-zone minutes, days and weeks as integers; `CommissionAvailableAt` and `Maturity365` are not modelled.
- The float64 round trip and the safe-integer bound in canonical JSON: one abstract predicate `exact` on normal forms.
- Bytes that are not UTF-8: bodies are sequences of Unicode characters, with their size in bytes of UTF-8.
- ClaimHistory.GrowingLegsNeverDrift: asks that lots are only added, with higher activation numbers; the service derives the numbers from activation order.
- RecoveryBudget.QuotaHolds: asks that the run was punctual so far, because of the finding; `PunctualIffSafe` shows that nothing less is enough.
- RecoveryBudget.OnlyStarvedCallersGiveUp: a caller counts as starved if at one of its readings an event recorded since it began was no longer within 24 hours of that reading or of the newest event.
- PhoneOtp.RightCodeRefused: covers callers that had picked a challenge; before that a caller can only be told there is none, it has expired, or it does not parse. A code that is sent again gets a row of its own, so the comparison of digests never refuses.
- The read-only quota precheck, storage hashing of codes, and the per-recipient send cooldown.
- TreeRelocation.MovePassesChecksIff: event totals and current-cycle columns are assumed non-negative before the move.
- Names, e-mails and invitation links of a relocation request: resolved to ids before the model begins; `active` stands for person and affiliate status and blacklist together.
- What competitors of a placement do: any change to the tables that keeps the derived columns exact and removes nobody; the advisory lock on the sponsor is not needed for what is proved.
- The scoped engine's reading of memberships: who is active and qualified, whose newest live package is which, and on which days an order earns the higher rate are inputs of a run.
- NowEngine.Engine.BinaryPay: takes the week's grants as an input, which `NowGrants.BinaryState.Grant` returns; the two are put together on values, in `NowTogether`, and not as one object.
- NowVolumes.WeeksNeverDrift: asks for an acyclic genealogy without change between the two weeks, sales in order of activation with distinct ids, at most 5000 of them, and leg PV within 64 bits; `FixedTreeNeverDrifts` asks the same over all weeks and `DriftIffMoved` drops the fixed genealogy.
- NowBooks.JoinKeepsBooks: a membership starts no earlier than the last closed week and brings a package of its own.
- Manual memberships whose package cap is shared with the older engine; installment numbers, available-from dates and rate snapshots of obligations.
- The weekly close's queries for yield, referral, royalty and point rows: their amounts are inputs, positive and with distinct keys; the ancestors of a week have packages of their own.
- The certificate returns added to a closed period's reported total afterwards, and per-side blocks and daily amounts in node state.
- Database triggers that re-check caps: the model proves that they never have reason to fire.
- Smaller state machines (alerts, four-eyes publishing, pending access, restore, unsubscribe), which would only add easy members.

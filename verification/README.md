# Hedge-control invariants

A Dafny model of the parts of the hedge-control back end that carry invariants across requests,
transactions and migrations, with machine-checked proofs. `dafny verify dfyconfig.toml` checks
everything.

| area | files | main results |
|---|---|---|
| Linkage capacity | `LinkageTables`, `LinkageProtocol`, `LinkageSerial`, `LinkageMigrations`, `LinkageDowngrade`, `ContractStatus` | no interleaving of transactions commits an order or contract over-allocated by live linkages, under the 029 function, the 032 function, or switches between them in either direction at any moment; the 029 preflight is exact; the 032 downgrade is safe if and only if the dead linkages fit; a statement alone commits its effect if and only if the parents its triggers check stay within quantity |
| Settlement ledger | `Decimals`, `SettlementLedger`, `SettlementVerdict`, `SettlementRuns` | a settlement is accepted if and only if it pays exactly what the contract owes, and every refusal has its error; ledger shape over all runs, deletions included; a contract with an event is settled if and only if it was not deleted since; replay accepted if and only if it is the same request; no double rounding of a storable amount |
| Projection and baseline | `CashflowProjection`, `CashflowBaseline`, `BaselineContents`, `BaselineArchive`, `CashConservation` | exactly which rows contribute to a projection or a baseline, and with what; booked cash agrees with the projection if and only if the legs are on opposite sides; exact reconciliation; realised cash over whole runs is projected cash; write-once snapshots; archive round trip |
| Audit trail | `JsonText`, `JsonRoundTrip`, `JsonGrammar`, `CanonicalJson`, `JsonColumn`, `AuditTrail` | exactly which payloads share a canonical text, and which keep theirs through the JSON column; the verdict on every event, however tampered with; the event of a request verifies whatever its body |
| Pagination | `Ordering`, `Pagination` | whole walks over a changing table |
| Sequence backfill | `SequenceBackfill` | the two SQL forms agree and number 1..n; later defaults ascend over every run |
| Partner split and compliance | `Compliance`, `PartnerSplit`, `PartnerCompliance`, `PartnerHistory` | references survive if and only if the pre-check passes; over every history an approval, a screening result and a credit line belong to the identity, the screening and the approval they came from |
| Price provenance | `PriceReferences` | validator and CHECK agree on every value as stored, except exactly an explicit None; exactly which printed decimals are accepted; accepted dates are the calendar dates |
| Review loop | `ReviewLoop`, `ReviewHistory` | bounded turns, one repair, alternating transcript, backed P1 findings; outcome and transcript are determined by the turns alone |

## How things are represented

- Tonnage is in 10^-3, prices and money in 10^-6, products in 10^-9, all as integers; products, differences and sums that the services compute with `Decimal` are rounded to 28 significant digits. UUIDs are natural numbers. Dates and timestamps are integers.
- The linkage protocol is a state machine. Each transaction has private writes, parent-row locks held until it ends, and a queue of parents its triggers still have to check. A check is three steps (lock, read quantity, aggregate and compare). A queue that may stay non-empty while more rows are written covers multi-row statements and deferred constraint triggers. Foreign-key share locks are not modelled, which only allows more interleavings.
- A contract's stored status may be overwritten by `settled` or `cancelled` from any status, because deletion does not look at it and the services read it without a lock (backend/app/services/contract_service.py:256-336). The linkage proof covers those writes; in the serial runs of the ledger they come from deletion.
- Capacity is stated as "nothing is linked, or the linked tonnage is at most the quantity". An order may be stored with a negative quantity (no schema check forbids it), and such an order is not over-allocated while nothing is linked to it. For a non-negative quantity this is the plain inequality.
- Market quotes, mark-to-market results, screening results, model responses, SHA-256 and HMAC are inputs or uninterpreted functions.
- An audit payload is signed in memory, written to a JSON column as the text of `json.dumps` with default separators, and read back by `json.loads` before it is ever verified (the service refreshes the row it inserts). The printer, the reader and what the round trip does to a value are all in the model.
- Requests to the ledger, the baseline service and the partner services are serial steps. The ledger's runs allow every transition of the lifecycle table, although the status endpoint only cancels (backend/app/services/contract_service.py:285-303).

## Where the code does less than its comments say

- The 032 downgrade reinstalls the 029 function without the 029 preflight. A run of the protocol leads it to an over-allocated order (`LinkageDowngrade.DowngradeCanLandOverAllocated`); it is safe if and only if the linkages to dead rows fit (`LinkageDowngrade.DowngradeSafeIff`).
- `ContractService.delete` writes `cancelled` over any status, `settled` included, so the contract of a settlement event need not be settled (`SettlementRuns.DeleteAfterSettlement`, `SettlementRuns.SettledIffNotDeleted`).
- Products and sums run under the default 28-digit context. A hedge fixes the price, and the projection totals are plain sums, within that length; storable figures beyond it lose units (`CashflowProjection.LargeHedgeIsNotExact`, `Decimals.LargeSumRounds`).
- Two Python strings can share a canonical text: an astral character and its two surrogates (`CanonicalJson.SurrogatePairCollides`). `CanonicalJson.SameTextIffSameJoinedSorted` says exactly which payloads collide.
- A recorded audit event need not verify when read back untouched: the JSON column joins surrogate pairs, which can reorder or merge keys (`AuditTrail.SwappingPayloadMismatch`). It verifies if and only if joining keeps the order of keys in every object of the payload (`AuditTrail.StoredVerdict`), which holds of every request body (`AuditTrail.RequestEventVerdict`).
- The 049 pre-check raises on an RFQ event whose winners text is a JSON null, boolean or number, and so refuses a migration that would break no reference (`PartnerSplit.Store.Upgrade`).
- Nothing checks that a contract's two legs are on opposite sides, yet only then does booked cash agree with the projection (`CashflowProjection.SettlementMatchesProjection`).
- On PostgreSQL a caller-supplied sequence number at or past the counter breaks the ordering of later defaults (`SequenceBackfill.FreshThroughoutIff`).
- A deal that consulted no market price passes an explicit `None` for `price_references`. The column type lacks `none_as_null`, so it is stored as a JSON null, which the CHECK refuses (`PriceReferences.UnpricedSnapshotIsRefused`); any other value is accepted by both or by neither (`PriceReferences.StoredAcceptedIff`).
- A turn with a report beside a call under another id leaves that call unanswered when the loop goes on (`ReviewLoop.ParallelCallsGoUnanswered`, `ReviewLoop.TurnAnswersIff`).
- A page limit of 0 walks past every row (`Pagination.LimitZeroLosesEverything`); the routes require at least 1.

## Model

| member | source | states |
|---|---|---|
| `ContractStatus.ClosedForever` | backend/app/models/contracts.py:55-67 | once a contract has left the open statuses, no later status write, by the table or from a stale read, reopens it |
| `ContractStatus.TransitionsMoveForward` | backend/app/models/contracts.py:55-67 | the lifecycle table allows exactly the moves to a later stage: active, partially settled, closed |
| `LinkageTables.LiveSideIsWeaker` | backend/alembic/versions/032_linkage_capacity_live_filter.py:50-110 | capacity over every linkage entails capacity over live-side linkages |
| `LinkageTables.FitsMonotone` | backend/alembic/versions/029_linkage_overallocation_invariant.py:66-95 | a parent whose counted linkages are among those of a fitting state also fits |
| `LinkageTables.LiveIffMayMove` | backend/alembic/versions/032_linkage_capacity_live_filter.py:75-100 | a row counts as live exactly when it is not deleted and, for a contract, the lifecycle table still lets its status move |
| `LinkageTables.RowWriteMovesSums` | backend/alembic/versions/032_linkage_capacity_live_filter.py:75-100 | writing a row changes the live-side sum of each other parent by exactly the tonnage linked between the two if the row came to life or died, and by nothing otherwise |
| `LinkageTables.PartialSettlementKeepsSums` | backend/alembic/versions/032_linkage_capacity_live_filter.py:77 | a partial settlement of an active contract changes no live-side sum anywhere |
| `LinkageProtocol.WriteParentKeepsTxn` | backend/alembic/versions/029_linkage_overallocation_invariant.py:112-155 | inserting or updating a parent, with the quantity trigger queued only when the quantity is distinct, keeps the writer's view within capacity at every unqueued parent |
| `LinkageProtocol.WriteLinkageKeepsTxn` | backend/alembic/versions/029_linkage_overallocation_invariant.py:102-141 | a linkage insert, move or resize can only over-allocate the two parents its trigger queues |
| `LinkageProtocol.DeleteLinkageKeepsTxn` | backend/alembic/versions/029_linkage_overallocation_invariant.py:136-141 | a linkage delete, which fires no trigger, over-allocates nothing |
| `LinkageProtocol.CheckKeepsTxn` | backend/alembic/versions/032_linkage_capacity_live_filter.py:62-107 | a passed comparison against the quantity read under the lock settles that parent in the checker's view |
| `LinkageProtocol.CountedBeforeCommit` | backend/alembic/versions/029_linkage_overallocation_invariant.py:43-53 | what counts for a locked parent after another commit already counted before it |
| `LinkageProtocol.CommitKeepsTxn` | backend/alembic/versions/029_linkage_overallocation_invariant.py:43-53 | a commit leaves every other open transaction's checks valid |
| `LinkageProtocol.StepKeepsInv` | backend/alembic/versions/032_linkage_capacity_live_filter.py:50-110 | every step of every transaction, and installing either function at any moment, keeps the system invariant |
| `LinkageProtocol.NoCommittedOverAllocation` | backend/alembic/versions/032_linkage_capacity_live_filter.py:50-110 | in every interleaving, with 032 and its downgrade applied at any moments: the live-side rule holds of every committed state; the rule the run started within holds until the narrower function is installed; and without a downgrade the rule of the installed function holds |
| `LinkageSerial.StatementCommitsIff` | backend/alembic/versions/029_linkage_overallocation_invariant.py:102-155 | a statement run alone commits exactly its own effect if and only if every parent its triggers check is within its quantity afterwards; otherwise no sequence of its checks commits anything |
| `LinkageSerial.WriteEnabledIff` | backend/alembic/versions/029_linkage_overallocation_invariant.py:102-155 | between checks a transaction alone may make exactly the writes its own view accepts |
| `LinkageSerial.WriteTakesEffect` | backend/alembic/versions/029_linkage_overallocation_invariant.py:102-155 | a write shows in the writer's view as its effect and queues exactly the parents its triggers check |
| `LinkageSerial.WaitsIffHeld` | backend/alembic/versions/029_linkage_overallocation_invariant.py:43-53 | a transaction waits for another exactly when that one holds a row it wants to lock or write; otherwise it acts as if alone |
| `LinkageSerial.StepTouchesItsOwn` | backend/alembic/versions/029_linkage_overallocation_invariant.py:43-95 | a step leaves every other transaction alone, the committed tables unless it is a commit, and ends its transaction exactly by commit, rollback or a failed comparison |
| `LinkageMigrations.SumLinked` | backend/alembic/versions/032_linkage_capacity_live_filter.py:75-80 | the aggregate loop computes the filtered sum |
| `LinkageMigrations.AssertNoOverAllocation` | backend/alembic/versions/032_linkage_capacity_live_filter.py:50-110 | raises exactly when a given side exceeds its quantity, order side first, with the offending figures |
| `LinkageMigrations.Preflight` | backend/alembic/versions/029_linkage_overallocation_invariant.py:158-180 | returns exactly one row, with its figures, for each over-allocated parent of the kind, in ascending order of ids |
| `LinkageMigrations.Database.Upgrade029` | backend/alembic/versions/029_linkage_overallocation_invariant.py:183-243 | installs if and only if unfiltered capacity holds, otherwise refuses and changes nothing, reporting exactly the over-allocated orders and contracts |
| `LinkageMigrations.Database.Upgrade032` | backend/alembic/versions/032_linkage_capacity_live_filter.py:160-166 | installs the live-side rule without a scan; data within the 029 rule is within it |
| `LinkageMigrations.Database.Downgrade032` | backend/alembic/versions/032_linkage_capacity_live_filter.py:169-173 | reinstalls the 029 function without a scan; data within the live-side rule is within the unfiltered one if and only if the linkages to dead rows fit as well |
| `LinkageTables.EveryFitsIffDeadSidesFit` | backend/alembic/versions/032_linkage_capacity_live_filter.py:113-157 | within the live-side rule, unfiltered capacity holds if and only if every parent with dead-side linkages has live plus dead tonnage at most its quantity |
| `LinkageMigrations.LiveSideNeedsTerminalStatuses` | backend/alembic/versions/032_linkage_capacity_live_filter.py:50-110 | a state fine under 032 violates 029, and reopening one closed contract would over-allocate |
| `LinkageDowngrade.DowngradeCanLandOverAllocated` | backend/alembic/versions/032_linkage_capacity_live_filter.py:160-173 | a run of the protocol from tables within the 029 rule (upgrade, one transaction that cancels a contract and links its order elsewhere, downgrade) commits an order over-allocated under the reinstalled function |
| `LinkageDowngrade.DowngradeSafeIff` | backend/alembic/versions/032_linkage_capacity_live_filter.py:169-173 | after any run, every later run on the reinstalled function stays within the unfiltered rule if and only if the dead linkages fitted at the downgrade |
| `Decimals.HalfEvenSpec` | backend/app/core/precision.py:26-39 | the computed rounding is exactly roundTiesToEven (section 4.3.1 of IEEE 754-2008), which determines it |
| `Decimals.HalfEvenMonotone` | backend/app/core/precision.py:34-35 | quantisation is monotone |
| `Decimals.HalfEvenOdd` | backend/app/core/precision.py:34-35 | quantisation is odd-symmetric |
| `Decimals.HalfEvenExact` | backend/app/core/precision.py:34-35 | quantisation is the identity on the grid and idempotent |
| `Decimals.StorableAmountIsExact` | backend/app/services/cashflow_ledger_service.py:89-116 | an amount that fits Numeric(18, 6) is the half-even rounding of the exact product: the 28-digit context never rounds first |
| `Decimals.LargeAmountsRoundTwice` | backend/app/core/precision.py:6-13 | a larger product is rounded twice and differently |
| `Decimals.ContextRoundFixedIff` | backend/app/services/cashflow_projection_service.py:124 | the context leaves a product alone if and only if it has at most 28 significant digits |
| `Decimals.RunningTotalsExactIff` | backend/app/services/cashflow_projection_service.py:225-226 | every running total of sum() is exact if and only if every exact running total has at most 28 digits |
| `Decimals.LargeSumRounds` | backend/app/services/cashflow_projection_service.py:225-226 | a longer sum loses a unit |
| `Decimals.ContextRoundSpec` | backend/app/services/cashflow_projection_service.py:124 | every value is rounded once, half to even, to the smallest power of ten that leaves 28 digits |
| `Decimals.LegAmountIff` | backend/app/services/cashflow_ledger_service.py:89-116 | a leg amount is the product rounded to 28 digits and then to the micro-dollar, and is refused exactly from half a unit below 10^28 of them on |
| `SettlementLedger.LedgerService.ValidateReplay` | backend/app/services/cashflow_ledger_service.py:188-214 | the loop with its growing set of seen legs decides the replay check |
| `SettlementLedger.LedgerService.BuildExpected` | backend/app/services/cashflow_ledger_service.py:261-263 | builds one entry per leg or fails with the first faulty leg's error, as `SettlementVerdict` says which |
| `SettlementLedger.LedgerService.Settle` | backend/app/services/cashflow_ledger_service.py:217-301 | the in-place service has the outcome and new state of the ingestion specification, which `SettlementVerdict` states without naming it |
| `SettlementVerdict.AcceptedIff` | backend/app/services/cashflow_ledger_service.py:217-301 | a new event on an active contract is accepted if and only if the currency is absent or USD, there are two positive legs, FIXED and FLOAT in either order, fixed price and quote are present, each leg pays out exactly when its side buys, and each amount is the storable half-even rounding of quantity times price; it then writes the event and one row per leg, settles the contract and changes nothing else |
| `SettlementVerdict.RefusedWith` | backend/app/services/cashflow_ledger_service.py:77-301 | every other new event changes nothing and reports the first fault: payload, contract, status, stray entries, then leg by leg price, quote, length, direction, amount, and last the column width |
| `SettlementVerdict.ReplayVerdict` | backend/app/services/cashflow_ledger_service.py:55-70 | whatever rows are stored, a replay passes exactly for the event's own contract and date with a row confirming each leg; otherwise it is a conflict or a mismatch, as stated |
| `SettlementRuns.BuiltPair` | backend/app/services/cashflow_ledger_service.py:77-157 | an accepted settlement builds one entry per leg, matching the payload, with price provenance on the FLOAT leg only |
| `SettlementRuns.RequestKeepsInv` | backend/app/services/contract_service.py:168-336 | each settlement, status transition, edit, archiving and deletion the services carry out keeps the ledger consistent |
| `SettlementRuns.RowAfterRequest` | backend/app/services/contract_service.py:168-336 | what each request leaves in the row of every contract, and that it touches no other |
| `SettlementRuns.LedgerIsConsistent` | backend/app/services/cashflow_ledger_service.py:244-259 | over every run, deletions included: one FIXED and one FLOAT entry per event, one event per contract, that contract closed, and entries without an event unreachable |
| `SettlementRuns.EventsArePermanent` | backend/app/services/cashflow_ledger_service.py:265-290 | no later run, deletions included, alters an event or its entries |
| `SettlementRuns.SettledIffNotDeleted` | backend/app/services/contract_service.py:312-336 | after an accepted settlement and any run, the contract is settled if and only if the run did not delete it; otherwise it is cancelled |
| `SettlementRuns.DeleteAfterSettlement` | backend/app/services/contract_service.py:312-336 | the delete is accepted exactly when the contract was not soft-deleted before it settled, and leaves its event on a cancelled contract |
| `SettlementRuns.ReplayIffSameRequest` | backend/app/services/cashflow_ledger_service.py:55-70 | after any later run, the same event id is accepted if and only if contract, date and legs (in either order) are the same; it returns the stored receipt and never changes anything; otherwise it is reported as an unknown contract, a conflict (contract or date) or a mismatch (legs) |
| `CashflowProjection.Gather` | backend/app/services/cashflow_projection_service.py:100-149 | the append loop yields the items of a table or its first refusal |
| `CashflowProjection.Project` | backend/app/services/cashflow_projection_service.py:89-237 | items are a permutation of the contributions in date order, `OrderContributesIff` and `PositionContributesIff` saying which; inflows and outflows are sum() by sign; below 10^28 units in all, net is the plain sum of every amount |
| `CashflowProjection.FixedOrderIsPricedAtEntry` | backend/app/services/cashflow_projection_service.py:100-149 | a fixed-price order projects what the same order would at a market price equal to its entry price |
| `CashflowProjection.OrderContributesIff` | backend/app/services/cashflow_projection_service.py:71-149 | an order contributes an item if and only if it is live, priced, and due on or after the as-of date by its delivery end, or its start without an end; the item carries that date and quantity times price, negative for a purchase; which refusal otherwise |
| `CashflowProjection.PositionContributesIff` | backend/app/services/cashflow_projection_service.py:151-221 | the same for a contract: outstanding, settling on or after the date, fixed and market price present; the item is the price difference from the fixed leg's side; which refusal otherwise |
| `CashflowProjection.HedgeFixesThePrice` | backend/app/services/cashflow_projection_service.py:124-193 | at every market price, a variable order and a matching contract project together to the fixed price, off by exactly what the context takes from three computed values; each of the three is exact if and only if it has at most 28 digits |
| `CashflowProjection.LargeHedgeIsNotExact` | backend/app/services/cashflow_projection_service.py:124-193 | storable figures beyond that bound for which the pair projects to one unit less |
| `CashflowProjection.SettlementMatchesProjection` | backend/app/services/cashflow_projection_service.py:187-199 | booked net and projected amount agree within 10^-6 if and only if the legs are on opposite sides |
| `CashflowBaseline.BaselineService.BuildUnrealized` | backend/app/services/cashflow_baseline_service.py:121-186 | the loop yields each quantised amount with the provenance of its price, or the first refusal (no provenance, or more than 28 digits) |
| `CashflowBaseline.BaselineService.LoadRealized` | backend/app/services/cashflow_baseline_service.py:103-118 | selects and signs the ledger rows dated up to the as-of date |
| `CashflowBaseline.BaselineService.CreateSnapshot` | backend/app/services/cashflow_baseline_service.py:189-278 | the in-place service has the outcome and new table of the specification, which `BaselineContents` states without naming it |
| `BaselineContents.PayloadListsRows` | backend/app/services/cashflow_baseline_service.py:66-220 | the realised list of a computed payload is a permutation of one row per ledger row dated up to the as-of date, with every column, upper-case direction and sign; the unrealised list of one item per mark-to-market result, with its object, quantised amount and quantised price provenance |
| `BaselineContents.ComputedIff` | backend/app/services/cashflow_baseline_service.py:189-211 | a payload is computed if and only if no result or row has a fault and the totals fit 28 digits; otherwise the first fault is reported |
| `BaselineContents.FirstCallStores` | backend/app/services/cashflow_baseline_service.py:264-278 | the first call of a date stores that payload, total, hash and correlation, unless the total does not fit its column |
| `BaselineContents.LaterCallCompares` | backend/app/services/cashflow_baseline_service.py:224-263 | any later call changes nothing and answers the stored snapshot or the first discrepancy found |
| `BaselineContents.RealizedByDate` | backend/app/services/cashflow_baseline_service.py:34-53 | realised rows are in the order of date, contract, leg, source, event and id |
| `BaselineContents.ItemsByObject` | backend/app/services/cashflow_baseline_service.py:20-33 | unrealised items are in the order of object type and id |
| `CashflowBaseline.TotalsAreExact` | backend/app/services/cashflow_baseline_service.py:202-211 | the three quantised totals exist if and only if both sums and their sum are below 10^28 units, and are then exactly these |
| `CashflowBaseline.BaselineReconciles` | backend/app/services/cashflow_baseline_service.py:202-211 | the total is always exactly the unrealised plus the realised total; while running totals have at most 28 digits these are exactly the quantised sum and IN minus OUT up to the date |
| `CashflowBaseline.StoredAmountsFit` | backend/app/services/cashflow_baseline_service.py:205-209 | a ledger of up to 10^10 storable amounts, in any order, has running totals of at most 28 digits |
| `CashflowBaseline.BaselinesDifferByEntriesBetween` | backend/app/services/cashflow_baseline_service.py:66-118 | two baselines' realised totals differ by exactly the entries dated between them |
| `CashflowBaseline.CanonicalIgnoresRowOrder` | backend/app/services/cashflow_baseline_service.py:20-53 | with unique keys the canonical payload does not depend on row order |
| `CashflowBaseline.CanonicalIsIdempotent` | backend/app/services/cashflow_baseline_service.py:20-53 | canonicalising twice is canonicalising once, ties and legacy shape included |
| `CashflowBaseline.SnapshotsAreWriteOnce` | backend/app/services/cashflow_baseline_service.py:189-278 | over every run: at most one snapshot per date, in baseline shape, never moved or altered |
| `CashflowBaseline.RepeatSucceedsIffRecomputationAgrees` | backend/app/services/cashflow_baseline_service.py:232-263 | a repeat call changes nothing and succeeds if and only if recomputing gives the stored payload, price provenance and currency included |
| `CashConservation.RowShowsEntry` | backend/app/services/cashflow_ledger_service.py:261-290 | the stored row shows every column of an entry and determines it |
| `CashConservation.DirectedIsNet` | backend/app/services/cashflow_baseline_service.py:66-100 | the baseline's IN minus OUT is the signed cash of the settlement entries |
| `CashConservation.RequestMovesProjectedCash` | backend/app/services/cashflow_ledger_service.py:261-292 | an accepted settlement moves realised cash by its projected amount to within 10^-6; any other request moves nothing |
| `CashConservation.RealisedCashIsProjectedCash` | backend/app/services/cashflow_baseline_service.py:202-211 | over every run with opposite legs and at most 10^10 entries, a later baseline's realised total differs from the projected sum by at most 10^-6 per settlement |
| `BaselineArchive.SnapshotStore.Upgrade` | backend/alembic/versions/039_a3_cashflow_baseline_archive.py:89-162 | refuses on a null correlation, or on an archive that exists, or moves exactly the legacy rows |
| `BaselineArchive.SnapshotStore.Downgrade` | backend/alembic/versions/039_a3_cashflow_baseline_archive.py:165-219 | refuses with no change, for the first check an archived row fails or a constraint, or restores every archived row |
| `BaselineArchive.UpgradeSortsByShape` | backend/alembic/versions/039_a3_cashflow_baseline_archive.py:126-162 | each row ends unaltered in exactly one table, the archive if it has not the baseline shape |
| `BaselineArchive.DowngradeUndoesUpgrade` | backend/alembic/versions/039_a3_cashflow_baseline_archive.py:89-219 | downgrade after upgrade goes through if and only if every legacy row has a creation time, and restores the database |
| `BaselineArchive.DowngradeAfterWrites` | backend/alembic/versions/039_a3_cashflow_baseline_archive.py:176-196 | with baselines written in between, refused exactly when a date or id is taken or a creation time is missing; otherwise the disjoint union with unique dates |
| `BaselineArchive.LegacyConflictUnreachable` | backend/app/services/cashflow_baseline_service.py:243-248 | after the upgrade no run meets the legacy-shape conflict |
| `JsonRoundTrip.StringReads` | backend/app/services/audit_trail_service.py:216-220 | a pair-free string is read back from its escaped text |
| `JsonRoundTrip.ParseInvertsPrint` | backend/app/services/audit_trail_service.py:216-220 | the parser (RFC 8259, sections 2 to 7) inverts the printer under compact and default separators, whatever follows |
| `JsonRoundTrip.SameTextIffSameJoined` | backend/app/services/audit_trail_service.py:216-220 | two strings print alike if and only if they agree after joining surrogate pairs |
| `JsonRoundTrip.ParseGivesJoined` | backend/app/services/audit_trail_service.py:216-220 | reading any printed value gives it with surrogate pairs joined, and gives the value itself if and only if it has none |
| `JsonGrammar.ReadCharIff` | backend/app/api/dependencies/audit.py:69 | inside a string a character is read exactly when the text begins with one of its spellings (section 7 of RFC 8259), an escaped surrogate pair being one character |
| `JsonGrammar.WhiteSpaceIsIgnored` | backend/app/api/dependencies/audit.py:69 | white space of any kind and length, wherever section 2 of RFC 8259 allows it, makes no difference, and anything else after the value is refused |
| `CanonicalJson.SortedEqualIffSame` | backend/app/services/audit_trail_service.py:216-220 | key sorting identifies exactly the payloads equal up to key order |
| `CanonicalJson.SameTextIffSameJoinedSorted` | backend/app/services/audit_trail_service.py:216-220 | any two payloads share a canonical text if and only if they agree once keys are sorted and surrogate pairs joined |
| `CanonicalJson.SameTextIffSame` | backend/app/services/audit_trail_service.py:216-220 | payloads equal up to object key order share a canonical text, and among payloads without surrogate pairs only those do |
| `CanonicalJson.SurrogatePairCollides` | backend/app/services/audit_trail_service.py:216-220 | a concrete collision of two different payloads |
| `JsonColumn.LoadsGivesReadBack` | backend/app/models/audit.py:22 | reading the text written to a JSON column gives the value with surrogate pairs joined and, of keys that became equal, the last |
| `JsonColumn.CollapseKeepsLast` | backend/app/models/audit.py:22 | reading an object keeps its keys, each once, with the value given last |
| `JsonColumn.LoadedIsPlain` | backend/app/api/dependencies/audit.py:69 | a value read from any JSON text has distinct keys and no surrogate pair |
| `JsonColumn.SurvivesIff` | backend/app/services/audit_trail_service.py:216-220 | sorting keys commutes with the trip through the column if and only if joining surrogate pairs keeps the order of keys in every object |
| `JsonColumn.TextSurvivesIff` | backend/app/services/audit_trail_service.py:189-220 | so a payload keeps its canonical text through a JSON column under exactly that condition |
| `AuditTrail.AuditTrailService.Record` | backend/app/services/audit_trail_service.py:75-120 | records a signed event, its payload as the column gives it back, if and only if the id is new and a key is configured; otherwise changes nothing |
| `AuditTrail.ReplacedPayloadVerdict` | backend/app/services/audit_trail_service.py:189-213 | an event as signed verifies, and after replacing its payload by any value the verdict is valid if the two agree once keys are sorted and surrogate pairs joined, payload mismatch otherwise |
| `AuditTrail.VerdictIff` | backend/app/services/audit_trail_service.py:189-213 | the exact condition of each of the six verdicts on any event: valid if and only if the payload has the stored text, the text the stored checksum, and the signature is the key's for that checksum |
| `AuditTrail.TamperedColumnVerdict` | backend/app/services/audit_trail_service.py:189-213 | replacing the text, checksum or signature of an event as signed, or verifying under a key that signs differently, is reported as what it is |
| `AuditTrail.ForgedPayloadNeedsEveryColumn` | backend/app/services/audit_trail_service.py:189-213 | an event that passes for another payload differs in text, in checksum unless the texts collide, and in signature unless the checksums share one |
| `AuditTrail.ReorderedPayloadVerdict` | backend/app/services/audit_trail_service.py:189-213 | reordering keys keeps an event valid; without surrogate pairs any other change is a payload mismatch |
| `AuditTrail.StoredVerdict` | backend/app/services/audit_trail_service.py:112-120 | a recorded event read back untouched verifies if and only if joining surrogate pairs keeps the key order in every object of its payload, and is a payload mismatch otherwise |
| `AuditTrail.SwappingPayloadMismatch` | backend/app/services/audit_trail_service.py:189-213 | an untouched event of a two-key payload that is reported as a mismatch |
| `AuditTrail.RequestPayloadHolds` | backend/app/api/dependencies/audit.py:67-99 | the payload recorded for a request is the value of its body, null without one, with any metadata beside it under its own key |
| `AuditTrail.RequestEventVerdict` | backend/app/api/dependencies/audit.py:67-99 | for every request body that is JSON, the event recorded of it, with or without metadata, verifies if and only if the metadata keeps its key order |
| `AuditTrail.TrailOnlyGrows` | backend/app/services/audit_trail_service.py:88-120 | over every run no event changes or disappears, and every new one is what some call recorded |
| `AuditTrail.TrailVerifiesIff` | backend/app/services/audit_trail_service.py:75-120 | over every run every stored event verifies if and only if every event did at the start and every accepted payload keeps its key order |
| `AuditTrail.PlainTrailVerifies` | backend/app/services/audit_trail_service.py:75-120 | so the trail always verifies when no payload holds a surrogate pair |
| `Pagination.Paginate` | backend/app/core/pagination.py:37-73 | the step-by-step query returns the specified page and cursor |
| `Pagination.QuerySpec` | backend/app/core/pagination.py:55-62 | the query returns exactly the rows after the cursor, strictly ascending |
| `Pagination.WalkAscends` | backend/app/core/pagination.py:37-73 | with rows coming and going between pages, keys strictly ascend and no row repeats |
| `Pagination.WalkMissesNothing` | backend/app/core/pagination.py:37-73 | a row present throughout a completed walk is returned exactly once |
| `Pagination.FixedTableWalk` | backend/app/core/pagination.py:37-73 | on a fixed table the walk lists every row in order and ends after the specified number of pages |
| `Pagination.PagesForIsCeiling` | backend/app/core/pagination.py:62-71 | that number is max(1, ceil(n / limit)) |
| `Pagination.LimitZeroLosesEverything` | backend/app/core/pagination.py:65-71 | with limit 0 no row is ever returned |
| `Pagination.CursorRoundTrip` | backend/app/core/pagination.py:19-34 | decoding an encoded cursor gives its key |
| `Pagination.DecodesIff` | backend/app/core/pagination.py:25-34 | a cursor decodes exactly when the texts before and after its first bar read as timestamp and id; any other is refused |
| `SequenceBackfill.RowNumberIsCount` | backend/alembic/versions/031_pnl_snapshot_sequence.py:71-133 | ROW_NUMBER and the correlated count give every row the same number |
| `SequenceBackfill.BackfillIncreases` | backend/alembic/versions/031_pnl_snapshot_sequence.py:71-81 | numbers increase with (created_at, id) and are distinct |
| `SequenceBackfill.BackfillIsOntoOneToN` | backend/alembic/versions/031_pnl_snapshot_sequence.py:71-81 | the numbers given are exactly 1..n |
| `SequenceBackfill.RowNumbers` | backend/alembic/versions/031_pnl_snapshot_sequence.py:71-81 | the sorted numbering loop assigns each row its rank |
| `SequenceBackfill.CountRows` | backend/alembic/versions/031_pnl_snapshot_sequence.py:123-133 | the counting loop computes the correlated subquery |
| `SequenceBackfill.MaxPlusOne` | backend/app/models/deal.py:443-448 | the SQLite default exceeds every existing number, and is 1 or one past an existing one |
| `SequenceBackfill.SnapshotTable.UpgradePostgres` | backend/alembic/versions/031_pnl_snapshot_sequence.py:62-115 | ranks every row, leaves nextval at n + 1, and from there every run keeps defaults ahead if and only if no number is given ahead of the counter |
| `SequenceBackfill.SnapshotTable.UpgradeSqlite` | backend/alembic/versions/031_pnl_snapshot_sequence.py:116-133 | ranks every row by the correlated count |
| `SequenceBackfill.FreshThroughoutIff` | backend/app/models/deal.py:420-448 | from a realigned sequence, the next default exceeds every number in use at every moment of a run if and only if each given number was below the counter when given |
| `SequenceBackfill.DefaultsAscend` | backend/app/models/deal.py:420-448 | over every run of inserts, deletes and rollbacks the defaults strictly ascend from the counter at the start to the counter at the end |
| `SequenceBackfill.CounterAdvances` | backend/app/models/deal.py:420-448 | the counter advances once per default and per rolled-back insert, and otherwise not |
| `SequenceBackfill.UsedAfterRun` | backend/app/models/deal.py:420-448 | the numbers in use after a run are those given and not deleted since, and those of the start never deleted |
| `SequenceBackfill.Realign` | backend/alembic/versions/031_pnl_snapshot_sequence.py:84-99 | the counter set from the maximum is past every number and tight, empty column included |
| `PartnerSplit.IdsReferencing` | backend/alembic/versions/049_commercial_partners_foundation.py:60-65 | returns exactly the non-null references into the given ids |
| `PartnerSplit.EventHits` | backend/alembic/versions/049_commercial_partners_foundation.py:113-129 | finds exactly the trigger and winner references into the given ids, and raises exactly on winners that are JSON and cannot be iterated over |
| `PartnerSplit.Store.OffendingIds` | backend/alembic/versions/049_commercial_partners_foundation.py:68-135 | reports exactly the brokers and banks that orders point at, or without any exactly the customers and suppliers that scanned hedge references point at |
| `PartnerSplit.Store.Upgrade` | backend/alembic/versions/049_commercial_partners_foundation.py:138-339 | goes through if and only if every scanned reference that resolved still will and the scan does not raise, refused it changes nothing; ids are split disjointly and completely, customers and suppliers move with kind, details, credit figures, their currency and terms under both kind checks, brokers and banks stay, statuses are reset, tax ids stay unique |
| `PartnerSplit.RefusesIffAReferenceWouldDangle` | backend/alembic/versions/049_commercial_partners_foundation.py:68-135 | the pre-check passes if and only if every scanned reference that resolved still resolves |
| `PartnerCompliance.Row.Patch` | backend/app/services/commercial_partner_service.py:97-157 | the in-place update has the outcome of the specification, which `PartnerHistory.UpdateOutcome` states field by field |
| `PartnerCompliance.IdentityChangesIff` | backend/app/services/commercial_partner_service.py:129-151 | the comparison made before writing is true exactly when an identity column changes |
| `PartnerCompliance.UpdateIsIdempotent` | backend/app/services/commercial_partner_service.py:124-157 | patching twice with the same data is patching once |
| `PartnerCompliance.StepKeepsApprovedIdentity` | backend/app/services/counterparty_service.py:79-145 | no step of either service keeps an approval across an identity change |
| `PartnerCompliance.ApprovalIsForCurrentIdentity` | backend/app/services/commercial_partner_service.py:97-191 | over every history an approval in force was granted, sanctions clear for a commercial partner, to the identity the row still has |
| `PartnerCompliance.CreditStaysExclusive` | backend/app/services/commercial_partner_service.py:193-237 | over every history credit fields stay with the partner's kind |
| `PartnerHistory.UpdateRefusedIff` | backend/app/services/commercial_partner_service.py:97-122 | an update is refused exactly when it names a protected field, for the first of them |
| `PartnerHistory.UpdateOutcome` | backend/app/services/commercial_partner_service.py:124-157 | after an accepted update every field has its new value, nulls blanking exactly the optional ones of a commercial partner, and compliance has fallen exactly when an identity field changed |
| `PartnerHistory.KycOutcome` | backend/app/services/commercial_partner_service.py:159-191 | a transition is refused on a deleted row, and for approving a commercial partner that is not clear |
| `PartnerHistory.CreditApprovedIff` | backend/app/services/commercial_partner_service.py:193-237 | credit is approved exactly for a clear partner, columns of its own kind and storable amounts; each named column then holds what was sent, quantised; which error otherwise |
| `PartnerHistory.CreditChangesOnlyWhenClear` | backend/app/services/commercial_partner_service.py:193-237 | no step changes credit but an approval of a commercial partner that is clear |
| `PartnerHistory.CreditWasApproved` | backend/app/services/commercial_partner_service.py:193-237 | over every history, each credit column that is set was approved while the partner was clear and has held what was sent since |
| `PartnerHistory.StatusIsForScreenedIdentity` | backend/app/services/commercial_partner_service.py:143-151 | over every history, a screening result shown was written by a screening of the identity the row still has |
| `PartnerHistory.DeletionIsFinal` | backend/app/services/commercial_partner_service.py:239-250 | over every history a row ends deleted exactly when it was deleted, and a deleted row is never approved anew |
| `PriceReferences.AutomatonIsPattern` | backend/alembic/versions/030_pnl_provenance.py:142-144 | the CHECK's automaton accepts exactly the texts the validator's pattern does |
| `PriceReferences.SameDates` | backend/app/models/deal.py:392-410 | both sides accept the same date texts, calendar validity included |
| `PriceReferences.AcceptedDatesAreCalendarDates` | backend/app/models/deal.py:392-410 | both accept exactly the texts of calendar dates |
| `PriceReferences.MonthsFillTheYear` | backend/app/models/deal.py:392-410 | the months of every year add up to its days by the Gregorian rule |
| `PriceReferences.ValidateOrm` | backend/app/models/deal.py:277-411 | the validator loop accepts exactly None and the dictionaries whose entries pass its own pattern and calendar |
| `PriceReferences.AssertShape` | backend/alembic/versions/030_pnl_provenance.py:74-149 | the CHECK loop accepts exactly SQL NULL and the objects whose entries pass its own automaton and calendar |
| `PriceReferences.ProducedEntryAcceptedIff` | backend/app/models/deal.py:277-411 | the entry of a market price passes both sides exactly when the price is written without a power of ten and the date is in the calendar |
| `PriceReferences.EntryNeedsItsTexts` | backend/alembic/versions/030_pnl_provenance.py:97-146 | an entry either side accepts has all three fields, as strings |
| `PriceReferences.DocumentAcceptedIff` | backend/alembic/versions/030_pnl_provenance.py:97-146 | a document with the same entries, in any order, passes the CHECK exactly when the validator accepted the original; two entries are the same if their three tested texts are, surrogate pairs joined, whatever their other fields |
| `PriceReferences.ReorderingIsSameDocument` | backend/alembic/versions/030_pnl_provenance.py:97-146 | reordering members at any depth gives the same document |
| `PriceReferences.StoredAcceptedIff` | backend/app/models/deal.py:70-73 | the CHECK accepts a value as stored if and only if the validator accepts it and it is not None or the column type has none_as_null |
| `PriceReferences.UnpricedSnapshotIsRefused` | backend/app/services/deal_engine.py:805-806 | the None of a deal without market prices passes the validator and, stored without that flag, is refused |
| `PriceReferences.QuantisedPriceRoundTrips` | backend/app/core/precision.py:30-31 | a price at six places prints with six decimals, is accepted by both sides and reads back to its coefficient |
| `PriceReferences.DecimalStrReads` | backend/app/core/precision.py:26-31 | every decimal prints such that its digits read back to the coefficient and the power shown, less the decimals, is its exponent |
| `PriceReferences.PrintedDecimalAcceptedIff` | backend/app/models/deal.py:277-411 | both sides accept the text of a decimal exactly when it is written without a power of ten |
| `ReviewLoop.DemoteSelfRefuting` | scripts/dispatch_review/client.py:161-188 | the two-list loop computes the demotion |
| `ReviewLoop.DemotionLosesNothing` | scripts/dispatch_review/client.py:161-188 | kept and demoted findings together are exactly the P1 findings, split by the test |
| `ReviewLoop.DemotionIsIdempotent` | scripts/dispatch_review/client.py:161-188 | demoting twice is demoting once |
| `ReviewLoop.ToolResults` | scripts/dispatch_review/client.py:404-438 | one log entry and one result per tool call, in order |
| `ReviewLoop.OneTurn` | scripts/dispatch_review/client.py:319-451 | the body of one iteration has exactly the specified outcome |
| `ReviewLoop.LogTellsTheTruth` | scripts/dispatch_review/client.py:404-431 | the log shows a successful known tool only if the turn called one that succeeded |
| `ReviewLoop.TurnAnswersIff` | scripts/dispatch_review/client.py:338-451 | a continued turn leaves every call answered under its own id if and only if that held before and, if the turn has a report, every call has the report's id |
| `ReviewLoop.ParallelCallsGoUnanswered` | scripts/dispatch_review/client.py:374-400 | such turns exist from every unbacked state: an investigation beside a rejected report goes unanswered |
| `ReviewLoop.CallReview` | scripts/dispatch_review/client.py:298-453 | ends within twelve turns; one repair; alternating transcript, every call in it answered if and only if no continued turn had a report beside a call with another id; the report returned is the demotion of one the model made in the last turn, within the token budget, and any P1 follows an earlier turn in which a known tool succeeded |
| `ReviewHistory.OutcomeIsFirstVerdict` | scripts/dispatch_review/client.py:298-453 | the review ends with the first turn that has a verdict, and with that verdict, or unconverged after twelve; verdict and transcript are stated from the turns alone: budget, first report, repair already asked, standing P1 findings, successful tool calls before it |
| `ReviewHistory.FirstReportIsFirst` | scripts/dispatch_review/client.py:338-372 | the report acted on is the first in the turn |
| `ReviewHistory.DemotionVerdict` | scripts/dispatch_review/client.py:161-188 | a P1 finding stays P1 exactly when it is protected or does not refute itself; the others become P2 under their new labels, after those already there |
| `ReviewHistory.DemotedIsInjective` | scripts/dispatch_review/client.py:161-188 | a relabelled finding keeps its body and ends in its old rule and fix |

## Left out

- Deadlock freedom of the capacity triggers, which depends on foreign-key share locks and multi-statement transactions.
- Hard deletion of orders and contracts, which the foreign keys restrict; savepoints inside a transaction.
- The application-level capacity checks in the linkage and contract services, which repeat what the triggers enforce.
- Concurrent settlement of one contract: the service takes no row lock, so requests are serial steps here.
- Pagination.CursorRoundTrip: is over the text before base64, with the timestamp and id formats as any inverse pair, because both come from the standard library.
- Dictionary keys that are not strings, which `json.dumps` coerces to strings.
- JsonColumn.LoadsGivesReadBack: of equal keys the last stands in its own place, where Python keeps the place of the first; no result depends on the order of keys.
- NaN and infinities in an audit payload, whose insert PostgreSQL refuses; JSON numbers of a request body spelled otherwise than Python prints them, which read as values it does print.
- PriceReferences.StoredAcceptedIff: is about values jsonb stores entry by entry; texts with a NUL or a lone surrogate, which it refuses, and commodity keys that become equal when surrogate pairs are joined have no stored form in `StoredAs`.
- Non-ASCII digits in price provenance, which the two regular-expression engines classify differently.
- The winners column of an RFQ event when it is not JSON: the migration does not scan it, so nothing is promised about ids inside it.
- Pattern texts of the review client and the repair, rejection and nudge wording; the patterns are arbitrary tests on a finding.
- Retry and backoff of the model API; a call that fails for good ends the review with an error.
- Surrogate keys, timestamps and reasons of archive rows; row counts inside the baseline payload, which its lists determine.
- The upper-casing of non-ASCII letters in a ledger row's direction, none of which make a direction.
- Negative page limits, which the routes exclude.
- Mark-to-market computation, price lookup, deal engine, RFQ and workflow services, authentication, schemas, user interface and seed scripts.

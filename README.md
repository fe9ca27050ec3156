# TechTex inventory ledger — a Dafny model

This project models the logic of the TechTex fabric inventory app. The app is a
React single-page application that keeps a list of fabrics. Each fabric has an
initial stock and a ledger of transactions: purchases, and usage requests that an
admin approves, rejects, soft-deletes or restores. The model covers:

- **Stock** (`stock.dfy`). A fabric's available stock is its initial stock, plus
  all purchases, minus the usages that are Confirmed and not soft-deleted. The model
  proves this equals the sum of per-transaction effects, so the result does not
  depend on transaction order. It also proves how appending or replacing one
  transaction moves the stock.
- **Workflow** (`workflow.dfy`). These are the handlers that rebuild the fabric
  list: approve/reject, soft-delete, restore of a usage, restore of a fabric,
  appending a transaction, and adding or editing a fabric. Each is proved to change
  only its target record. Restore undoes delete, and each transition's effect on
  stock is proved.
- **Notifications** (`notifications.dfy`). The admin-mode pass is modelled as
  methods with loop invariants, proved against specification functions:
  - it builds low-stock, pending-approval and shipment-reminder candidates from the
    fabric list;
  - it merges them into the stored notifications by id, emitting each new one once,
    then prunes entries that are no longer candidates.

  The proofs cover the candidate ids exactly, id uniqueness, survival of stored
  entries and their read flags, and idempotence of a second pass. Marking one or all
  notifications read is also modelled.
- **Admin panel** (`admin_panel.dfy`). The nested loops that sort every usage into
  the pending, approved and rejected tabs or the 30-day recycle bin are modelled,
  followed by the two newest-first sorts. The proofs cover:
  - partition and membership, including the owning fabric's code and id on each row;
  - sortedness and permutation of each tab;
  - the recycle-bin count;
  - that Approve and Reject are offered only on Pending rows.
- **Usage form** (`usage_form.dfy`). This covers the bag list (add, remove with a
  one-bag minimum, edit one field), the computed total, JavaScript's `trim`, and the
  submit guard with the record it produces.
- **Dashboard** (`dashboard.dfy`). The fabric list filter: live fabrics of the
  active category whose code contains the search term, ignoring case.

Dates are integer millisecond timestamps, and quantities are exact `real`s. An
optional field of the source is an `Option`. The clock, fresh ids and the admin flag
are parameters.

## Model

| member | source | states |
|---|---|---|
| Stock.AvailableStock | src/App.tsx:65-75 | available stock of a fabric; specified by Stock.AvailableStockIsNetChange, Stock.AvailableStockOrderIndependent and Stock.AppendEffect |
| Stock.AvailableStockIsNetChange | src/App.tsx:65-75 | initial stock + purchases − Confirmed, non-deleted usage equals initial stock plus the sum of per-transaction effects |
| Stock.TotalsMatchNetChange | src/App.tsx:66-74 | the two filtered `reduce` sums differ by exactly the summed effects of the transactions |
| Stock.NetChangePermutation | src/App.tsx:65-75 | the summed effects depend only on the multiset of transactions |
| Stock.AvailableStockOrderIndependent | src/App.tsx:65-75 | two fabrics with the same initial stock and the same transactions in any order have the same available stock |
| Stock.AppendEffect | src/App.tsx:65-75 | appending a transaction moves the stock by its effect; a Pending, Rejected or deleted usage does not move it |
| Stock.ReplaceEffect | src/App.tsx:65-75 | replacing one transaction moves the stock by the new effect minus the old |
| Workflow.UpdateUsageStatus | src/App.tsx:238-256 | only usages with the id in fabrics with the id change; they get the status, actionBy "Admin" and the action date, whatever their previous status; every other field, transaction and fabric is unchanged |
| Workflow.ApproveUsage | src/App.tsx:258-260 | only the targeted usage changes, and it becomes Confirmed |
| Workflow.RejectUsage | src/App.tsx:262-264 | only the targeted usage changes, and it becomes Rejected |
| Workflow.DeleteUsage | src/App.tsx:266-288 | the target gets isDeleted, deletedBy "Admin", deletedAt now, originalStatusBeforeDelete = its status, and the fixed reason; its status and every non-audit field are unchanged; nothing else changes |
| Workflow.RestoreUsage | src/App.tsx:290-304 | the target loses all five deletion-audit fields, so it is no longer deleted; its other fields are unchanged; nothing else changes |
| Workflow.RestoreUndoesDelete | src/App.tsx:266-304 | restore after delete gives back the original fabric list when the target carried no deletion fields |
| Workflow.RestoreFabric | src/App.tsx:214-216 | only the named fabric's isDeleted changes, to false |
| Workflow.AddTransaction | src/App.tsx:218-222 | the transaction is appended to the end of the named fabric's list; everything else is unchanged |
| Workflow.AddOrEditFabric | src/App.tsx:198-212 | an edit overwrites the form fields of the fabric with that id and keeps its id, transactions and deletion flag; an add appends one fabric with the fresh id, no transactions and isDeleted false |
| Workflow.NewFabricStock | src/App.tsx:198-212 | a newly added fabric's stock is its initial stock, and it is not deleted |
| Workflow.RestoreFabricStock | src/App.tsx:214-216 | restoring a fabric leaves every fabric's stock unchanged |
| Workflow.EditFabricStock | src/App.tsx:198-200 | editing a fabric moves its stock by the change of its initial stock, since its transactions are kept; other fabrics keep their stock |
| Workflow.DecisionStockEffect | src/App.tsx:238-264 | approving a live Pending usage lowers its fabric's stock by the usage total; rejecting it leaves the stock unchanged |
| Workflow.DeleteRestoreStockEffect | src/App.tsx:266-304 | deleting a Confirmed usage gives its total back to the stock, and deleting any other usage changes nothing; restoring after deleting brings the stock back to its value before the delete |
| Workflow.AddTransactionStockEffect | src/App.tsx:218-222 | appending moves the target fabric's stock by the transaction's effect and leaves other fabrics' stock alone; a Pending usage moves nothing |
| Notifications.Candidates | src/App.tsx:87-133 | the candidate list of one pass; specified by Notifications.LowStockCandidateIff, Notifications.UsageCandidateIds and Notifications.CandidatesUnread |
| Notifications.GenerateCandidates | src/App.tsx:87-133 | the nested `forEach` loops produce exactly the candidate list of the specification |
| Notifications.PushFabricCandidates | src/App.tsx:88-132 | one fabric's callback appends that fabric's candidates: none when deleted, else a low-stock entry when stock < 20, then its usages' entries |
| Notifications.PushTxCandidates | src/App.tsx:104-131 | one usage's callback appends its pending entry (when Pending), then its shipment entry (when due in the window), and nothing for purchases or deleted usages |
| Notifications.CandidatesUnread | src/App.tsx:93-130 | every candidate is unread |
| Notifications.CandidateIdsByFabric | src/App.tsx:87-133 | a candidate id is a candidate of the pass iff at least one of the fabrics' own candidate lists yields it (fabric ids need not be distinct, so two fabrics may yield the same id) |
| Notifications.CandidateIdsByTransaction | src/App.tsx:104-131 | within a fabric, a usage candidate id comes from one of its transactions |
| Notifications.IdFamilies | src/App.tsx:94-123 | low-stock, pending and shipment ids never coincide, and each id determines the fabric or usage id in it |
| Notifications.TxCandidateIds | src/App.tsx:104-131 | a transaction yields `pending-X` iff it is the live Pending usage X, yields `shipment-X` iff it is live usage X due within the window, and never yields a low-stock id |
| Notifications.LowStockCandidateIff | src/App.tsx:88-101 | `low-stock-X` is a candidate iff some non-deleted fabric with id X has stock below 20 |
| Notifications.UsageCandidateIds | src/App.tsx:104-131 | `pending-X` is a candidate iff a live usage X of a live fabric is Pending; `shipment-X` iff such a usage of any status has its shipment date within today..today+5 days inclusive |
| Notifications.FindIndex | src/App.tsx:138 | the first position holding the id, or -1 exactly when the id is absent |
| Notifications.NewEntries | src/App.tsx:137-144 | the appended entries are candidates whose ids were not stored; no id repeats; their ids are the candidate ids minus the stored ids |
| Notifications.KeepIdsMembers | src/App.tsx:146-147 | the filter keeps exactly the entries whose id is valid |
| Notifications.KeepIdsUnique | src/App.tsx:146-147 | filtering keeps ids unique |
| Notifications.KeepIdsAll | src/App.tsx:146-147 | filtering a list whose ids are all valid returns it unchanged |
| Notifications.KeepIdsConcat | src/App.tsx:146-147 | filtering distributes over a tail whose ids are all valid |
| Notifications.Reconcile | src/App.tsx:135-148 | the copy, `findIndex` and `push` loop and the final filter emit exactly the new entries and return the specified merged list |
| Notifications.NotificationPass | src/App.tsx:78-150 | outside admin mode nothing changes and nothing is emitted; in admin mode the result is the merge of the fabric list's candidates |
| Notifications.Reconciled | src/App.tsx:135-148 | the list after the merge; specified by Notifications.ReconciledIds, Notifications.ReconciledKeepsStored and Notifications.ReconciledUnique |
| Notifications.ReconciledShape | src/App.tsx:136-147 | surviving stored entries come first in stored order, then the new entries in candidate order |
| Notifications.ReconciledIds | src/App.tsx:146-147 | after the merge the ids are exactly the candidate ids |
| Notifications.ReconciledUnique | src/App.tsx:136-147 | no id appears twice afterwards if none did before |
| Notifications.ReconciledKeepsStored | src/App.tsx:136-147 | a stored entry whose id is still a candidate survives unchanged (read flag, message, createdAt); any other entry is a new candidate |
| Notifications.EmittedOncePerNewId | src/App.tsx:137-143 | the emitted entries are unread, have distinct ids, and their ids are exactly the candidate ids not stored before |
| Notifications.ReconcileIdempotent | src/App.tsx:135-148 | merging again with candidates having the same ids emits nothing and returns the same list |
| Notifications.CandidateIdsIgnoreNow | src/App.tsx:93-130 | candidate ids do not depend on the current instant, only on the day |
| Notifications.PassIdempotent | src/App.tsx:78-150 | a second pass on unchanged data the same day emits nothing and leaves the stored list as it is |
| Notifications.MarkRead | src/App.tsx:179-180 | only the clicked id becomes read; nothing else changes |
| Notifications.MarkAllRead | src/App.tsx:193-195 | every entry becomes read; nothing else changes, ids included |
| Notifications.MarkAllReadIdempotent | src/App.tsx:193-195 | marking all read twice equals marking once |
| Notifications.ReadFlagSurvives | src/App.tsx:136-147 | a notification the user has read stays in the list, still read, while it remains a candidate |
| AdminPanel.PushTx | components/AdminPanel.tsx:35-45 | one transaction's row goes to exactly the bucket the if / else-if chain picks; purchases add nothing |
| AdminPanel.PushFabric | components/AdminPanel.tsx:34-47 | the inner loop appends the fabric's usage rows to the buckets |
| AdminPanel.CollectBuckets | components/AdminPanel.tsx:34-47 | the nested loops produce exactly the specified buckets over every fabric's rows |
| AdminPanel.BuildPanel | components/AdminPanel.tsx:25-58 | the panel holds the three status buckets sorted by date, the deleted fabrics, and the recycle bin sorted by deletedAt, all as specified |
| AdminPanel.SelectMembers | components/AdminPanel.tsx:38-44 | a row is in a bucket iff it is a row and the chain picks that bucket |
| AdminPanel.BucketsPartition | components/AdminPanel.tsx:34-47 | the four buckets and the rows in no bucket account for every row exactly once (sizes add up) |
| AdminPanel.UsageRowsMembers | components/AdminPanel.tsx:35-37 | a fabric's rows are exactly its usages, each carrying that fabric's code and id; purchases give no row |
| AdminPanel.AllRowsMembers | components/AdminPanel.tsx:34-37 | the rows are those of the listed fabrics, deleted fabrics included |
| AdminPanel.LiveUsageBucket | components/AdminPanel.tsx:34-44 | a live usage of any listed fabric, even a deleted fabric, is in the tab of its status and in no other bucket |
| AdminPanel.DeletedUsageBucket | components/AdminPanel.tsx:31-40 | a deleted usage is in no status tab; it is in the recycle bin iff deletedAt is set and later than 30 days ago |
| AdminPanel.RecycleBinHasDeletedAt | components/AdminPanel.tsx:38-55 | every recycle-bin row is deleted and has deletedAt, so the second comparator always has a value |
| AdminPanel.DeletedFabrics | components/AdminPanel.tsx:49 | the deleted fabrics in list order; specified by AdminPanel.DeletedFabricsMembers and AdminPanel.DeletedFabricsConcat |
| AdminPanel.DeletedFabricsMembers | components/AdminPanel.tsx:49 | deletedFabrics holds exactly the fabrics with isDeleted set |
| AdminPanel.DeletedFabricsConcat | components/AdminPanel.tsx:49 | the filter distributes over concatenation, so deletedFabrics keeps list order |
| AdminPanel.SortDesc | components/AdminPanel.tsx:51-55 | the newest-first sort; specified by AdminPanel.SortDescCorrect |
| AdminPanel.InsertPermutes | components/AdminPanel.tsx:51-55 | one insertion step adds exactly the inserted row |
| AdminPanel.InsertSorted | components/AdminPanel.tsx:51-55 | one insertion step keeps the list newest first |
| AdminPanel.SortDescCorrect | components/AdminPanel.tsx:51-55 | each sort returns a permutation of its bucket, newest first by its key |
| AdminPanel.PanelCounts | components/AdminPanel.tsx:63-67 | the pending, approved and rejected tab counts are their buckets' sizes; the recycle-bin count is the deleted fabrics plus the recently deleted usages; all four sorted lists are newest first |
| AdminPanel.SortedTabMembers | components/AdminPanel.tsx:51-54 | a sorted tab holds only rows of its own bucket |
| AdminPanel.DecisionsOnlyInPendingTab | components/AdminPanel.tsx:136-140 | every pending-tab row offers Approve/Reject, and no approved- or rejected-tab row does |
| UsageForm.TotalFabricUsed | components/UsageForm.tsx:24-28 | the total shown and submitted; specified by UsageForm.TotalIsProduct |
| UsageForm.TotalIsProduct | components/UsageForm.tsx:24-28 | the total is (sum of bag quantities, missing as 0) × consumption, and 0 when the consumption is empty or 0 |
| UsageForm.TotalBagQuantitySplit | components/UsageForm.tsx:26 | the bag sum distributes over concatenation |
| UsageForm.BagTotalAround | components/UsageForm.tsx:26 | the bag sum is the other bags' sum plus the one bag's quantity |
| UsageForm.AddBag | components/UsageForm.tsx:36-38 | exactly one empty bag (size "", quantity 0) is appended; the rest are unchanged |
| UsageForm.RemoveBag | components/UsageForm.tsx:40-44 | the list never drops below one bag; with more than one, exactly the entry at the index goes and the rest keep their order; an index outside the list changes nothing |
| UsageForm.HandleBagChange | components/UsageForm.tsx:30-34 | only the named field of the entry at the index changes; the length is unchanged |
| UsageForm.ChangeBag | components/UsageForm.tsx:30-34 | the list with one field of one entry set, of the same length; UsageForm.HandleBagChange is proved to produce it |
| UsageForm.BagListNeverEmpty | components/UsageForm.tsx:19-44 | starting from the single initial bag, any sequence of add, remove and field edits leaves at least one bag |
| UsageForm.AddBagKeepsTotal | components/UsageForm.tsx:36-38 | adding a bag leaves the total unchanged |
| UsageForm.RemoveBagTotal | components/UsageForm.tsx:40-44 | removing a bag lowers the bag sum by that bag's quantity |
| UsageForm.BagChangeTotal | components/UsageForm.tsx:30-34 | editing a size leaves the sum unchanged; editing a quantity moves it by the difference |
| UsageForm.TrimStart | components/UsageForm.tsx:47 | the result is a suffix, starts with a non-white-space character, and only white space was dropped |
| UsageForm.TrimEnd | components/UsageForm.tsx:47 | the result is a prefix, ends with a non-white-space character, and only white space was dropped |
| UsageForm.Trim | components/UsageForm.tsx:47 | JavaScript `trim`; specified by UsageForm.TrimStart, UsageForm.TrimEnd and UsageForm.TrimEmptyIffBlank |
| UsageForm.CanSubmit | components/UsageForm.tsx:47 | the PO check of the submit guard; specified by UsageForm.BlankPoOnlyForAdmin |
| UsageForm.TrimEmptyIffBlank | components/UsageForm.tsx:47 | `trim()` is empty iff the text is all white space |
| UsageForm.BlankTrimsToEmpty | components/UsageForm.tsx:47 | white space alone trims to nothing |
| UsageForm.Submit | components/UsageForm.tsx:49-69 | a record is produced iff 0 < total ≤ available stock, every required field is non-empty, and the PO is not blank or the submitter is an admin; the record is Pending, carries the computed total and every form field (client, PO, dates, bags, machine, drawing and order numbers), and says Admin exactly for an admin |
| UsageForm.BlankPoOnlyForAdmin | components/UsageForm.tsx:47-52 | a whitespace-only PO number gets through only for an admin, and always for an admin when the rest of the guard holds |
| UsageForm.SubmittedRequestFitsStock | components/UsageForm.tsx:52 | the submitted request leaves the stock unchanged while Pending; once confirmed, the fabric's stock stays ≥ 0 |
| Dashboard.ToLowerProperties | src/App.tsx:341 | lower-casing keeps the length, leaves no ASCII capital, and is idempotent |
| Dashboard.IncludesIff | src/App.tsx:341 | `includes` holds iff the term occurs at some position |
| Dashboard.FilteredFabrics | src/App.tsx:336-341 | the dashboard list; specified by Dashboard.FilteredFabricsMembers and Dashboard.FilteredFabricsConcat |
| Dashboard.FilteredFabricsMembers | src/App.tsx:336-341 | the list holds exactly the non-deleted fabrics of the active category whose lower-cased code contains the lower-cased term |
| Dashboard.FilteredFabricsConcat | src/App.tsx:336-341 | filtering keeps list order, because it distributes over concatenation |
| Dashboard.EmptySearchShowsCategory | src/App.tsx:339-341 | an empty search term shows every live fabric of the category |
| Dashboard.SearchIgnoresCase | src/App.tsx:341 | the search term's case does not matter |

## Left out

- Browser storage: loading and saving the lists in localStorage. The stored lists are plain values here.
- The clock and date parsing. `today`, `now` and every date are integer timestamps passed in, so the following are not modelled:
  - time zones;
  - `setHours`/`setDate` across daylight-saving changes;
  - UTC versus local parsing of date strings;
  - unparsable dates.
- Id generation from `Date.now()`. Fresh ids are parameters, so id collisions between two records created in the same millisecond are not modelled.
- Email sending, `console.log` and message text. The email templates, `toFixed` and `toLocaleDateString` formatting are not modelled. A notification's message is the structured data it is rendered from, and an email is modelled only as membership in the emitted list.
- Floating-point arithmetic. Quantities are exact reals, so there is no rounding, no NaN and no Infinity. A number field that is empty or NaN is modelled as absent.
- React's state machinery. Batching, and updater versus closure `setState`, do not arise: each handler is a function from the old list to the new one.
- Rendering:
  - JSX, tabs, modals, the admin-mode toggle;
  - NotificationBell's display sort and unread badge;
  - FabricDetailModal;
  - FabricForm, PurchaseForm and TransactionForm.
- `toLowerCase` maps only the ASCII letters A-Z. Other scripts' case folding is not modelled.
- Fabric deletion. No handler in the source sets a fabric's isDeleted to true; only restore exists, and that is modelled.
- Approving only from Pending. The updateUsageStatus handler (src/App.tsx:238-256) does not check the current status, and the model follows the code. Only the admin panel (components/AdminPanel.tsx:136) restricts the Approve and Reject buttons to Pending rows, and that is modelled by AdminPanel.DecisionsOnlyInPendingTab.
- AdminPanel.SortDescCorrect: does not state that rows with equal keys keep their relative order. The `sort` comparator is modelled by a stable insertion sort, but only sortedness and the permutation are proved.
- AdminPanel.BucketsPartition: states the partition through sizes, and relies on AdminPanel.SelectMembers for membership. It does not state it as a multiset equation.
- UsageForm.HandleBagChange: the source copies the list shallowly, so its write also lands on the bag object the previous list shares. Bags are values here, so that aliasing is not modelled, and an index outside the list (a runtime error in the source) is excluded by the precondition.
- Workflow.AddOrEditFabric: the form data carries no isDeleted field. An edit that would overwrite that flag through the spread is not modelled.

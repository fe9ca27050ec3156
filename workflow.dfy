/** The fabric-list transitions of src/App.tsx: approve/reject, soft-delete and restore
    of a usage, fabric restore, appending a transaction, adding or editing a fabric.
    Each one rebuilds the list with `map` and object spread; here each is a function
    from the old list to the new one. */
module Workflow {
  import opened Types
  import opened Stock

  /** The actor the source records for every approval, rejection and deletion. */
  const ActorAdmin: string := "Admin"

  const DirectDeletionReason: string := "Deleted directly without prompt"

  /** `fabrics.map(f => f.id === fabricId ? h(f) : f)` */
  function MapFabric(fs: seq<Fabric>, fabricId: string, h: Fabric -> Fabric): seq<Fabric> {
    seq(|fs|, i requires 0 <= i < |fs| => if fs[i].id == fabricId then h(fs[i]) else fs[i])
  }

  /** `transactions.map(t => t.id === txId && t.type === USAGE ? g(t) : t)` */
  function MapUsage(txs: seq<Transaction>, txId: string, g: Usage -> Usage): seq<Transaction> {
    seq(|txs|, j requires 0 <= j < |txs| => if txs[j].IsUsageWithId(txId) then UsageTx(g(txs[j].usage)) else txs[j])
  }

  /** Usage `txId` of fabric `fabricId` sits at position (i, j). */
  ghost predicate IsTarget(fs: seq<Fabric>, fabricId: string, txId: string, i: int, j: int) {
    0 <= i < |fs| && fs[i].id == fabricId
    && 0 <= j < |fs[i].transactions| && fs[i].transactions[j].IsUsageWithId(txId)
  }

  /** `rs` differs from `fs` at most in the usages `txId` of the fabrics `fabricId`,
      and those stay usages with the same id: no fabric, no purchase and no other
      transaction changes, and no list changes length. */
  ghost predicate OnlyTargetsChanged(fs: seq<Fabric>, rs: seq<Fabric>, fabricId: string, txId: string) {
    && |rs| == |fs|
    && (forall i :: 0 <= i < |fs| ==>
          rs[i].(transactions := fs[i].transactions) == fs[i]
          && |rs[i].transactions| == |fs[i].transactions|)
    && (forall i, j :: 0 <= i < |fs| && 0 <= j < |fs[i].transactions| && !IsTarget(fs, fabricId, txId, i, j) ==>
          rs[i].transactions[j] == fs[i].transactions[j])
    && (forall i, j :: IsTarget(fs, fabricId, txId, i, j) ==> rs[i].transactions[j].IsUsageWithId(txId))
  }

  /** The record a decision leaves behind: the status, the acting admin and the time. */
  function Decided(u: Usage, status: UsageStatus, now: Timestamp): Usage {
    u.(status := status, actionBy := Some(ActorAdmin), actionDate := Some(now))
  }

  /** updateUsageStatus. There is no check of the current status: a usage that was
      already Confirmed or Rejected is overwritten, actor and date included. */
  function UpdateUsageStatus(fs: seq<Fabric>, fabricId: string, txId: string, status: UsageStatus, now: Timestamp): (r: seq<Fabric>)
    requires status != Pending
    ensures OnlyTargetsChanged(fs, r, fabricId, txId)
    ensures forall i, j :: IsTarget(fs, fabricId, txId, i, j) ==>
              var before, after := fs[i].transactions[j].usage, r[i].transactions[j].usage;
              && after.status == status
              && after.actionBy == Some(ActorAdmin)
              && after.actionDate == Some(now)
              && after.(status := before.status, actionBy := before.actionBy, actionDate := before.actionDate) == before
  {
    MapFabric(fs, fabricId, (f: Fabric) => f.(transactions := MapUsage(f.transactions, txId, (u: Usage) => Decided(u, status, now))))
  }

  /** handleApproveUsage */
  function ApproveUsage(fs: seq<Fabric>, fabricId: string, txId: string, now: Timestamp): (r: seq<Fabric>)
    ensures OnlyTargetsChanged(fs, r, fabricId, txId)
    ensures forall i, j :: IsTarget(fs, fabricId, txId, i, j) ==> r[i].transactions[j].usage.status == Confirmed
  {
    UpdateUsageStatus(fs, fabricId, txId, Confirmed, now)
  }

  /** handleRejectUsage */
  function RejectUsage(fs: seq<Fabric>, fabricId: string, txId: string, now: Timestamp): (r: seq<Fabric>)
    ensures OnlyTargetsChanged(fs, r, fabricId, txId)
    ensures forall i, j :: IsTarget(fs, fabricId, txId, i, j) ==> r[i].transactions[j].usage.status == Rejected
  {
    UpdateUsageStatus(fs, fabricId, txId, Rejected, now)
  }

  function SoftDeleted(u: Usage, now: Timestamp): Usage {
    u.(isDeleted := Some(true), deletedBy := Some(ActorAdmin), deletedAt := Some(now),
       originalStatusBeforeDelete := Some(u.status), deletionReason := Some(DirectDeletionReason))
  }

  /** The usage with the five deletion-audit fields taken out. */
  function WithoutDeletionFields(u: Usage): Usage {
    u.(isDeleted := None, deletedBy := None, deletedAt := None,
       originalStatusBeforeDelete := None, deletionReason := None)
  }

  /** handleDeleteUsage: a soft delete that records who, when, why and the status at
      the time, and leaves the status itself alone. */
  function DeleteUsage(fs: seq<Fabric>, fabricId: string, txId: string, now: Timestamp): (r: seq<Fabric>)
    ensures OnlyTargetsChanged(fs, r, fabricId, txId)
    ensures forall i, j :: IsTarget(fs, fabricId, txId, i, j) ==>
              var before, after := fs[i].transactions[j].usage, r[i].transactions[j].usage;
              && after.Deleted()
              && after.deletedBy == Some(ActorAdmin)
              && after.deletedAt == Some(now)
              && after.originalStatusBeforeDelete == Some(before.status)
              && after.deletionReason == Some(DirectDeletionReason)
              && after.status == before.status
              && WithoutDeletionFields(after) == WithoutDeletionFields(before)
  {
    MapFabric(fs, fabricId, (f: Fabric) => f.(transactions := MapUsage(f.transactions, txId, (u: Usage) => SoftDeleted(u, now))))
  }

  /** handleRestoreUsage: strips the five deletion-audit fields and nothing else; the
      status is not taken from originalStatusBeforeDelete. */
  function RestoreUsage(fs: seq<Fabric>, fabricId: string, txId: string): (r: seq<Fabric>)
    ensures OnlyTargetsChanged(fs, r, fabricId, txId)
    ensures forall i, j :: IsTarget(fs, fabricId, txId, i, j) ==>
              var before, after := fs[i].transactions[j].usage, r[i].transactions[j].usage;
              && after.HasNoDeletionFields()
              && !after.Deleted()
              && WithoutDeletionFields(after) == WithoutDeletionFields(before)
  {
    MapFabric(fs, fabricId, (f: Fabric) => f.(transactions := MapUsage(f.transactions, txId, (u: Usage) => WithoutDeletionFields(u))))
  }

  /** Restoring a soft-deleted usage gives back exactly the list before the deletion,
      provided the targeted usages carried no deletion fields beforehand. */
  lemma {:induction false} RestoreUndoesDelete(fs: seq<Fabric>, fabricId: string, txId: string, now: Timestamp)
    requires forall i, j :: IsTarget(fs, fabricId, txId, i, j) ==> fs[i].transactions[j].usage.HasNoDeletionFields()
    ensures RestoreUsage(DeleteUsage(fs, fabricId, txId, now), fabricId, txId) == fs
  {
    var ds := DeleteUsage(fs, fabricId, txId, now);
    var rs := RestoreUsage(ds, fabricId, txId);
    assert |rs| == |fs|;
    forall i | 0 <= i < |fs|
      ensures rs[i] == fs[i]
    {
      if fs[i].id == fabricId {
        var txs := fs[i].transactions;
        assert |rs[i].transactions| == |txs|;
        forall j | 0 <= j < |txs|
          ensures rs[i].transactions[j] == txs[j]
        {
          if txs[j].IsUsageWithId(txId) {
            assert IsTarget(fs, fabricId, txId, i, j);
            assert ds[i].transactions[j] == UsageTx(SoftDeleted(txs[j].usage, now));
          }
        }
        assert rs[i].transactions == txs;
      }
    }
  }

  /** handleRestoreFabric: only isDeleted changes, to false. */
  function RestoreFabric(fs: seq<Fabric>, fabricId: string): (r: seq<Fabric>)
    ensures |r| == |fs|
    ensures forall i :: 0 <= i < |fs| ==>
              r[i].(isDeleted := fs[i].isDeleted) == fs[i]
              && (fs[i].id == fabricId ==> r[i].isDeleted == Some(false) && !r[i].Deleted())
              && (fs[i].id != fabricId ==> r[i] == fs[i])
  {
    MapFabric(fs, fabricId, (f: Fabric) => f.(isDeleted := Some(false)))
  }

  /** addTransaction: the transaction goes to the end of the fabric's list. */
  function AddTransaction(fs: seq<Fabric>, fabricId: string, t: Transaction): (r: seq<Fabric>)
    ensures |r| == |fs|
    ensures forall i :: 0 <= i < |fs| ==>
              r[i].(transactions := fs[i].transactions) == fs[i]
              && r[i].transactions == (if fs[i].id == fabricId then fs[i].transactions + [t] else fs[i].transactions)
  {
    MapFabric(fs, fabricId, (f: Fabric) => f.(transactions := f.transactions + [t]))
  }

  /** What the fabric form submits: an id only when editing. */
  datatype FabricData = FabricData(id: Option<string>, code: string, name: string, category: FabricCategory, initialStock: real)

  /** `if (fabricData.id)`: a present, non-empty id means an edit. */
  predicate IsEdit(data: FabricData) {
    data.id.Some? && data.id.value != ""
  }

  /** handleAddOrEditFabric. An edit overwrites the form's fields of every fabric with
      that id and keeps its transactions and deletion flag; an add appends a fabric
      with the fresh id (generated by the caller), no transactions and isDeleted false. */
  function AddOrEditFabric(fs: seq<Fabric>, data: FabricData, freshId: string): (r: seq<Fabric>)
    ensures IsEdit(data) ==> |r| == |fs|
    ensures IsEdit(data) ==> forall i :: 0 <= i < |fs| ==>
              && r[i].id == fs[i].id
              && r[i].transactions == fs[i].transactions
              && r[i].isDeleted == fs[i].isDeleted
              && (fs[i].id != data.id.value ==> r[i] == fs[i])
              && (fs[i].id == data.id.value ==>
                    r[i].code == data.code && r[i].name == data.name
                    && r[i].category == data.category && r[i].initialStock == data.initialStock)
    ensures !IsEdit(data) ==> |r| == |fs| + 1 && r[..|fs|] == fs
    ensures !IsEdit(data) ==>
              var n := r[|fs|];
              && n.id == freshId && n.transactions == [] && n.isDeleted == Some(false)
              && n.code == data.code && n.name == data.name
              && n.category == data.category && n.initialStock == data.initialStock
  {
    if IsEdit(data) then
      MapFabric(fs, data.id.value, (f: Fabric) => f.(code := data.code, name := data.name, category := data.category, initialStock := data.initialStock))
    else
      fs + [Fabric(freshId, data.code, data.name, data.category, data.initialStock, [], Some(false))]
  }

  /** A new fabric starts with exactly its initial stock and is not deleted. */
  lemma {:induction false} NewFabricStock(fs: seq<Fabric>, data: FabricData, freshId: string)
    requires !IsEdit(data)
    ensures var r := AddOrEditFabric(fs, data, freshId);
            AvailableStock(r[|r| - 1]) == data.initialStock && !r[|r| - 1].Deleted()
  {
  }

  /** Restoring a fabric never moves any fabric's stock: stock ignores isDeleted. */
  lemma {:induction false} RestoreFabricStock(fs: seq<Fabric>, fabricId: string, i: int)
    requires 0 <= i < |fs|
    ensures AvailableStock(RestoreFabric(fs, fabricId)[i]) == AvailableStock(fs[i])
  {
    var r := RestoreFabric(fs, fabricId);
    assert r[i].initialStock == fs[i].initialStock && r[i].transactions == fs[i].transactions;
  }

  /** Editing a fabric moves its stock by exactly the change of its initial stock,
      because its transactions are kept; other fabrics keep their stock. */
  lemma {:induction false} EditFabricStock(fs: seq<Fabric>, data: FabricData, freshId: string, i: int)
    requires IsEdit(data) && 0 <= i < |fs|
    ensures var r := AddOrEditFabric(fs, data, freshId);
            && (fs[i].id == data.id.value ==>
                  AvailableStock(r[i]) == AvailableStock(fs[i]) - fs[i].initialStock + data.initialStock)
            && (fs[i].id != data.id.value ==> AvailableStock(r[i]) == AvailableStock(fs[i]))
  {
    var r := AddOrEditFabric(fs, data, freshId);
    assert r[i].transactions == fs[i].transactions;
  }

  /** The usage `txId` occurs exactly once in `txs`, at j. */
  ghost predicate OnlyUsageWithId(txs: seq<Transaction>, txId: string, j: int) {
    0 <= j < |txs| && txs[j].IsUsageWithId(txId)
    && forall k :: 0 <= k < |txs| && k != j ==> !txs[k].IsUsageWithId(txId)
  }

  lemma {:induction false} MapSingleUsage(txs: seq<Transaction>, txId: string, g: Usage -> Usage, j: int)
    requires OnlyUsageWithId(txs, txId, j)
    ensures MapUsage(txs, txId, g) == txs[j := UsageTx(g(txs[j].usage))]
  {
  }

  /** Approving a live Pending usage lowers its fabric's stock by the usage's total;
      rejecting it leaves the stock as it was. */
  lemma {:induction false} DecisionStockEffect(fs: seq<Fabric>, fabricId: string, txId: string, now: Timestamp, i: int, j: int)
    requires 0 <= i < |fs| && fs[i].id == fabricId
    requires OnlyUsageWithId(fs[i].transactions, txId, j)
    requires fs[i].transactions[j].usage.status == Pending && !fs[i].transactions[j].usage.Deleted()
    ensures AvailableStock(ApproveUsage(fs, fabricId, txId, now)[i])
            == AvailableStock(fs[i]) - fs[i].transactions[j].usage.totalFabricUsed
    ensures AvailableStock(RejectUsage(fs, fabricId, txId, now)[i]) == AvailableStock(fs[i])
  {
    var txs := fs[i].transactions;
    var u := txs[j].usage;
    MapSingleUsage(txs, txId, (u: Usage) => Decided(u, Confirmed, now), j);
    MapSingleUsage(txs, txId, (u: Usage) => Decided(u, Rejected, now), j);
    ReplaceEffect(fs[i], j, UsageTx(Decided(u, Confirmed, now)));
    ReplaceEffect(fs[i], j, UsageTx(Decided(u, Rejected, now)));
  }

  /** Deleting a Confirmed usage gives its total back to the stock; restoring it takes
      the total away again, so restore after delete leaves the stock as it was.
      Deleting any other usage leaves the stock as it was. */
  lemma {:induction false} DeleteRestoreStockEffect(fs: seq<Fabric>, fabricId: string, txId: string, now: Timestamp, i: int, j: int)
    requires 0 <= i < |fs| && fs[i].id == fabricId
    requires OnlyUsageWithId(fs[i].transactions, txId, j)
    requires !fs[i].transactions[j].usage.Deleted()
    ensures var u := fs[i].transactions[j].usage;
            var ds := DeleteUsage(fs, fabricId, txId, now);
            && AvailableStock(ds[i]) == AvailableStock(fs[i]) + (if u.status == Confirmed then u.totalFabricUsed else 0.0)
            && AvailableStock(RestoreUsage(ds, fabricId, txId)[i]) == AvailableStock(fs[i])
  {
    var txs := fs[i].transactions;
    var u := txs[j].usage;
    var ds := DeleteUsage(fs, fabricId, txId, now);
    MapSingleUsage(txs, txId, (u: Usage) => SoftDeleted(u, now), j);
    ReplaceEffect(fs[i], j, UsageTx(SoftDeleted(u, now)));
    var dtxs := ds[i].transactions;
    assert dtxs == txs[j := UsageTx(SoftDeleted(u, now))];
    assert OnlyUsageWithId(dtxs, txId, j) by {
      forall k | 0 <= k < |dtxs| && k != j ensures !dtxs[k].IsUsageWithId(txId) {
        assert dtxs[k] == txs[k];
      }
    }
    MapSingleUsage(dtxs, txId, (u: Usage) => WithoutDeletionFields(u), j);
    ReplaceEffect(ds[i], j, UsageTx(WithoutDeletionFields(SoftDeleted(u, now))));
    assert WithoutDeletionFields(SoftDeleted(u, now)) == WithoutDeletionFields(u);
    assert Effect(UsageTx(WithoutDeletionFields(u))) == Effect(txs[j]);
  }

  /** Appending a transaction moves the target fabric's stock by that transaction's
      effect alone; a new usage request, being Pending, does not move it at all. */
  lemma {:induction false} AddTransactionStockEffect(fs: seq<Fabric>, fabricId: string, t: Transaction, i: int)
    requires 0 <= i < |fs|
    ensures fs[i].id == fabricId ==> AvailableStock(AddTransaction(fs, fabricId, t)[i]) == AvailableStock(fs[i]) + Effect(t)
    ensures fs[i].id != fabricId ==> AvailableStock(AddTransaction(fs, fabricId, t)[i]) == AvailableStock(fs[i])
    ensures t.UsageTx? && t.usage.status == Pending ==> AvailableStock(AddTransaction(fs, fabricId, t)[i]) == AvailableStock(fs[i])
  {
    AppendEffect(fs[i], t);
  }
}

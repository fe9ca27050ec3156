/** The notification pass of src/App.tsx: candidates are derived from the fabric list,
    then merged into the stored notifications by id. The clock is a parameter: `today`
    is the start of the current day and `now` the current instant. */
module Notifications {
  import opened Types
  import opened Stock

  /** Shipments due within this many days of today raise a reminder. */
  const ShipmentWindowDays: int := 5

  function LowStockId(fabricId: string): string {
    "low-stock-" + fabricId
  }

  function PendingId(txId: string): string {
    "pending-" + txId
  }

  function ShipmentId(txId: string): string {
    "shipment-" + txId
  }

  /** today <= shipment date <= today + 5 days, both ends included. */
  predicate InShipmentWindow(shipmentDate: Timestamp, today: Timestamp) {
    today <= shipmentDate <= today + ShipmentWindowDays * DayMs
  }

  // ---------------------------------------------------------------------------
  // Candidates, as a specification

  function LowStockCandidates(f: Fabric, now: Timestamp): seq<Notification> {
    var stock := AvailableStock(f);
    if stock < LowStockThreshold then
      [Notification(LowStockId(f.id), LowStock, LowStockMessage(f.code, stock), false, now, f.id, None)]
    else
      []
  }

  function PendingCandidate(f: Fabric, u: Usage): Notification {
    Notification(PendingId(u.id), PendingApproval, PendingMessage(f.code, u.clientName), false, u.date, f.id, Some(u.id))
  }

  function ShipmentCandidate(f: Fabric, u: Usage, now: Timestamp): Notification {
    Notification(ShipmentId(u.id), ShipmentReminder, ShipmentMessage(u.orderNumber, f.code, u.shipmentDate), false, now, f.id, Some(u.id))
  }

  /** A live usage (of any status) yields a pending candidate when Pending and a
      shipment candidate when its shipment date lies in the window. */
  function TxCandidates(f: Fabric, t: Transaction, today: Timestamp, now: Timestamp): seq<Notification> {
    match t
    case PurchaseTx(_) => []
    case UsageTx(u) =>
      if u.Deleted() then []
      else
        (if u.status == Pending then [PendingCandidate(f, u)] else [])
        + (if InShipmentWindow(u.shipmentDate, today) then [ShipmentCandidate(f, u, now)] else [])
  }

  function TransactionsCandidates(f: Fabric, txs: seq<Transaction>, today: Timestamp, now: Timestamp): seq<Notification> {
    if txs == [] then []
    else TransactionsCandidates(f, txs[..|txs| - 1], today, now) + TxCandidates(f, txs[|txs| - 1], today, now)
  }

  /** A deleted fabric yields nothing, its usages included. */
  function FabricCandidates(f: Fabric, today: Timestamp, now: Timestamp): seq<Notification> {
    if f.Deleted() then []
    else LowStockCandidates(f, now) + TransactionsCandidates(f, f.transactions, today, now)
  }

  function Candidates(fs: seq<Fabric>, today: Timestamp, now: Timestamp): seq<Notification> {
    if fs == [] then []
    else Candidates(fs[..|fs| - 1], today, now) + FabricCandidates(fs[|fs| - 1], today, now)
  }

  // ---------------------------------------------------------------------------
  // Candidates, as the source computes them

  /** The outer `fabrics.forEach` that fills `newNotifications`. */
  method GenerateCandidates(fabrics: seq<Fabric>, today: Timestamp, now: Timestamp) returns (cands: seq<Notification>)
    ensures cands == Candidates(fabrics, today, now)
  {
    cands := [];
    var i := 0;
    while i < |fabrics|
      invariant 0 <= i <= |fabrics|
      invariant cands == Candidates(fabrics[..i], today, now)
    {
      CandidatesStep(fabrics, i, today, now);
      cands := PushFabricCandidates(cands, fabrics[i], today, now);
      i := i + 1;
    }
    assert fabrics[..i] == fabrics;
  }

  lemma {:induction false} CandidatesStep(fs: seq<Fabric>, i: nat, today: Timestamp, now: Timestamp)
    requires i < |fs|
    ensures Candidates(fs[..i + 1], today, now) == Candidates(fs[..i], today, now) + FabricCandidates(fs[i], today, now)
  {
    assert fs[..i + 1][..i] == fs[..i];
  }

  /** The outer callback: skip a deleted fabric, push its low-stock notification, then
      run the inner `forEach` over its live usages. */
  method PushFabricCandidates(cands: seq<Notification>, fabric: Fabric, today: Timestamp, now: Timestamp) returns (out: seq<Notification>)
    ensures out == cands + FabricCandidates(fabric, today, now)
  {
    out := cands;
    if fabric.Deleted() {
      assert out == cands + [];
      return;
    }
    var stock := AvailableStock(fabric);
    if stock < LowStockThreshold {
      out := out + [Notification(LowStockId(fabric.id), LowStock, LowStockMessage(fabric.code, stock), false, now, fabric.id, None)];
    }
    ghost var low := LowStockCandidates(fabric, now);
    assert out == cands + low;
    ghost var start := out;
    var txs := fabric.transactions;
    var j := 0;
    while j < |txs|
      invariant 0 <= j <= |txs|
      invariant out == start + TransactionsCandidates(fabric, txs[..j], today, now)
    {
      TransactionsCandidatesStep(fabric, txs, j, today, now);
      out := PushTxCandidates(out, fabric, txs[j], today, now);
      AppendAssoc(start, TransactionsCandidates(fabric, txs[..j], today, now), TxCandidates(fabric, txs[j], today, now));
      j := j + 1;
    }
    assert txs[..j] == txs;
    AppendAssoc(cands, low, TransactionsCandidates(fabric, txs, today, now));
  }

  lemma {:induction false} AppendAssoc<T>(a: seq<T>, b: seq<T>, c: seq<T>)
    ensures a + b + c == a + (b + c)
  {
  }

  lemma {:induction false} TransactionsCandidatesStep(f: Fabric, txs: seq<Transaction>, j: nat, today: Timestamp, now: Timestamp)
    requires j < |txs|
    ensures TransactionsCandidates(f, txs[..j + 1], today, now)
            == TransactionsCandidates(f, txs[..j], today, now) + TxCandidates(f, txs[j], today, now)
  {
    assert txs[..j + 1][..j] == txs[..j];
  }

  /** The inner callback, for one transaction that passed the usage, not-deleted
      filter (the filter is tested here): push a pending notification, then a
      shipment reminder, each when its condition holds. */
  method PushTxCandidates(cands: seq<Notification>, fabric: Fabric, t: Transaction, today: Timestamp, now: Timestamp) returns (out: seq<Notification>)
    ensures out == cands + TxCandidates(fabric, t, today, now)
  {
    out := cands;
    if !(t.UsageTx? && !t.usage.Deleted()) {
      assert out == cands + [];
      return;
    }
    var tx := t.usage;
    if tx.status == Pending {
      out := out + [PendingCandidate(fabric, tx)];
    }
    if InShipmentWindow(tx.shipmentDate, today) {
      out := out + [ShipmentCandidate(fabric, tx, now)];
    }
  }

  // ---------------------------------------------------------------------------
  // What the candidates are

  lemma {:induction false} IdsConcat(a: seq<Notification>, b: seq<Notification>)
    ensures Ids(a + b) == Ids(a) + Ids(b)
  {
    forall id | id in Ids(a + b) ensures id in Ids(a) + Ids(b) {
      var n :| n in a + b && n.id == id;
    }
    forall id | id in Ids(a) + Ids(b) ensures id in Ids(a + b) {
      if id in Ids(a) {
        var n :| n in a && n.id == id;
        assert n in a + b;
      } else {
        var n :| n in b && n.id == id;
        assert n in a + b;
      }
    }
  }

  /** Every candidate is unread. */
  lemma {:induction false} CandidatesUnread(fs: seq<Fabric>, today: Timestamp, now: Timestamp)
    ensures forall n :: n in Candidates(fs, today, now) ==> !n.isRead
    decreases |fs|
  {
    if fs != [] {
      var f := fs[|fs| - 1];
      CandidatesUnread(fs[..|fs| - 1], today, now);
      if !f.Deleted() {
        TransactionsUnread(f, f.transactions, today, now);
      }
    }
  }

  lemma {:induction false} TransactionsUnread(f: Fabric, txs: seq<Transaction>, today: Timestamp, now: Timestamp)
    ensures forall n :: n in TransactionsCandidates(f, txs, today, now) ==> !n.isRead
    decreases |txs|
  {
    if txs != [] {
      TransactionsUnread(f, txs[..|txs| - 1], today, now);
    }
  }

  lemma {:induction false} CandidateIdsByFabric(fs: seq<Fabric>, today: Timestamp, now: Timestamp)
    ensures forall id :: id in Ids(Candidates(fs, today, now)) <==>
              exists i :: 0 <= i < |fs| && id in Ids(FabricCandidates(fs[i], today, now))
    decreases |fs|
  {
    forall id, i | 0 <= i < |fs| && id in Ids(FabricCandidates(fs[i], today, now))
      ensures id in Ids(Candidates(fs, today, now))
    {
      FabricCandidatesIn(fs, i, today, now);
      var m :| m in FabricCandidates(fs[i], today, now) && m.id == id;
      assert m in Candidates(fs, today, now);
    }
    if fs != [] {
      var n := |fs| - 1;
      var init := fs[..n];
      CandidateIdsByFabric(init, today, now);
      IdsConcat(Candidates(init, today, now), FabricCandidates(fs[n], today, now));
      forall id | id in Ids(Candidates(fs, today, now)) && id !in Ids(FabricCandidates(fs[n], today, now))
        ensures exists i :: 0 <= i < |fs| && id in Ids(FabricCandidates(fs[i], today, now))
      {
        var i :| 0 <= i < |init| && id in Ids(FabricCandidates(init[i], today, now));
        assert init[i] == fs[i];
      }
    }
  }

  /** Each fabric's candidates are among all the candidates. */
  lemma {:induction false} FabricCandidatesIn(fs: seq<Fabric>, i: nat, today: Timestamp, now: Timestamp)
    requires i < |fs|
    ensures forall m :: m in FabricCandidates(fs[i], today, now) ==> m in Candidates(fs, today, now)
    decreases |fs|
  {
    var n := |fs| - 1;
    var init := fs[..n];
    var prev, last := Candidates(init, today, now), FabricCandidates(fs[n], today, now);
    assert Candidates(fs, today, now) == prev + last;
    if i < n {
      FabricCandidatesIn(init, i, today, now);
      assert init[i] == fs[i];
    }
    forall m | m in FabricCandidates(fs[i], today, now) ensures m in prev + last {
      if i < n {
        assert m in FabricCandidates(init[i], today, now);
        assert m in prev;
      } else {
        assert i == n && fs[i] == fs[n];
      }
    }
  }

  lemma {:induction false} CandidateIdsByTransaction(f: Fabric, txs: seq<Transaction>, today: Timestamp, now: Timestamp)
    ensures forall id :: id in Ids(TransactionsCandidates(f, txs, today, now)) <==>
              exists j :: 0 <= j < |txs| && id in Ids(TxCandidates(f, txs[j], today, now))
    decreases |txs|
  {
    forall id, j | 0 <= j < |txs| && id in Ids(TxCandidates(f, txs[j], today, now))
      ensures id in Ids(TransactionsCandidates(f, txs, today, now))
    {
      TxCandidatesIn(f, txs, j, today, now);
      var m :| m in TxCandidates(f, txs[j], today, now) && m.id == id;
      assert m in TransactionsCandidates(f, txs, today, now);
    }
    if txs != [] {
      var n := |txs| - 1;
      var init := txs[..n];
      CandidateIdsByTransaction(f, init, today, now);
      IdsConcat(TransactionsCandidates(f, init, today, now), TxCandidates(f, txs[n], today, now));
      forall id | id in Ids(TransactionsCandidates(f, txs, today, now)) && id !in Ids(TxCandidates(f, txs[n], today, now))
        ensures exists j :: 0 <= j < |txs| && id in Ids(TxCandidates(f, txs[j], today, now))
      {
        var j :| 0 <= j < |init| && id in Ids(TxCandidates(f, init[j], today, now));
        assert init[j] == txs[j];
      }
    }
  }

  /** Each transaction's candidates are among its fabric's usage candidates. */
  lemma {:induction false} TxCandidatesIn(f: Fabric, txs: seq<Transaction>, j: nat, today: Timestamp, now: Timestamp)
    requires j < |txs|
    ensures forall m :: m in TxCandidates(f, txs[j], today, now) ==> m in TransactionsCandidates(f, txs, today, now)
    decreases |txs|
  {
    var n := |txs| - 1;
    var init := txs[..n];
    var prev, last := TransactionsCandidates(f, init, today, now), TxCandidates(f, txs[n], today, now);
    assert TransactionsCandidates(f, txs, today, now) == prev + last;
    if j < n {
      TxCandidatesIn(f, init, j, today, now);
      assert init[j] == txs[j];
    }
    forall m | m in TxCandidates(f, txs[j], today, now) ensures m in prev + last {
      if j < n {
        assert m in TxCandidates(f, init[j], today, now);
        assert m in prev;
      } else {
        assert j == n && txs[j] == txs[n];
      }
    }
  }

  /** The three id families never meet, and each determines its subject's id. */
  lemma {:induction false} IdFamilies(a: string, b: string)
    ensures LowStockId(a) != PendingId(b) && LowStockId(a) != ShipmentId(b) && PendingId(a) != ShipmentId(b)
    ensures LowStockId(a) == LowStockId(b) ==> a == b
    ensures PendingId(a) == PendingId(b) ==> a == b
    ensures ShipmentId(a) == ShipmentId(b) ==> a == b
  {
    assert LowStockId(a)[0] == 'l' && PendingId(b)[0] == 'p' && ShipmentId(b)[0] == 's';
    assert PendingId(a)[0] == 'p' && ShipmentId(b)[0] == 's';
    assert LowStockId(a)[10..] == a && LowStockId(b)[10..] == b;
    assert PendingId(a)[8..] == a && PendingId(b)[8..] == b;
    assert ShipmentId(a)[9..] == a && ShipmentId(b)[9..] == b;
  }

  lemma {:induction false} TxCandidateIds(f: Fabric, t: Transaction, today: Timestamp, now: Timestamp, x: string)
    ensures LowStockId(x) !in Ids(TxCandidates(f, t, today, now))
    ensures PendingId(x) in Ids(TxCandidates(f, t, today, now)) <==>
              t.UsageTx? && !t.usage.Deleted() && t.usage.id == x && t.usage.status == Pending
    ensures ShipmentId(x) in Ids(TxCandidates(f, t, today, now)) <==>
              t.UsageTx? && !t.usage.Deleted() && t.usage.id == x && InShipmentWindow(t.usage.shipmentDate, today)
  {
    if t.UsageTx? {
      IdFamilies(x, t.usage.id);
      IdFamilies(t.usage.id, x);
      var cs := TxCandidates(f, t, today, now);
      assert Ids(cs) <= {PendingId(t.usage.id), ShipmentId(t.usage.id)};
      if !t.usage.Deleted() && t.usage.status == Pending {
        assert PendingCandidate(f, t.usage) in cs;
      }
      if !t.usage.Deleted() && InShipmentWindow(t.usage.shipmentDate, today) {
        assert ShipmentCandidate(f, t.usage, now) in cs;
      }
    }
  }

  /** A live usage sits at (i, j): the fabric is not deleted, nor is the usage. */
  ghost predicate LiveUsageAt(fs: seq<Fabric>, i: int, j: int) {
    0 <= i < |fs| && !fs[i].Deleted()
    && 0 <= j < |fs[i].transactions| && fs[i].transactions[j].UsageTx?
    && !fs[i].transactions[j].usage.Deleted()
  }

  /** `low-stock-X` is a candidate exactly when some live fabric with id X has stock
      below the threshold. */
  lemma {:induction false} LowStockCandidateIff(fs: seq<Fabric>, today: Timestamp, now: Timestamp, x: string)
    ensures LowStockId(x) in Ids(Candidates(fs, today, now)) <==>
              exists i :: 0 <= i < |fs| && fs[i].id == x && !fs[i].Deleted() && AvailableStock(fs[i]) < LowStockThreshold
  {
    CandidateIdsByFabric(fs, today, now);
    forall i | 0 <= i < |fs|
      ensures LowStockId(x) in Ids(FabricCandidates(fs[i], today, now)) <==>
                fs[i].id == x && !fs[i].Deleted() && AvailableStock(fs[i]) < LowStockThreshold
    {
      var f := fs[i];
      if !f.Deleted() {
        IdsConcat(LowStockCandidates(f, now), TransactionsCandidates(f, f.transactions, today, now));
        CandidateIdsByTransaction(f, f.transactions, today, now);
        forall j | 0 <= j < |f.transactions| ensures LowStockId(x) !in Ids(TxCandidates(f, f.transactions[j], today, now)) {
          TxCandidateIds(f, f.transactions[j], today, now, x);
        }
        IdFamilies(x, f.id);
        if AvailableStock(f) < LowStockThreshold {
          assert LowStockCandidates(f, now)[0] in LowStockCandidates(f, now);
        }
      }
    }
  }

  lemma {:induction false} UsageCandidateIds(fs: seq<Fabric>, today: Timestamp, now: Timestamp, x: string)
    ensures PendingId(x) in Ids(Candidates(fs, today, now)) <==>
              exists i, j :: LiveUsageAt(fs, i, j) && fs[i].transactions[j].usage.id == x
                             && fs[i].transactions[j].usage.status == Pending
    ensures ShipmentId(x) in Ids(Candidates(fs, today, now)) <==>
              exists i, j :: LiveUsageAt(fs, i, j) && fs[i].transactions[j].usage.id == x
                             && InShipmentWindow(fs[i].transactions[j].usage.shipmentDate, today)
  {
    CandidateIdsByFabric(fs, today, now);
    forall i | 0 <= i < |fs|
      ensures PendingId(x) in Ids(FabricCandidates(fs[i], today, now)) <==>
                exists j :: LiveUsageAt(fs, i, j) && fs[i].transactions[j].usage.id == x
                            && fs[i].transactions[j].usage.status == Pending
      ensures ShipmentId(x) in Ids(FabricCandidates(fs[i], today, now)) <==>
                exists j :: LiveUsageAt(fs, i, j) && fs[i].transactions[j].usage.id == x
                            && InShipmentWindow(fs[i].transactions[j].usage.shipmentDate, today)
    {
      var f := fs[i];
      if !f.Deleted() {
        IdsConcat(LowStockCandidates(f, now), TransactionsCandidates(f, f.transactions, today, now));
        CandidateIdsByTransaction(f, f.transactions, today, now);
        IdFamilies(f.id, x);
        forall j | 0 <= j < |f.transactions| {
          TxCandidateIds(f, f.transactions[j], today, now, x);
        }
      }
    }
  }

  // ---------------------------------------------------------------------------
  // Reconciliation, as a specification

  /** `findIndex`: the first position holding the id, or -1. */
  function FindIndex(ns: seq<Notification>, id: string): (k: int)
    ensures -1 <= k < |ns|
    ensures k == -1 <==> id !in Ids(ns)
    ensures k >= 0 ==> ns[k].id == id && forall m :: 0 <= m < k ==> ns[m].id != id
  {
    if ns == [] then -1
    else if ns[0].id == id then 0
    else
      var k := FindIndex(ns[1..], id);
      assert ns == [ns[0]] + ns[1..];
      IdsConcat([ns[0]], ns[1..]);
      if k == -1 then -1 else k + 1
  }

  /** The candidates the merge appends, in candidate order: each candidate whose id is
      neither stored nor among the ones appended before it. */
  function NewEntries(stored: seq<Notification>, cands: seq<Notification>): (r: seq<Notification>)
    ensures forall n :: n in r ==> n in cands && n.id !in Ids(stored)
    ensures UniqueIds(r)
    ensures Ids(r) == Ids(cands) - Ids(stored)
  {
    if cands == [] then []
    else
      var init := cands[..|cands| - 1];
      var e := NewEntries(stored, init);
      var n := cands[|cands| - 1];
      Snoc(cands);
      IdsSnoc(init, n);
      if n.id in Ids(stored) || n.id in Ids(e) then e
      else
        IdsSnoc(e, n);
        UniqueSnoc(e, n);
        e + [n]
  }

  lemma {:induction false} IdsSnoc(ns: seq<Notification>, n: Notification)
    ensures Ids(ns + [n]) == Ids(ns) + {n.id}
    ensures forall m :: m in ns + [n] <==> m in ns || m == n
  {
    IdsConcat(ns, [n]);
    assert Ids([n]) == {n.id} by {
      assert n in [n];
    }
  }

  lemma {:induction false} UniqueSnoc(ns: seq<Notification>, n: Notification)
    requires UniqueIds(ns) && n.id !in Ids(ns)
    ensures UniqueIds(ns + [n])
  {
    forall i | 0 <= i < |ns| ensures (ns + [n])[i].id != n.id {
      assert ns[i] in ns;
    }
  }

  lemma {:induction false} NewEntriesStep(stored: seq<Notification>, cands: seq<Notification>, i: nat)
    requires i < |cands|
    ensures var e := NewEntries(stored, cands[..i]);
            NewEntries(stored, cands[..i + 1])
            == if cands[i].id in Ids(stored) || cands[i].id in Ids(e) then e else e + [cands[i]]
  {
    assert cands[..i + 1][..i] == cands[..i];
  }

  /** `filter(n => validIds.has(n.id))` */
  function KeepIds(ns: seq<Notification>, ids: set<string>): seq<Notification> {
    if ns == [] then []
    else
      var n := ns[|ns| - 1];
      KeepIds(ns[..|ns| - 1], ids) + (if n.id in ids then [n] else [])
  }

  lemma {:induction false} KeepIdsMembers(ns: seq<Notification>, ids: set<string>)
    ensures forall n :: n in KeepIds(ns, ids) <==> n in ns && n.id in ids
    decreases |ns|
  {
    if ns != [] {
      var init := ns[..|ns| - 1];
      KeepIdsMembers(init, ids);
      assert ns == init + [ns[|ns| - 1]];
    }
  }

  lemma {:induction false} KeepIdsUnique(ns: seq<Notification>, ids: set<string>)
    requires UniqueIds(ns)
    ensures UniqueIds(KeepIds(ns, ids))
    decreases |ns|
  {
    if ns != [] {
      var init := ns[..|ns| - 1];
      var n := ns[|ns| - 1];
      var k := KeepIds(init, ids);
      KeepIdsUnique(init, ids);
      KeepIdsMembers(init, ids);
      forall m | m in k ensures m.id != n.id {
        var p :| 0 <= p < |init| && init[p] == m;
        assert ns[p] == m;
      }
    }
  }

  lemma {:induction false} KeepIdsAll(ns: seq<Notification>, ids: set<string>)
    requires forall n :: n in ns ==> n.id in ids
    ensures KeepIds(ns, ids) == ns
    decreases |ns|
  {
    if ns != [] {
      var init := ns[..|ns| - 1];
      var last := ns[|ns| - 1];
      PrefixMembers(ns);
      KeepIdsAll(init, ids);
      assert last in ns;
      assert KeepIds(ns, ids) == init + [last];
      Snoc(ns);
    }
  }

  lemma {:induction false} PrefixMembers(ns: seq<Notification>)
    requires ns != []
    ensures forall n :: n in ns[..|ns| - 1] ==> n in ns
  {
  }

  lemma {:induction false} Snoc<T>(s: seq<T>)
    requires s != []
    ensures s[..|s| - 1] + [s[|s| - 1]] == s
  {
  }

  /** The stored list after the merge: the stored entries whose id is still a
      candidate, then the new entries, restricted to the candidate ids. */
  function Reconciled(stored: seq<Notification>, cands: seq<Notification>): seq<Notification> {
    KeepIds(stored + NewEntries(stored, cands), Ids(cands))
  }

  // ---------------------------------------------------------------------------
  // Reconciliation, as the source computes it

  /** The `setNotifications` updater: a copy of the stored list, a `findIndex` and a
      `push` per candidate (the push is where the email goes out), then the filter. */
  method Reconcile(stored: seq<Notification>, cands: seq<Notification>) returns (next: seq<Notification>, emitted: seq<Notification>)
    ensures emitted == NewEntries(stored, cands)
    ensures next == Reconciled(stored, cands)
  {
    var updated := stored;
    emitted := [];
    var i := 0;
    while i < |cands|
      invariant 0 <= i <= |cands|
      invariant emitted == NewEntries(stored, cands[..i])
      invariant updated == stored + emitted
    {
      var n := cands[i];
      NewEntriesStep(stored, cands, i);
      assert Ids(updated) == Ids(stored) + Ids(emitted) by {
        IdsConcat(stored, emitted);
      }
      var existingIndex := FindIndex(updated, n.id);
      if existingIndex == -1 {
        AppendAssoc(stored, emitted, [n]);
        updated := updated + [n];
        emitted := emitted + [n];
      }
      i := i + 1;
    }
    assert cands[..i] == cands;
    var validIds := Ids(cands);
    next := KeepIds(updated, validIds);
  }

  /** The whole effect: nothing happens outside admin mode. */
  method NotificationPass(isAdmin: bool, fabrics: seq<Fabric>, stored: seq<Notification>, today: Timestamp, now: Timestamp)
    returns (next: seq<Notification>, emitted: seq<Notification>)
    ensures !isAdmin ==> next == stored && emitted == []
    ensures isAdmin ==> emitted == NewEntries(stored, Candidates(fabrics, today, now))
    ensures isAdmin ==> next == Reconciled(stored, Candidates(fabrics, today, now))
  {
    if !isAdmin {
      return stored, [];
    }
    var cands := GenerateCandidates(fabrics, today, now);
    next, emitted := Reconcile(stored, cands);
  }

  // ---------------------------------------------------------------------------
  // What reconciliation guarantees

  /** The stored survivors come first, in their stored order, then the new entries in
      candidate order. */
  lemma {:induction false} ReconciledShape(stored: seq<Notification>, cands: seq<Notification>)
    ensures Reconciled(stored, cands) == KeepIds(stored, Ids(cands)) + NewEntries(stored, cands)
  {
    KeepIdsConcat(stored, NewEntries(stored, cands), Ids(cands));
  }

  lemma {:induction false} KeepIdsConcat(a: seq<Notification>, b: seq<Notification>, ids: set<string>)
    requires forall n :: n in b ==> n.id in ids
    ensures KeepIds(a + b, ids) == KeepIds(a, ids) + b
    decreases |b|
  {
    if b == [] {
      assert a + b == a;
    } else {
      var init := b[..|b| - 1];
      var x := b[|b| - 1];
      var ab := a + b;
      assert ab[..|ab| - 1] == a + init;
      assert ab[|ab| - 1] == x;
      assert x.id in ids by { assert x in b; }
      assert KeepIds(ab, ids) == KeepIds(a + init, ids) + [x];
      assert forall n :: n in init ==> n in b;
      KeepIdsConcat(a, init, ids);
      assert init + [x] == b;
    }
  }

  /** After the merge the stored ids are exactly the candidate ids. */
  lemma {:induction false} ReconciledIds(stored: seq<Notification>, cands: seq<Notification>)
    ensures Ids(Reconciled(stored, cands)) == Ids(cands)
  {
    var e := NewEntries(stored, cands);
    var r := Reconciled(stored, cands);
    IdsConcat(stored, e);
    KeepIdsMembers(stored + e, Ids(cands));
    forall id | id in Ids(r) ensures id in Ids(cands) {
      var n :| n in r && n.id == id;
    }
    forall id | id in Ids(cands) ensures id in Ids(r) {
      assert id in Ids(stored + e);
      var n :| n in stored + e && n.id == id;
      assert n in r;
    }
  }

  /** No id appears twice afterwards if none did before. */
  lemma {:induction false} ReconciledUnique(stored: seq<Notification>, cands: seq<Notification>)
    requires UniqueIds(stored)
    ensures UniqueIds(Reconciled(stored, cands))
  {
    var e := NewEntries(stored, cands);
    var all := stored + e;
    forall i, j | 0 <= i < j < |all| ensures all[i].id != all[j].id {
      if i < |stored| && j >= |stored| {
        assert all[j] == e[j - |stored|];
        assert all[j] in e;
        assert all[i] in stored;
      } else if i >= |stored| {
        assert all[i] == e[i - |stored|] && all[j] == e[j - |stored|];
      }
    }
    KeepIdsUnique(all, Ids(cands));
  }

  /** An entry present both before and among the candidates survives unchanged, read
      flag, message and creation time included; every entry that was not stored is a
      candidate. */
  lemma {:induction false} ReconciledKeepsStored(stored: seq<Notification>, cands: seq<Notification>)
    ensures forall n :: n in stored && n.id in Ids(cands) ==> n in Reconciled(stored, cands)
    ensures forall n :: n in Reconciled(stored, cands) ==> n in stored || (n in cands && n.id !in Ids(stored))
  {
    KeepIdsMembers(stored + NewEntries(stored, cands), Ids(cands));
  }

  /** The emails go out for exactly the candidate ids that were not stored, once each,
      as unread notifications when the candidates come from the fabric list. */
  lemma {:induction false} EmittedOncePerNewId(fabrics: seq<Fabric>, stored: seq<Notification>, today: Timestamp, now: Timestamp)
    ensures var cands := Candidates(fabrics, today, now);
            var e := NewEntries(stored, cands);
            && Ids(e) == Ids(cands) - Ids(stored)
            && UniqueIds(e)
            && forall n :: n in e ==> !n.isRead
  {
    CandidatesUnread(fabrics, today, now);
  }

  /** A second merge against candidates with the same ids appends nothing, emits
      nothing and returns the list it was given. */
  lemma {:induction false} ReconcileIdempotent(stored: seq<Notification>, cands: seq<Notification>, cands2: seq<Notification>)
    requires Ids(cands2) == Ids(cands)
    ensures var next := Reconciled(stored, cands);
            NewEntries(next, cands2) == [] && Reconciled(next, cands2) == next
  {
    var next := Reconciled(stored, cands);
    ReconciledIds(stored, cands);
    var e := NewEntries(next, cands2);
    EmptyIds(e);
    assert next + e == next;
    forall n | n in next ensures n.id in Ids(cands2) {
      assert n.id in Ids(next);
    }
    KeepIdsAll(next, Ids(cands2));
  }

  lemma {:induction false} EmptyIds(ns: seq<Notification>)
    ensures Ids(ns) == {} <==> ns == []
  {
    if ns != [] {
      assert ns[0].id in Ids(ns);
    }
  }

  /** Candidate ids do not depend on the clock's `now` (only messages' times do). */
  lemma {:induction false} CandidateIdsIgnoreNow(fs: seq<Fabric>, today: Timestamp, now: Timestamp, now2: Timestamp)
    ensures Ids(Candidates(fs, today, now)) == Ids(Candidates(fs, today, now2))
    decreases |fs|
  {
    if fs != [] {
      var init := fs[..|fs| - 1];
      var f := fs[|fs| - 1];
      CandidateIdsIgnoreNow(init, today, now, now2);
      IdsConcat(Candidates(init, today, now), FabricCandidates(f, today, now));
      IdsConcat(Candidates(init, today, now2), FabricCandidates(f, today, now2));
      if !f.Deleted() {
        IdsConcat(LowStockCandidates(f, now), TransactionsCandidates(f, f.transactions, today, now));
        IdsConcat(LowStockCandidates(f, now2), TransactionsCandidates(f, f.transactions, today, now2));
        TransactionIdsIgnoreNow(f, f.transactions, today, now, now2);
      }
    }
  }

  lemma {:induction false} TransactionIdsIgnoreNow(f: Fabric, txs: seq<Transaction>, today: Timestamp, now: Timestamp, now2: Timestamp)
    ensures Ids(TransactionsCandidates(f, txs, today, now)) == Ids(TransactionsCandidates(f, txs, today, now2))
    decreases |txs|
  {
    if txs != [] {
      var init := txs[..|txs| - 1];
      var t := txs[|txs| - 1];
      TransactionIdsIgnoreNow(f, init, today, now, now2);
      IdsConcat(TransactionsCandidates(f, init, today, now), TxCandidates(f, t, today, now));
      IdsConcat(TransactionsCandidates(f, init, today, now2), TxCandidates(f, t, today, now2));
    }
  }

  /** The pass run again on an unchanged fabric list, later the same day, emits
      nothing and leaves the stored notifications as they are. */
  lemma {:induction false} PassIdempotent(fabrics: seq<Fabric>, stored: seq<Notification>, today: Timestamp, now: Timestamp, later: Timestamp)
    ensures var next := Reconciled(stored, Candidates(fabrics, today, now));
            var again := Candidates(fabrics, today, later);
            NewEntries(next, again) == [] && Reconciled(next, again) == next
  {
    CandidateIdsIgnoreNow(fabrics, today, later, now);
    ReconcileIdempotent(stored, Candidates(fabrics, today, now), Candidates(fabrics, today, later));
  }

  // ---------------------------------------------------------------------------
  // Read flags

  /** handleNotificationClick, read-flag part: only the clicked id becomes read. */
  function MarkRead(ns: seq<Notification>, id: string): (r: seq<Notification>)
    ensures |r| == |ns|
    ensures forall i :: 0 <= i < |ns| ==>
              r[i].(isRead := ns[i].isRead) == ns[i] && r[i].isRead == (ns[i].isRead || ns[i].id == id)
  {
    seq(|ns|, i requires 0 <= i < |ns| => if ns[i].id == id then ns[i].(isRead := true) else ns[i])
  }

  /** markAllNotificationsAsRead: every flag set, nothing else touched. */
  function MarkAllRead(ns: seq<Notification>): (r: seq<Notification>)
    ensures |r| == |ns|
    ensures forall i :: 0 <= i < |ns| ==> r[i].isRead && r[i].(isRead := ns[i].isRead) == ns[i]
    ensures Ids(r) == Ids(ns)
  {
    var r := seq(|ns|, i requires 0 <= i < |ns| => ns[i].(isRead := true));
    assert forall n :: n in r ==> exists i :: 0 <= i < |ns| && r[i] == n;
    assert forall n :: n in ns ==> exists i :: 0 <= i < |ns| && ns[i] == n;
    r
  }

  lemma {:induction false} MarkAllReadIdempotent(ns: seq<Notification>)
    ensures MarkAllRead(MarkAllRead(ns)) == MarkAllRead(ns)
  {
  }

  /** A read flag set by the user survives the next pass whenever the notification is
      still a candidate. */
  lemma {:induction false} ReadFlagSurvives(stored: seq<Notification>, cands: seq<Notification>, n: Notification)
    requires n in stored && n.isRead && n.id in Ids(cands)
    ensures n in Reconciled(stored, cands)
  {
    ReconciledKeepsStored(stored, cands);
  }
}

/** The admin panel's bucketing (the `useMemo` body of components/AdminPanel.tsx):
    every usage of every fabric is sorted into the pending, approved and rejected
    tabs or the 30-day recycle bin, and each bucket is then sorted newest first. The
    clock is a parameter: `now` is the current instant. */
module AdminPanel {
  import opened Types

  /** Deleted usages stay in the recycle bin for this many days. */
  const RecycleBinDays: int := 30

  /** A usage together with its owning fabric's code and id. */
  datatype Row = Row(usage: Usage, fabricCode: string, fabricId: string)

  datatype Bucket = PendingBucket | ApprovedBucket | RejectedBucket | RecycleBin

  /** The four arrays the bucketing pushes into. */
  datatype Buckets = Buckets(pending: seq<Row>, approved: seq<Row>, rejected: seq<Row>, recycle: seq<Row>)

  /** What the panel shows. */
  datatype Panel = Panel(
    pending: seq<Row>,
    approved: seq<Row>,
    rejected: seq<Row>,
    deletedFabrics: seq<Fabric>,
    deletedTransactions: seq<Row>)

  /** The instant thirty days before `now`. */
  function Cutoff(now: Timestamp): Timestamp {
    now - RecycleBinDays * DayMs
  }

  function StatusBucket(s: UsageStatus): Bucket {
    match s
    case Pending => PendingBucket
    case Confirmed => ApprovedBucket
    case Rejected => RejectedBucket
  }

  /** The if / else-if chain of the inner callback: a recently deleted usage goes to
      the recycle bin, a live one to the tab of its status, any other to no bucket. */
  function BucketOf(u: Usage, cutoff: Timestamp): Option<Bucket> {
    if u.Deleted() && u.deletedAt.Some? && u.deletedAt.value > cutoff then Some(RecycleBin)
    else if !u.Deleted() then Some(StatusBucket(u.status))
    else None
  }

  // ---------------------------------------------------------------------------
  // The buckets, as a specification

  /** The row a transaction contributes: one for a usage, none for a purchase. */
  function TxRows(f: Fabric, t: Transaction): seq<Row> {
    match t
    case PurchaseTx(_) => []
    case UsageTx(u) => [Row(u, f.code, f.id)]
  }

  function UsageRows(f: Fabric, txs: seq<Transaction>): seq<Row> {
    if txs == [] then []
    else UsageRows(f, txs[..|txs| - 1]) + TxRows(f, txs[|txs| - 1])
  }

  /** The rows of every fabric, deleted fabrics included, in list order. */
  function AllRows(fs: seq<Fabric>): seq<Row> {
    if fs == [] then []
    else AllRows(fs[..|fs| - 1]) + UsageRows(fs[|fs| - 1], fs[|fs| - 1].transactions)
  }

  /** The rows that land in bucket `b` (None: in no bucket), in order. */
  function Select(rows: seq<Row>, b: Option<Bucket>, cutoff: Timestamp): seq<Row> {
    if rows == [] then []
    else
      var r := rows[|rows| - 1];
      Select(rows[..|rows| - 1], b, cutoff) + (if BucketOf(r.usage, cutoff) == b then [r] else [])
  }

  function Bucketed(rows: seq<Row>, cutoff: Timestamp): Buckets {
    Buckets(
      Select(rows, Some(PendingBucket), cutoff),
      Select(rows, Some(ApprovedBucket), cutoff),
      Select(rows, Some(RejectedBucket), cutoff),
      Select(rows, Some(RecycleBin), cutoff))
  }

  /** Bucket-wise concatenation. */
  function Join(a: Buckets, b: Buckets): Buckets {
    Buckets(a.pending + b.pending, a.approved + b.approved, a.rejected + b.rejected, a.recycle + b.recycle)
  }

  /** `fabrics.filter(f => f.isDeleted)` */
  function DeletedFabrics(fs: seq<Fabric>): seq<Fabric> {
    if fs == [] then []
    else
      var f := fs[|fs| - 1];
      DeletedFabrics(fs[..|fs| - 1]) + (if f.Deleted() then [f] else [])
  }

  // ---------------------------------------------------------------------------
  // Sorting

  /** The two comparators: by `date`, and by `deletedAt` (recycle bin). */
  datatype SortKey = ByDate | ByDeletedAt

  /** The sort key of a row. The recycle bin's rows always carry deletedAt; 0 stands
      for the absent value, which never reaches the comparator. */
  function Key(r: Row, k: SortKey): int {
    match k
    case ByDate => r.usage.date
    case ByDeletedAt => if r.usage.deletedAt.Some? then r.usage.deletedAt.value else 0
  }

  predicate SortedDesc(s: seq<Row>, k: SortKey) {
    forall i, j :: 0 <= i < j < |s| ==> Key(s[i], k) >= Key(s[j], k)
  }

  /** Insert `x` after every element whose key is at least its own. */
  function Insert(s: seq<Row>, x: Row, k: SortKey): seq<Row> {
    if s == [] || Key(s[|s| - 1], k) >= Key(x, k) then s + [x]
    else Insert(s[..|s| - 1], x, k) + [s[|s| - 1]]
  }

  /** `sort` with the comparator `key(b) - key(a)`: newest first, ties in their
      original order. */
  function SortDesc(rows: seq<Row>, k: SortKey): seq<Row> {
    if rows == [] then []
    else Insert(SortDesc(rows[..|rows| - 1], k), rows[|rows| - 1], k)
  }

  lemma {:induction false} InsertPermutes(s: seq<Row>, x: Row, k: SortKey)
    ensures multiset(Insert(s, x, k)) == multiset(s) + multiset{x}
    decreases |s|
  {
    if s != [] && Key(s[|s| - 1], k) < Key(x, k) {
      var init := s[..|s| - 1];
      InsertPermutes(init, x, k);
      assert s == init + [s[|s| - 1]];
    }
  }

  lemma {:induction false} InsertSorted(s: seq<Row>, x: Row, k: SortKey)
    requires SortedDesc(s, k)
    ensures SortedDesc(Insert(s, x, k), k)
    decreases |s|
  {
    if s != [] && Key(s[|s| - 1], k) < Key(x, k) {
      var init := s[..|s| - 1];
      var last := s[|s| - 1];
      InsertSorted(init, x, k);
      InsertBound(s, x, k);
      SortedSnoc(Insert(init, x, k), last, k);
    }
  }

  /** When `x` goes before the last element, everything ahead of that element
      (`x` included) has a key at least as large. */
  lemma {:induction false} InsertBound(s: seq<Row>, x: Row, k: SortKey)
    requires s != [] && SortedDesc(s, k) && Key(s[|s| - 1], k) < Key(x, k)
    ensures forall y :: y in Insert(s[..|s| - 1], x, k) ==> Key(y, k) >= Key(s[|s| - 1], k)
  {
    var init := s[..|s| - 1];
    var t := Insert(init, x, k);
    InsertPermutes(init, x, k);
    SortedLastIsLeast(s, k);
    forall y | y in t ensures Key(y, k) >= Key(s[|s| - 1], k) {
      assert y in multiset(t);
    }
  }

  lemma {:induction false} SortedSnoc(t: seq<Row>, last: Row, k: SortKey)
    requires SortedDesc(t, k)
    requires forall y :: y in t ==> Key(y, k) >= Key(last, k)
    ensures SortedDesc(t + [last], k)
  {
    var res := t + [last];
    forall i, j | 0 <= i < j < |res| ensures Key(res[i], k) >= Key(res[j], k) {
      assert res[i] == t[i];
      if j < |t| {
        assert res[j] == t[j];
      } else {
        assert t[i] in t;
      }
    }
  }

  lemma {:induction false} SortedLastIsLeast(s: seq<Row>, k: SortKey)
    requires s != [] && SortedDesc(s, k)
    ensures forall y :: y in s ==> Key(y, k) >= Key(s[|s| - 1], k)
  {
  }

  /** Each sort is a permutation of its bucket and leaves it newest first. */
  lemma {:induction false} SortDescCorrect(rows: seq<Row>, k: SortKey)
    ensures multiset(SortDesc(rows, k)) == multiset(rows)
    ensures SortedDesc(SortDesc(rows, k), k)
    decreases |rows|
  {
    if rows != [] {
      var init := rows[..|rows| - 1];
      SortDescCorrect(init, k);
      InsertPermutes(SortDesc(init, k), rows[|rows| - 1], k);
      InsertSorted(SortDesc(init, k), rows[|rows| - 1], k);
      assert rows == init + [rows[|rows| - 1]];
    }
  }

  // ---------------------------------------------------------------------------
  // The bucketing, as the source computes it

  /** The inner callback for one transaction: push its row onto the bucket the
      if / else-if chain picks. */
  method PushTx(b: Buckets, fabric: Fabric, tx: Transaction, cutoff: Timestamp) returns (out: Buckets)
    ensures out == Join(b, Bucketed(TxRows(fabric, tx), cutoff))
  {
    out := b;
    if tx.UsageTx? {
      var u := tx.usage;
      var row := Row(u, fabric.code, fabric.id);
      if u.Deleted() && u.deletedAt.Some? && u.deletedAt.value > cutoff {
        out := out.(recycle := out.recycle + [row]);
      } else if !u.Deleted() {
        if u.status == Pending {
          out := out.(pending := out.pending + [row]);
        } else if u.status == Confirmed {
          out := out.(approved := out.approved + [row]);
        } else if u.status == Rejected {
          out := out.(rejected := out.rejected + [row]);
        }
      }
      BucketedSingle(row, cutoff);
    } else {
      assert TxRows(fabric, tx) == [];
    }
    JoinEmptyParts(b, Bucketed(TxRows(fabric, tx), cutoff));
  }

  /** The buckets of a single row: the row in the bucket BucketOf picks, the rest empty. */
  lemma {:induction false} BucketedSingle(r: Row, cutoff: Timestamp)
    ensures Bucketed([r], cutoff).pending == if BucketOf(r.usage, cutoff) == Some(PendingBucket) then [r] else []
    ensures Bucketed([r], cutoff).approved == if BucketOf(r.usage, cutoff) == Some(ApprovedBucket) then [r] else []
    ensures Bucketed([r], cutoff).rejected == if BucketOf(r.usage, cutoff) == Some(RejectedBucket) then [r] else []
    ensures Bucketed([r], cutoff).recycle == if BucketOf(r.usage, cutoff) == Some(RecycleBin) then [r] else []
  {
    SelectSingle(r, Some(PendingBucket), cutoff);
    SelectSingle(r, Some(ApprovedBucket), cutoff);
    SelectSingle(r, Some(RejectedBucket), cutoff);
    SelectSingle(r, Some(RecycleBin), cutoff);
  }

  lemma {:induction false} SelectSingle(r: Row, b: Option<Bucket>, cutoff: Timestamp)
    ensures Select([r], b, cutoff) == if BucketOf(r.usage, cutoff) == b then [r] else []
  {
    var s := [r];
    assert s[..|s| - 1] == [];
    assert s[|s| - 1] == r;
    assert Select(s, b, cutoff) == Select([], b, cutoff) + (if BucketOf(r.usage, cutoff) == b then [r] else []);
  }

  lemma {:induction false} JoinEmptyParts(a: Buckets, c: Buckets)
    ensures c.pending == [] ==> Join(a, c).pending == a.pending
    ensures c.approved == [] ==> Join(a, c).approved == a.approved
    ensures c.rejected == [] ==> Join(a, c).rejected == a.rejected
    ensures c.recycle == [] ==> Join(a, c).recycle == a.recycle
  {
  }

  lemma {:induction false} UsageRowsStep(f: Fabric, txs: seq<Transaction>, j: nat)
    requires j < |txs|
    ensures UsageRows(f, txs[..j + 1]) == UsageRows(f, txs[..j]) + TxRows(f, txs[j])
  {
    assert txs[..j + 1][..j] == txs[..j];
  }

  lemma {:induction false} AllRowsStep(fs: seq<Fabric>, i: nat)
    requires i < |fs|
    ensures AllRows(fs[..i + 1]) == AllRows(fs[..i]) + UsageRows(fs[i], fs[i].transactions)
  {
    assert fs[..i + 1][..i] == fs[..i];
  }

  lemma {:induction false} SelectConcat(a: seq<Row>, c: seq<Row>, b: Option<Bucket>, cutoff: Timestamp)
    ensures Select(a + c, b, cutoff) == Select(a, b, cutoff) + Select(c, b, cutoff)
    decreases |c|
  {
    if c == [] {
      assert a + c == a;
    } else {
      var init := c[..|c| - 1];
      assert (a + c)[..|a + c| - 1] == a + init;
      assert (a + c)[|a + c| - 1] == c[|c| - 1];
      SelectConcat(a, init, b, cutoff);
    }
  }

  lemma {:induction false} BucketedConcat(a: seq<Row>, c: seq<Row>, cutoff: Timestamp)
    ensures Bucketed(a + c, cutoff) == Join(Bucketed(a, cutoff), Bucketed(c, cutoff))
  {
    SelectConcat(a, c, Some(PendingBucket), cutoff);
    SelectConcat(a, c, Some(ApprovedBucket), cutoff);
    SelectConcat(a, c, Some(RejectedBucket), cutoff);
    SelectConcat(a, c, Some(RecycleBin), cutoff);
  }

  lemma {:induction false} JoinAssoc(a: Buckets, b: Buckets, c: Buckets)
    ensures Join(Join(a, b), c) == Join(a, Join(b, c))
  {
    assert a.pending + b.pending + c.pending == a.pending + (b.pending + c.pending);
    assert a.approved + b.approved + c.approved == a.approved + (b.approved + c.approved);
    assert a.rejected + b.rejected + c.rejected == a.rejected + (b.rejected + c.rejected);
    assert a.recycle + b.recycle + c.recycle == a.recycle + (b.recycle + c.recycle);
  }

  /** The outer callback for one fabric: the inner `forEach` over its transactions. */
  method PushFabric(b: Buckets, fabric: Fabric, cutoff: Timestamp) returns (out: Buckets)
    ensures out == Join(b, Bucketed(UsageRows(fabric, fabric.transactions), cutoff))
  {
    out := b;
    var txs := fabric.transactions;
    var j := 0;
    assert out == Join(b, Bucketed([], cutoff));
    while j < |txs|
      invariant 0 <= j <= |txs|
      invariant out == Join(b, Bucketed(UsageRows(fabric, txs[..j]), cutoff))
    {
      var prefix := UsageRows(fabric, txs[..j]);
      var rows := TxRows(fabric, txs[j]);
      out := PushTx(out, fabric, txs[j], cutoff);
      JoinAssoc(b, Bucketed(prefix, cutoff), Bucketed(rows, cutoff));
      BucketedConcat(prefix, rows, cutoff);
      UsageRowsStep(fabric, txs, j);
      j := j + 1;
    }
    assert txs[..j] == txs;
  }

  /** The nested `forEach` loops that fill the four arrays. */
  method CollectBuckets(fabrics: seq<Fabric>, cutoff: Timestamp) returns (b: Buckets)
    ensures b == Bucketed(AllRows(fabrics), cutoff)
  {
    b := Buckets([], [], [], []);
    var i := 0;
    while i < |fabrics|
      invariant 0 <= i <= |fabrics|
      invariant b == Bucketed(AllRows(fabrics[..i]), cutoff)
    {
      var rows := UsageRows(fabrics[i], fabrics[i].transactions);
      BucketedConcat(AllRows(fabrics[..i]), rows, cutoff);
      AllRowsStep(fabrics, i);
      b := PushFabric(b, fabrics[i], cutoff);
      i := i + 1;
    }
    assert fabrics[..i] == fabrics;
  }

  /** The whole `useMemo`: bucket, collect the deleted fabrics, sort. */
  method BuildPanel(fabrics: seq<Fabric>, now: Timestamp) returns (p: Panel)
    ensures p.pending == SortDesc(Select(AllRows(fabrics), Some(PendingBucket), Cutoff(now)), ByDate)
    ensures p.approved == SortDesc(Select(AllRows(fabrics), Some(ApprovedBucket), Cutoff(now)), ByDate)
    ensures p.rejected == SortDesc(Select(AllRows(fabrics), Some(RejectedBucket), Cutoff(now)), ByDate)
    ensures p.deletedFabrics == DeletedFabrics(fabrics)
    ensures p.deletedTransactions == SortDesc(Select(AllRows(fabrics), Some(RecycleBin), Cutoff(now)), ByDeletedAt)
  {
    var cutoff := Cutoff(now);
    var b := CollectBuckets(fabrics, cutoff);
    var deletedFabrics := DeletedFabrics(fabrics);
    p := Panel(SortDesc(b.pending, ByDate), SortDesc(b.approved, ByDate), SortDesc(b.rejected, ByDate),
               deletedFabrics, SortDesc(b.recycle, ByDeletedAt));
  }

  // ---------------------------------------------------------------------------
  // What the bucketing guarantees

  /** A row is selected into `b` exactly when it is a row and BucketOf picks `b`. */
  lemma {:induction false} SelectMembers(rows: seq<Row>, b: Option<Bucket>, cutoff: Timestamp)
    ensures forall r :: r in Select(rows, b, cutoff) <==> r in rows && BucketOf(r.usage, cutoff) == b
    decreases |rows|
  {
    if rows != [] {
      var init := rows[..|rows| - 1];
      SelectMembers(init, b, cutoff);
      assert rows == init + [rows[|rows| - 1]];
    }
  }

  /** The four buckets and the rows in no bucket account for every row once: with
      SelectMembers (each row is in the bucket BucketOf picks and in no other), their
      sizes add up to the number of rows. */
  lemma {:induction false} BucketsPartition(rows: seq<Row>, cutoff: Timestamp)
    ensures |rows|
            == |Select(rows, Some(PendingBucket), cutoff)| + |Select(rows, Some(ApprovedBucket), cutoff)|
               + |Select(rows, Some(RejectedBucket), cutoff)| + |Select(rows, Some(RecycleBin), cutoff)|
               + |Select(rows, None, cutoff)|
    decreases |rows|
  {
    if rows != [] {
      BucketsPartition(rows[..|rows| - 1], cutoff);
    }
  }

  /** Every row belongs to the fabric it names: a usage of that fabric, with its code
      and id. Purchases therefore produce no row. */
  lemma {:induction false} UsageRowsMembers(f: Fabric, txs: seq<Transaction>)
    ensures forall r :: r in UsageRows(f, txs) <==> UsageTx(r.usage) in txs && r.fabricCode == f.code && r.fabricId == f.id
    decreases |txs|
  {
    if txs != [] {
      var init := txs[..|txs| - 1];
      UsageRowsMembers(f, init);
      assert txs == init + [txs[|txs| - 1]];
    }
  }

  /** The rows are exactly the usages of the listed fabrics (deleted fabrics included),
      each carrying its own fabric's code and id. */
  lemma {:induction false} AllRowsMembers(fs: seq<Fabric>)
    ensures forall r :: r in AllRows(fs) <==> exists f :: f in fs && r in UsageRows(f, f.transactions)
    decreases |fs|
  {
    if fs != [] {
      var init := fs[..|fs| - 1];
      AllRowsMembers(init);
      assert fs == init + [fs[|fs| - 1]];
    }
  }

  /** A live usage of a listed fabric, deleted fabric or not, lands in the tab of its
      status and in no other bucket. */
  lemma {:induction false} LiveUsageBucket(fs: seq<Fabric>, f: Fabric, u: Usage, cutoff: Timestamp)
    requires f in fs && UsageTx(u) in f.transactions && !u.Deleted()
    ensures Row(u, f.code, f.id) in Select(AllRows(fs), Some(StatusBucket(u.status)), cutoff)
    ensures forall b :: b != StatusBucket(u.status) ==> Row(u, f.code, f.id) !in Select(AllRows(fs), Some(b), cutoff)
  {
    var r := Row(u, f.code, f.id);
    UsageRowsMembers(f, f.transactions);
    AllRowsMembers(fs);
    assert r in AllRows(fs);
    forall b: Option<Bucket> ensures r in Select(AllRows(fs), b, cutoff) <==> BucketOf(u, cutoff) == b {
      SelectMembers(AllRows(fs), b, cutoff);
    }
  }

  /** A deleted usage is in no status tab; it is in the recycle bin exactly when its
      deletedAt is set and later than the cutoff. */
  lemma {:induction false} DeletedUsageBucket(fs: seq<Fabric>, f: Fabric, u: Usage, cutoff: Timestamp)
    requires f in fs && UsageTx(u) in f.transactions && u.Deleted()
    ensures forall s :: Row(u, f.code, f.id) !in Select(AllRows(fs), Some(StatusBucket(s)), cutoff)
    ensures Row(u, f.code, f.id) in Select(AllRows(fs), Some(RecycleBin), cutoff)
            <==> u.deletedAt.Some? && u.deletedAt.value > cutoff
  {
    var r := Row(u, f.code, f.id);
    UsageRowsMembers(f, f.transactions);
    AllRowsMembers(fs);
    assert r in AllRows(fs);
    forall b: Option<Bucket> ensures r in Select(AllRows(fs), b, cutoff) <==> BucketOf(u, cutoff) == b {
      SelectMembers(AllRows(fs), b, cutoff);
    }
  }

  /** Every recycle-bin row has deletedAt set, so the second comparator never sees an
      absent value. */
  lemma {:induction false} RecycleBinHasDeletedAt(rows: seq<Row>, cutoff: Timestamp)
    ensures forall r :: r in Select(rows, Some(RecycleBin), cutoff) ==> r.usage.Deleted() && r.usage.deletedAt.Some?
  {
    SelectMembers(rows, Some(RecycleBin), cutoff);
  }

  /** `deletedFabrics` holds exactly the deleted fabrics. */
  lemma {:induction false} DeletedFabricsMembers(fs: seq<Fabric>)
    ensures forall f :: f in DeletedFabrics(fs) <==> f in fs && f.Deleted()
    decreases |fs|
  {
    if fs != [] {
      var init := fs[..|fs| - 1];
      DeletedFabricsMembers(init);
      assert fs == init + [fs[|fs| - 1]];
    }
  }

  /** The filter distributes over concatenation, so `deletedFabrics` keeps list order. */
  lemma {:induction false} DeletedFabricsConcat(a: seq<Fabric>, b: seq<Fabric>)
    ensures DeletedFabrics(a + b) == DeletedFabrics(a) + DeletedFabrics(b)
    decreases |b|
  {
    if b == [] {
      assert a + b == a;
    } else {
      var init := b[..|b| - 1];
      assert (a + b)[..|a + b| - 1] == a + init;
      assert (a + b)[|a + b| - 1] == b[|b| - 1];
      DeletedFabricsConcat(a, init);
    }
  }

  /** The badge of the recycle-bin tab. */
  function RecycleBinCount(p: Panel): nat {
    |p.deletedFabrics| + |p.deletedTransactions|
  }

  /** The panel's tabs are sorted permutations of the buckets, so each tab's count is
      its bucket's size, and the recycle-bin badge counts the deleted fabrics plus the
      recently deleted usages. */
  lemma {:induction false} PanelCounts(fabrics: seq<Fabric>, now: Timestamp, p: Panel)
    requires p.pending == SortDesc(Select(AllRows(fabrics), Some(PendingBucket), Cutoff(now)), ByDate)
    requires p.approved == SortDesc(Select(AllRows(fabrics), Some(ApprovedBucket), Cutoff(now)), ByDate)
    requires p.rejected == SortDesc(Select(AllRows(fabrics), Some(RejectedBucket), Cutoff(now)), ByDate)
    requires p.deletedFabrics == DeletedFabrics(fabrics)
    requires p.deletedTransactions == SortDesc(Select(AllRows(fabrics), Some(RecycleBin), Cutoff(now)), ByDeletedAt)
    ensures |p.pending| == |Select(AllRows(fabrics), Some(PendingBucket), Cutoff(now))|
    ensures |p.approved| == |Select(AllRows(fabrics), Some(ApprovedBucket), Cutoff(now))|
    ensures |p.rejected| == |Select(AllRows(fabrics), Some(RejectedBucket), Cutoff(now))|
    ensures RecycleBinCount(p) == |DeletedFabrics(fabrics)| + |Select(AllRows(fabrics), Some(RecycleBin), Cutoff(now))|
    ensures SortedDesc(p.pending, ByDate) && SortedDesc(p.approved, ByDate) && SortedDesc(p.rejected, ByDate)
    ensures SortedDesc(p.deletedTransactions, ByDeletedAt)
  {
    var pend := Select(AllRows(fabrics), Some(PendingBucket), Cutoff(now));
    var appr := Select(AllRows(fabrics), Some(ApprovedBucket), Cutoff(now));
    var rej := Select(AllRows(fabrics), Some(RejectedBucket), Cutoff(now));
    var bin := Select(AllRows(fabrics), Some(RecycleBin), Cutoff(now));
    SortDescCorrect(pend, ByDate);
    SortDescCorrect(appr, ByDate);
    SortDescCorrect(rej, ByDate);
    SortDescCorrect(bin, ByDeletedAt);
    assert |multiset(p.pending)| == |multiset(pend)|;
    assert |multiset(p.approved)| == |multiset(appr)|;
    assert |multiset(p.rejected)| == |multiset(rej)|;
    assert |multiset(p.deletedTransactions)| == |multiset(bin)|;
  }

  /** Line 136: Approve and Reject are offered only on a Pending row. */
  predicate OffersDecision(r: Row) {
    r.usage.status == Pending
  }

  /** A sorted tab holds only rows of its bucket. */
  lemma {:induction false} SortedTabMembers(rows: seq<Row>, b: Bucket, cutoff: Timestamp, k: SortKey)
    ensures forall r :: r in SortDesc(Select(rows, Some(b), cutoff), k) ==> r in rows && BucketOf(r.usage, cutoff) == Some(b)
  {
    var sel := Select(rows, Some(b), cutoff);
    SelectMembers(rows, Some(b), cutoff);
    SortDescCorrect(sel, k);
    forall r | r in SortDesc(sel, k) ensures r in sel {
      assert r in multiset(SortDesc(sel, k));
    }
  }

  /** Every row of the pending tab offers Approve / Reject, and no row of the approved
      or rejected tab does. */
  lemma {:induction false} DecisionsOnlyInPendingTab(rows: seq<Row>, cutoff: Timestamp)
    ensures forall r :: r in SortDesc(Select(rows, Some(PendingBucket), cutoff), ByDate) ==> OffersDecision(r)
    ensures forall r :: r in SortDesc(Select(rows, Some(ApprovedBucket), cutoff), ByDate) ==> !OffersDecision(r)
    ensures forall r :: r in SortDesc(Select(rows, Some(RejectedBucket), cutoff), ByDate) ==> !OffersDecision(r)
  {
    SortedTabMembers(rows, PendingBucket, cutoff, ByDate);
    SortedTabMembers(rows, ApprovedBucket, cutoff, ByDate);
    SortedTabMembers(rows, RejectedBucket, cutoff, ByDate);
  }
}

/** Available stock of a fabric (calculateAvailableStock in src/App.tsx). */
module Stock {
  import opened Types

  /** Stock below this many square metres raises a low-stock notification. */
  const LowStockThreshold: real := 20.0

  /** A usage consumes stock only once it is Confirmed and not soft-deleted. */
  predicate ConsumesStock(u: Usage) {
    u.status == Confirmed && !u.Deleted()
  }

  function PurchasedBy(t: Transaction): real {
    match t
    case PurchaseTx(p) => p.quantity
    case UsageTx(_) => 0.0
  }

  function UsedBy(t: Transaction): real {
    match t
    case PurchaseTx(_) => 0.0
    case UsageTx(u) => if ConsumesStock(u) then u.totalFabricUsed else 0.0
  }

  /** The sum of the purchase quantities, folded from the left as `reduce` does. */
  function TotalPurchased(txs: seq<Transaction>): real {
    if txs == [] then 0.0 else TotalPurchased(txs[..|txs| - 1]) + PurchasedBy(txs[|txs| - 1])
  }

  /** The sum of totalFabricUsed over the Confirmed, non-deleted usages. */
  function TotalUsed(txs: seq<Transaction>): real {
    if txs == [] then 0.0 else TotalUsed(txs[..|txs| - 1]) + UsedBy(txs[|txs| - 1])
  }

  /** calculateAvailableStock: initial stock plus purchases minus consumed usage.
      Not clamped: the result may be negative. */
  function AvailableStock(f: Fabric): real {
    f.initialStock + TotalPurchased(f.transactions) - TotalUsed(f.transactions)
  }

  /** Reference definition: what one transaction does to the stock. */
  function Effect(t: Transaction): real {
    match t
    case PurchaseTx(p) => p.quantity
    case UsageTx(u) => if ConsumesStock(u) then -u.totalFabricUsed else 0.0
  }

  /** Reference definition: the transactions' effects summed from the front. */
  function NetChange(txs: seq<Transaction>): real {
    if txs == [] then 0.0 else Effect(txs[0]) + NetChange(txs[1..])
  }

  lemma {:induction false} TotalsSplit(a: seq<Transaction>, b: seq<Transaction>)
    ensures TotalPurchased(a + b) == TotalPurchased(a) + TotalPurchased(b)
    ensures TotalUsed(a + b) == TotalUsed(a) + TotalUsed(b)
    decreases |b|
  {
    if b == [] {
      assert a + b == a;
    } else {
      var n := |b| - 1;
      assert (a + b)[..|a + b| - 1] == a + b[..n];
      assert (a + b)[|a + b| - 1] == b[n];
      TotalsSplit(a, b[..n]);
    }
  }

  lemma {:induction false} NetChangeSplit(a: seq<Transaction>, b: seq<Transaction>)
    ensures NetChange(a + b) == NetChange(a) + NetChange(b)
    decreases |a|
  {
    if a == [] {
      assert a + b == b;
    } else {
      assert (a + b)[1..] == a[1..] + b;
      NetChangeSplit(a[1..], b);
    }
  }

  /** The source's two filtered sums agree with the sum of per-transaction effects. */
  lemma {:induction false} AvailableStockIsNetChange(f: Fabric)
    ensures AvailableStock(f) == f.initialStock + NetChange(f.transactions)
  {
    TotalsMatchNetChange(f.transactions);
  }

  lemma {:induction false} TotalsMatchNetChange(txs: seq<Transaction>)
    ensures TotalPurchased(txs) - TotalUsed(txs) == NetChange(txs)
    decreases |txs|
  {
    if txs != [] {
      assert txs == [txs[0]] + txs[1..];
      TotalsSplit([txs[0]], txs[1..]);
      assert [txs[0]][..0] == [];
      TotalsMatchNetChange(txs[1..]);
    }
  }

  /** Removing one transaction removes exactly its effect. */
  lemma {:induction false} NetChangeRemove(txs: seq<Transaction>, k: nat)
    requires k < |txs|
    ensures NetChange(txs) == Effect(txs[k]) + NetChange(txs[..k] + txs[k + 1..])
  {
    assert txs == txs[..k] + ([txs[k]] + txs[k + 1..]);
    NetChangeSplit(txs[..k], [txs[k]] + txs[k + 1..]);
    NetChangeSplit(txs[..k], txs[k + 1..]);
    assert ([txs[k]] + txs[k + 1..])[1..] == txs[k + 1..];
  }

  lemma {:induction false} MultisetWithout(t: seq<Transaction>, k: nat)
    requires k < |t|
    ensures multiset(t[..k] + t[k + 1..]) == multiset(t) - multiset{t[k]}
  {
    assert t == t[..k] + [t[k]] + t[k + 1..];
  }

  lemma {:induction false} IndexOf(t: seq<Transaction>, x: Transaction) returns (k: nat)
    requires x in multiset(t)
    ensures k < |t| && t[k] == x
  {
    assert x in t;
    k :| 0 <= k < |t| && t[k] == x;
  }

  /** Where the first element of `s` sits in its permutation `t`, and what is left. */
  lemma {:induction false} MatchFirst(s: seq<Transaction>, t: seq<Transaction>) returns (k: nat)
    requires s != [] && multiset(s) == multiset(t)
    ensures k < |t| && t[k] == s[0]
    ensures multiset(s[1..]) == multiset(t[..k] + t[k + 1..])
  {
    assert s[0] in multiset(s);
    k := IndexOf(t, s[0]);
    MultisetWithout(t, k);
    MultisetWithout(s, 0);
    assert s[..0] + s[1..] == s[1..];
  }

  /** The net change depends only on the multiset of transactions, not their order. */
  lemma {:induction false} NetChangePermutation(s: seq<Transaction>, t: seq<Transaction>)
    requires multiset(s) == multiset(t)
    ensures NetChange(s) == NetChange(t)
    decreases |s|
  {
    if s == [] {
      assert |t| == |multiset(t)| == 0;
    } else {
      var k := MatchFirst(s, t);
      NetChangePermutation(s[1..], t[..k] + t[k + 1..]);
      NetChangeRemove(t, k);
    }
  }

  /** Available stock does not depend on the order of the transactions. */
  lemma {:induction false} AvailableStockOrderIndependent(f: Fabric, g: Fabric)
    requires f.initialStock == g.initialStock
    requires multiset(f.transactions) == multiset(g.transactions)
    ensures AvailableStock(f) == AvailableStock(g)
  {
    AvailableStockIsNetChange(f);
    AvailableStockIsNetChange(g);
    NetChangePermutation(f.transactions, g.transactions);
  }

  /** Appending a transaction moves the stock by exactly that transaction's effect:
      a purchase adds its quantity, a Confirmed live usage subtracts its total, and a
      Pending, Rejected or deleted usage changes nothing. */
  lemma {:induction false} AppendEffect(f: Fabric, t: Transaction)
    ensures AvailableStock(f.(transactions := f.transactions + [t])) == AvailableStock(f) + Effect(t)
    ensures t.UsageTx? && !ConsumesStock(t.usage) ==>
              AvailableStock(f.(transactions := f.transactions + [t])) == AvailableStock(f)
  {
    var g := f.(transactions := f.transactions + [t]);
    AvailableStockIsNetChange(f);
    AvailableStockIsNetChange(g);
    NetChangeSplit(f.transactions, [t]);
    assert [t][1..] == [];
  }

  /** Replacing one transaction changes the stock by the difference of the effects. */
  lemma {:induction false} ReplaceEffect(f: Fabric, k: nat, t: Transaction)
    requires k < |f.transactions|
    ensures AvailableStock(f.(transactions := f.transactions[k := t]))
            == AvailableStock(f) - Effect(f.transactions[k]) + Effect(t)
  {
    var txs := f.transactions;
    var g := f.(transactions := txs[k := t]);
    AvailableStockIsNetChange(f);
    AvailableStockIsNetChange(g);
    NetChangeRemove(txs, k);
    NetChangeRemove(txs[k := t], k);
    assert txs[k := t][..k] + txs[k := t][k + 1..] == txs[..k] + txs[k + 1..];
  }
}

/**
 * The wallet page's transaction list: the record the backend returns and
 * the client-side filter over it (`filteredTransactions`).
 */
module WalletTransactions {

  /**
   * One entry of `/wallet/transactions`. The source's `type` field is
   * `kind` here; its value is whatever text the backend sent ("credit" or
   * "debit" by the declared type).
   */
  datatype Transaction = Transaction(
    id: int,
    kind: string,
    amount: real,
    description: string,
    timestamp: string)

  /** The filter buttons: "all", "credit", "debit". */
  datatype TxFilter = All | Credit | Debit

  function FilterName(f: TxFilter): string {
    match f
    case All => "all"
    case Credit => "credit"
    case Debit => "debit"
  }

  /** The predicate passed to `transactions.filter`. */
  predicate Shown(f: TxFilter, tx: Transaction)
    ensures f == All ==> Shown(f, tx)
    ensures f != All ==> (Shown(f, tx) <==> tx.kind == FilterName(f))
  {
    f == All || tx.kind == FilterName(f)
  }

  /**
   * `transactions.filter(...)`: every transaction the filter shows, as many
   * times as it occurs, and no other.
   */
  function Filtered(txs: seq<Transaction>, f: TxFilter): (r: seq<Transaction>)
    ensures forall x :: multiset(r)[x] == if Shown(f, x) then multiset(txs)[x] else 0
    ensures |r| <= |txs|
  {
    if txs == [] then []
    else
      var rest := Filtered(txs[1..], f);
      assert txs == [txs[0]] + txs[1..];
      if Shown(f, txs[0]) then [txs[0]] + rest else rest
  }

  /** `a` is `b` with some elements removed, the others kept in order. */
  predicate IsSubsequence<T(==)>(a: seq<T>, b: seq<T>)
    decreases |b|
  {
    a == [] || (b != [] && ((a[0] == b[0] && IsSubsequence(a[1..], b[1..])) || IsSubsequence(a, b[1..])))
  }

  /** The filter keeps the original order: its result is a subsequence of the list. */
  lemma {:induction false} FilteredIsSubsequence(txs: seq<Transaction>, f: TxFilter)
    ensures IsSubsequence(Filtered(txs, f), txs)
  {
    if txs != [] {
      FilteredIsSubsequence(txs[1..], f);
    }
  }

  /** "all" shows the list unchanged. */
  lemma {:induction false} FilterAllIsIdentity(txs: seq<Transaction>)
    ensures Filtered(txs, All) == txs
  {
    if txs != [] {
      FilterAllIsIdentity(txs[1..]);
      assert txs == [txs[0]] + txs[1..];
    }
  }

  /** Filtering twice by the same filter is filtering once. */
  lemma {:induction false} FilterIdempotent(txs: seq<Transaction>, f: TxFilter)
    ensures Filtered(Filtered(txs, f), f) == Filtered(txs, f)
  {
    if txs != [] {
      FilterIdempotent(txs[1..], f);
      if Shown(f, txs[0]) {
        var rest := Filtered(txs[1..], f);
        assert ([txs[0]] + rest)[1..] == rest;
      }
    }
  }

  /** A "credit" or "debit" result holds only transactions of that type. */
  lemma {:induction false} FilteredHasKind(txs: seq<Transaction>, f: TxFilter, i: nat)
    requires f != All && i < |Filtered(txs, f)|
    ensures Filtered(txs, f)[i].kind == FilterName(f)
  {
    var r := Filtered(txs, f);
    assert r[i] in multiset(r);
  }

  /**
   * When every transaction is a credit or a debit, the "credit" and
   * "debit" views split the list between them.
   */
  lemma {:induction false} CreditDebitPartition(txs: seq<Transaction>)
    requires forall i :: 0 <= i < |txs| ==> txs[i].kind == "credit" || txs[i].kind == "debit"
    ensures |Filtered(txs, Credit)| + |Filtered(txs, Debit)| == |txs|
  {
    if txs != [] {
      CreditDebitPartition(txs[1..]);
    }
  }
}

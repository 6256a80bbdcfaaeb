/**
 * The wallet page's component state and the handlers that change it
 * (app/wallet/page.tsx): loading balance and history, topping up, choosing
 * a filter, exporting. Responses arrive as parameters; what the page would
 * send is returned.
 */
module WalletPage {
  import opened JsValues
  import opened WalletTransactions
  import opened WalletCsv
  import opened TopUp

  const LoadFailedMessage := "⚠️ Failed to load wallet data. Please retry."

  /** The body of `/wallet/transactions`: the page keeps it only if it is an array. */
  datatype TxPayload = TxArray(items: seq<Transaction>) | NotArray(value: Json)

  /** The joined balance and history fetch: both bodies, or a rejection. */
  datatype LoadResult = Loaded(balance: Json, history: TxPayload) | LoadFailed

  /** What the top-up request came back with. */
  datatype TopUpResult = Unreachable(thrown: Thrown) | Accepted | Refused(body: Body)

  /** `Array.isArray(txData) ? txData : []`. */
  function HistoryOf(p: TxPayload): (txs: seq<Transaction>)
    ensures p.NotArray? ==> txs == []
    ensures p.TxArray? ==> txs == p.items
  {
    match p
    case TxArray(items) => items
    case NotArray(_) => []
  }

  class Wallet {
    /** The bearer token read from storage when the page rendered. */
    const token: Option<string>
    var wallet: Option<Json>
    var transactions: seq<Transaction>
    var amount: string
    var loading: bool
    var message: string
    var filter: TxFilter

    /** The state of a freshly mounted page. */
    constructor (token: Option<string>)
      ensures this.token == token
      ensures wallet == None && transactions == [] && amount == "" && loading
      ensures message == "" && filter == All
    {
      this.token := token;
      wallet := None;
      transactions := [];
      amount := "";
      loading := true;
      message := "";
      filter := All;
    }

    /**
     * `fetchData` once its requests have settled: without a token nothing
     * happens; otherwise a load replaces the balance and the whole history,
     * a failure keeps both and reports it, and loading ends either way.
     */
    method FetchData(result: LoadResult) returns (requested: bool)
      modifies this`wallet, this`transactions, this`loading, this`message
      ensures requested <==> !Falsy(token)
      ensures !requested ==> wallet == old(wallet) && transactions == old(transactions)
                             && loading == old(loading) && message == old(message)
      ensures requested ==> !loading
      ensures requested && result.Loaded? ==>
                wallet == Some(result.balance) && transactions == HistoryOf(result.history)
                && message == old(message)
      ensures requested && result.LoadFailed? ==>
                wallet == old(wallet) && transactions == old(transactions)
                && message == LoadFailedMessage
    {
      if Falsy(token) {
        return false;
      }
      requested := true;
      loading := true;
      match result {
        case Loaded(balance, history) =>
          wallet := Some(balance);
          transactions := HistoryOf(history);
        case LoadFailed =>
          message := LoadFailedMessage;
      }
      loading := false;
    }

    /** The input field's `onChange`. */
    method SetAmount(input: string)
      modifies this`amount
      ensures amount == input
    {
      amount := input;
    }

    /** The "All", "Credit" and "Debit" buttons. */
    method SetFilter(f: TxFilter)
      modifies this`filter
      ensures filter == f
    {
      filter := f;
    }

    /**
     * `handleTopUp`. Returns the amount it sends (`None`: no request) and
     * whether it starts a re-fetch. A refused amount sends nothing; success
     * clears the field and reports it; a refusal by the server shows the
     * normalised error behind "❌ "; an unreachable server shows the thrown
     * error's text.
     */
    method TopUp(result: TopUpResult, r: Render) returns (sent: Option<real>, refetch: bool)
      modifies this`amount, this`message
      ensures Falsy(token) ==> sent.None? && amount == old(amount) && message == old(message)
      ensures !Falsy(token) ==> sent == ValidatedAmount(old(amount))
      ensures refetch <==> sent.Some? && result.Accepted?
      ensures sent.None? && !Falsy(token) ==>
                message == InvalidAmountMessage && amount == old(amount)
      ensures sent.Some? && result.Accepted? ==> message == SuccessMessage && amount == ""
      ensures sent.Some? && result.Refused? ==>
                message == FailureMessage(result.body, r) && amount == old(amount)
      ensures sent.Some? && result.Refused? && !NonArrayDetail(result.body) ==>
                message == FailurePrefix + FailureTextAsWritten(result.body, r)
      ensures sent.Some? && result.Unreachable? ==>
                message == UnreachableMessage(result.thrown) && amount == old(amount)
    {
      if Falsy(token) {
        return None, false;
      }
      sent := ValidatedAmount(amount);
      if sent.None? {
        message := InvalidAmountMessage;
        return sent, false;
      }
      match result {
        case Accepted =>
          message := SuccessMessage;
          amount := "";
          refetch := true;
        case Refused(body) =>
          message := FailureMessage(body, r);
          refetch := false;
        case Unreachable(thrown) =>
          message := UnreachableMessage(thrown);
          refetch := false;
      }
    }

    /** `filteredTransactions`: the history as the current filter shows it. */
    function Visible(): (shown: seq<Transaction>)
      reads this
      ensures forall x :: multiset(shown)[x] == if Shown(filter, x) then multiset(transactions)[x] else 0
      ensures IsSubsequence(shown, transactions)
    {
      FilteredIsSubsequence(transactions, filter);
      Filtered(transactions, filter)
    }

    /**
     * `handleExportCSV`: the CSV of the WHOLE history, whatever the filter
     * shows; nothing (only an alert) when the history is empty.
     */
    method ExportCsvText(fmt: CsvFormat) returns (csv: Option<string>)
      ensures csv.None? <==> transactions == []
      ensures csv.Some? ==> csv.value == CsvText(transactions, fmt)
      ensures csv.Some? && NoLineBreaks(transactions, fmt) ==>
                |SplitLines(csv.value)| == |transactions| + 1
    {
      csv := ExportCsv(transactions, fmt);
    }
  }
}

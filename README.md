# Wallet and marketplace page logic, modelled in Dafny

This project models the client-side logic of two pages of a GPU-marketplace web
front end.

The **wallet page** (`app/wallet/page.tsx`) loads the balance and the
transaction history. It tops up the wallet, filters the history by type, and
exports the history as CSV. Its code has four pure parts:

- the validation of the entered amount;
- the layered decision tree that turns a refused top-up into a message;
- the filter that picks the transactions shown ("all", "credit" or "debit");
- the CSV serialiser, which doubles quotes in the description (section 2,
  rule 7 of RFC 4180).

The **marketplace page** (`app/marketplace/page.tsx`) lists GPU nodes. Each
node card shows one action. The owner gets "Set / Update Price"; everyone else
gets "Submit Job". Price updates and job submissions each pass a chain of guards
before a request body is built.

Pure logic is written as functions. Each page's component state is a class
(`WalletPage.Wallet`, `Marketplace.MarketplacePage`), and its methods take the
server's response as a parameter. What a handler would send is returned as a
value.

Layout:

- `js_values.dfy` (module `JsValues`): parsed JSON bodies, truthiness, `?.`
  property access, and text conversion.
- `js_text.dfy` (module `JsText`): `trim`, `toLowerCase` and `includes`.
- `js_number.dfy` (module `JsNumber`): `Number(...)` and `parseFloat` on
  decimal literals.
- `wallet_transactions.dfy` (module `WalletTransactions`): the transaction
  record and the filter.
- `wallet_csv.dfy` (module `WalletCsv`): the CSV export, with an RFC 4180
  quoted-field reader and a line splitter to state its round trips.
- `wallet_topup.dfy` (module `TopUp`): amount validation and error
  normalisation.
- `wallet_page.dfy` (module `WalletPage`): the wallet page state.
- `marketplace.dfy` (module `Marketplace`): nodes, actions, guards, payloads
  and the marketplace page state.

`handleExportCSV` exports the full `transactions` list, not the filtered view
(app/wallet/page.tsx:134-147), and so does `WalletPage.Wallet.ExportCsvText`.

## Model

| member | source | states |
|---|---|---|
| `WalletPage.Wallet.constructor` | app/wallet/page.tsx:18-23 | A mounted page has no wallet, an empty history, an empty amount, is loading, has no message and uses filter "all". |
| `WalletPage.Wallet.FetchData` | app/wallet/page.tsx:29-53 | Without a token nothing changes. A load replaces the balance and the whole history. A non-array history becomes empty. A failure keeps both and sets "⚠️ Failed to load wallet data. Please retry.". Loading ends in every case. |
| `WalletPage.HistoryOf` | app/wallet/page.tsx:46 | A history payload that is not an array gives the empty list; an array is kept as it is. |
| `WalletPage.Wallet.TopUp` | app/wallet/page.tsx:63-130 | No token: nothing is sent. The amount sent is exactly the validated amount. A refused amount sends nothing and sets the warning. Success clears the amount, sets "✅ Wallet topped up successfully!" and only then re-fetches. A server refusal shows the corrected normalised error behind "❌ "; on every body except one with a truthy non-array `detail` that is the text the code as written shows. An unreachable server shows the thrown detail, then its message, then the fixed text. |
| `WalletPage.Wallet.SetAmount` | app/wallet/page.tsx:196 | The input's change handler replaces the amount. |
| `WalletPage.Wallet.SetFilter` | app/wallet/page.tsx:225-241 | A filter button replaces the filter. |
| `WalletPage.Wallet.Visible` | app/wallet/page.tsx:159-161 | The shown list holds each transaction the filter admits, as often as the history holds it, and nothing else. It is a subsequence of the history. |
| `WalletPage.Wallet.ExportCsvText` | app/wallet/page.tsx:133-147 | Export uses the full history, not the filtered view. An empty history gives no CSV. Otherwise the result is the CSV text of the history. Without line breaks in fields, N transactions give N+1 lines. |
| `TopUp.ValidatedAmount` | app/wallet/page.tsx:65-69 | An amount is accepted exactly when `Number` of the trimmed input is a number strictly above 0. The amount sent is that number. |
| `TopUp.BlankAmountRefused` | app/wallet/page.tsx:65-69 | Empty or blank input is refused, because `Number("")` is 0. |
| `TopUp.DigitsAmount` | app/wallet/page.tsx:65-69 | Typed digits of n are accepted as exactly n, except "0", which is refused. |
| `TopUp.NegativeAmountRefused` | app/wallet/page.tsx:65-69 | "-n" is refused for every n. |
| `TopUp.NonNumericAmountRefused` | app/wallet/page.tsx:65-69 | Input whose trimmed text starts with a character other than a digit, a sign or a point is refused (decimal input; see `JsNumber.Number` under Left out). |
| `TopUp.TrailingTextRefused` | app/wallet/page.tsx:65-69 | Input whose trimmed text ends in a character other than a digit or a point (such as "100abc" or "1e") is refused (decimal input; see `JsNumber.Number` under Left out). |
| `TopUp.FieldRequired` | app/wallet/page.tsx:99 | The test `toLowerCase().includes("field required")`; a message that passes it is at least as long as the phrase. |
| `TopUp.FieldRequiredInAnyCase` | app/wallet/page.tsx:99 | The phrase in any mix of upper and lower case, anywhere in a message, passes the test. |
| `TopUp.ArrayDetailText` | app/wallet/page.tsx:96-103 | For an array `detail`: a first `msg` containing "field required" in any case gives "Please enter a valid amount.". Another non-empty `msg` is shown. Without a usable `msg`, the JSON of the first element is shown ("undefined" for an empty array). A non-string `msg` makes `toLowerCase` throw, which gives "Unexpected server response.". |
| `TopUp.OtherDetailText` | app/wallet/page.tsx:104-108 | The branch the code means to run for a truthy non-array `detail`: a string is rewritten or shown, and any other value makes `toLowerCase` throw. |
| `TopUp.NoDetailText` | app/wallet/page.tsx:111-115 | With no usable `detail`, a truthy `message` is shown. Otherwise the whole body is shown as indented JSON. |
| `TopUp.FailureTextAsWritten` | app/wallet/page.tsx:87-118 | The decision tree as written. A truthy `detail` that is not an array leaves "Top-up failed", because of the dangling `else`. On every other body it agrees with `TopUp.FailureText`. |
| `TopUp.FailureText` | app/wallet/page.tsx:87-118 | The corrected decision tree. An unparsable body gives "Unexpected server response.". A string body gives itself. An array `detail` and a string `detail` are handled as above. Then comes `message`, then the body's JSON. "Top-up failed" can now come only from text the server sent. |
| `TopUp.FailureMessage` | app/wallet/page.tsx:120 | The shown text is always "❌ " followed by the normalised error. |
| `TopUp.UnreachableMessage` | app/wallet/page.tsx:122-128 | A thrown error shows its `detail`, else its `message`, else "⚠️ Server not reachable. Please check your connection."; the result is never empty. |
| `TopUp.StringDetailIsLost` | app/wallet/page.tsx:96-108 | For the body `{"detail": "Field required"}`, the code as written shows "Top-up failed", where the rewrite was intended. |
| `TopUp.AnyStringDetailIsLost` | app/wallet/page.tsx:96-108 | As written, any non-empty string `detail` is lost. The corrected tree does not show "Top-up failed" for it. |
| `WalletTransactions.Shown` | app/wallet/page.tsx:160 | "all" admits every transaction; otherwise a transaction is admitted exactly when its type equals the filter's name. |
| `WalletTransactions.Filtered` | app/wallet/page.tsx:159-161 | The filter keeps every transaction it admits, as many times as it occurs, and nothing else. |
| `WalletTransactions.FilteredIsSubsequence` | app/wallet/page.tsx:159-161 | Filtering keeps the original order: the result is a subsequence of the list. |
| `WalletTransactions.FilterAllIsIdentity` | app/wallet/page.tsx:159-161 | "all" returns the list unchanged. |
| `WalletTransactions.FilterIdempotent` | app/wallet/page.tsx:159-161 | Filtering twice by the same filter equals filtering once. |
| `WalletTransactions.FilteredHasKind` | app/wallet/page.tsx:159-161 | Every entry of a "credit" or "debit" view has that type. |
| `WalletTransactions.CreditDebitPartition` | app/wallet/page.tsx:159-161 | When every type is "credit" or "debit", the two views together are as long as the list. |
| `WalletCsv.DoubleQuotes` | app/wallet/page.tsx:143 | Quote doubling adds no line break. |
| `WalletCsv.UndoubleDoubleQuotes` | app/wallet/page.tsx:143 | Un-doubling the escaped description gives back the original. |
| `WalletCsv.QuotedField` | app/wallet/page.tsx:143 | The description column is enclosed in quotes and holds a line break only when the description does. |
| `WalletCsv.Row` | app/wallet/page.tsx:143 | A row starts with the type and a comma, and is a single line when no field holds a line break. |
| `WalletCsv.JoinLines` | app/wallet/page.tsx:147 | `join("\n")` starts with the first row and, when no row holds a break, puts exactly one break between neighbours: N rows hold N-1 breaks. |
| `WalletCsv.QuotedFieldReadsBack` | app/wallet/page.tsx:143 | An RFC 4180 reader reads the quoted description back exactly and stops at the comma that follows it. |
| `WalletCsv.ExportCsv` | app/wallet/page.tsx:134-147 | No CSV exactly when the list is empty. Otherwise the text starts with the header, and without line breaks in fields its lines are the header, then one row per transaction in order. |
| `WalletCsv.CsvLines` | app/wallet/page.tsx:139-147 | `rows.join("\n")` after the header, split at line breaks, gives the header and then the rows. N transactions give N+1 lines, with no trailing empty line. |
| `WalletCsv.SplitJoinLines` | app/wallet/page.tsx:147 | Joining lines that hold no break with "\n" and splitting again gives the lines back. |
| `WalletCsv.Rows` | app/wallet/page.tsx:140-146 | There is one row per transaction, in list order. |
| `JsText.Trim` | app/wallet/page.tsx:65 | `trim` returns the infix of the text that starts where the leading white space ends. Everything before and after it is white space, and it neither starts nor ends with white space. |
| `JsText.TrimStart` | app/wallet/page.tsx:65 | The suffix left after the leading white space; it does not start with white space. |
| `JsText.TrimEnd` | app/wallet/page.tsx:65 | The prefix left before the trailing white space; it does not end with white space. |
| `JsText.ToLower` | app/wallet/page.tsx:99 | `toLowerCase` keeps the length and maps each character on its own: A to Z become a to z, every other character stays. |
| `JsText.LowerOfConcat` | app/wallet/page.tsx:99 | Lower-casing two joined texts is joining their lower-cased forms. |
| `JsText.Contains` | app/wallet/page.tsx:99 | `includes` holds when the text occurs at some position; the text found is never longer than the one searched. |
| `JsText.ContainsInFrame` | app/wallet/page.tsx:99 | Any text placed between two others is found by `includes`. |
| `JsValues.Falsy` | app/marketplace/page.tsx:76-79 | `!s` on a string that may be absent (`!token`, `!newPrice`, `!command`, `!node.node_key`) holds exactly when JavaScript truthiness calls it falsy: `null` or "". |
| `JsValues.Text` | app/wallet/page.tsx:120 | `String(v)` shows a string as itself. |
| `JsValues.TemplateText` | app/marketplace/page.tsx:140 | `${o}` shows `undefined` as "undefined", a present string as itself, and any other value as `String` does. |
| `JsValues.Truthy` | app/wallet/page.tsx:92-111 | Every value is truthy except `undefined`, `null`, `false`, 0 and the empty string. |
| `JsValues.Member` | app/wallet/page.tsx:92-111 | `o?.key` is `undefined` on `null` and `undefined`, present exactly when `o` is an object with that key, and then that field's value. |
| `JsNumber.ScanDecimal` | app/marketplace/page.tsx:81 | The scanner reads a sign, digits, a point and digits (at least one digit in all) and an exponent. It finds something exactly when a digit sits where one is needed, and what it reads is a well-formed literal at the start of the text. |
| `JsNumber.ScanIsLongest` | app/marketplace/page.tsx:81 | Whenever any literal starts the text, the scanner finds one, at least as long: it reads the longest literal prefix. |
| `JsNumber.ScanReaches` | app/marketplace/page.tsx:81 | Each stage of the scanner stops no earlier than the same part of any literal laid out at the start of the text. |
| `JsNumber.ScanSpelled` | app/marketplace/page.tsx:81 | The scanner reads a literal's own text back as that literal. |
| `JsNumber.SpellEnds` | app/wallet/page.tsx:65 | A literal starts with a sign, a digit or a point and ends with a digit or a point. |
| `JsNumber.WholeLiteral` | app/wallet/page.tsx:65 | The scanner reads all of a text exactly when the text is a decimal literal, and then reads it as that literal. |
| `JsNumber.Number` | app/wallet/page.tsx:65 | Blank text is 0. Other text is a number exactly when its trimmed form is a decimal literal, and the number is that literal's value. |
| `JsNumber.ParseFloat` | app/marketplace/page.tsx:81 | NaN exactly when no literal starts the text after leading white space. Otherwise the value of the longest literal there. |
| `JsNumber.ParseSpelled` | app/marketplace/page.tsx:81 | Both parsers read a literal's own text as its value. |
| `JsNumber.NatTextReadsBack` | app/wallet/page.tsx:65 | Both parsers read back the decimal text of every natural number. |
| `JsNumber.SignedReadsBack` | app/wallet/page.tsx:65 | "+digits" is the digits' value and "-digits" its negation, for both parsers. |
| `JsNumber.FractionReadsBack` | app/marketplace/page.tsx:81 | "w.f" is w plus f in tenths, hundredths and so on, for both parsers; either side may be empty. |
| `JsNumber.ExponentReadsBack` | app/marketplace/page.tsx:81 | Digits m, then `e` and digits k, read as exactly m times 10^k; with `e-` they read as exactly m over 10^k, for both parsers. |
| `JsNumber.NotALiteralStart` | app/wallet/page.tsx:65 | Text whose first character after white space is not a digit, sign or point is NaN for both parsers. |
| `JsNumber.NotALiteralEnd` | app/wallet/page.tsx:65 | Text whose last character before white space is not a digit or point is NaN for `Number`. |
| `JsNumber.ScanDigitsThen` | app/marketplace/page.tsx:81 | Digits followed by a character that cannot continue a literal scan as exactly those digits. |
| `JsNumber.ParseFloatOfDigitsThen` | app/marketplace/page.tsx:81 | `parseFloat` of such text is the value of the digits. |
| `JsNumber.NumberOfDigitsThen` | app/wallet/page.tsx:65 | `Number` of digits followed by such text (not ending in white space) is NaN. |
| `JsNumber.ParseFloatStopsAt` | app/marketplace/page.tsx:81 | `parseFloat` stops at the first character that cannot continue a literal, while `Number` of the same text is NaN. |
| `JsNumber.ParseFloatStopsAtLetter` | app/marketplace/page.tsx:81 | `parseFloat("12abc")` is 12, while `Number` of the same text is NaN. |
| `JsNumber.ParseFloatAgreesWithNumber` | app/marketplace/page.tsx:81 | On a literal with nothing around it, `parseFloat` and `Number` agree. |
| `Marketplace.ActionFor` | app/marketplace/page.tsx:202-216 | "Set / Update Price" appears exactly when `userId` is present, is not 0 and equals the node's `owner_id`. Otherwise the card shows "Submit Job". |
| `Marketplace.ActionsFor` | app/marketplace/page.tsx:171-216 | There is one action per node card, in list order. |
| `Marketplace.AnonymousOnlySubmits` | app/marketplace/page.tsx:202-216 | With no user id, or id 0, every card offers only "Submit Job". |
| `Marketplace.MarketplacePage.Actions` | app/marketplace/page.tsx:152-216 | No action while loading. Otherwise there is one action per node, and it is the owner action exactly on the user's own nodes. |
| `Marketplace.PriceUpdate` | app/marketplace/page.tsx:74-97 | No token: "Login required!". An empty or cancelled prompt does nothing. A `parseFloat` that is NaN or at most 0 is an invalid price, and nothing is sent. Otherwise exactly `{price_per_hour: parsed, currency: "INR"}` is sent for the chosen node. |
| `Marketplace.WholePriceIsSent` | app/marketplace/page.tsx:78-97 | A positive whole price typed as digits is sent as exactly that number. |
| `Marketplace.PriceOutcome` | app/marketplace/page.tsx:100-109 | Success alerts and re-fetches the nodes. A refusal alerts "❌ Failed: " with the detail or the status text. An unreachable backend gives its own alert. Only a sent and accepted update re-fetches. |
| `Marketplace.FailedAlert` | app/marketplace/page.tsx:103-106 | The failure alert is "❌ Failed: " followed by the body's truthy `detail`. It falls back to the HTTP status text, also when the body is not JSON. |
| `Marketplace.FindIndex` | app/marketplace/page.tsx:121 | `find` stops at the first node with the id. There is none exactly when no node has that id. |
| `Marketplace.FindNode` | app/marketplace/page.tsx:121 | The found node has the id, is in the list, and is the first such node. |
| `Marketplace.JobSubmission` | app/marketplace/page.tsx:113-136 | Each guard blocks the request in order: no token, an empty or cancelled command, no node with the id ("Node not found."), a null or empty `node_key`. A request carries the found node's own id and key and the command unchanged. |
| `Marketplace.JobAlert` | app/marketplace/page.tsx:115-149 | Each guard has its alert, and a cancelled prompt has none. An accepted job alerts "✅ Job submitted successfully!" with the job's `id` and `command`. A refusal shows the detail or the status text. An OK body that is not JSON, or is `null`, throws and is reported as "Backend unreachable.". |
| `Marketplace.MarketplacePage.constructor` | app/marketplace/page.tsx:28-31 | A mounted page has no nodes, is loading, knows no user and shows no notice. |
| `Marketplace.MarketplacePage.FetchUser` | app/marketplace/page.tsx:35-49 | With a token and an OK `/me`, its `id` replaces the user id. Otherwise the user id stays. |
| `Marketplace.MarketplacePage.FetchNodes` | app/marketplace/page.tsx:52-63 | A listing replaces the whole node list. A failure keeps the previous list. Loading ends either way. |
| `Marketplace.MarketplacePage.SubmitJob` | app/marketplace/page.tsx:113-150 | The step taken is the guard chain applied to the current list. The alert follows from it. Only an accepted submission sets "Job running... balance debited!". |

## Findings

| source | as written | input that shows it | evidently intended | confidence | as-written member | corrected member |
|---|---|---|---|---|---|---|
| app/wallet/page.tsx:96-108 | `if (Array.isArray(err.detail))` appears twice. The `else` at line 104 binds to the inner `if`, whose condition is already true, so a truthy `detail` that is not an array leaves the message at "Top-up failed". | A refused top-up whose body is `{"detail": "Field required"}` | A string `detail` is shown, or rewritten to "Please enter a valid amount." when it reports a missing field | high; not executed | `TopUp.FailureTextAsWritten` (shown by `TopUp.StringDetailIsLost`) | `TopUp.FailureText` |

`WalletPage.Wallet.TopUp` uses the corrected `TopUp.FailureText`.

## Left out

- Network calls, browser storage, `alert`, `prompt`, the 15-second polling timers and their cleanup, and the `Promise.all` join are left out. Responses, prompt answers and the stored token are parameters. Alerts and requests are returned values.
- `WalletPage.Wallet.FetchData`: models the state once the requests have settled. The loading screen shown while they are pending is not a separate state, and overlapping polls are not modelled.
- JSX rendering, CSS, the Blob download in `handleExportCSV`, and the files `app/page.tsx`, `app/layout.tsx` and `components/Toast.tsx` are markup or browser I/O, not logic.
- `JSON.stringify`, `String(...)` of non-strings, the amount's number-to-text conversion and `toLocaleString` of dates are left out. They are the fields of `JsValues.Render` and `WalletCsv.CsvFormat`, so their output is not modelled.
- `JsNumber.Number`: reads decimal literals only (sign, digits, point, exponent) as exact reals. `Infinity`, hexadecimal, octal and binary literals, and IEEE double rounding, underflow and overflow are not modelled. For example, a top-up of "Infinity" is refused here, but the page would send it; "1e-400" is 0 on the page and refused, but positive here; "1e400" is `Infinity` on the page, a finite value here.
- `JsNumber.ParseFloat`: reads the same decimal literals as exact reals, with the same gaps. A leading `Infinity` is not recognised. IEEE underflow is not modelled: `parseFloat("1e-400")` is 0, which the page refuses with "Invalid price", while the model sends a positive price. A large exponent gives `Infinity` on the page, which it sends, and a finite value here.
- `WalletPage.Wallet.TopUp`: shows the corrected `TopUp.FailureText`, not the text as written. For a refused top-up whose body has a truthy `detail` that is not an array, such as `{"detail":"x"}`, the page shows "❌ Top-up failed" (`TopUp.FailureTextAsWritten`) while the model shows "❌ x". On every other body its ensures states the as-written text.
- `JsText.ToLower`: maps only the letters A to Z. Case mapping of other letters is not modelled.
- `TopUp.UnreachableMessage`: models the thrown error's `detail` and `message` as strings. A non-string value stored in the message is not modelled.
- `Marketplace.MarketplacePage.FetchNodes`: takes a list of nodes. A payload that is not an array is stored by the page as it is and breaks rendering; that is not modelled.
- `Marketplace.MarketplacePage.FetchUser`: trusts `/me` to carry an integer `id` or none, as the page does. A `null` body, which makes `data.id` throw, counts as not loaded.
- Request URLs and headers are not modelled. This includes the marketplace's `apiBase` at app/marketplace/page.tsx:32, which is a plain string rather than a template literal.
- The other pages (login, signup, dashboard, GPU nodes, jobs, submit job) and `lib/api.ts` are not part of this model. Each holds single request/response handlers with no logic beyond a status or token check.

/**
 * The wallet top-up: client-side validation of the entered amount and the
 * layered decision tree that turns a refused top-up into the text shown to
 * the user (app/wallet/page.tsx, `handleTopUp`).
 */
module TopUp {
  import opened JsValues
  import opened JsText
  import opened JsNumber

  const InvalidAmountMessage := "⚠️ Please enter a valid positive amount."
  const SuccessMessage := "✅ Wallet topped up successfully!"
  const FailurePrefix := "❌ "
  const DefaultFailure := "Top-up failed"
  const FieldRequiredRewrite := "Please enter a valid amount."
  const UnexpectedResponse := "Unexpected server response."
  const ServerUnreachable := "⚠️ Server not reachable. Please check your connection."

  /**
   * The amount a top-up sends: `Number(amount.trim())`, refused when it is
   * NaN, zero or negative (`!amt || amt <= 0 || isNaN(amt)`).
   */
  function ValidatedAmount(input: string): (r: Option<real>)
    ensures r.Some? <==> Number(Trim(input)).Some? && Number(Trim(input)).value > 0.0
    ensures r.Some? ==> r.value > 0.0 && r == Number(Trim(input))
  {
    match Number(Trim(input))
    case None => None
    case Some(amt) => if amt <= 0.0 then None else Some(amt)
  }

  /** Empty and blank input is refused: `Number("")` is 0. */
  lemma BlankAmountRefused(input: string)
    requires forall i :: 0 <= i < |input| ==> IsSpace(input[i])
    ensures ValidatedAmount(input) == None
  {
  }

  /** A whole number typed as digits is sent as that number exactly when it is not 0. */
  lemma DigitsAmount(n: nat)
    ensures ValidatedAmount(NatText(n)) == if n == 0 then None else Some(n as real)
  {
    var t := NatText(n);
    assert !IsSpace(t[0]) && !IsSpace(t[|t| - 1]);
    TrimOfTrimmed(t);
    NatTextReadsBack(n);
  }

  /** A negative number is refused. */
  lemma NegativeAmountRefused(n: nat)
    ensures ValidatedAmount("-" + NatText(n)) == None
  {
    var s := "-" + NatText(n);
    assert !IsSpace(s[0]) && !IsSpace(s[|s| - 1]);
    TrimOfTrimmed(s);
    NatTextValue(n);
    SignedReadsBack(NatText(n));
  }

  /**
   * Input whose trimmed text starts with a character that cannot start a
   * number (not a digit, sign or point) is refused.
   */
  lemma NonNumericAmountRefused(input: string)
    requires Trim(input) != [] && !IsDigit(Trim(input)[0]) && Trim(input)[0] !in "+-."
    ensures ValidatedAmount(input) == None
  {
    var t := Trim(input);
    TrimOfTrimmed(t);
    assert TrimStart(t) == t;
    NotALiteralStart(t);
    assert Number(t).None?;
  }

  /**
   * Input whose trimmed text ends with a character that cannot end a number
   * (not a digit or point) is refused: "100abc" and "1e" are not amounts.
   */
  lemma TrailingTextRefused(input: string)
    requires Trim(input) != [] && !IsDigit(Trim(input)[|Trim(input)| - 1])
    requires Trim(input)[|Trim(input)| - 1] != '.'
    ensures ValidatedAmount(input) == None
  {
    TrimOfTrimmed(Trim(input));
    NotALiteralEnd(Trim(input));
  }

  /** `msg.toLowerCase().includes("field required")`. */
  predicate FieldRequired(msg: string)
    ensures FieldRequired(msg) ==> |msg| >= |"field required"|
  {
    Contains(ToLower(msg), "field required")
  }

  /**
   * The test ignores case and position: any spelling of "field required",
   * anywhere in the message, passes it.
   */
  lemma FieldRequiredInAnyCase(before: string, phrase: string, after: string)
    requires ToLower(phrase) == "field required"
    ensures FieldRequired(before + phrase + after)
  {
    LowerOfConcat(before + phrase, after);
    LowerOfConcat(before, phrase);
    ContainsInFrame(ToLower(before), "field required", ToLower(after));
  }

  /** `err?.detail` of a parsed error body. */
  function DetailOf(err: Json): Slot {
    Member(Some(err), "detail")
  }

  /** `err.detail[0]?.msg` for an array `detail`. */
  function FirstMsg(items: seq<Json>): Slot {
    Member(Element(items, 0), "msg")
  }

  /**
   * `first?.msg || JSON.stringify(first)` once the "field required" test
   * failed; `JSON.stringify(undefined)` is `undefined`, shown as "undefined".
   */
  function MsgOrStringify(items: seq<Json>, r: Render): string {
    var msg := FirstMsg(items);
    if Truthy(msg) then Text(msg.value, r)
    else if items == [] then "undefined"
    else r.stringify(items[0])
  }

  /**
   * An array `detail` (lines 97-103). Calling `toLowerCase` on a `msg`
   * that is present but not a string throws, and the surrounding `catch`
   * shows `UnexpectedResponse`.
   */
  function ArrayDetailText(items: seq<Json>, r: Render): (text: string)
    ensures var msg := FirstMsg(items);
      && (msg.Some? && msg.value.JStr? && FieldRequired(msg.value.s) ==> text == FieldRequiredRewrite)
      && (msg.Some? && msg.value.JStr? && msg.value.s != "" && !FieldRequired(msg.value.s) ==> text == msg.value.s)
      && ((Nullish(msg) || msg.value == JStr("")) ==>
            text == if items == [] then "undefined" else r.stringify(items[0]))
      && (!Nullish(msg) && !msg.value.JStr? ==> text == UnexpectedResponse)
  {
    var msg := FirstMsg(items);
    if Nullish(msg) then MsgOrStringify(items, r)
    else if msg.value.JStr? then
      if FieldRequired(msg.value.s) then FieldRequiredRewrite else MsgOrStringify(items, r)
    else UnexpectedResponse
  }

  /**
   * A truthy `detail` that is not an array, as lines 104-108 mean to treat
   * it: a string is shown (or rewritten); any other value makes
   * `toLowerCase` throw.
   */
  function OtherDetailText(detail: Json): (text: string)
    ensures detail.JStr? ==> text == if FieldRequired(detail.s) then FieldRequiredRewrite else detail.s
    ensures !detail.JStr? ==> text == UnexpectedResponse
  {
    if detail.JStr? then
      if FieldRequired(detail.s) then FieldRequiredRewrite else detail.s
    else UnexpectedResponse
  }

  /** No usable `detail`: a truthy `message`, or else the whole body as indented JSON. */
  function NoDetailText(err: Json, r: Render): (text: string)
    ensures Truthy(Member(Some(err), "message")) ==> text == Text(Member(Some(err), "message").value, r)
    ensures !Truthy(Member(Some(err), "message")) ==> text == r.stringifyPretty(err)
  {
    var message := Member(Some(err), "message");
    if Truthy(message) then Text(message.value, r) else r.stringifyPretty(err)
  }

  /** A JSON object body whose `detail` is truthy and not an array. */
  predicate NonArrayDetail(body: Body) {
    body.Parsed? && !body.value.JStr? && Truthy(DetailOf(body.value))
    && !DetailOf(body.value).value.JArr?
  }

  /**
   * The error text of a refused top-up AS WRITTEN: the `else` at line 104
   * belongs to the duplicated `if` at line 97, whose condition is already
   * known to hold, so a truthy `detail` that is not an array never reaches
   * it and the text stays `DefaultFailure`.
   */
  function FailureTextAsWritten(body: Body, r: Render): (text: string)
    ensures NonArrayDetail(body) ==> text == DefaultFailure
    ensures !NonArrayDetail(body) ==> text == FailureText(body, r)
  {
    match body
    case Unparsable => UnexpectedResponse
    case Parsed(err) =>
      if err.JStr? then err.s
      else
        var detail := DetailOf(err);
        if Truthy(detail) then
          if detail.value.JArr? then ArrayDetailText(detail.value.items, r)
          else DefaultFailure
        else NoDetailText(err, r)
  }

  /**
   * The error text of a refused top-up, with the `else` of line 104 bound
   * to the outer `if` as its indentation intends: a body that is not JSON,
   * a string body, an array `detail`, a string `detail`, a `message`, and
   * finally the whole body.
   */
  function FailureText(body: Body, r: Render): (text: string)
    ensures body.Unparsable? ==> text == UnexpectedResponse
    ensures body.Parsed? && body.value.JStr? ==> text == body.value.s
    ensures body.Parsed? && !body.value.JStr? && Truthy(DetailOf(body.value)) ==>
              text == if DetailOf(body.value).value.JArr?
                      then ArrayDetailText(DetailOf(body.value).value.items, r)
                      else OtherDetailText(DetailOf(body.value).value)
    ensures body.Parsed? && !body.value.JStr? && !Truthy(DetailOf(body.value)) ==>
              text == NoDetailText(body.value, r)
    ensures text == DefaultFailure ==> body.Parsed? && DefaultFailureFromBody(body.value, r)
  {
    match body
    case Unparsable => UnexpectedResponse
    case Parsed(err) =>
      if err.JStr? then err.s
      else
        var detail := DetailOf(err);
        if Truthy(detail) then
          if detail.value.JArr? then ArrayDetailText(detail.value.items, r)
          else OtherDetailText(detail.value)
        else NoDetailText(err, r)
  }

  /**
   * Where `DefaultFailure` can still come from once the `else` is bound
   * correctly: only from text the server sent (or the JSON rendering of it).
   */
  predicate DefaultFailureFromBody(err: Json, r: Render) {
    var detail := DetailOf(err);
    var message := Member(Some(err), "message");
    err == JStr(DefaultFailure)
    || (detail.Some? && detail.value == JStr(DefaultFailure))
    || (detail.Some? && detail.value.JArr? && detail.value.items != []
        && (FirstMsg(detail.value.items) == Some(JStr(DefaultFailure))
            || r.stringify(detail.value.items[0]) == DefaultFailure))
    || (message.Some? && Text(message.value, r) == DefaultFailure)
    || r.stringifyPretty(err) == DefaultFailure
  }

  /** The message set after a refused top-up: always behind the "❌ " mark. */
  function FailureMessage(body: Body, r: Render): (m: string)
    ensures |m| >= |FailurePrefix| && m[..|FailurePrefix|] == FailurePrefix
    ensures m[|FailurePrefix|..] == FailureText(body, r)
  {
    FailurePrefix + FailureText(body, r)
  }

  /** What the `fetch` call threw when the server could not be reached. */
  datatype Thrown = Thrown(detail: string, message: string)

  /** `err?.detail || err?.message || ServerUnreachable`, shown without the "❌ " mark. */
  function UnreachableMessage(e: Thrown): (m: string)
    ensures m != ""
    ensures e.detail != "" ==> m == e.detail
    ensures e.detail == "" && e.message != "" ==> m == e.message
    ensures e.detail == "" && e.message == "" ==> m == ServerUnreachable
  {
    if e.detail != "" then e.detail
    else if e.message != "" then e.message
    else ServerUnreachable
  }

  /**
   * The defect at app/wallet/page.tsx:96-108: a string `detail` reporting
   * a missing field is shown as `DefaultFailure` where the rewrite was meant.
   */
  lemma StringDetailIsLost(r: Render)
    ensures var body := Parsed(JObj(map["detail" := JStr("Field required")]));
      FailureTextAsWritten(body, r) == DefaultFailure
      && FailureText(body, r) == FieldRequiredRewrite
  {
    var d := "Field required";
    var lower := ToLower(d);
    assert lower == "field required";
    assert OccursAt(lower, "field required", 0);
  }

  /** Any non-empty string `detail` is lost the same way, as written. */
  lemma {:induction false} AnyStringDetailIsLost(d: string, r: Render)
    requires d != "" && d != DefaultFailure
    ensures var body := Parsed(JObj(map["detail" := JStr(d)]));
      FailureTextAsWritten(body, r) == DefaultFailure
      && FailureText(body, r) != DefaultFailure
  {
  }
}

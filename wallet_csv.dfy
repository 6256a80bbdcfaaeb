/**
 * The CSV text built by the wallet page's export button: a fixed header,
 * then one line per transaction, the description quoted with every `"`
 * doubled as section 2, rule 7 of RFC 4180 asks.
 */
module WalletCsv {
  import opened JsValues
  import opened WalletTransactions

  const HeaderLine := "Type,Amount,Description,Timestamp"

  /** `HeaderLine` followed by its line break, as the export writes it. */
  const Header := HeaderLine + "\n"

  /**
   * The number and date conversions the export relies on: `${tx.amount}`
   * and `new Date(tx.timestamp).toLocaleString()`.
   */
  datatype CsvFormat = CsvFormat(amountText: real -> string, dateText: string -> string)

  /** `s.replace(/"/g, '""')`. */
  function DoubleQuotes(s: string): (r: string)
    ensures '\n' !in s ==> '\n' !in r
  {
    if s == [] then []
    else (if s[0] == '"' then "\"\"" else [s[0]]) + DoubleQuotes(s[1..])
  }

  /** Reads doubled quotes back as single ones. */
  function UndoubleQuotes(s: string): string {
    if s == [] then []
    else if |s| >= 2 && s[0] == '"' && s[1] == '"' then "\"" + UndoubleQuotes(s[2..])
    else [s[0]] + UndoubleQuotes(s[1..])
  }

  /** Un-doubling the escaped description gives back the description. */
  lemma {:induction false} UndoubleDoubleQuotes(s: string)
    ensures UndoubleQuotes(DoubleQuotes(s)) == s
  {
    if s != [] {
      UndoubleDoubleQuotes(s[1..]);
      var head := if s[0] == '"' then "\"\"" else [s[0]];
      assert DoubleQuotes(s) == head + DoubleQuotes(s[1..]);
      if s[0] == '"' {
        assert (head + DoubleQuotes(s[1..]))[2..] == DoubleQuotes(s[1..]);
      } else {
        assert (head + DoubleQuotes(s[1..]))[1..] == DoubleQuotes(s[1..]);
      }
      assert s == [s[0]] + s[1..];
    }
  }

  /**
   * The description column: the escaped text between two quotes. It holds a
   * line break only when the description does.
   */
  function QuotedField(s: string): (r: string)
    ensures |r| >= 2 && r[0] == '"' && r[|r| - 1] == '"'
    ensures '\n' !in s ==> '\n' !in r
  {
    "\"" + DoubleQuotes(s) + "\""
  }

  /**
   * An RFC 4180 reader for the inside of a quoted field: `""` stands for
   * one quote, a lone `"` closes the field. Gives the field's text and what
   * follows the closing quote; `None` when the field is never closed.
   */
  function ReadQuotedBody(s: string): Option<(string, string)> {
    if s == [] then None
    else if s[0] == '"' then
      if |s| >= 2 && s[1] == '"' then
        match ReadQuotedBody(s[2..])
        case None => None
        case Some(p) => Some(("\"" + p.0, p.1))
      else Some(("", s[1..]))
    else
      match ReadQuotedBody(s[1..])
      case None => None
      case Some(p) => Some(([s[0]] + p.0, p.1))
  }

  /** A quoted field at the start of `s`. */
  function ReadQuotedField(s: string): Option<(string, string)> {
    if s != [] && s[0] == '"' then ReadQuotedBody(s[1..]) else None
  }

  lemma {:induction false} ReadDoubledBody(d: string, rest: string)
    requires rest == [] || rest[0] != '"'
    ensures ReadQuotedBody(DoubleQuotes(d) + "\"" + rest) == Some((d, rest))
  {
    if d == [] {
      assert DoubleQuotes(d) + "\"" + rest == "\"" + rest;
    } else {
      ReadDoubledBody(d[1..], rest);
      var tail := DoubleQuotes(d[1..]) + "\"" + rest;
      if d[0] == '"' {
        assert DoubleQuotes(d) + "\"" + rest == "\"\"" + tail;
        assert ("\"\"" + tail)[2..] == tail;
      } else {
        assert DoubleQuotes(d) + "\"" + rest == [d[0]] + tail;
        assert ([d[0]] + tail)[1..] == tail;
      }
      assert d == [d[0]] + d[1..];
    }
  }

  /**
   * An RFC 4180 reader reads the description field back exactly, whatever
   * quotes it holds, and stops at the comma that follows it.
   */
  lemma {:induction false} QuotedFieldReadsBack(d: string, rest: string)
    requires rest == [] || rest[0] != '"'
    ensures ReadQuotedField(QuotedField(d) + rest) == Some((d, rest))
  {
    ReadDoubledBody(d, rest);
    assert (QuotedField(d) + rest)[1..] == DoubleQuotes(d) + "\"" + rest;
  }

  /**
   * One exported line: type, amount, quoted description, local time; a
   * single line when no field holds a line break.
   */
  function Row(tx: Transaction, fmt: CsvFormat): (r: string)
    ensures |r| > |tx.kind| && r[..|tx.kind| + 1] == tx.kind + ","
    ensures ('\n' !in tx.kind && '\n' !in fmt.amountText(tx.amount) && '\n' !in tx.description
             && '\n' !in fmt.dateText(tx.timestamp)) ==> '\n' !in r
  {
    tx.kind + "," + fmt.amountText(tx.amount) + "," + QuotedField(tx.description)
      + "," + fmt.dateText(tx.timestamp)
  }

  function Rows(txs: seq<Transaction>, fmt: CsvFormat): (rows: seq<string>)
    ensures |rows| == |txs|
    ensures forall i :: 0 <= i < |txs| ==> rows[i] == Row(txs[i], fmt)
  {
    seq(|txs|, i requires 0 <= i < |txs| => Row(txs[i], fmt))
  }

  /**
   * `rows.join("\n")`: one line break between neighbouring rows and none
   * after the last one.
   */
  function JoinLines(rows: seq<string>): (text: string)
    ensures rows != [] ==> |text| >= |rows[0]| && text[..|rows[0]|] == rows[0]
    ensures rows != [] && (forall i :: 0 <= i < |rows| ==> '\n' !in rows[i]) ==>
              multiset(text)['\n'] == |rows| - 1
  {
    if rows == [] then ""
    else if |rows| == 1 then rows[0]
    else rows[0] + "\n" + JoinLines(rows[1..])
  }

  /** The whole file text: `header + rows`. */
  function CsvText(txs: seq<Transaction>, fmt: CsvFormat): string {
    Header + JoinLines(Rows(txs, fmt))
  }

  /** `handleExportCSV`: nothing to export (only an alert) for an empty list. */
  function ExportCsv(txs: seq<Transaction>, fmt: CsvFormat): (csv: Option<string>)
    ensures csv.None? <==> txs == []
    ensures csv.Some? ==> |csv.value| >= |Header| && csv.value[..|Header|] == Header
    ensures csv.Some? && NoLineBreaks(txs, fmt) ==> SplitLines(csv.value) == [HeaderLine] + Rows(txs, fmt)
  {
    if txs == [] then None
    else
      var text := CsvText(txs, fmt);
      assert text[..|Header|] == Header;
      assert NoLineBreaks(txs, fmt) ==> SplitLines(text) == [HeaderLine] + Rows(txs, fmt) by {
        if NoLineBreaks(txs, fmt) {
          CsvLines(txs, fmt);
        }
      }
      Some(text)
  }

  /** The text split at every line break (`text.split("\n")`). */
  function SplitLines(s: string): (lines: seq<string>)
    ensures |lines| >= 1
  {
    if s == [] then [""]
    else
      var tail := SplitLines(s[1..]);
      if s[0] == '\n' then [""] + tail else [[s[0]] + tail[0]] + tail[1..]
  }

  lemma {:induction false} SplitLinesWithoutBreak(a: string)
    requires '\n' !in a
    ensures SplitLines(a) == [a]
  {
    if a != [] {
      SplitLinesWithoutBreak(a[1..]);
      assert a == [a[0]] + a[1..];
    }
  }

  lemma {:induction false} SplitLinesAtFirstBreak(a: string, b: string)
    requires '\n' !in a
    ensures SplitLines(a + "\n" + b) == [a] + SplitLines(b)
  {
    if a == [] {
      assert a + "\n" + b == "\n" + b;
      assert ("\n" + b)[1..] == b;
    } else {
      SplitLinesAtFirstBreak(a[1..], b);
      assert (a + "\n" + b)[1..] == a[1..] + "\n" + b;
      assert a == [a[0]] + a[1..];
    }
  }

  /** Joining lines that hold no break and splitting again gives back the lines. */
  lemma {:induction false} SplitJoinLines(rows: seq<string>)
    requires rows != []
    requires forall i :: 0 <= i < |rows| ==> '\n' !in rows[i]
    ensures SplitLines(JoinLines(rows)) == rows
  {
    if |rows| == 1 {
      SplitLinesWithoutBreak(rows[0]);
    } else {
      SplitLinesAtFirstBreak(rows[0], JoinLines(rows[1..]));
      SplitJoinLines(rows[1..]);
      assert rows == [rows[0]] + rows[1..];
    }
  }

  /** No field of any transaction holds a line break. */
  predicate NoLineBreaks(txs: seq<Transaction>, fmt: CsvFormat) {
    forall i :: 0 <= i < |txs| ==>
      '\n' !in txs[i].kind && '\n' !in fmt.amountText(txs[i].amount) &&
      '\n' !in txs[i].description && '\n' !in fmt.dateText(txs[i].timestamp)
  }

  /**
   * With no line break inside a field, the export's lines are the header
   * and then exactly one row per transaction, in list order.
   */
  lemma {:induction false} CsvLines(txs: seq<Transaction>, fmt: CsvFormat)
    requires txs != [] && NoLineBreaks(txs, fmt)
    ensures SplitLines(CsvText(txs, fmt)) == [HeaderLine] + Rows(txs, fmt)
    ensures |SplitLines(CsvText(txs, fmt))| == |txs| + 1
  {
    var rows := Rows(txs, fmt);
    forall i | 0 <= i < |rows|
      ensures '\n' !in rows[i]
    {
      var tx := txs[i];
      assert '\n' !in tx.kind && '\n' !in fmt.amountText(tx.amount) && '\n' !in tx.description
             && '\n' !in fmt.dateText(tx.timestamp);
      assert rows[i] == Row(tx, fmt);
    }
    SplitJoinLines(rows);
    HeaderLineIsOneLine();
    SplitLinesAtFirstBreak(HeaderLine, JoinLines(rows));
  }

  /** The header holds no line break. */
  lemma HeaderLineIsOneLine()
    ensures '\n' !in HeaderLine
  {
  }
}

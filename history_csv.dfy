/**
 * The body of `GET /api/queue/history` (worker/userRoutes.ts): a header line
 * and one comma-separated row per ticket, rows joined by a line feed. The
 * name is the only quoted field; quotes inside it are doubled, as rule 7 of
 * section 2 of RFC 4180 asks. Rows end in LF, not the CRLF of rule 1.
 */
module HistoryCsv {
  import opened QueueTypes

  const Header: string := "ID,Numero,Nombre,Estado,FechaCreacion\n"

  /** Whether s begins with prefix. */
  predicate StartsWith(s: string, prefix: string) {
    |s| >= |prefix| && s[..|prefix|] == prefix
  }

  /** Whether s ends with suffix. */
  predicate EndsWith(s: string, suffix: string) {
    |s| >= |suffix| && s[|s| - |suffix|..] == suffix
  }

  /**
   * `name.replace(/"/g, '""')`: never shorter than the name, and made of
   * exactly the characters of the name.
   */
  function EscapeQuotes(s: string): (e: string)
    ensures |e| >= |s|
    ensures forall c :: c in e <==> c in s
    decreases |s|
  {
    if s == [] then []
    else
      var head := if s[0] == '"' then "\"\"" else [s[0]];
      var rest := EscapeQuotes(s[1..]);
      assert forall c :: c in s <==> c == s[0] || c in s[1..];
      head + rest
  }

  /** The name field: the escaped name between two quotes. */
  function QuoteField(name: string): (f: string)
    ensures |f| >= 2 && f[0] == '"' && f[|f| - 1] == '"'
  {
    "\"" + EscapeQuotes(name) + "\""
  }

  /** The text of a status, as the row writes it: never empty, and free of the separators. */
  function StatusText(st: Status): (r: string)
    ensures r != [] && ',' !in r && '\n' !in r
  {
    match st
    case Waiting => "waiting"
    case Serving => "serving"
    case Served => "served"
  }

  function DigitChar(d: nat): char
    requires d < 10
  {
    "0123456789"[d]
  }

  /** Decimal digits of n, without leading zeros: zero is "0", and no other number starts with '0'. */
  function NatToDecimal(n: nat): (r: string)
    ensures |r| >= 1
    ensures '0' <= r[0] <= '9' && (n > 0 ==> r[0] != '0')
    decreases n
  {
    if n < 10 then [DigitChar(n)]
    else
      var high := NatToDecimal(n / 10);
      high + [DigitChar(n % 10)]
  }

  /** `${n}` for an integer n: it starts with a minus sign exactly when n is negative. */
  function IntToDecimal(n: int): (r: string)
    ensures r != [] && (r[0] == '-' <==> n < 0)
  {
    if n < 0 then "-" + NatToDecimal(-n) else NatToDecimal(n)
  }

  /** One row: it begins with the id and a comma, and ends with a comma and the creation time. */
  function Row(t: Ticket): (r: string)
    ensures StartsWith(r, t.id + ",")
    ensures EndsWith(r, "," + t.createdAt)
  {
    var middle := IntToDecimal(t.number) + "," + QuoteField(t.name) + "," + StatusText(t.status);
    Framed(t.id + ",", middle, "," + t.createdAt);
    (t.id + ",") + middle + ("," + t.createdAt)
  }

  function Rows(ts: seq<Ticket>): (rows: seq<string>)
    ensures |rows| == |ts| && forall i :: 0 <= i < |ts| ==> rows[i] == Row(ts[i])
  {
    seq(|ts|, i requires 0 <= i < |ts| => Row(ts[i]))
  }

  /**
   * `rows.join("\n")`: empty for no rows; otherwise it begins with the first
   * row and ends with the last, with no line feed after it.
   */
  function JoinLines(rows: seq<string>): (r: string)
    ensures rows == [] ==> r == []
    ensures rows != [] ==> StartsWith(r, rows[0])
    ensures rows != [] ==> EndsWith(r, rows[|rows| - 1])
    decreases |rows|
  {
    if rows == [] then ""
    else if |rows| == 1 then rows[0]
    else
      var tail := JoinLines(rows[1..]);
      assert rows[1..][|rows[1..]| - 1] == rows[|rows| - 1];
      rows[0] + ("\n" + tail)
  }

  /** The whole export for the tickets of the queue: with tickets, it ends with the last ticket's row. */
  function History(ts: seq<Ticket>): (csv: string)
    ensures ts != [] ==> EndsWith(csv, Row(ts[|ts| - 1]))
  {
    var rows := Rows(ts);
    var body := JoinLines(rows);
    if ts == [] then Header + body
    else
      assert rows[|rows| - 1] == Row(ts[|ts| - 1]);
      EndsWithAppend(Header, body, Row(ts[|ts| - 1]));
      Header + body
  }

  lemma Framed(a: string, m: string, b: string)
    ensures StartsWith(a + m + b, a) && EndsWith(a + m + b, b)
  {
    assert (a + m + b)[..|a|] == a;
    assert (a + m + b)[|a + m + b| - |b|..] == b;
  }

  lemma EndsWithAppend(a: string, b: string, suffix: string)
    requires EndsWith(b, suffix)
    ensures EndsWith(a + b, suffix)
  {
    assert (a + b)[|a + b| - |suffix|..] == b[|b| - |suffix|..];
  }

  lemma SnocAssoc(a: string, b: string, c: string)
    ensures a + (b + "\n" + c) == a + b + "\n" + c
  {
  }

  // ---------------------------------------------------------------------
  // Properties of the export
  // ---------------------------------------------------------------------

  /** Quote characters occur only in adjacent pairs. */
  predicate QuotesPaired(s: string)
    decreases |s|
  {
    if s == [] then true
    else if s[0] != '"' then QuotesPaired(s[1..])
    else |s| >= 2 && s[1] == '"' && QuotesPaired(s[2..])
  }

  function QuoteCount(s: string): nat {
    if s == [] then 0 else (if s[0] == '"' then 1 else 0) + QuoteCount(s[1..])
  }

  /**
   * Escaping doubles every quote and keeps every other character: the
   * result has one extra character per quote, and its quotes are paired.
   */
  lemma {:induction false} EscapeQuotesPairs(s: string)
    ensures QuotesPaired(EscapeQuotes(s))
    ensures |EscapeQuotes(s)| == |s| + QuoteCount(s)
    ensures QuoteCount(s) == 0 ==> EscapeQuotes(s) == s
    decreases |s|
  {
    if s != [] {
      EscapeQuotesPairs(s[1..]);
      var e := EscapeQuotes(s);
      var rest := EscapeQuotes(s[1..]);
      if s[0] == '"' {
        assert e[2..] == rest;
      } else {
        assert e[1..] == rest;
      }
    }
  }

  /** The export starts with the header, and is just the header when there are no tickets. */
  lemma HistoryHeader(ts: seq<Ticket>)
    ensures |History(ts)| >= |Header| && History(ts)[..|Header|] == Header
    ensures ts == [] ==> History(ts) == Header
  {
    assert Rows([]) == [];
  }

  /**
   * Rows are separated by a single line feed and the last row is not
   * followed by one: adding a ticket appends a line feed and its row.
   */
  lemma {:induction false} JoinLinesSnoc(rows: seq<string>, r: string)
    requires rows != []
    ensures JoinLines(rows + [r]) == JoinLines(rows) + "\n" + r
    decreases |rows|
  {
    var longer := rows + [r];
    assert longer[0] == rows[0];
    if |rows| == 1 {
      assert longer[1..] == [r];
      SnocAssoc([], rows[0], r);
    } else {
      assert longer[1..] == rows[1..] + [r];
      JoinLinesSnoc(rows[1..], r);
      var tail := JoinLines(rows[1..]);
      LineAssoc(rows[0], tail, r);
    }
  }

  lemma LineAssoc(a: string, b: string, c: string)
    ensures a + ("\n" + (b + "\n" + c)) == a + ("\n" + b) + "\n" + c
  {
  }

  lemma HistorySnoc(ts: seq<Ticket>, t: Ticket)
    ensures ts == [] ==> History(ts + [t]) == Header + Row(t)
    ensures ts != [] ==> History(ts + [t]) == History(ts) + "\n" + Row(t)
  {
    var rows, row := Rows(ts), Row(t);
    assert Rows(ts + [t]) == rows + [row];
    if ts == [] {
      assert rows + [row] == [row];
    } else {
      JoinLinesSnoc(rows, row);
      SnocAssoc(Header, JoinLines(rows), row);
    }
  }
}

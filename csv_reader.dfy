/**
 * A reader for the history export, written independently of the writer:
 * plain fields end at a comma or line feed, the name field is read up to its
 * closing quote with doubled quotes collapsed (RFC 4180, section 2, rules 5
 * to 7), and records are separated by a line feed. Reading the export back
 * gives the tickets that were written, whatever their names contain.
 */
module CsvReader {
  import opened Wrappers
  import opened QueueTypes
  import opened HistoryCsv

  /** A plain field runs up to the first comma or line feed. */
  function ReadPlain(s: string): (r: (string, string))
    ensures |r.0| + |r.1| == |s|
    decreases |s|
  {
    if s == [] || s[0] == ',' || s[0] == '\n' then ([], s)
    else
      var (f, rest) := ReadPlain(s[1..]);
      ([s[0]] + f, rest)
  }

  /**
   * The body of a quoted field, read after its opening quote: a doubled
   * quote stands for one quote, a single quote closes the field. Gives the
   * text and what follows the closing quote.
   */
  function ReadQuoted(s: string): (r: Option<(string, string)>)
    ensures r.Some? ==> |r.value.1| < |s|
    decreases |s|
  {
    if s == [] then None
    else if s[0] == '"' then
      if |s| >= 2 && s[1] == '"' then
        var (v, rest) :- ReadQuoted(s[2..]);
        Some(("\"" + v, rest))
      else Some(([], s[1..]))
    else
      var (v, rest) :- ReadQuoted(s[1..]);
      Some(([s[0]] + v, rest))
  }

  /** The name recovered from a whole quoted field: strip the outer quotes and collapse each `""`. */
  function Unquote(field: string): Option<string> {
    if field == [] || field[0] != '"' then None
    else
      var (v, rest) :- ReadQuoted(field[1..]);
      if rest == [] then Some(v) else None
  }

  /** What follows c, when s starts with c. */
  function Expect(c: char, s: string): (r: Option<string>)
    ensures r.Some? ==> |r.value| < |s|
  {
    if s != [] && s[0] == c then Some(s[1..]) else None
  }

  function DigitValue(c: char): Option<nat> {
    if '0' <= c <= '9' then Some((c - '0') as nat) else None
  }

  /** A non-empty run of decimal digits. */
  function ParseNat(s: string): Option<nat>
    decreases |s|
  {
    if s == [] then None
    else
      var d :- DigitValue(s[|s| - 1]);
      if |s| == 1 then Some(d)
      else
        var n :- ParseNat(s[..|s| - 1]);
        Some(10 * n + d)
  }

  /** An optional minus sign followed by decimal digits. */
  function ParseInt(s: string): Option<int> {
    if s != [] && s[0] == '-' then
      var n :- ParseNat(s[1..]);
      Some(-(n as int))
    else
      var n :- ParseNat(s);
      Some(n as int)
  }

  function ParseStatus(s: string): Option<Status> {
    if s == "waiting" then Some(Waiting)
    else if s == "serving" then Some(Serving)
    else if s == "served" then Some(Served)
    else None
  }

  /** One record at the front of s, and what follows it: the id field first. */
  function ReadRecord(s: string): (r: Option<(Ticket, string)>)
    ensures r.Some? ==> |r.value.1| < |s|
  {
    var (id, s1) := ReadPlain(s);
    var s2 :- Expect(',', s1);
    ReadFromNumber(id, s2)
  }

  /** The rest of a record after its id: the number field. */
  function ReadFromNumber(id: string, s: string): (r: Option<(Ticket, string)>)
    ensures r.Some? ==> |r.value.1| < |s|
  {
    var (digits, s1) := ReadPlain(s);
    var number :- ParseInt(digits);
    var s2 :- Expect(',', s1);
    ReadFromName(id, number, s2)
  }

  /** The rest of a record after its number: the quoted name. */
  function ReadFromName(id: string, number: int, s: string): (r: Option<(Ticket, string)>)
    ensures r.Some? ==> |r.value.1| < |s|
  {
    var s1 :- Expect('"', s);
    var (name, s2) :- ReadQuoted(s1);
    var s3 :- Expect(',', s2);
    ReadFromStatus(id, number, name, s3)
  }

  /** The rest of a record after its name: the status and the creation time. */
  function ReadFromStatus(id: string, number: int, name: string, s: string): (r: Option<(Ticket, string)>)
    ensures r.Some? ==> |r.value.1| < |s|
  {
    var (statusText, s1) := ReadPlain(s);
    var status :- ParseStatus(statusText);
    var s2 :- Expect(',', s1);
    var (createdAt, rest) := ReadPlain(s2);
    Some((Ticket(id, number, name, status, createdAt), rest))
  }

  /** Records separated by single line feeds, up to the end of s. */
  function ReadRecords(s: string): Option<seq<Ticket>>
    decreases |s|
  {
    var (t, rest) :- ReadRecord(s);
    if rest == [] then Some([t])
    else
      var more :- Expect('\n', rest);
      var ts :- ReadRecords(more);
      Some([t] + ts)
  }

  /** The tickets of a whole export: the header, then no records or some. */
  function ReadHistory(s: string): Option<seq<Ticket>> {
    if |s| < |Header| || s[..|Header|] != Header then None
    else if s[|Header|..] == [] then Some([])
    else ReadRecords(s[|Header|..])
  }

  // ---------------------------------------------------------------------
  // Round trips
  // ---------------------------------------------------------------------

  /** A field written without quoting must not contain a separator. */
  predicate PlainField(f: string) {
    forall i :: 0 <= i < |f| ==> f[i] != ',' && f[i] != '\n'
  }

  /** What the export needs of a ticket: an id and a timestamp without separators (a uuid and an ISO time qualify). */
  predicate Exportable(t: Ticket) {
    PlainField(t.id) && PlainField(t.createdAt)
  }

  lemma {:induction false} ReadPlainOf(f: string, rest: string)
    requires PlainField(f)
    requires rest == [] || rest[0] == ',' || rest[0] == '\n'
    ensures ReadPlain(f + rest) == (f, rest)
    decreases |f|
  {
    if f != [] {
      assert (f + rest)[0] == f[0];
      assert (f + rest)[1..] == f[1..] + rest;
      ReadPlainOf(f[1..], rest);
      assert [f[0]] + f[1..] == f;
    } else {
      assert f + rest == rest;
    }
  }

  /** Reading back an escaped name and its closing quote gives the name and what follows. */
  lemma {:induction false} ReadQuotedOf(name: string, rest: string)
    requires rest == [] || rest[0] != '"'
    ensures ReadQuoted(EscapeQuotes(name) + "\"" + rest) == Some((name, rest))
    decreases |name|
  {
    var s := EscapeQuotes(name) + "\"" + rest;
    if name == [] {
      assert s == "\"" + rest;
      assert s[1..] == rest;
    } else {
      ReadQuotedOf(name[1..], rest);
      var tail := EscapeQuotes(name[1..]) + "\"" + rest;
      if name[0] == '"' {
        assert s == "\"\"" + tail;
        assert s[2..] == tail;
        assert "\"" + name[1..] == name;
      } else {
        assert s == [name[0]] + tail;
        assert s[1..] == tail;
        assert [name[0]] + name[1..] == name;
      }
    }
  }

  /** Stripping the outer quotes and collapsing each `""` recovers the name. */
  lemma UnquoteQuoteField(name: string)
    ensures Unquote(QuoteField(name)) == Some(name)
  {
    var f := QuoteField(name);
    ReadQuotedOf(name, []);
    assert f[1..] == EscapeQuotes(name) + "\"" + [];
  }

  /** The quoting is injective: different names give different fields. */
  lemma QuoteFieldInjective(a: string, b: string)
    requires QuoteField(a) == QuoteField(b)
    ensures a == b
  {
    UnquoteQuoteField(a);
    UnquoteQuoteField(b);
  }

  lemma {:induction false} NatToDecimalDigits(n: nat)
    ensures ParseNat(NatToDecimal(n)) == Some(n)
    ensures AllDigits(NatToDecimal(n))
    decreases n
  {
    if n >= 10 {
      NatToDecimalDigits(n / 10);
      NatToDecimalStep(n);
    } else {
      DigitCharValue(n);
      var c := DigitChar(n);
      assert NatToDecimal(n) == [c];
      assert ParseNat([c]) == Some(n);
    }
  }

  /** The digits of n read back as n when those of n / 10 read back as n / 10. */
  lemma NatToDecimalStep(n: nat)
    requires n >= 10 && ParseNat(NatToDecimal(n / 10)) == Some(n / 10)
    ensures ParseNat(NatToDecimal(n)) == Some(n)
  {
    var h, d := n / 10, n % 10;
    assert n == 10 * h + d;
    DigitCharValue(d);
    ParseNatSnoc(NatToDecimal(n), NatToDecimal(h), DigitChar(d), n, h, d);
  }

  /** One more digit on the right multiplies by ten and adds the digit. */
  lemma ParseNatSnoc(s: string, high: string, c: char, n: nat, h: nat, d: nat)
    requires s == high + [c] && n == 10 * h + d
    requires high != [] && ParseNat(high) == Some(h) && DigitValue(c) == Some(d)
    ensures ParseNat(s) == Some(n)
  {
    assert s[..|s| - 1] == high && s[|s| - 1] == c;
  }

  lemma DigitCharValue(d: nat)
    requires d < 10
    ensures DigitValue(DigitChar(d)) == Some(d)
  {
  }

  lemma IntToDecimalRoundTrip(n: int)
    ensures ParseInt(IntToDecimal(n)) == Some(n)
    ensures PlainField(IntToDecimal(n))
  {
    if n < 0 {
      NegativeRoundTrip(n);
    } else {
      NonNegativeRoundTrip(n);
    }
  }

  lemma NegativeRoundTrip(n: int)
    requires n < 0
    ensures ParseInt(IntToDecimal(n)) == Some(n)
    ensures PlainField(IntToDecimal(n))
  {
    var m: nat := -n;
    var d := NatToDecimal(m);
    NatToDecimalDigits(m);
    assert IntToDecimal(n) == "-" + d;
    SignedDigits(IntToDecimal(n), d, m);
  }

  lemma NonNegativeRoundTrip(n: int)
    requires n >= 0
    ensures ParseInt(IntToDecimal(n)) == Some(n)
    ensures PlainField(IntToDecimal(n))
  {
    NatToDecimalDigits(n);
    UnsignedDigits(NatToDecimal(n), n);
  }

  /** A minus sign and digits read back as the negated value of the digits. */
  lemma SignedDigits(s: string, d: string, m: nat)
    requires s == "-" + d && AllDigits(d) && ParseNat(d) == Some(m)
    ensures ParseInt(s) == Some(-(m as int)) && PlainField(s)
  {
    assert s[1..] == d;
    assert forall i :: 1 <= i < |s| ==> s[i] == d[i - 1];
  }

  lemma UnsignedDigits(d: string, m: nat)
    requires AllDigits(d) && ParseNat(d) == Some(m)
    ensures ParseInt(d) == Some(m as int) && PlainField(d)
  {
    assert d != [] && d[0] != '-';
  }

  predicate AllDigits(s: string) {
    forall i :: 0 <= i < |s| ==> '0' <= s[i] <= '9'
  }

  lemma ParseStatusText(st: Status)
    ensures ParseStatus(StatusText(st)) == Some(st)
    ensures PlainField(StatusText(st))
  {
  }

  lemma ReadFromStatusOf(t: Ticket, rest: string)
    requires PlainField(t.createdAt)
    requires rest == [] || rest[0] == '\n'
    ensures ReadFromStatus(t.id, t.number, t.name, StatusText(t.status) + "," + t.createdAt + rest) == Some((t, rest))
  {
    var st := StatusText(t.status);
    ParseStatusText(t.status);
    var s2 := t.createdAt + rest;
    assert st + "," + t.createdAt + rest == st + ("," + s2);
    ReadPlainOf(st, "," + s2);
    assert ("," + s2)[1..] == s2;
    ReadPlainOf(t.createdAt, rest);
  }

  lemma ReadFromNameOf(t: Ticket, rest: string)
    requires PlainField(t.createdAt)
    requires rest == [] || rest[0] == '\n'
    ensures ReadFromName(t.id, t.number, QuoteField(t.name) + "," + StatusText(t.status) + "," + t.createdAt + rest) == Some((t, rest))
  {
    var s3 := StatusText(t.status) + "," + t.createdAt + rest;
    var s := QuoteField(t.name) + "," + s3;
    assert QuoteField(t.name) + "," + StatusText(t.status) + "," + t.createdAt + rest == s;
    assert s == "\"" + (EscapeQuotes(t.name) + "\"" + ("," + s3));
    assert s[1..] == EscapeQuotes(t.name) + "\"" + ("," + s3);
    ReadQuotedOf(t.name, "," + s3);
    assert ("," + s3)[1..] == s3;
    ReadFromStatusOf(t, rest);
  }

  lemma ReadFromNumberOf(t: Ticket, rest: string)
    requires PlainField(t.createdAt)
    requires rest == [] || rest[0] == '\n'
    ensures ReadFromNumber(t.id, IntToDecimal(t.number) + "," + QuoteField(t.name) + "," + StatusText(t.status) + "," + t.createdAt + rest) == Some((t, rest))
  {
    var num := IntToDecimal(t.number);
    var s2 := QuoteField(t.name) + "," + StatusText(t.status) + "," + t.createdAt + rest;
    IntToDecimalRoundTrip(t.number);
    assert num + "," + QuoteField(t.name) + "," + StatusText(t.status) + "," + t.createdAt + rest == num + ("," + s2);
    ReadPlainOf(num, "," + s2);
    assert ("," + s2)[1..] == s2;
    ReadFromNameOf(t, rest);
  }

  /** A row reads back as its ticket, leaving what followed it. */
  lemma ReadRecordOfRow(t: Ticket, rest: string)
    requires Exportable(t)
    requires rest == [] || rest[0] == '\n'
    ensures ReadRecord(Row(t) + rest) == Some((t, rest))
  {
    var s2 := IntToDecimal(t.number) + "," + QuoteField(t.name) + "," + StatusText(t.status) + "," + t.createdAt + rest;
    assert Row(t) + rest == t.id + ("," + s2);
    ReadPlainOf(t.id, "," + s2);
    assert ("," + s2)[1..] == s2;
    ReadFromNumberOf(t, rest);
  }

  lemma {:induction false} ReadRecordsOfRows(ts: seq<Ticket>)
    requires ts != [] && forall i :: 0 <= i < |ts| ==> Exportable(ts[i])
    ensures ReadRecords(JoinLines(Rows(ts))) == Some(ts)
    decreases |ts|
  {
    if |ts| == 1 {
      assert ts == [ts[0]];
      JoinRowsSingle(ts[0]);
      ReadRecordOfRow(ts[0], []);
    } else {
      var t, more := ts[0], ts[1..];
      assert [t] + more == ts;
      ReadRecordsOfRows(more);
      JoinRowsCons(ts);
      ReadRecordsCons(t, JoinLines(Rows(more)), more);
    }
  }

  lemma JoinRowsSingle(t: Ticket)
    ensures JoinLines(Rows([t])) == Row(t) + []
  {
    assert Rows([t]) == [Row(t)];
  }

  /** The joined rows of two or more tickets: the first row, a line feed, the joined rest. */
  lemma JoinRowsCons(ts: seq<Ticket>)
    requires |ts| >= 2
    ensures JoinLines(Rows(ts)) == Row(ts[0]) + ("\n" + JoinLines(Rows(ts[1..])))
  {
    RowsTail(ts);
    JoinCons(Rows(ts));
  }

  lemma RowsTail(ts: seq<Ticket>)
    requires ts != []
    ensures Rows(ts)[0] == Row(ts[0]) && Rows(ts)[1..] == Rows(ts[1..])
  {
    var a, b := Rows(ts)[1..], Rows(ts[1..]);
    assert |a| == |b|;
    forall i | 0 <= i < |a|
      ensures a[i] == b[i]
    {
      assert ts[1..][i] == ts[i + 1];
    }
  }

  lemma JoinCons(rows: seq<string>)
    requires |rows| >= 2
    ensures JoinLines(rows) == rows[0] + ("\n" + JoinLines(rows[1..]))
  {
  }

  /** A row, a line feed and some records read back as the row's ticket followed by those records. */
  lemma ReadRecordsCons(t: Ticket, tail: string, more: seq<Ticket>)
    requires Exportable(t) && ReadRecords(tail) == Some(more)
    ensures ReadRecords(Row(t) + ("\n" + tail)) == Some([t] + more)
  {
    ReadRecordOfRow(t, "\n" + tail);
    ReadRecordsStep(Row(t) + ("\n" + tail), t, tail);
  }

  /** A record followed by a line feed is followed by more records. */
  lemma ReadRecordsStep(s: string, t: Ticket, tail: string)
    requires ReadRecord(s) == Some((t, "\n" + tail))
    ensures ReadRecords(s) == match ReadRecords(tail) case Some(more) => Some([t] + more) case None => None
  {
    assert ("\n" + tail)[1..] == tail;
  }

  /**
   * Reading the export back gives exactly the tickets, in order, one record
   * per ticket, for any names (commas, quotes and line feeds included).
   */
  lemma HistoryRoundTrip(ts: seq<Ticket>)
    requires forall i :: 0 <= i < |ts| ==> Exportable(ts[i])
    ensures ReadHistory(History(ts)) == Some(ts)
  {
    var h := History(ts);
    HistoryHeader(ts);
    assert h[|Header|..] == JoinLines(Rows(ts));
    if ts != [] {
      ReadRecordsOfRows(ts);
      assert |Row(ts[0])| > 0;
      assert JoinLines(Rows(ts)) != [] by {
        if |ts| == 1 {
          assert JoinLines(Rows(ts)) == Row(ts[0]);
        }
      }
    }
  }
}

// The text that lib/csv.c writes for a list of rows, and what the parser of
// lib/libcsv.c makes of it.

module CsvRoundTrip {
  import opened Wrappers
  import opened Csv

  type Row = seq<seq<Byte>>

  // ---------- writing ----------

  function Escape(q: Byte, text: seq<Byte>): seq<Byte> {
    if text == [] then [] else (if text[0] == q then [q, q] else [text[0]]) + Escape(q, text[1..])
  }

  function Quoted(q: Byte, text: seq<Byte>): seq<Byte> {
    [q] + Escape(q, text) + [q]
  }

  function RowText(cfg: Config, row: Row, term: seq<Byte>): seq<Byte> {
    if row == [] then term
    else if |row| == 1 then Quoted(cfg.quote, row[0]) + term
    else Quoted(cfg.quote, row[0]) + [cfg.delim] + RowText(cfg, row[1..], term)
  }

  function FileText(cfg: Config, rows: seq<Row>, term: seq<Byte>): seq<Byte> {
    if rows == [] then [] else RowText(cfg, rows[0], term) + FileText(cfg, rows[1..], term)
  }

  // ---------- reading ----------

  // The events of a parser that sees the row.
  function RowEvents(row: Row, c: Byte): seq<Event> {
    if row == [] then [Event.Row(c)] else [Field(Some(row[0]))] + RowEvents(row[1..], c)
  }

  function FileEvents(rows: seq<Row>, c: Byte): seq<Event> {
    if rows == [] then [] else RowEvents(rows[0], c) + FileEvents(rows[1..], c)
  }

  // field_fn and row_fn: the rows that are complete, and the one being filled.
  datatype Rows = Rows(complete: seq<Row>, current: Row)

  function Collect(rows: Rows, events: seq<Event>): Rows
    decreases |events|
  {
    if events == [] then rows
    else Collect(CollectOne(rows, events[0]), events[1..])
  }

  function CollectOne(rows: Rows, e: Event): Rows {
    match e
    case Field(text) => rows.(current := rows.current + [if text.Some? then text.value else []])
    case Row(_) => Rows(rows.complete + [rows.current], [])
  }

  function NonEmpty(rows: seq<Row>): seq<Row> {
    if rows == [] then [] else (if rows[0] == [] then [] else [rows[0]]) + NonEmpty(rows[1..])
  }

  // What the reader of a file gets if it goes on to the end of it.
  function RowsOf(cfg: Config, text: seq<Byte>): Rows {
    Collect(Rows([], []), Fold(cfg, START, text).events)
  }

  // ---------- which formats can be read back ----------

  ghost predicate Separable(cfg: Config) {
    cfg.quote != cfg.delim && cfg.quote !in cfg.terms && cfg.quote !in cfg.spaces
  }

  // The first byte of the row end ends rows, and the others are skipped between rows.
  ghost predicate RowEnd(cfg: Config, term: seq<Byte>) {
    && term != [] && term[0] in cfg.terms && term[0] != cfg.delim && term[0] !in cfg.spaces
    && (cfg.repallNl ==> |term| == 1)
    && forall i :: 0 < i < |term| ==> term[i] in cfg.terms && term[i] != cfg.delim
  }

  lemma DefaultRowEnds()
    ensures Separable(DEFAULT)
    ensures RowEnd(DEFAULT, [LF]) && RowEnd(DEFAULT, [CR]) && RowEnd(DEFAULT, [CR, LF])
  {}

  // ---------- runs of the parser ----------

  ghost predicate Runs(cfg: Config, s: Core, text: seq<Byte>, to: Core, events: seq<Event>) {
    Fold(cfg, s, text) == Outcome(to, events, |text|, false)
  }

  lemma RunsThen(cfg: Config, s: Core, a: seq<Byte>, m: Core, e: seq<Event>, b: seq<Byte>, to: Core, f: seq<Event>)
    requires Runs(cfg, s, a, m, e) && Runs(cfg, m, b, to, f)
    ensures Runs(cfg, s, a + b, to, e + f)
  {
    FoldAppend(cfg, s, a, b);
  }

  lemma RunsOne(cfg: Config, s: Core, c: Byte)
    requires StepByte(cfg, s, c).Next?
    ensures Runs(cfg, s, [c], StepByte(cfg, s, c).core, StepByte(cfg, s, c).events)
  {
    assert [c][1..] == [];
    assert Fold(cfg, StepByte(cfg, s, c).core, []) == Outcome(StepByte(cfg, s, c).core, [], 0, false);
  }

  function InQuotes(text: seq<Byte>): Core {
    Core(FieldBegun, true, 0, text)
  }

  lemma EscapeByte(cfg: Config, before: seq<Byte>, c: Byte)
    requires Separable(cfg)
    ensures Runs(cfg, InQuotes(before), if c == cfg.quote then [c, c] else [c], InQuotes(before + [c]), [])
  {
    RunsOne(cfg, InQuotes(before), c);
    if c == cfg.quote {
      var m := StepByte(cfg, InQuotes(before), c).core;
      RunsOne(cfg, m, c);
      RunsThen(cfg, InQuotes(before), [c], m, [], [c], InQuotes(before + [c]), []);
      assert [c] + [c] == [c, c];
    }
  }

  lemma {:induction false} EscapeRuns(cfg: Config, before: seq<Byte>, text: seq<Byte>)
    requires Separable(cfg)
    ensures Runs(cfg, InQuotes(before), Escape(cfg.quote, text), InQuotes(before + text), [])
    decreases |text|
  {
    if text == [] {
      assert before + text == before;
    } else {
      EscapeByte(cfg, before, text[0]);
      EscapeRuns(cfg, before + [text[0]], text[1..]);
      assert before + [text[0]] + text[1..] == before + text;
      RunsThen(cfg, InQuotes(before), if text[0] == cfg.quote then [text[0], text[0]] else [text[0]],
        InQuotes(before + [text[0]]), [], Escape(cfg.quote, text[1..]), InQuotes(before + text), []);
    }
  }

  ghost predicate BetweenFields(s: Core) {
    s == START || s == FIELD_DONE
  }

  function AfterQuote(q: Byte, text: seq<Byte>): Core {
    Core(FieldMightHaveEnded, true, 0, text + [q])
  }

  lemma QuotedRuns(cfg: Config, s: Core, text: seq<Byte>)
    requires Separable(cfg) && BetweenFields(s)
    ensures Runs(cfg, s, Quoted(cfg.quote, text), AfterQuote(cfg.quote, text), [])
  {
    var q := cfg.quote;
    RunsOne(cfg, s, q);
    EscapeRuns(cfg, [], text);
    assert [] + text == text;
    RunsThen(cfg, s, [q], InQuotes([]), [], Escape(q, text), InQuotes(text), []);
    RunsOne(cfg, InQuotes(text), q);
    RunsThen(cfg, s, [q] + Escape(q, text), InQuotes(text), [], [q], AfterQuote(q, text), []);
  }

  lemma FieldRuns(cfg: Config, s: Core, text: seq<Byte>)
    requires Separable(cfg) && BetweenFields(s)
    ensures Runs(cfg, s, Quoted(cfg.quote, text) + [cfg.delim], FIELD_DONE, [Field(Some(text))])
  {
    QuotedRuns(cfg, s, text);
    RunsOne(cfg, AfterQuote(cfg.quote, text), cfg.delim);
    assert DropLast(text + [cfg.quote], 1) == text;
    RunsThen(cfg, s, Quoted(cfg.quote, text), AfterQuote(cfg.quote, text), [], [cfg.delim], FIELD_DONE, [Field(Some(text))]);
  }

  // The rest of a row end changes nothing.
  lemma {:induction false} RestOfEndRuns(cfg: Config, rest: seq<Byte>)
    requires rest != [] ==> !cfg.repallNl
    requires forall i :: 0 <= i < |rest| ==> rest[i] in cfg.terms && rest[i] != cfg.delim
    ensures Runs(cfg, START, rest, START, [])
    decreases |rest|
  {
    if rest == [] {
    } else {
      RunsOne(cfg, START, rest[0]);
      RestOfEndRuns(cfg, rest[1..]);
      RunsThen(cfg, START, [rest[0]], START, [], rest[1..], START, []);
      assert [rest[0]] + rest[1..] == rest;
    }
  }

  lemma LastFieldRuns(cfg: Config, s: Core, text: seq<Byte>, term: seq<Byte>)
    requires Separable(cfg) && RowEnd(cfg, term) && BetweenFields(s)
    ensures Runs(cfg, s, Quoted(cfg.quote, text) + term, START, RowEvents([text], term[0]))
  {
    var q, e := cfg.quote, [Field(Some(text)), Event.Row(term[0])];
    QuotedRuns(cfg, s, text);
    RunsOne(cfg, AfterQuote(q, text), term[0]);
    assert DropLast(text + [q], 1) == text;
    RestOfEndRuns(cfg, term[1..]);
    RunsThen(cfg, AfterQuote(q, text), [term[0]], START, e, term[1..], START, []);
    assert [term[0]] + term[1..] == term;
    RunsThen(cfg, s, Quoted(q, text), AfterQuote(q, text), [], term, START, e);
    assert RowEvents([text], term[0]) == e by {
      assert [text][1..] == [];
      assert RowEvents([], term[0]) == [Event.Row(term[0])];
    }
  }

  lemma {:induction false} RowRuns(cfg: Config, s: Core, row: Row, term: seq<Byte>)
    requires Separable(cfg) && RowEnd(cfg, term) && BetweenFields(s) && row != []
    ensures Runs(cfg, s, RowText(cfg, row, term), START, RowEvents(row, term[0]))
    decreases |row|
  {
    if |row| == 1 {
      LastFieldRuns(cfg, s, row[0], term);
      assert [row[0]] == row;
    } else {
      FieldRuns(cfg, s, row[0]);
      RowRuns(cfg, FIELD_DONE, row[1..], term);
      RunsThen(cfg, s, Quoted(cfg.quote, row[0]) + [cfg.delim], FIELD_DONE, [Field(Some(row[0]))],
        RowText(cfg, row[1..], term), START, RowEvents(row[1..], term[0]));
    }
  }

  // A row without fields is only seen if all line ends are reported.
  lemma EmptyRowRuns(cfg: Config, term: seq<Byte>)
    requires RowEnd(cfg, term)
    ensures Runs(cfg, START, term, START, if cfg.repallNl then [Event.Row(term[0])] else [])
  {
    if cfg.repallNl {
      RunsOne(cfg, START, term[0]);
      assert term == [term[0]];
    } else {
      RestOfEndRuns(cfg, term);
    }
  }

  function Seen(cfg: Config, rows: seq<Row>): seq<Row> {
    if cfg.repallNl then rows else NonEmpty(rows)
  }

  // Parsing what was written makes the callbacks for the rows that were written,
  // raises no strict error, and ends between rows.
  lemma {:induction false} FileRuns(cfg: Config, rows: seq<Row>, term: seq<Byte>)
    requires Separable(cfg) && RowEnd(cfg, term)
    ensures Runs(cfg, START, FileText(cfg, rows, term), START, FileEvents(Seen(cfg, rows), term[0]))
    decreases |rows|
  {
    if rows == [] {
    } else {
      FileRuns(cfg, rows[1..], term);
      var rest := FileEvents(Seen(cfg, rows[1..]), term[0]);
      if rows[0] == [] {
        EmptyRowRuns(cfg, term);
        var e := if cfg.repallNl then [Event.Row(term[0])] else [];
        RunsThen(cfg, START, term, START, e, FileText(cfg, rows[1..], term), START, rest);
      } else {
        RowRuns(cfg, START, rows[0], term);
        RunsThen(cfg, START, RowText(cfg, rows[0], term), START, RowEvents(rows[0], term[0]),
          FileText(cfg, rows[1..], term), START, rest);
      }
      SeenEvents(cfg, rows, term[0]);
    }
  }

  lemma SeenEvents(cfg: Config, rows: seq<Row>, c: Byte)
    requires rows != []
    ensures FileEvents(Seen(cfg, rows), c) ==
      (if rows[0] == [] && !cfg.repallNl then [] else RowEvents(rows[0], c)) + FileEvents(Seen(cfg, rows[1..]), c)
  {
    var rest := NonEmpty(rows[1..]);
    assert [] + rest == rest && ([rows[0]] + rest)[1..] == rest;
    assert [] + FileEvents(rest, c) == FileEvents(rest, c);
  }

  // ---------- the rows that come back ----------

  lemma {:induction false} CollectAppend(rows: Rows, a: seq<Event>, b: seq<Event>)
    ensures Collect(rows, a + b) == Collect(Collect(rows, a), b)
    decreases |a|
  {
    if a == [] {
      assert a + b == b;
    } else {
      assert (a + b)[0] == a[0] && (a + b)[1..] == a[1..] + b;
      CollectAppend(CollectOne(rows, a[0]), a[1..], b);
    }
  }

  lemma {:induction false} CollectRow(done: seq<Row>, current: Row, row: Row, c: Byte)
    ensures Collect(Rows(done, current), RowEvents(row, c)) == Rows(done + [current + row], [])
    decreases |row|
  {
    if row == [] {
      assert [Event.Row(c)][1..] == [];
      assert current + row == current;
    } else {
      var e := RowEvents(row, c);
      assert e[0] == Field(Some(row[0])) && e[1..] == RowEvents(row[1..], c);
      CollectRow(done, current + [row[0]], row[1..], c);
      assert current + [row[0]] + row[1..] == current + row;
    }
  }

  lemma {:induction false} CollectFile(done: seq<Row>, rows: seq<Row>, c: Byte)
    ensures Collect(Rows(done, []), FileEvents(rows, c)) == Rows(done + rows, [])
    decreases |rows|
  {
    if rows == [] {
      assert done + rows == done;
    } else {
      CollectAppend(Rows(done, []), RowEvents(rows[0], c), FileEvents(rows[1..], c));
      CollectRow(done, [], rows[0], c);
      assert [] + rows[0] == rows[0];
      CollectFile(done + [rows[0]], rows[1..], c);
      assert done + [rows[0]] + rows[1..] == done + rows;
    }
  }

  lemma RoundTrip(cfg: Config, rows: seq<Row>, term: seq<Byte>)
    requires Separable(cfg) && RowEnd(cfg, term)
    ensures RowsOf(cfg, FileText(cfg, rows, term)) == Rows(Seen(cfg, rows), [])
  {
    FileRuns(cfg, rows, term);
    CollectFile([], Seen(cfg, rows), term[0]);
    assert [] + Seen(cfg, rows) == Seen(cfg, rows);
  }

  // With the options of the csv library: rows that have fields come back, whether
  // lines end in LF, CR or CR LF.
  lemma DefaultRoundTrip(rows: seq<Row>, term: seq<Byte>)
    requires term == [LF] || term == [CR] || term == [CR, LF]
    ensures RowsOf(DEFAULT, FileText(DEFAULT, rows, term)) == Rows(NonEmpty(rows), [])
    ensures (forall r | r in rows :: r != []) <==> RowsOf(DEFAULT, FileText(DEFAULT, rows, term)).complete == rows
  {
    DefaultRowEnds();
    RoundTrip(DEFAULT, rows, term);
    NonEmptyAll(rows);
  }

  lemma {:induction false} NonEmptyAll(rows: seq<Row>)
    ensures (forall r | r in rows :: r != []) <==> NonEmpty(rows) == rows
    ensures |NonEmpty(rows)| <= |rows|
    decreases |rows|
  {
    if rows == [] {
    } else {
      NonEmptyAll(rows[1..]);
      assert forall r :: r in rows <==> r == rows[0] || r in rows[1..];
      if rows[0] == [] {
        assert [] + NonEmpty(rows[1..]) == NonEmpty(rows[1..]);
        assert |NonEmpty(rows)| < |rows| && rows[0] in rows;
      } else {
        assert NonEmpty(rows)[1..] == NonEmpty(rows[1..]);
        assert NonEmpty(rows) == rows <==> NonEmpty(rows[1..]) == rows[1..];
      }
    }
  }

  // Different rows are written differently.
  lemma WritingIsInjective(a: seq<Row>, b: seq<Row>, term: seq<Byte>)
    requires term == [LF] || term == [CR] || term == [CR, LF]
    requires forall r | r in a + b :: r != []
    requires FileText(DEFAULT, a, term) == FileText(DEFAULT, b, term)
    ensures a == b
  {
    DefaultRoundTrip(a, term);
    DefaultRoundTrip(b, term);
    assert forall r | r in a :: r in a + b;
    assert forall r | r in b :: r in a + b;
  }

  // ---------- a last row without a line end ----------

  // What csv_fini would add is exactly what is missing at the end of the file.
  lemma UnfinishedRow(cfg: Config, text: seq<Byte>)
    requires !cfg.strict
    ensures var end := Fold(cfg, START, text).core;
      && Finish(cfg, end).Some?
      && (Finish(cfg, end).value == [] <==> end.pstate == RowNotBegun)
      && var all := Collect(RowsOf(cfg, text), Finish(cfg, end).value);
         all.complete == RowsOf(cfg, text).complete <==> end.pstate == RowNotBegun
  {
    var end := Fold(cfg, START, text).core;
    var e := Finish(cfg, end).value;
    if end.pstate != RowNotBegun {
      var one := CollectOne(RowsOf(cfg, text), e[0]);
      assert e[1..] == [Event.Row(-1)] && [Event.Row(-1)][1..] == [];
      assert Collect(RowsOf(cfg, text), e) == CollectOne(one, Event.Row(-1));
    }
  }

  // A file that holds the field a and no line end has one row, and none is delivered.
  lemma LastRowLost()
    ensures RowsOf(DEFAULT, [0x61]) == Rows([], [])
    ensures Finish(DEFAULT, Fold(DEFAULT, START, [0x61]).core) == Some([Field(Some([0x61])), Event.Row(-1)])
  {
    RunsOne(DEFAULT, START, 0x61);
    var a: seq<Byte> := [0x61];
    assert START.entry + a == a && DropLast(a, 0) == a;
  }
}

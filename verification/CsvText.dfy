// What the parser of lib/libcsv.c makes of text that may come from anywhere: fields with
// and without quotes, blanks around them, and misplaced quotes.

module CsvText {
  import opened Wrappers
  import opened Csv
  import opened CsvRoundTrip

  // A field as it stands in a file, with the blanks before and after it.
  datatype Cell =
    | Plain(pad: seq<Byte>, text: seq<Byte>, after: seq<Byte>)
    | InQuotes(pad: seq<Byte>, text: seq<Byte>, after: seq<Byte>)

  ghost predicate Blanks(cfg: Config, s: seq<Byte>) {
    forall c | c in s :: c in cfg.spaces && c != cfg.delim && c != cfg.quote && c !in cfg.terms
  }

  // Bytes that stand for themselves in a field without quotes.
  ghost predicate Ordinary(cfg: Config, text: seq<Byte>) {
    forall c | c in text :: c != cfg.delim && c !in cfg.terms && (c == cfg.quote ==> !cfg.strict)
  }

  // Text that neither begins nor ends with a blank, and does not begin with a quote.
  ghost predicate Trimmed(cfg: Config, text: seq<Byte>) {
    text != [] ==> text[0] !in cfg.spaces && text[0] != cfg.quote && text[|text| - 1] !in cfg.spaces
  }

  ghost predicate ValidCell(cfg: Config, cell: Cell) {
    && Blanks(cfg, cell.pad) && Blanks(cfg, cell.after)
    && (cell.Plain? ==> Ordinary(cfg, cell.text) && Trimmed(cfg, cell.text) && (cell.text == [] ==> cell.after == []))
  }

  function CellText(cfg: Config, cell: Cell): seq<Byte> {
    match cell
    case Plain(pad, text, after) => pad + text + after
    case InQuotes(pad, text, after) => pad + Quoted(cfg.quote, text) + after
  }

  // What is between the blanks, or the quotes.
  function CellEvent(cfg: Config, cell: Cell): Event {
    Field(if cell.Plain? && cell.text == [] && cfg.emptyIsNull then None else Some(cell.text))
  }

  predicate NoText(cell: Cell) {
    cell.Plain? && cell.text == []
  }

  // The formats for which this is so.
  ghost predicate Readable(cfg: Config) {
    Separable(cfg) && cfg.delim !in cfg.terms
  }

  // ---------- one field ----------

  lemma FirstOfBlanks(cfg: Config, s: seq<Byte>)
    requires Blanks(cfg, s) && s != []
    ensures s[0] in cfg.spaces && s[0] != cfg.delim && s[0] != cfg.quote && s[0] !in cfg.terms
    ensures Blanks(cfg, s[1..])
  {
    assert s[0] in s;
    assert forall c :: c in s[1..] ==> c in s;
  }

  lemma FirstOfOrdinary(cfg: Config, s: seq<Byte>)
    requires Ordinary(cfg, s) && s != []
    ensures s[0] != cfg.delim && s[0] !in cfg.terms && (s[0] == cfg.quote ==> !cfg.strict)
    ensures Ordinary(cfg, s[1..])
  {
    assert s[0] in s;
    assert forall c :: c in s[1..] ==> c in s;
  }

  lemma {:induction false} PadRuns(cfg: Config, s: Core, pad: seq<Byte>)
    requires Blanks(cfg, pad) && BetweenFields(s)
    ensures Runs(cfg, s, pad, s, [])
    decreases |pad|
  {
    if pad == [] {
    } else {
      FirstOfBlanks(cfg, pad);
      RunsOne(cfg, s, pad[0]);
      PadRuns(cfg, s, pad[1..]);
      RunsThen(cfg, s, [pad[0]], s, [], pad[1..], s, []);
      assert [pad[0]] + pad[1..] == pad;
    }
  }

  function InPlain(spaces: nat, entry: seq<Byte>): Core {
    Core(FieldBegun, false, spaces, entry)
  }

  // Text that has begun goes on; k blanks are at its end.
  lemma {:induction false} MoreRuns(cfg: Config, spaces: nat, entry: seq<Byte>, text: seq<Byte>) returns (k: nat)
    requires Ordinary(cfg, text)
    ensures Runs(cfg, InPlain(spaces, entry), text, InPlain(k, entry + text), [])
    ensures if text == [] then k == spaces else text[|text| - 1] !in cfg.spaces ==> k == 0
    decreases |text|
  {
    if text == [] {
      assert entry + text == entry;
      k := spaces;
    } else {
      var c := text[0];
      FirstOfOrdinary(cfg, text);
      var m := StepByte(cfg, InPlain(spaces, entry), c).core;
      RunsOne(cfg, InPlain(spaces, entry), c);
      k := MoreRuns(cfg, m.spaces, entry + [c], text[1..]);
      assert entry + [c] + text[1..] == entry + text && [c] + text[1..] == text;
      RunsThen(cfg, InPlain(spaces, entry), [c], m, [], text[1..], InPlain(k, entry + text), []);
    }
  }

  lemma {:induction false} AfterRuns(cfg: Config, spaces: nat, entry: seq<Byte>, after: seq<Byte>)
    requires Blanks(cfg, after)
    ensures Runs(cfg, InPlain(spaces, entry), after, InPlain(spaces + |after|, entry + after), [])
    decreases |after|
  {
    if after == [] {
      assert entry + after == entry;
    } else {
      var c := after[0];
      FirstOfBlanks(cfg, after);
      RunsOne(cfg, InPlain(spaces, entry), c);
      AfterRuns(cfg, spaces + 1, entry + [c], after[1..]);
      assert entry + [c] + after[1..] == entry + after && [c] + after[1..] == after;
      RunsThen(cfg, InPlain(spaces, entry), [c], InPlain(spaces + 1, entry + [c]), [], after[1..],
        InPlain(spaces + |after|, entry + after), []);
    }
  }

  lemma TextRuns(cfg: Config, s: Core, text: seq<Byte>)
    requires BetweenFields(s) && text != [] && Ordinary(cfg, text) && Trimmed(cfg, text)
    ensures Runs(cfg, s, text, InPlain(0, text), [])
  {
    FirstOfOrdinary(cfg, text);
    RunsOne(cfg, s, text[0]);
    assert s.entry + [text[0]] == [text[0]];
    var k := MoreRuns(cfg, 0, [text[0]], text[1..]);
    assert [text[0]] + text[1..] == text;
    RunsThen(cfg, s, [text[0]], InPlain(0, [text[0]]), [], text[1..], InPlain(k, text), []);
  }

  function Closing(q: Byte, text: seq<Byte>, gap: seq<Byte>): Core {
    Core(FieldMightHaveEnded, true, |gap|, text + [q] + gap)
  }

  // Blanks after a quote that may be the closing one.
  lemma {:induction false} GapRuns(cfg: Config, text: seq<Byte>, gap: seq<Byte>, more: seq<Byte>)
    requires Blanks(cfg, more)
    ensures Runs(cfg, Closing(cfg.quote, text, gap), more, Closing(cfg.quote, text, gap + more), [])
    decreases |more|
  {
    if more == [] {
      assert gap + more == gap;
    } else {
      var c := more[0];
      FirstOfBlanks(cfg, more);
      RunsOne(cfg, Closing(cfg.quote, text, gap), c);
      assert text + [cfg.quote] + gap + [c] == text + [cfg.quote] + (gap + [c]);
      GapRuns(cfg, text, gap + [c], more[1..]);
      assert gap + [c] + more[1..] == gap + more && [c] + more[1..] == more;
      RunsThen(cfg, Closing(cfg.quote, text, gap), [c], Closing(cfg.quote, text, gap + [c]), [], more[1..],
        Closing(cfg.quote, text, gap + more), []);
    }
  }

  // The parser after a field and the blanks behind it.
  function AfterCell(cfg: Config, s: Core, cell: Cell): Core {
    match cell
    case Plain(pad, text, after) => if text == [] then s else InPlain(|after|, text + after)
    case InQuotes(pad, text, after) => Closing(cfg.quote, text, after)
  }

  lemma CellRuns(cfg: Config, s: Core, cell: Cell)
    requires Separable(cfg) && BetweenFields(s) && ValidCell(cfg, cell)
    ensures Runs(cfg, s, CellText(cfg, cell), AfterCell(cfg, s, cell), [])
  {
    PadRuns(cfg, s, cell.pad);
    match cell
    case Plain(pad, text, after) => PlainRuns(cfg, s, pad, text, after);
    case InQuotes(pad, text, after) =>
      QuotedRuns(cfg, s, text);
      assert text + [cfg.quote] + [] == text + [cfg.quote];
      GapRuns(cfg, text, [], after);
      assert [] + after == after;
      RunsThen(cfg, s, pad, s, [], Quoted(cfg.quote, text), AfterQuote(cfg.quote, text), []);
      RunsThen(cfg, s, pad + Quoted(cfg.quote, text), AfterQuote(cfg.quote, text), [], after,
        Closing(cfg.quote, text, after), []);
  }

  lemma PlainRuns(cfg: Config, s: Core, pad: seq<Byte>, text: seq<Byte>, after: seq<Byte>)
    requires BetweenFields(s) && ValidCell(cfg, Plain(pad, text, after))
    ensures Runs(cfg, s, pad + text + after, if text == [] then s else InPlain(|after|, text + after), [])
  {
    PadRuns(cfg, s, pad);
    if text == [] {
      assert pad + text + after == pad;
    } else {
      TextRuns(cfg, s, text);
      AfterRuns(cfg, 0, text, after);
      RunsThen(cfg, s, pad, s, [], text, InPlain(0, text), []);
      RunsThen(cfg, s, pad + text, InPlain(0, text), [], after, InPlain(|after|, text + after), []);
    }
  }

  // A delimiter ends the field: what is submitted is the text without blanks and quotes.
  lemma CellThenDelim(cfg: Config, s: Core, cell: Cell)
    requires Readable(cfg) && BetweenFields(s) && ValidCell(cfg, cell)
    ensures Runs(cfg, s, CellText(cfg, cell) + [cfg.delim], FIELD_DONE, [CellEvent(cfg, cell)])
  {
    var m := AfterCell(cfg, s, cell);
    CellRuns(cfg, s, cell);
    RunsOne(cfg, m, cfg.delim);
    EndOfCell(cfg, cell);
    RunsThen(cfg, s, CellText(cfg, cell), m, [], [cfg.delim], FIELD_DONE, [CellEvent(cfg, cell)]);
  }

  lemma EndOfCell(cfg: Config, cell: Cell)
    ensures DropLast(cell.text + cell.after, |cell.after|) == cell.text
    ensures DropLast(cell.text + [cfg.quote] + cell.after, |cell.after| + 1) == cell.text
  {
    var all := cell.text + [cfg.quote] + cell.after;
    assert all[..|all| - (|cell.after| + 1)] == cell.text;
  }

  // A row end does the same, and ends the row.
  lemma CellThenEnd(cfg: Config, s: Core, cell: Cell, term: seq<Byte>)
    requires Readable(cfg) && RowEnd(cfg, term) && BetweenFields(s) && ValidCell(cfg, cell)
    requires s == FIELD_DONE || !NoText(cell)
    ensures Runs(cfg, s, CellText(cfg, cell) + term, START, [CellEvent(cfg, cell), Event.Row(term[0])])
  {
    var m, e := AfterCell(cfg, s, cell), [CellEvent(cfg, cell), Event.Row(term[0])];
    CellRuns(cfg, s, cell);
    EndOfCell(cfg, cell);
    EndRuns(cfg, m, e, term);
    RunsThen(cfg, s, CellText(cfg, cell), m, [], term, START, e);
  }

  lemma EndRuns(cfg: Config, m: Core, e: seq<Event>, term: seq<Byte>)
    requires RowEnd(cfg, term) && StepByte(cfg, m, term[0]) == Next(START, e)
    ensures Runs(cfg, m, term, START, e)
  {
    RunsOne(cfg, m, term[0]);
    RestOfEndRuns(cfg, term[1..]);
    RunsThen(cfg, m, [term[0]], START, e, term[1..], START, []);
    assert [term[0]] + term[1..] == term && e + [] == e;
  }

  // ---------- whole files ----------

  // A line, with its own row end; without fields it is blank.
  datatype Line = Line(cells: seq<Cell>, term: seq<Byte>)

  ghost predicate ValidLine(cfg: Config, line: Line) {
    && RowEnd(cfg, line.term) && (forall c | c in line.cells :: ValidCell(cfg, c))
    && (|line.cells| == 1 ==> !NoText(line.cells[0]))
  }

  function CellsText(cfg: Config, cells: seq<Cell>): seq<Byte> {
    if cells == [] then []
    else if |cells| == 1 then CellText(cfg, cells[0])
    else CellText(cfg, cells[0]) + [cfg.delim] + CellsText(cfg, cells[1..])
  }

  function LinesText(cfg: Config, lines: seq<Line>): seq<Byte> {
    if lines == [] then [] else CellsText(cfg, lines[0].cells) + lines[0].term + LinesText(cfg, lines[1..])
  }

  function CellsEvents(cfg: Config, cells: seq<Cell>): seq<Event> {
    if cells == [] then [] else [CellEvent(cfg, cells[0])] + CellsEvents(cfg, cells[1..])
  }

  function Texts(cells: seq<Cell>): Row {
    if cells == [] then [] else [cells[0].text] + Texts(cells[1..])
  }

  // The rows of the lines; blank lines have none unless all line ends are reported.
  function LinesRows(cfg: Config, lines: seq<Line>): seq<Row> {
    if lines == [] then []
    else (if lines[0].cells == [] && !cfg.repallNl then [] else [Texts(lines[0].cells)]) + LinesRows(cfg, lines[1..])
  }

  lemma {:induction false} CellsRun(cfg: Config, s: Core, cells: seq<Cell>, term: seq<Byte>)
    requires Readable(cfg) && RowEnd(cfg, term) && BetweenFields(s) && cells != []
    requires (forall c | c in cells :: ValidCell(cfg, c)) && (|cells| == 1 ==> s == FIELD_DONE || !NoText(cells[0]))
    ensures Runs(cfg, s, CellsText(cfg, cells) + term, START, CellsEvents(cfg, cells) + [Event.Row(term[0])])
    decreases |cells|
  {
    if |cells| == 1 {
      CellThenEnd(cfg, s, cells[0], term);
      assert CellsEvents(cfg, cells[1..]) == [];
      assert CellsEvents(cfg, cells) == [CellEvent(cfg, cells[0])];
    } else {
      var e, f := [CellEvent(cfg, cells[0])], CellsEvents(cfg, cells[1..]) + [Event.Row(term[0])];
      CellThenDelim(cfg, s, cells[0]);
      CellsRun(cfg, FIELD_DONE, cells[1..], term);
      RunsThen(cfg, s, CellText(cfg, cells[0]) + [cfg.delim], FIELD_DONE, e, CellsText(cfg, cells[1..]) + term, START, f);
      Regroup(CellText(cfg, cells[0]) + [cfg.delim], CellsText(cfg, cells[1..]), term);
      assert e + f == CellsEvents(cfg, cells) + [Event.Row(term[0])];
    }
  }

  lemma Regroup(a: seq<Byte>, b: seq<Byte>, c: seq<Byte>)
    ensures a + (b + c) == a + b + c
  {}

  lemma {:induction false} CollectCells(cfg: Config, done: seq<Row>, current: Row, cells: seq<Cell>, c: int)
    ensures Collect(Rows(done, current), CellsEvents(cfg, cells) + [Event.Row(c)]) == Rows(done + [current + Texts(cells)], [])
    decreases |cells|
  {
    if cells == [] {
      assert [] + [Event.Row(c)] == [Event.Row(c)] && [Event.Row(c)][1..] == [];
      assert current + Texts(cells) == current;
    } else {
      var e := CellsEvents(cfg, cells) + [Event.Row(c)];
      assert e[0] == CellEvent(cfg, cells[0]) && e[1..] == CellsEvents(cfg, cells[1..]) + [Event.Row(c)];
      CollectCells(cfg, done, current + [cells[0].text], cells[1..], c);
      assert current + [cells[0].text] + Texts(cells[1..]) == current + Texts(cells);
    }
  }

  // The rows done so far and those of the line.
  function WithLine(cfg: Config, done: seq<Row>, line: Line): seq<Row> {
    if line.cells == [] && !cfg.repallNl then done else done + [Texts(line.cells)]
  }

  lemma LineRuns(cfg: Config, done: seq<Row>, line: Line) returns (e: seq<Event>)
    requires Readable(cfg) && ValidLine(cfg, line)
    ensures Runs(cfg, START, CellsText(cfg, line.cells) + line.term, START, e)
    ensures Collect(Rows(done, []), e) == Rows(WithLine(cfg, done, line), [])
  {
    if line.cells == [] {
      EmptyRowRuns(cfg, line.term);
      assert [] + line.term == line.term;
      e := if cfg.repallNl then [Event.Row(line.term[0])] else [];
      assert [Event.Row(line.term[0])][1..] == [];
    } else {
      CellsRun(cfg, START, line.cells, line.term);
      e := CellsEvents(cfg, line.cells) + [Event.Row(line.term[0])];
      CollectCells(cfg, done, [], line.cells, line.term[0]);
      assert [] + Texts(line.cells) == Texts(line.cells);
    }
  }

  lemma {:induction false} LinesRun(cfg: Config, done: seq<Row>, lines: seq<Line>) returns (e: seq<Event>)
    requires Readable(cfg) && forall l | l in lines :: ValidLine(cfg, l)
    ensures Runs(cfg, START, LinesText(cfg, lines), START, e)
    ensures Collect(Rows(done, []), e) == Rows(done + LinesRows(cfg, lines), [])
    decreases |lines|
  {
    if lines == [] {
      e := [];
      assert done + [] == done;
    } else {
      var text := CellsText(cfg, lines[0].cells) + lines[0].term;
      var f := LineRuns(cfg, done, lines[0]);
      var rest := LinesRun(cfg, WithLine(cfg, done, lines[0]), lines[1..]);
      e := f + rest;
      RunsThen(cfg, START, text, START, f, LinesText(cfg, lines[1..]), START, rest);
      CollectAppend(Rows(done, []), f, rest);
      assert WithLine(cfg, done, lines[0]) + LinesRows(cfg, lines[1..]) == done + LinesRows(cfg, lines);
    }
  }

  // A file whose fields are quoted or not, with blanks around them, blank lines, and any
  // row ends, is read as the rows of its texts.
  lemma TextIsRead(cfg: Config, lines: seq<Line>)
    requires Readable(cfg) && forall l | l in lines :: ValidLine(cfg, l)
    ensures RowsOf(cfg, LinesText(cfg, lines)) == Rows(LinesRows(cfg, lines), [])
  {
    var e := LinesRun(cfg, [], lines);
    assert [] + LinesRows(cfg, lines) == LinesRows(cfg, lines);
  }

  // a,"b,c" and, with blanks around the d, d,
  const FIRST: seq<Byte> := [0x61, 0x2c, 0x22, 0x62, 0x2c, 0x63, 0x22]
  const SECOND: seq<Byte> := [0x09, 0x64, 0x20, 0x2c]

  // With the default options: two rows and a blank line, with CR LF and LF.
  lemma SampleFile()
    ensures RowsOf(DEFAULT, FIRST + [0x0d, 0x0a] + ([0x0a] + (SECOND + [0x0a])))
      == Rows([[[0x61], [0x62, 0x2c, 0x63]], [[0x64], []]], [])
  {
    var first := Line([Plain([], [0x61], []), InQuotes([], [0x62, 0x2c, 0x63], [])], [0x0d, 0x0a]);
    var blank := Line([], [0x0a]);
    var second := Line([Plain([0x09], [0x64], [0x20]), Plain([], [], [])], [0x0a]);
    SampleQuoted();
    SampleFirst(first);
    SampleSecond(second);
    SampleValid(first, blank, second);
    ThreeLines(DEFAULT, first, blank, second);
    assert CellsText(DEFAULT, []) + [0x0a] == [0x0a];
    TextIsRead(DEFAULT, [first, blank, second]);
  }

  lemma SampleValid(first: Line, blank: Line, second: Line)
    requires ValidLine(DEFAULT, first) && ValidLine(DEFAULT, second) && blank == Line([], [0x0a])
    ensures Readable(DEFAULT) && forall l | l in [first, blank, second] :: ValidLine(DEFAULT, l)
  {
    assert ValidLine(DEFAULT, blank);
  }

  lemma SampleQuoted()
    ensures Quoted(0x22, [0x62, 0x2c, 0x63]) == [0x22, 0x62, 0x2c, 0x63, 0x22]
  {
    assert Escape(0x22, [0x62, 0x2c, 0x63][1..][1..][1..]) == [];
    assert [0x62, 0x2c, 0x63][1..][1..] == [0x63] && [0x62, 0x2c, 0x63][1..] == [0x2c, 0x63];
    assert Escape(0x22, [0x63]) == [0x63];
    assert Escape(0x22, [0x2c, 0x63]) == [0x2c] + Escape(0x22, [0x63]);
  }

  lemma ThreeLines(cfg: Config, a: Line, b: Line, c: Line)
    ensures LinesText(cfg, [a, b, c]) == CellsText(cfg, a.cells) + a.term
      + (CellsText(cfg, b.cells) + b.term + (CellsText(cfg, c.cells) + c.term))
    ensures a.cells != [] && b.cells == [] && c.cells != [] && !cfg.repallNl ==>
      LinesRows(cfg, [a, b, c]) == [Texts(a.cells), Texts(c.cells)]
  {
    var ls := [a, b, c];
    assert ls[1..] == [b, c] && [b, c][1..] == [c] && [c][1..] == [];
    assert LinesText(cfg, []) == [] && LinesRows(cfg, []) == [];
    assert LinesText(cfg, [c]) == CellsText(cfg, c.cells) + c.term;
    assert LinesText(cfg, [b, c]) == CellsText(cfg, b.cells) + b.term + LinesText(cfg, [c]);
    if a.cells != [] && b.cells == [] && c.cells != [] && !cfg.repallNl {
      assert LinesRows(cfg, [c]) == [Texts(c.cells)];
      assert LinesRows(cfg, [b, c]) == [] + LinesRows(cfg, [c]);
      assert LinesRows(cfg, ls) == [Texts(a.cells)] + LinesRows(cfg, [b, c]);
    }
  }

  lemma SampleFirst(first: Line)
    requires Quoted(0x22, [0x62, 0x2c, 0x63]) == [0x22, 0x62, 0x2c, 0x63, 0x22]
    requires first == Line([Plain([], [0x61], []), InQuotes([], [0x62, 0x2c, 0x63], [])], [0x0d, 0x0a])
    ensures CellsText(DEFAULT, first.cells) == FIRST
    ensures Texts(first.cells) == [[0x61], [0x62, 0x2c, 0x63]] && ValidLine(DEFAULT, first)
  {
    assert first.cells[1..] == [InQuotes([], [0x62, 0x2c, 0x63], [])];
    assert Texts(first.cells[1..][1..]) == [];
  }

  lemma SampleSecond(second: Line)
    requires second == Line([Plain([0x09], [0x64], [0x20]), Plain([], [], [])], [0x0a])
    ensures CellsText(DEFAULT, second.cells) == SECOND
    ensures Texts(second.cells) == [[0x64], []] && ValidLine(DEFAULT, second)
  {
    assert second.cells[1..] == [Plain([], [], [])];
    assert Texts(second.cells[1..][1..]) == [];
  }

  // ---------- the end of a file ----------

  // csv_fini submits the last field, without blanks and quotes, and ends its row.
  lemma LastCell(cfg: Config, s: Core, cell: Cell)
    requires Readable(cfg) && BetweenFields(s) && ValidCell(cfg, cell)
    ensures Fold(cfg, s, CellText(cfg, cell)).events == []
    ensures Finish(cfg, Fold(cfg, s, CellText(cfg, cell)).core)
      == Some(if s == START && NoText(cell) then [] else [CellEvent(cfg, cell), Event.Row(-1)])
  {
    CellRuns(cfg, s, cell);
    EndOfCell(cfg, cell);
  }

  // An open quote is an error if both options say so; otherwise what follows it is the text.
  lemma OpenQuote(cfg: Config, s: Core, text: seq<Byte>)
    requires Separable(cfg) && BetweenFields(s)
    ensures Fold(cfg, s, [cfg.quote] + Escape(cfg.quote, text)).events == []
    ensures Finish(cfg, Fold(cfg, s, [cfg.quote] + Escape(cfg.quote, text)).core)
      == if cfg.strict && cfg.strictFini then None else Some([Field(Some(text)), Event.Row(-1)])
  {
    RunsOne(cfg, s, cfg.quote);
    EscapeRuns(cfg, [], text);
    assert [] + text == text;
    RunsThen(cfg, s, [cfg.quote], CsvRoundTrip.InQuotes([]), [], Escape(cfg.quote, text), CsvRoundTrip.InQuotes(text), []);
  }

  // ---------- misplaced quotes ----------

  lemma FailsAfter(cfg: Config, s: Core, a: seq<Byte>, m: Core, c: Byte, rest: seq<Byte>)
    requires Runs(cfg, s, a, m, []) && StepByte(cfg, m, c).StrictError?
    ensures Fold(cfg, s, a + [c] + rest) == Outcome(m, [], |a|, true)
  {
    assert a + [c] + rest == a + ([c] + rest);
    FoldAppend(cfg, s, a, [c] + rest);
  }

  // With strict checking a quote inside a field that has begun without one is an error.
  lemma StrictInnerQuote(cfg: Config, s: Core, text: seq<Byte>, rest: seq<Byte>)
    requires Separable(cfg) && cfg.strict && BetweenFields(s) && Ordinary(cfg, text)
    requires text != [] && text[0] !in cfg.spaces
    ensures var r := Fold(cfg, s, text + [cfg.quote] + rest); r.failed && r.used == |text|
  {
    FirstOfOrdinary(cfg, text);
    RunsOne(cfg, s, text[0]);
    assert text[0] in text && s.entry + [text[0]] == [text[0]];
    var k := MoreRuns(cfg, 0, [text[0]], text[1..]);
    assert [text[0]] + text[1..] == text;
    RunsThen(cfg, s, [text[0]], InPlain(0, [text[0]]), [], text[1..], InPlain(k, text), []);
    FailsAfter(cfg, s, text, InPlain(k, text), cfg.quote, rest);
  }

  // What may not follow a closing quote and the blanks behind it.
  ghost predicate Misplaced(cfg: Config, gap: seq<Byte>, c: Byte) {
    c != cfg.delim && c !in cfg.terms && c !in cfg.spaces && (c == cfg.quote ==> gap != [])
  }

  lemma ClosedRuns(cfg: Config, s: Core, text: seq<Byte>, gap: seq<Byte>)
    requires Separable(cfg) && BetweenFields(s) && Blanks(cfg, gap)
    ensures Runs(cfg, s, Quoted(cfg.quote, text) + gap, Closing(cfg.quote, text, gap), [])
  {
    QuotedRuns(cfg, s, text);
    assert text + [cfg.quote] + [] == text + [cfg.quote] && [] + gap == gap;
    GapRuns(cfg, text, [], gap);
    RunsThen(cfg, s, Quoted(cfg.quote, text), AfterQuote(cfg.quote, text), [], gap, Closing(cfg.quote, text, gap), []);
  }

  // With strict checking it is an error.
  lemma StrictAfterQuote(cfg: Config, s: Core, text: seq<Byte>, gap: seq<Byte>, c: Byte, rest: seq<Byte>)
    requires Separable(cfg) && cfg.strict && BetweenFields(s) && Blanks(cfg, gap) && Misplaced(cfg, gap, c)
    ensures var all := Quoted(cfg.quote, text) + gap;
            var r := Fold(cfg, s, all + [c] + rest);
            r.failed && r.used == |all|
  {
    ClosedRuns(cfg, s, text, gap);
    FailsAfter(cfg, s, Quoted(cfg.quote, text) + gap, Closing(cfg.quote, text, gap), c, rest);
  }

  // Without it the quote and the blanks belong to the text, which goes on in quotes.
  lemma LooseAfterQuote(cfg: Config, s: Core, text: seq<Byte>, gap: seq<Byte>, c: Byte)
    requires Separable(cfg) && !cfg.strict && BetweenFields(s) && Blanks(cfg, gap) && Misplaced(cfg, gap, c)
    ensures var all, q := text + [cfg.quote] + gap, cfg.quote;
            Runs(cfg, s, Quoted(q, text) + gap + [c], if c == q then AfterQuote(q, all) else CsvRoundTrip.InQuotes(all + [c]), [])
  {
    ClosedRuns(cfg, s, text, gap);
    RunsOne(cfg, Closing(cfg.quote, text, gap), c);
    RunsThen(cfg, s, Quoted(cfg.quote, text) + gap, Closing(cfg.quote, text, gap), [], [c],
      StepByte(cfg, Closing(cfg.quote, text, gap), c).core, []);
  }

  // Up to the next quote, that is: the field that comes out.
  lemma LooseField(cfg: Config, s: Core, text: seq<Byte>, gap: seq<Byte>, c: Byte, more: seq<Byte>)
    requires Separable(cfg) && !cfg.strict && BetweenFields(s) && Blanks(cfg, gap) && Misplaced(cfg, gap, c) && c != cfg.quote
    ensures var q := cfg.quote;
            Runs(cfg, s, Quoted(q, text) + gap + [c] + Escape(q, more) + [q] + [cfg.delim], FIELD_DONE,
              [Field(Some(text + [q] + gap + [c] + more))])
  {
    var q, all := cfg.quote, text + [cfg.quote] + gap + [c];
    var head := Quoted(q, text) + gap + [c];
    LooseAfterQuote(cfg, s, text, gap, c);
    EscapeRuns(cfg, all, more);
    RunsThen(cfg, s, head, CsvRoundTrip.InQuotes(all), [], Escape(q, more), CsvRoundTrip.InQuotes(all + more), []);
    RunsOne(cfg, CsvRoundTrip.InQuotes(all + more), q);
    RunsThen(cfg, s, head + Escape(q, more), CsvRoundTrip.InQuotes(all + more), [], [q], AfterQuote(q, all + more), []);
    RunsOne(cfg, AfterQuote(q, all + more), cfg.delim);
    assert DropLast(all + more + [q], 1) == all + more;
    RunsThen(cfg, s, head + Escape(q, more) + [q], AfterQuote(q, all + more), [], [cfg.delim], FIELD_DONE,
      [Field(Some(all + more))]);
  }
}

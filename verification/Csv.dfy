// csv_parse of lib/libcsv.c as a fold over bytes: what one byte does to the parser
// state, and which callbacks it makes.

module Csv {
  import opened Wrappers

  type Byte = x: int | 0 <= x < 256

  const TAB: Byte := 0x09
  const LF: Byte := 0x0a
  const CR: Byte := 0x0d
  const SPACE: Byte := 0x20
  const QUOTE: Byte := 0x22
  const COMMA: Byte := 0x2c

  datatype Config = Config(
    delim: Byte, quote: Byte, spaces: set<Byte>, terms: set<Byte>,
    strict: bool, strictFini: bool, repallNl: bool, appendNull: bool, emptyIsNull: bool)

  // csv_init with no options
  const DEFAULT := Config(COMMA, QUOTE, {SPACE, TAB}, {CR, LF}, false, false, false, false, false)

  datatype PState = RowNotBegun | FieldNotBegun | FieldBegun | FieldMightHaveEnded

  // The calls of cb1 (None for the NULL field) and of cb2.
  datatype Event = Field(text: Option<seq<Byte>>) | Row(c: int)

  datatype Core = Core(pstate: PState, quoted: bool, spaces: nat, entry: seq<Byte>)

  const START := Core(RowNotBegun, false, 0, [])

  datatype Step = Next(core: Core, events: seq<Event>) | StrictError

  function DropLast(s: seq<Byte>, n: nat): seq<Byte> {
    if n <= |s| then s[..|s| - n] else []
  }

  // SUBMIT_FIELD, for an entry that has already lost its closing quote
  function FieldOf(cfg: Config, quoted: bool, spaces: nat, entry: seq<Byte>): Event {
    var text := if quoted then entry else DropLast(entry, spaces);
    Field(if cfg.emptyIsNull && !quoted && text == [] then None else Some(text))
  }

  const FIELD_DONE := Core(FieldNotBegun, false, 0, [])

  function StepNotBegun(cfg: Config, s: Core, c: Byte): Step {
    if c in cfg.spaces && c != cfg.delim then Next(s, [])
    else if c in cfg.terms then
      if s.pstate == FieldNotBegun then Next(START, [FieldOf(cfg, s.quoted, s.spaces, s.entry), Row(c)])
      else if cfg.repallNl then Next(START, [Row(c)])
      else Next(s, [])
    else if c == cfg.delim then Next(FIELD_DONE, [FieldOf(cfg, s.quoted, s.spaces, s.entry)])
    else if c == cfg.quote then Next(s.(pstate := FieldBegun, quoted := true), [])
    else Next(s.(pstate := FieldBegun, quoted := false, entry := s.entry + [c]), [])
  }

  function StepField(cfg: Config, s: Core, c: Byte): Step {
    if c == cfg.quote then
      if s.quoted then Next(s.(entry := s.entry + [c], pstate := FieldMightHaveEnded), [])
      else if cfg.strict then StrictError
      else Next(s.(entry := s.entry + [c], spaces := 0), [])
    else if c == cfg.delim then
      if s.quoted then Next(s.(entry := s.entry + [c]), [])
      else Next(FIELD_DONE, [FieldOf(cfg, s.quoted, s.spaces, s.entry)])
    else if c in cfg.terms then
      if s.quoted then Next(s.(entry := s.entry + [c]), [])
      else Next(START, [FieldOf(cfg, s.quoted, s.spaces, s.entry), Row(c)])
    else if !s.quoted && c in cfg.spaces then Next(s.(entry := s.entry + [c], spaces := s.spaces + 1), [])
    else Next(s.(entry := s.entry + [c], spaces := 0), [])
  }

  function StepEnded(cfg: Config, s: Core, c: Byte): Step {
    var closed := DropLast(s.entry, s.spaces + 1);
    if c == cfg.delim then Next(FIELD_DONE, [FieldOf(cfg, s.quoted, s.spaces, closed)])
    else if c in cfg.terms then Next(START, [FieldOf(cfg, s.quoted, s.spaces, closed), Row(c)])
    else if c in cfg.spaces then Next(s.(entry := s.entry + [c], spaces := s.spaces + 1), [])
    else if c == cfg.quote then
      if s.spaces == 0 then Next(s.(pstate := FieldBegun), [])
      else if cfg.strict then StrictError
      else Next(s.(entry := s.entry + [c], spaces := 0), [])
    else if cfg.strict then StrictError
    else Next(s.(pstate := FieldBegun, entry := s.entry + [c], spaces := 0), [])
  }

  function StepByte(cfg: Config, s: Core, c: Byte): Step {
    match s.pstate
    case RowNotBegun => StepNotBegun(cfg, s, c)
    case FieldNotBegun => StepNotBegun(cfg, s, c)
    case FieldBegun => StepField(cfg, s, c)
    case FieldMightHaveEnded => StepEnded(cfg, s, c)
  }

  // csv_fini; None is its strict error
  function Finish(cfg: Config, s: Core): Option<seq<Event>> {
    if s.pstate == FieldBegun && s.quoted && cfg.strict && cfg.strictFini then None
    else if s.pstate == RowNotBegun then Some([])
    else
      Some([FieldOf(cfg, s.quoted, s.spaces, Closed(s)), Row(-1)])
  }

  // The entry without its closing quote.
  function Closed(s: Core): seq<Byte> {
    if s.pstate == FieldMightHaveEnded then DropLast(s.entry, s.spaces + 1) else s.entry
  }

  // ---------- the invariant of the parser state ----------

  // What can be taken off the entry is there.
  ghost predicate CoreInv(s: Core) {
    match s.pstate
    case RowNotBegun => s == START
    case FieldNotBegun => s == FIELD_DONE
    case FieldBegun => |s.entry| >= s.spaces && (s.quoted ==> s.spaces == 0)
    case FieldMightHaveEnded => s.quoted && |s.entry| >= s.spaces + 1
  }

  lemma StepKeeps(cfg: Config, s: Core, c: Byte)
    requires CoreInv(s) && StepByte(cfg, s, c).Next?
    ensures CoreInv(StepByte(cfg, s, c).core)
    ensures |StepByte(cfg, s, c).core.entry| <= |s.entry| + 1
  {}

  // ---------- runs ----------

  // used bytes were read; failed if the next one is a strict error.
  datatype Outcome = Outcome(core: Core, events: seq<Event>, used: nat, failed: bool)

  function Fold(cfg: Config, s: Core, bytes: seq<Byte>): Outcome
    decreases |bytes|
  {
    if bytes == [] then Outcome(s, [], 0, false)
    else match StepByte(cfg, s, bytes[0])
      case StrictError => Outcome(s, [], 0, true)
      case Next(core, events) => After(events, 1, Fold(cfg, core, bytes[1..]))
  }

  function After(events: seq<Event>, used: nat, r: Outcome): Outcome {
    Outcome(r.core, events + r.events, used + r.used, r.failed)
  }

  lemma {:induction false} FoldKeeps(cfg: Config, s: Core, bytes: seq<Byte>)
    requires CoreInv(s)
    ensures CoreInv(Fold(cfg, s, bytes).core)
    ensures |Fold(cfg, s, bytes).core.entry| <= |s.entry| + Fold(cfg, s, bytes).used
    decreases |bytes|
  {
    if bytes != [] && StepByte(cfg, s, bytes[0]).Next? {
      StepKeeps(cfg, s, bytes[0]);
      FoldKeeps(cfg, StepByte(cfg, s, bytes[0]).core, bytes[1..]);
    }
  }

  lemma AfterAfter(e: seq<Event>, m: nat, f: seq<Event>, n: nat, r: Outcome)
    ensures After(e, m, After(f, n, r)) == After(e + f, m + n, r)
  {
    assert e + (f + r.events) == (e + f) + r.events;
  }

  // Parsing a and then b is parsing a + b.
  lemma {:induction false} FoldAppend(cfg: Config, s: Core, a: seq<Byte>, b: seq<Byte>)
    ensures var r := Fold(cfg, s, a);
      Fold(cfg, s, a + b) == if r.failed then r else After(r.events, r.used, Fold(cfg, r.core, b))
    decreases |a|
  {
    if a == [] {
      assert a + b == b;
    } else {
      assert (a + b)[0] == a[0] && (a + b)[1..] == a[1..] + b;
      match StepByte(cfg, s, a[0])
      case StrictError =>
      case Next(core, events) =>
        FoldAppend(cfg, core, a[1..], b);
        var r := Fold(cfg, core, a[1..]);
        AfterAfter(events, 1, r.events, r.used, Fold(cfg, r.core, b));
    }
  }

  // One csv_parse call per chunk, up to a strict error.
  function FoldChunks(cfg: Config, s: Core, chunks: seq<seq<Byte>>): Outcome
    decreases |chunks|
  {
    if chunks == [] then Outcome(s, [], 0, false)
    else
      var r := Fold(cfg, s, chunks[0]);
      if r.failed then r else After(r.events, r.used, FoldChunks(cfg, r.core, chunks[1..]))
  }

  function Concat(chunks: seq<seq<Byte>>): seq<Byte> {
    if chunks == [] then [] else chunks[0] + Concat(chunks[1..])
  }

  // However the input is cut up, the callbacks and the final state are the same.
  lemma {:induction false} ChunkIndependence(cfg: Config, s: Core, chunks: seq<seq<Byte>>)
    ensures FoldChunks(cfg, s, chunks) == Fold(cfg, s, Concat(chunks))
    decreases |chunks|
  {
    if chunks == [] {
    } else {
      FoldAppend(cfg, s, chunks[0], Concat(chunks[1..]));
      ChunkIndependence(cfg, Fold(cfg, s, chunks[0]).core, chunks[1..]);
    }
  }

  // A run that does not fail reads everything; one that does stops at the bad byte.
  lemma {:induction false} FoldUsed(cfg: Config, s: Core, bytes: seq<Byte>)
    ensures var r := Fold(cfg, s, bytes);
      && r.used <= |bytes| && (r.failed <==> r.used < |bytes|) && (r.failed ==> cfg.strict)
      && (r.failed ==> StepByte(cfg, r.core, bytes[r.used]).StrictError?)
    decreases |bytes|
  {
    if bytes != [] && StepByte(cfg, s, bytes[0]).Next? {
      FoldUsed(cfg, StepByte(cfg, s, bytes[0]).core, bytes[1..]);
    }
  }
}

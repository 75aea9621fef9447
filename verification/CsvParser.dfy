// The parser object of lib/libcsv.c, with its growing entry buffer.

module CsvParser {
  import opened Wrappers
  import opened Csv
  import RT = CsvRoundTrip

  const SIZE_MAX: nat := 0xffff_ffff_ffff_ffff
  const MEM_BLK_SIZE: nat := 128

  datatype Status = Success | EParse | ENoMem | ETooBig

  // How much is asked for at first, and after some refusals.
  function ToAdd(blkSize: nat, entrySize: nat): nat {
    if entrySize > SIZE_MAX then 0
    else if entrySize + blkSize >= SIZE_MAX then SIZE_MAX - entrySize
    else blkSize
  }

  function Halved(n: nat, times: nat): nat {
    if times == 0 then n else Halved(n, times - 1) / 2
  }

  // The first n requests, for the sizes that halving gives, are all refused.
  ghost predicate RefusedAll(grants: (nat, nat) -> bool, from: nat, size: nat, want: nat, n: nat) {
    forall k: nat :: k < n ==> !grants(from + k, size + Halved(want, k))
  }

  lemma RefusedOneMore(grants: (nat, nat) -> bool, from: nat, size: nat, want: nat, n: nat)
    requires RefusedAll(grants, from, size, want, n) && !grants(from + n, size + Halved(want, n))
    ensures RefusedAll(grants, from, size, want, n + 1)
  {}

  lemma NotAllGranted(grants: (nat, nat) -> bool, from: nat, size: nat, want: nat, n: nat)
    requires RefusedAll(grants, from, size, want, n) && n > 0
    ensures !forall k: nat, m: nat :: grants(k, m)
  {
    assert !grants(from + 0, size + Halved(want, 0));
  }

  class Parser {
    const cfg: Config
    const grants: (nat, nat) -> bool   // does realloc_func grant its k-th request, for n bytes?
    var requests: nat
    var pstate: PState
    var quoted: bool
    var spaces: nat
    var entryPos: nat
    var entryBuf: array<Byte>     // of length 0 until it is allocated
    var entrySize: nat
    var blkSize: nat
    var status: Status
    var Events: seq<Event>        // the calls of cb1 and cb2 so far

    // What the next byte acts on.
    ghost function State(): Core
      requires entryPos <= entryBuf.Length
      reads this, entryBuf
    {
      Core(pstate, quoted, spaces, entryBuf[..entryPos])
    }

    function Usable(): int
      reads this
    {
      if cfg.appendNull then entrySize - 1 else entrySize
    }

    ghost predicate EverythingGranted() {
      forall k: nat, n: nat :: grants(k, n)
    }

    ghost predicate NothingGranted() {
      forall k: nat, n: nat :: !grants(k, n)
    }

    ghost predicate Sized()
      reads this, entryBuf
    {
      && entryBuf.Length == entrySize <= SIZE_MAX && blkSize <= SIZE_MAX
      && entryPos <= (if entrySize == 0 then 0 else Usable())
    }

    ghost predicate Valid()
      reads this, entryBuf
    {
      Sized() && CoreInv(State()) && (pstate == RowNotBegun || entrySize > 0) && (entrySize == 0 || !NothingGranted())
    }

    constructor (cfg: Config, grants: (nat, nat) -> bool)
      ensures Valid() && this.cfg == cfg && this.grants == grants && State() == START && Events == [] && status == Success
      ensures entrySize == 0 && blkSize == 128 && fresh(entryBuf)
    {
      this.cfg, this.grants, requests := cfg, grants, 0;
      pstate, quoted, spaces, entryPos := RowNotBegun, false, 0, 0;
      entryBuf := new Byte[0];
      entrySize, blkSize, status, Events := 0, MEM_BLK_SIZE, Success, [];
      new;
      assert entryBuf[..0] == [];
    }

    // realloc_func, which may refuse
    method Realloc(size: nat) returns (ok: bool, buf: array<Byte>)
      requires entryBuf.Length <= size
      modifies this`requests
      ensures ok == grants(old(requests), size) && requests == old(requests) + 1
      ensures ok ==> fresh(buf) && buf.Length == size && buf[..entryBuf.Length] == entryBuf[..]
    {
      ok := grants(requests, size);
      requests := requests + 1;
      buf := entryBuf;
      if ok {
        buf := new Byte[size](_ => 0);
        var i := 0;
        while i < entryBuf.Length
          invariant 0 <= i <= entryBuf.Length && buf[..i] == entryBuf[..i]
          modifies buf
        {
          buf[i] := entryBuf[i];
          i := i + 1;
        }
      }
    }

    // Asks for want more bytes, and for half as many after each refusal.
    method Acquire(want: nat) returns (ok: bool, added: nat, buf: array<Byte>, ghost refused: nat)
      requires want > 0 && entryBuf.Length == entrySize
      modifies this`requests
      ensures added == Halved(want, refused) <= want && (ok <==> added > 0)
      ensures RefusedAll(grants, old(requests), entrySize, want, refused) && (!ok ==> !EverythingGranted())
      ensures ok ==> grants(old(requests) + refused, entrySize + added)
      ensures ok ==> fresh(buf) && buf.Length == entrySize + added && buf[..entrySize] == entryBuf[..]
    {
      added, refused := want, 0;
      while true
        invariant 0 < added == Halved(want, refused) <= want && requests == old(requests) + refused
        invariant RefusedAll(grants, old(requests), entrySize, want, refused)
        decreases added
        modifies this`requests
      {
        ok, buf := Realloc(entrySize + added);
        if ok {
          return;
        }
        RefusedOneMore(grants, old(requests), entrySize, want, refused);
        NotAllGranted(grants, old(requests), entrySize, want, refused + 1);
        added, refused := added / 2, refused + 1;
        if added == 0 {
          return;
        }
      }
    }

    // Makes the buffer larger by the block size or what is left, halving that as long
    // as it is refused.
    method IncreaseBuffer() returns (ok: bool, ghost refused: nat)
      requires Valid()
      modifies this`entryBuf, this`entrySize, this`status, this`requests
      ensures Valid() && State() == old(State())
      ensures ok ==> grants(old(requests) + refused, entrySize)
      ensures ok ==> fresh(entryBuf) && status == old(status)
      ensures ok ==> entrySize == old(entrySize) + Halved(ToAdd(blkSize, old(entrySize)), refused)
      ensures ok ==> old(entrySize) < entrySize <= SIZE_MAX && entryPos < entrySize
      ensures !ok ==> entryBuf == old(entryBuf) && entrySize == old(entrySize)
      ensures !ok ==> status == if blkSize == 0 || entrySize == SIZE_MAX then ETooBig else ENoMem
      ensures !ok ==> Halved(ToAdd(blkSize, entrySize), refused) == 0
      ensures !ok && EverythingGranted() && blkSize > 0 ==> entrySize == SIZE_MAX
    {
      refused := 0;
      var toAdd := blkSize;
      if entrySize >= SIZE_MAX - toAdd {
        toAdd := SIZE_MAX - entrySize;
      }
      if toAdd == 0 {
        status := ETooBig;
        return false, refused;
      }
      var buf;
      ok, toAdd, buf, refused := Acquire(toAdd);
      if !ok {
        status := ENoMem;
        return;
      }
      assert buf[..entryPos] == buf[..entrySize][..entryPos] == entryBuf[..entryPos];
      assert grants(old(requests) + refused, entrySize + toAdd);
      entryBuf := buf;
      entrySize := entrySize + toAdd;
    }

    ghost predicate Full()
      reads this, entryBuf
    {
      entrySize == 0 || entryPos == Usable()
    }

    // The last csv_parse stopped because there was no room for another byte.
    ghost predicate OutOfRoom()
      reads this, entryBuf
    {
      && (status == ENoMem || status == ETooBig) && Full()
      && (EverythingGranted() && blkSize > 0 ==> entrySize == SIZE_MAX)
    }

    ghost predicate Roomy()
      reads this, entryBuf
    {
      Valid() && 0 <= entryPos < Usable()
    }

    // SUBMIT_FIELD
    method SubmitField()
      requires Sized() && (!quoted ==> spaces <= entryPos) && 0 < entrySize
      modifies this`Events, this`pstate, this`entryPos, this`quoted, this`spaces, entryBuf
      ensures Sized() && State() == FIELD_DONE
      ensures Events == old(Events) + [FieldOf(cfg, old(quoted), old(spaces), old(entryBuf[..entryPos]))]
      ensures cfg.appendNull ==> entryBuf[if old(quoted) then old(entryPos) else old(entryPos - spaces)] == 0
    {
      ghost var entry := entryBuf[..entryPos];
      if !quoted {
        entryPos := entryPos - spaces;
      }
      assert entryBuf[..entryPos] == if quoted then entry else DropLast(entry, spaces);
      if cfg.appendNull {
        entryBuf[entryPos] := 0;
      }
      assert entryBuf[..entryPos] == if quoted then entry else DropLast(entry, spaces);
      if cfg.emptyIsNull && !quoted && entryPos == 0 {
        Events := Events + [Field(None)];
      } else {
        Events := Events + [Field(Some(entryBuf[..entryPos]))];
      }
      pstate := FieldNotBegun;
      entryPos, quoted, spaces := 0, false, 0;
      assert entryBuf[..0] == [];
    }

    // SUBMIT_ROW
    method SubmitRow(c: int)
      requires Sized()
      modifies this`Events, this`pstate, this`entryPos, this`quoted, this`spaces
      ensures Sized() && State() == START && Events == old(Events) + [Event.Row(c)]
    {
      Events := Events + [Event.Row(c)];
      pstate := RowNotBegun;
      entryPos, quoted, spaces := 0, false, 0;
      assert entryBuf[..0] == [];
    }

    // SUBMIT_CHAR
    method SubmitChar(c: Byte)
      requires Sized() && 0 <= entryPos < Usable()
      modifies this`entryPos, entryBuf
      ensures Sized() && State() == old(State()).(entry := old(State()).entry + [c])
    {
      entryBuf[entryPos] := c;
      entryPos := entryPos + 1;
      assert entryBuf[..entryPos] == old(entryBuf[..entryPos]) + [c];
    }

    // What the parser does with c in the state s.
    ghost predicate Stepped(s: Step, before: Core, events: seq<Event>, ok: bool)
      reads this, entryBuf
    {
      && Sized() && (ok <==> s.Next?)
      && State() == (if s.Next? then s.core else before)
      && Events == events + (if s.Next? then s.events else [])
    }

    method InNotBegun(c: Byte)
      requires Roomy() && (pstate == RowNotBegun || pstate == FieldNotBegun)
      modifies this`Events, this`pstate, this`entryPos, this`quoted, this`spaces, entryBuf
      ensures Stepped(StepNotBegun(cfg, old(State()), c), old(State()), old(Events), true)
    {
      if c in cfg.spaces && c != cfg.delim {
        return;
      } else if c in cfg.terms {
        if pstate == FieldNotBegun {
          SubmitField();
          SubmitRow(c);
        } else if cfg.repallNl {
          SubmitRow(c);
        }
      } else if c == cfg.delim {
        SubmitField();
      } else if c == cfg.quote {
        pstate := FieldBegun;
        quoted := true;
      } else {
        pstate := FieldBegun;
        quoted := false;
        SubmitChar(c);
      }
    }

    method InField(c: Byte) returns (ok: bool)
      requires Roomy() && pstate == FieldBegun
      modifies this`Events, this`pstate, this`entryPos, this`quoted, this`spaces, this`status, entryBuf
      ensures Stepped(StepField(cfg, old(State()), c), old(State()), old(Events), ok)
      ensures status == if ok then old(status) else EParse
    {
      ok := true;
      if c == cfg.quote {
        if quoted {
          SubmitChar(c);
          pstate := FieldMightHaveEnded;
        } else {
          if cfg.strict {
            status := EParse;
            return false;
          }
          SubmitChar(c);
          spaces := 0;
        }
      } else if c == cfg.delim {
        if quoted {
          SubmitChar(c);
        } else {
          SubmitField();
        }
      } else if c in cfg.terms {
        if !quoted {
          SubmitField();
          SubmitRow(c);
        } else {
          SubmitChar(c);
        }
      } else if !quoted && c in cfg.spaces {
        SubmitChar(c);
        spaces := spaces + 1;
      } else {
        SubmitChar(c);
        spaces := 0;
      }
    }

    // Takes the closing quote and the spaces after it off the entry.
    method CloseQuote()
      requires Sized() && spaces + 1 <= entryPos
      modifies this`entryPos
      ensures Sized() && State() == old(State()).(entry := DropLast(old(State()).entry, spaces + 1))
    {
      entryPos := entryPos - (spaces + 1);
      assert entryBuf[..entryPos] == DropLast(entryBuf[..old(entryPos)], spaces + 1);
    }

    method InEnded(c: Byte) returns (ok: bool)
      requires Roomy() && pstate == FieldMightHaveEnded
      modifies this`Events, this`pstate, this`entryPos, this`quoted, this`spaces, this`status, entryBuf
      ensures Stepped(StepEnded(cfg, old(State()), c), old(State()), old(Events), ok)
      ensures status == if ok then old(status) else EParse
    {
      ok := true;
      if c == cfg.delim {
        CloseQuote();
        SubmitField();
      } else if c in cfg.terms {
        CloseQuote();
        SubmitField();
        SubmitRow(c);
      } else if c in cfg.spaces {
        SubmitChar(c);
        spaces := spaces + 1;
      } else if c == cfg.quote {
        if spaces != 0 {
          if cfg.strict {
            status := EParse;
            return false;
          }
          spaces := 0;
          SubmitChar(c);
        } else {
          pstate := FieldBegun;
        }
      } else {
        if cfg.strict {
          status := EParse;
          return false;
        }
        pstate := FieldBegun;
        spaces := 0;
        SubmitChar(c);
      }
    }

    // The switch over the parser state.
    method ParseByte(c: Byte) returns (ok: bool)
      requires Roomy()
      modifies this`Events, this`pstate, this`entryPos, this`quoted, this`spaces, this`status, entryBuf
      ensures Stepped(StepByte(cfg, old(State()), c), old(State()), old(Events), ok)
      ensures status == if ok then old(status) else EParse
      ensures Valid()
    {
      if StepByte(cfg, State(), c).Next? {
        StepKeeps(cfg, State(), c);
      }
      match pstate
      case RowNotBegun =>
        InNotBegun(c);
        ok := true;
      case FieldNotBegun =>
        InNotBegun(c);
        ok := true;
      case FieldBegun =>
        ok := InField(c);
      case FieldMightHaveEnded =>
        ok := InEnded(c);
    }

    // The bytes of data are read up to pos, with the callbacks and the state that Fold
    // gives for them. If some are left, the buffer could not grow or the next byte is
    // a strict error.
    method Parse(data: seq<Byte>) returns (pos: nat)
      requires Valid()
      modifies this`Events, this`pstate, this`entryPos, this`quoted, this`spaces, this`status
      modifies this`entryBuf, this`entrySize, this`requests, entryBuf
      ensures Valid() && pos <= |data| && (entryBuf == old(entryBuf) || fresh(entryBuf))
      ensures Ran(old(State()), old(Events), data[..pos])
      ensures pos == |data| ==> status == old(status)
      ensures pos < |data| ==> Stopped(data[pos])
      ensures entrySize >= old(entrySize)
      ensures pos > 0 ==> entrySize > 0
    {
      pos := 0;
      ghost var start, events := State(), Events;
      if entrySize == 0 && pos < |data| {
        var ok, refused := IncreaseBuffer();
        if !ok {
          return;
        }
      }
      while pos < |data|
        invariant 0 <= pos <= |data| && Valid() && entrySize >= old(entrySize) && (data != [] ==> entrySize > 0)
        invariant Ran(start, events, data[..pos]) && status == old(status)
        invariant entryBuf == old(entryBuf) || fresh(entryBuf)
      {
        var ok := ReadByte(data, pos, start, events);
        if !ok {
          return;
        }
        pos := pos + 1;
      }
      assert data[..pos] == data;
    }

    // One turn of the loop of csv_parse.
    method ReadByte(data: seq<Byte>, pos: nat, ghost start: Core, ghost events: seq<Event>) returns (ok: bool)
      requires Valid() && pos < |data| && entrySize > 0 && Ran(start, events, data[..pos])
      modifies this`Events, this`pstate, this`entryPos, this`quoted, this`spaces, this`status
      modifies this`entryBuf, this`entrySize, this`requests, entryBuf
      ensures Valid() && entrySize >= old(entrySize) && (entryBuf == old(entryBuf) || fresh(entryBuf))
      ensures ok ==> Ran(start, events, data[..pos + 1]) && status == old(status)
      ensures !ok ==> Ran(start, events, data[..pos]) && Stopped(data[pos])
    {
      ok := MakeRoom();
      if ok {
        RanMore(cfg, start, events, data, pos, State(), Events);
        ok := ParseByte(data[pos]);
      }
    }

    method MakeRoom() returns (ok: bool)
      requires Valid() && entrySize > 0
      modifies this`status, this`entryBuf, this`entrySize, this`requests
      ensures Valid() && State() == old(State()) && (entryBuf == old(entryBuf) || fresh(entryBuf))
      ensures entrySize >= old(entrySize)
      ensures ok ==> Roomy() && status == old(status)
      ensures !ok ==> OutOfRoom() && (status == ETooBig ==> blkSize == 0 || entrySize == SIZE_MAX)
    {
      ok := true;
      if entryPos == Usable() {
        ghost var refused;
        ok, refused := IncreaseBuffer();
      }
    }

    ghost predicate Ran(start: Core, events: seq<Event>, text: seq<Byte>)
      requires entryPos <= entryBuf.Length
      reads this, entryBuf
    {
      RanTo(cfg, start, events, text, State(), Events)
    }

    // Submits what is left of a row.
    method EndRow()
      requires Valid()
      modifies this`Events, this`pstate, this`entryPos, this`quoted, this`spaces, entryBuf
      ensures Sized()
      ensures Events == old(Events) + if old(pstate) == RowNotBegun then []
        else [FieldOf(cfg, old(quoted), old(spaces), Closed(old(State()))), Event.Row(-1)]
    {
      if pstate == FieldMightHaveEnded {
        CloseQuote();
      }
      if pstate != RowNotBegun {
        SubmitField();
        SubmitRow(-1);
      }
    }

    // csv_fini
    method Fini() returns (ok: bool)
      requires Valid()
      modifies this`Events, this`pstate, this`entryPos, this`quoted, this`spaces, this`status, entryBuf
      ensures Valid() && (ok <==> Finish(cfg, old(State())).Some?)
      ensures !ok ==> status == EParse && State() == old(State()) && Events == old(Events)
      ensures ok ==> status == Success && State() == START && Events == old(Events) + Finish(cfg, old(State())).value
    {
      if pstate == FieldBegun && quoted && cfg.strict && cfg.strictFini {
        status := EParse;
        return false;
      }
      EndRow();
      spaces, quoted, entryPos, status := 0, false, 0, Success;
      pstate := RowNotBegun;
      assert entryBuf[..0] == [];
      ok := true;
    }

    // Why c is not read: no room for it, or a strict error.
    ghost predicate Stopped(c: Byte)
      requires entryPos <= entryBuf.Length
      reads this, entryBuf
    {
      || (status == ENoMem && OutOfRoom())
      || (status == ETooBig && (blkSize == 0 || entrySize == SIZE_MAX) && OutOfRoom())
      || (status == EParse && cfg.strict && StepByte(cfg, State(), c).StrictError?)
    }
  }

  // From start and the callbacks before, a run over text leads to now and all.
  ghost predicate RanTo(cfg: Config, start: Core, before: seq<Event>, text: seq<Byte>, now: Core, all: seq<Event>) {
    var r := Fold(cfg, start, text);
    r.core == now && r.used == |text| && !r.failed && all == before + r.events
  }

  lemma RanMore(cfg: Config, start: Core, before: seq<Event>, data: seq<Byte>, pos: nat, now: Core, all: seq<Event>)
    requires pos < |data| && RanTo(cfg, start, before, data[..pos], now, all)
    ensures var s := StepByte(cfg, now, data[pos]);
      s.Next? ==> RanTo(cfg, start, before, data[..pos + 1], s.core, all + s.events)
  {
    assert data[..pos + 1] == data[..pos] + [data[pos]];
    FoldAppend(cfg, start, data[..pos], [data[pos]]);
    if StepByte(cfg, now, data[pos]).Next? {
      RT.RunsOne(cfg, now, data[pos]);
    }
  }
}

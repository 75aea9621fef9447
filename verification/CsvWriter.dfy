// csv_write and csv_fwrite of lib/libcsv.c, and the row writer of lib/csv.c.

module CsvWriter {
  import opened Wrappers
  import opened Csv
  import opened CsvRoundTrip
  import CsvParser

  function Min(a: nat, b: nat): nat {
    if a < b then a else b
  }

  lemma {:induction false} EscapeMore(q: Byte, text: seq<Byte>, i: nat)
    requires i < |text|
    ensures Escape(q, text[..i + 1]) == Escape(q, text[..i]) + if text[i] == q then [q, q] else [text[i]]
    decreases i
  {
    var s := text[..i + 1];
    if i == 0 {
      assert s[1..] == [] && text[..0] == [];
      assert Escape(q, s[1..]) == [];
    } else {
      EscapeMore(q, text[1..], i - 1);
      assert s[1..] == text[1..][..i] && text[..i][1..] == text[1..][..i - 1];
    }
  }

  // The text so far is in dest as far as there is room; at and chars count what was
  // stored and what there was to store.
  ghost predicate Filled(now: seq<Byte>, before: seq<Byte>, size: nat, text: seq<Byte>, at: nat, chars: nat) {
    && |now| == |before| && at == Min(size, |text|) <= |now| && chars == Min(CsvParser.SIZE_MAX, |text|)
    && now[..at] == text[..at] && now[at..] == before[at..]
  }

  method Put(dest: array<Byte>, size: nat, at: nat, chars: nat, b: Byte, ghost before: seq<Byte>, ghost text: seq<Byte>)
    returns (at': nat, chars': nat)
    requires size <= dest.Length && size <= CsvParser.SIZE_MAX && Filled(dest[..], before, size, text, at, chars)
    modifies dest
    ensures Filled(dest[..], before, size, text + [b], at', chars')
  {
    at', chars' := at, chars;
    if size > chars {
      dest[at] := b;
      at' := at + 1;
      assert dest[..at] == text[..at];
      assert dest[at'..] == before[at..][1..];
    }
    if chars < CsvParser.SIZE_MAX {
      chars' := chars + 1;
    }
  }

  // csv_write: as much of the quoted text as fits, and its whole length. A dest that is
  // NULL is an array of length 0 here.
  method Write(dest: array<Byte>, destSize: nat, src: Option<seq<Byte>>) returns (chars: nat)
    requires destSize <= CsvParser.SIZE_MAX && (dest.Length > 0 ==> destSize <= dest.Length)
    modifies dest
    ensures src.None? ==> chars == 0 && dest[..] == old(dest[..])
    ensures src.Some? ==> chars == Min(0xffff_ffff_ffff_ffff, |Quoted(QUOTE, src.value)|)
    ensures src.Some? ==> var n := Min(Min(destSize, dest.Length), |Quoted(QUOTE, src.value)|);
      dest[..n] == Quoted(QUOTE, src.value)[..n] && dest[n..] == old(dest[n..])
  {
    if src.None? {
      return 0;
    }
    var size := if dest.Length == 0 then 0 else destSize;
    ghost var before := dest[..];
    var csrc, i, at := src.value, 0, 0;
    chars := 0;
    at, chars := Put(dest, size, at, chars, QUOTE, before, []);
    while i < |csrc|
      invariant 0 <= i <= |csrc|
      invariant Filled(dest[..], before, size, [QUOTE] + Escape(QUOTE, csrc[..i]), at, chars)
    {
      ghost var text := [QUOTE] + Escape(QUOTE, csrc[..i]);
      EscapeMore(QUOTE, csrc, i);
      if csrc[i] == QUOTE {
        at, chars := Put(dest, size, at, chars, QUOTE, before, text);
        text := text + [QUOTE];
      }
      at, chars := Put(dest, size, at, chars, csrc[i], before, text);
      i := i + 1;
      assert [QUOTE] + Escape(QUOTE, csrc[..i]) == text + [csrc[i - 1]];
    }
    assert csrc[..i] == csrc;
    at, chars := Put(dest, size, at, chars, QUOTE, before, [QUOTE] + Escape(QUOTE, csrc));
  }

  // A stdio stream open for writing.
  class File {
    var Out: seq<Byte>
    var Failed: bool

    constructor ()
      ensures Out == [] && !Failed
    {
      Out, Failed := [], false;
    }

    method Fputc(c: Byte) returns (ok: bool)
      modifies this
      ensures Out == old(Out) + (if ok then [c] else []) && Failed == (old(Failed) || !ok)
    {
      ok := *;
      if ok {
        Out := Out + [c];
      } else {
        Failed := true;
      }
    }

    // One character of the text, or two. n characters of the quoted text are written.
    method WriteByte(src: seq<Byte>, i: nat, ghost before: seq<Byte>) returns (ok: bool, ghost n: nat)
      requires i < |src| && Out == before + ([QUOTE] + Escape(QUOTE, src[..i]))
      modifies this
      ensures Failed == (old(Failed) || !ok)
      ensures ok ==> Out == before + ([QUOTE] + Escape(QUOTE, src[..i + 1]))
      ensures !ok ==> n < |Quoted(QUOTE, src)| && Out == before + Quoted(QUOTE, src)[..n]
    {
      ghost var text, all := [QUOTE] + Escape(QUOTE, src[..i]), Quoted(QUOTE, src);
      EscapeMore(QUOTE, src, i);
      Unfinished(src, i, text);
      n := |text|;
      if src[i] == QUOTE {
        ok := Fputc(QUOTE);
        if !ok {
          return;
        }
        n := n + 1;
      }
      ok := Fputc(src[i]);
    }

    // csv_fwrite: the quoted text, or the n characters of it before the one that could
    // not be written.
    method FWrite(src: seq<Byte>) returns (ok: bool, ghost n: nat)
      modifies this
      ensures Failed == (old(Failed) || !ok)
      ensures n <= |Quoted(QUOTE, src)| && (ok <==> n == |Quoted(QUOTE, src)|)
      ensures Out == old(Out) + Quoted(QUOTE, src)[..n]
    {
      ghost var before, all := Out, Quoted(QUOTE, src);
      n := 0;
      ok := Fputc(QUOTE);
      if !ok {
        return;
      }
      var i := 0;
      while i < |src|
        invariant 0 <= i <= |src| && Failed == old(Failed)
        invariant Out == before + ([QUOTE] + Escape(QUOTE, src[..i]))
      {
        ok, n := WriteByte(src, i, before);
        if !ok {
          return;
        }
        i := i + 1;
      }
      assert src[..i] == src;
      ok := Fputc(QUOTE);
      n := if ok then |all| else |all| - 1;
      assert all[..n] == [QUOTE] + Escape(QUOTE, src) + if ok then [QUOTE] else [];
    }

    // So far start and written have been written, and text should have been.
    ghost predicate Partly(start: seq<Byte>, written: seq<Byte>, text: seq<Byte>)
      reads this
    {
      Out == start + written && Within(written, text) && (!Failed ==> written == text)
    }

    method PutField(field: seq<Byte>, ghost start: seq<Byte>, ghost written: seq<Byte>, ghost text: seq<Byte>)
      returns (ghost w: seq<Byte>)
      requires Partly(start, written, text)
      modifies this
      ensures Partly(start, w, text + Quoted(QUOTE, field)) && (!Failed ==> !old(Failed))
    {
      ghost var n, ok;
      ok, n := FWrite(field);
      ghost var more := Quoted(QUOTE, field)[..n];
      assert ok ==> more == Quoted(QUOTE, field);
      w := written + more;
      assert start + written + more == start + w;
      WithinPrefix(Quoted(QUOTE, field), n);
      WithinConcat(written, text, more, Quoted(QUOTE, field));
    }

    method PutByte(c: Byte, ghost start: seq<Byte>, ghost written: seq<Byte>, ghost text: seq<Byte>)
      returns (ghost w: seq<Byte>)
      requires Partly(start, written, text)
      modifies this
      ensures Partly(start, w, text + [c]) && (!Failed ==> !old(Failed))
    {
      var ok := Fputc(c);
      ghost var more := if ok then [c] else [];
      w := written + more;
      assert start + written + more == start + w;
      WithinConcat(written, text, more, [c]);
    }

    // Field i, and the comma if another one follows.
    method PutCell(fields: Row, i: nat, ghost start: seq<Byte>, ghost written: seq<Byte>) returns (ghost w: seq<Byte>)
      requires i < |fields| && Partly(start, written, Cells(fields, i))
      modifies this
      ensures Partly(start, w, Cells(fields, i + 1)) && (!Failed ==> !old(Failed))
    {
      w := PutField(fields[i], start, written, Cells(fields, i));
      if i + 1 < |fields| {
        w := PutByte(COMMA, start, w, Cells(fields, i) + Quoted(QUOTE, fields[i]));
      }
      CellsNext(fields, i);
    }

    // csv_write_fn: one row. It goes on when a character could not be written, and
    // what it writes then is the row with some characters left out.
    method WriteRow(fields: Row) returns (ghost written: seq<Byte>)
      modifies this
      ensures Out == old(Out) + written && Within(written, RowText(DEFAULT, fields, [LF]))
      ensures !Failed ==> !old(Failed) && written == RowText(DEFAULT, fields, [LF])
    {
      ghost var start := Out;
      var i := 0;
      written := [];
      while i < |fields|
        invariant 0 <= i <= |fields| && Partly(start, written, Cells(fields, i)) && (!Failed ==> !old(Failed))
      {
        written := PutCell(fields, i, start, written);
        i := i + 1;
      }
      written := PutByte(LF, start, written, Cells(fields, i));
      CellsAreRow(fields);
    }
  }

  // The text of the first n fields, with the commas that follow them.
  ghost function Cells(fields: Row, n: nat): seq<Byte>
    requires n <= |fields|
  {
    if n == 0 then []
    else if n == |fields| then Cells(fields, n - 1) + Quoted(QUOTE, fields[n - 1])
    else Cells(fields, n - 1) + Quoted(QUOTE, fields[n - 1]) + [COMMA]
  }

  lemma CellsNext(fields: Row, i: nat)
    requires i < |fields|
    ensures var text := Cells(fields, i) + Quoted(QUOTE, fields[i]);
            Cells(fields, i + 1) == if i + 1 == |fields| then text else text + [COMMA]
  {}

  lemma Regroup(a: seq<Byte>, b: seq<Byte>, c: seq<Byte>, d: seq<Byte>)
    ensures a + (b + c + d) == (a + b + c) + d && a + (b + c) == (a + b) + c
  {}

  lemma RestOfRow(fields: Row, i: nat)
    requires i < |fields|
    ensures RowText(DEFAULT, fields[i..], [LF]) ==
      if i + 1 == |fields| then Quoted(QUOTE, fields[i]) + [LF]
      else Quoted(QUOTE, fields[i]) + [COMMA] + RowText(DEFAULT, fields[i + 1..], [LF])
  {
    assert fields[i..][1..] == fields[i + 1..];
  }

  lemma {:induction false} CellsAndRest(fields: Row, i: nat)
    requires i < |fields|
    ensures Cells(fields, i) + RowText(DEFAULT, fields[i..], [LF]) == Cells(fields, |fields|) + [LF]
    decreases |fields| - i
  {
    RestOfRow(fields, i);
    CellsNext(fields, i);
    if i + 1 == |fields| {
      Regroup(Cells(fields, i), Quoted(QUOTE, fields[i]), [LF], []);
    } else {
      Regroup(Cells(fields, i), Quoted(QUOTE, fields[i]), [COMMA], RowText(DEFAULT, fields[i + 1..], [LF]));
      CellsAndRest(fields, i + 1);
    }
  }

  lemma FromStart(fields: Row)
    ensures Cells(fields, 0) + RowText(DEFAULT, fields[0..], [LF]) == RowText(DEFAULT, fields, [LF])
  {
    assert fields[0..] == fields;
  }

  lemma CellsAreRow(fields: Row)
    ensures Cells(fields, |fields|) + [LF] == RowText(DEFAULT, fields, [LF])
  {
    FromStart(fields);
    if fields == [] {
    } else {
      CellsAndRest(fields, 0);
    }
  }

  // a is b with some characters left out.
  ghost predicate Within(a: seq<Byte>, b: seq<Byte>)
    decreases |b|
  {
    if a == [] then true
    else if b == [] then false
    else (a[0] == b[0] && Within(a[1..], b[1..])) || Within(a, b[1..])
  }

  lemma {:induction false} WithinConcat(a: seq<Byte>, b: seq<Byte>, c: seq<Byte>, d: seq<Byte>)
    requires Within(a, b) && Within(c, d)
    ensures Within(a + c, b + d)
    decreases |b|
  {
    if b == [] {
      assert a + c == c && b + d == d;
    } else {
      assert (b + d)[1..] == b[1..] + d;
      if a == [] {
        WithinConcat(a, b[1..], c, d);
        assert a + c == c;
      } else if a[0] == b[0] && Within(a[1..], b[1..]) {
        WithinConcat(a[1..], b[1..], c, d);
        assert (a + c)[1..] == a[1..] + c;
      } else {
        WithinConcat(a, b[1..], c, d);
      }
    }
  }

  lemma {:induction false} WithinPrefix(b: seq<Byte>, n: nat)
    requires n <= |b|
    ensures Within(b[..n], b)
    decreases |b|
  {
    if n == 0 {
    } else {
      WithinPrefix(b[1..], n - 1);
      assert b[..n][1..] == b[1..][..n - 1];
    }
  }

  // What of the quoted text comes after its first i characters.
  lemma Unfinished(src: seq<Byte>, i: nat, text: seq<Byte>)
    requires i < |src| && text == [QUOTE] + Escape(QUOTE, src[..i])
    ensures var c := if src[i] == QUOTE then [QUOTE, QUOTE] else [src[i]];
      text + c <= Quoted(QUOTE, src) && |text + c| < |Quoted(QUOTE, src)|
  {
    EscapeMore(QUOTE, src, i);
    EscapePrefix(QUOTE, src, i + 1);
  }

  lemma {:induction false} EscapePrefix(q: Byte, text: seq<Byte>, i: nat)
    requires i <= |text|
    ensures Escape(q, text[..i]) <= Escape(q, text)
    decreases |text| - i
  {
    if i == |text| {
      assert text[..i] == text;
    } else {
      EscapeMore(q, text, i);
      EscapePrefix(q, text, i + 1);
    }
  }
}

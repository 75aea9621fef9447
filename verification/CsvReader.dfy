// The reader of lib/csv.c: rows come out of the parser's callbacks into a linked
// queue, which is refilled from the file 256 bytes at a time.

module CsvReader {
  import opened Wrappers
  import opened Csv
  import opened CsvRoundTrip
  import opened CsvParser

  const BUFFER_SIZE: nat := 256

  class RowNode {
    var Next: RowNode?
    const Values: Row

    constructor (values: Row)
      ensures Next == null && Values == values
    {
      Next := null;
      Values := values;
    }
  }

  ghost function ValuesOf(nodes: seq<RowNode>): (r: seq<Row>)
    ensures |r| == |nodes|
  {
    if nodes == [] then [] else [nodes[0].Values] + ValuesOf(nodes[1..])
  }

  lemma {:induction false} ValuesMore(nodes: seq<RowNode>, n: RowNode)
    ensures ValuesOf(nodes + [n]) == ValuesOf(nodes) + [n.Values]
    decreases |nodes|
  {
    if nodes == [] {
      assert ([n])[1..] == [];
    } else {
      ValuesMore(nodes[1..], n);
      assert (nodes + [n])[1..] == nodes[1..] + [n];
    }
  }

  // The Head and Tail of a csv_t.
  class RowQueue {
    var Head: RowNode?
    var Tail: RowNode?
    ghost var Nodes: seq<RowNode>
    ghost var Repr: set<RowNode>

    ghost predicate Valid()
      reads this, Repr
    {
      && (forall n | n in Nodes :: n in Repr)
      && (Nodes == [] ==> Head == null && Tail == null)
      && (Nodes != [] ==> Head == Nodes[0] && Tail == Nodes[|Nodes| - 1] && Nodes[|Nodes| - 1].Next == null)
      && (forall i :: 0 <= i < |Nodes| - 1 ==> Nodes[i].Next == Nodes[i + 1])
      && (forall i, j :: 0 <= i < j < |Nodes| ==> Nodes[i] != Nodes[j])
    }

    // The rows that wait, first one first.
    ghost function Contents(): seq<Row>
      reads this
    {
      ValuesOf(Nodes)
    }

    constructor ()
      ensures Valid() && Contents() == [] && Nodes == [] && Repr == {}
    {
      Head, Tail, Nodes, Repr := null, null, [], {};
    }

    // row_fn
    method Append(values: Row)
      requires Valid()
      modifies this, Repr
      ensures Valid() && Contents() == old(Contents()) + [values]
      ensures fresh(Repr - old(Repr))
    {
      var row := new RowNode(values);
      if Tail != null {
        Tail.Next := row;
      } else {
        Head := row;
      }
      Tail := row;
      ValuesMore(Nodes, row);
      Nodes, Repr := Nodes + [row], Repr + {row};
    }

    method Take() returns (values: Row)
      requires Valid() && Nodes != []
      modifies this
      ensures Valid() && old(Contents()) == [values] + Contents()
      ensures Nodes == old(Nodes)[1..] && Repr == old(Repr)
    {
      var row := Head;
      Head := row.Next;
      if row.Next == null {
        Tail := null;
      }
      values := row.Values;
      Nodes := Nodes[1..];
    }
  }

  // A csv_t open for reading.
  class CsvFile {
    const content: seq<Byte>
    const queue: RowQueue
    const parser: Parser
    var offset: nat
    var row: Row
    ghost var Seen: seq<Byte>         // what the parser has read
    ghost var Delivered: seq<Row>     // what Read has returned

    ghost predicate Shaped()
      reads this, queue, queue.Repr, parser, parser.entryBuf
    {
      && queue.Valid() && parser.Valid() && parser.cfg == DEFAULT && parser.blkSize == MEM_BLK_SIZE
      && offset <= |content|
    }

    // As long as all memory is there, the parser reads on.
    ghost predicate Unhampered()
      reads parser
    {
      parser.EverythingGranted() && |content| < 0x8000_0000_0000_0000 ==> parser.status == Success
    }

    ghost predicate Valid()
      reads this, queue, queue.Repr, parser, parser.entryBuf
    {
      && Shaped()
      && Tracks(Seen, parser.State(), parser.Events, Rows(Delivered + queue.Contents(), row))
      && Kept(Seen, content[..offset], parser.status == Success, parser.entrySize)
      && Unhampered()
    }

    constructor (content: seq<Byte>, grants: (nat, nat) -> bool)
      ensures Valid() && this.content == content && Delivered == [] && Seen == [] && queue.Nodes == []
      ensures fresh(queue) && fresh(parser) && fresh(parser.entryBuf) && queue.Repr == {}
      ensures parser.grants == grants && parser.entrySize == 0 && parser.status == Success
    {
      this.content := content;
      offset, row, Delivered, Seen := 0, [], [], [];
      queue := new RowQueue();
      parser := new Parser(DEFAULT, grants);
    }

    // The callbacks field_fn and row_fn.
    method Callback(e: Event, ghost taken: seq<Row>)
      requires queue.Valid()
      modifies this`row, queue, queue.Repr
      ensures queue.Valid() && Rows(taken + queue.Contents(), row) == CollectOne(old(Rows(taken + queue.Contents(), row)), e)
      ensures fresh(queue.Repr - old(queue.Repr))
    {
      match e
      case Field(text) =>
        row := row + [if text.Some? then text.value else []];
      case Row(_) =>
        ghost var before := queue.Contents();
        queue.Append(row);
        assert taken + (before + [row]) == taken + before + [row];
        row := [];
    }

    method Callbacks(events: seq<Event>, ghost taken: seq<Row>)
      requires queue.Valid()
      modifies this`row, queue, queue.Repr
      ensures queue.Valid() && Rows(taken + queue.Contents(), row) == Collect(old(Rows(taken + queue.Contents(), row)), events)
      ensures fresh(queue.Repr - old(queue.Repr))
    {
      var i := 0;
      while i < |events|
        invariant 0 <= i <= |events| && queue.Valid()
        invariant fresh(queue.Repr - old(queue.Repr))
        invariant Collect(Rows(taken + queue.Contents(), row), events[i..])
               == Collect(old(Rows(taken + queue.Contents(), row)), events)
      {
        assert events[i..][0] == events[i] && events[i..][1..] == events[i + 1..];
        Callback(events[i], taken);
        i := i + 1;
      }
      assert events[i..] == [];
    }

    // csv_parse on the next bytes of the file. It reads all of them unless the entry
    // buffer is full and cannot grow; the default options know no strict errors.
    method ParseChunk(size: nat) returns (pos: nat, events: seq<Event>)
      requires Valid() && offset + size <= |content|
      modifies parser, parser.entryBuf
      ensures parser.Valid() && (parser.entryBuf == old(parser.entryBuf) || fresh(parser.entryBuf))
      ensures pos <= size && Tracks(Seen + Part(content, offset, pos), parser.State(), parser.Events,
                                    Collect(RowsOf(DEFAULT, Seen), events))
      ensures Kept(Seen + Part(content, offset, pos), content[..offset + size], parser.status == Success, parser.entrySize)
      ensures pos == size ==> parser.status == old(parser.status)
      ensures pos < size ==> parser.OutOfRoom()
      ensures parser.blkSize == MEM_BLK_SIZE && Unhampered()
    {
      ghost var success, entrySize := parser.status == Success, parser.entrySize;
      pos, events := ParseBytes(size);
      KeptMore(Seen, content, offset, size, pos, success, entrySize, parser.status == Success, parser.entrySize);
      if pos < size {
        Hampered(Seen + Part(content, offset, pos), content[..offset + size]);
      }
    }

    // Only a file that is too large runs out of room when all memory is there.
    lemma Hampered(seen: seq<Byte>, bytes: seq<Byte>)
      requires parser.Valid() && parser.blkSize == MEM_BLK_SIZE && parser.OutOfRoom()
      requires ReadTo(seen, parser.State(), parser.Events) && |seen| <= |bytes| <= |content|
      ensures Unhampered()
    {
      EntryFits(seen, parser.State(), parser.Events);
    }

    method ParseBytes(size: nat) returns (pos: nat, events: seq<Event>)
      requires Valid() && offset + size <= |content|
      modifies parser, parser.entryBuf
      ensures parser.Valid() && (parser.entryBuf == old(parser.entryBuf) || fresh(parser.entryBuf))
      ensures pos <= size && Tracks(Seen + Part(content, offset, pos), parser.State(), parser.Events,
                                    Collect(RowsOf(DEFAULT, Seen), events))
      ensures pos == size ==> parser.status == old(parser.status)
      ensures pos < size ==> parser.OutOfRoom()
      ensures parser.entrySize >= old(parser.entrySize) && (pos > 0 ==> parser.entrySize > 0)
      ensures parser.blkSize == MEM_BLK_SIZE
    {
      var seen, buffer := |parser.Events|, content[offset..offset + size];
      ghost var before, start := parser.Events, parser.State();
      pos := parser.Parse(buffer);
      events := parser.Events[seen..];
      PartOfChunk(content, offset, size, pos);
      ChunkRead(Seen, Part(content, offset, pos), start, before, parser.State(), parser.Events);
    }

    method Chunk(size: nat) returns (read: nat)
      requires Valid() && offset + size <= |content|
      modifies this`offset, this`row, this`Seen, queue, queue.Repr
      modifies parser, parser.entryBuf
      ensures Valid() && offset == old(offset) + size && read <= size
      ensures Seen == old(Seen) + Part(content, old(offset), read)
      ensures read == size ==> parser.status == old(parser.status)
      ensures read < size ==> parser.OutOfRoom()
      ensures fresh(queue.Repr - old(queue.Repr))
      ensures parser.entryBuf == old(parser.entryBuf) || fresh(parser.entryBuf)
    {
      var events;
      read, events := ParseChunk(size);
      Advance(size, Seen + Part(content, offset, read), events);
    }

    // Makes the callbacks; seen is what the parser has read by now.
    method Advance(size: nat, ghost seen: seq<Byte>, events: seq<Event>)
      requires Shaped() && offset + size <= |content|
      requires RowsOf(DEFAULT, Seen) == Rows(Delivered + queue.Contents(), row)
      requires Tracks(seen, parser.State(), parser.Events, Collect(RowsOf(DEFAULT, Seen), events))
      requires Kept(seen, content[..offset + size], parser.status == Success, parser.entrySize) && Unhampered()
      modifies this`offset, this`row, this`Seen, queue, queue.Repr
      ensures Valid() && offset == old(offset) + size && Seen == seen
      ensures fresh(queue.Repr - old(queue.Repr))
    {
      ghost var rows := RowsOf(DEFAULT, Seen);
      MakeCallbacks(events);
      assert Rows(Delivered + queue.Contents(), row) == Collect(rows, events);
      SkipTo(size, seen);
    }

    method SkipTo(size: nat, ghost seen: seq<Byte>)
      requires Shaped() && offset + size <= |content| && Unhampered()
      requires Tracks(seen, parser.State(), parser.Events, Rows(Delivered + queue.Contents(), row))
      requires Kept(seen, content[..offset + size], parser.status == Success, parser.entrySize)
      modifies this`offset, this`Seen
      ensures Valid() && offset == old(offset) + size && Seen == seen
    {
      Seen := seen;
      offset := offset + size;
    }

    method MakeCallbacks(events: seq<Event>)
      requires Shaped()
      modifies this`row, queue, queue.Repr
      ensures Shaped() && parser.State() == old(parser.State())
      ensures Rows(Delivered + queue.Contents(), row) == Collect(old(Rows(Delivered + queue.Contents(), row)), events)
      ensures fresh(queue.Repr - old(queue.Repr))
    {
      ghost var core := parser.State();
      Callbacks(events, Delivered);
      assert parser.Valid() && parser.State() == core;
    }

    // One fread and one csv_parse. The next fread goes on behind the chunk, so what
    // csv_parse has left is lost; read is what it has not.
    method Fill() returns (size: nat, ghost read: nat)
      requires Valid()
      modifies this`offset, this`row, this`Seen, queue, queue.Repr
      modifies parser, parser.entryBuf
      ensures Valid() && size == old(if |content| - offset < 256 then |content| - offset else 256)
      ensures offset == old(offset) + size && read <= size
      ensures Seen == old(Seen) + Part(content, old(offset), read)
      ensures read == size ==> parser.status == old(parser.status)
      ensures read < size ==> parser.OutOfRoom()
      ensures size == 0 ==> queue.Contents() == old(queue.Contents())
      ensures fresh(queue.Repr - old(queue.Repr))
      ensures parser.entryBuf == old(parser.entryBuf) || fresh(parser.entryBuf)
    {
      size, read := if |content| - offset < BUFFER_SIZE then |content| - offset else BUFFER_SIZE, 0;
      if size == 0 {
        assert Seen == Seen + Part(content, offset, 0);
      } else {
        read := Chunk(size);
      }
    }

    // Fills the queue until it has a row, or there is nothing more to read.
    method Await() returns (found: bool)
      requires Valid()
      modifies this`offset, this`row, this`Seen, queue, queue.Repr
      modifies parser, parser.entryBuf
      ensures Valid() && fresh(queue.Repr - old(queue.Repr))
      ensures parser.entryBuf == old(parser.entryBuf) || fresh(parser.entryBuf)
      ensures found <==> queue.Head != null
      ensures old(Seen) <= Seen && (found || offset == |content|)
    {
      while queue.Head == null
        invariant Valid() && fresh(queue.Repr - old(queue.Repr)) && old(Seen) <= Seen
        invariant parser.entryBuf == old(parser.entryBuf) || fresh(parser.entryBuf)
        decreases |content| - offset
      {
        var size, _ := Fill();
        if size == 0 {
          return false;
        }
      }
      found := true;
    }

    // csv_read_fn: the next row of what the parser has read, or None at the end.
    method Read() returns (r: Option<Row>)
      requires Valid()
      modifies this, queue, queue.Repr, parser, parser.entryBuf
      ensures Valid() && fresh(queue.Repr - old(queue.Repr))
      ensures parser.entryBuf == old(parser.entryBuf) || fresh(parser.entryBuf)
      ensures Delivered == old(Delivered) + if r.Some? then [r.value] else []
      ensures old(Seen) <= Seen && Delivered <= RowsOf(DEFAULT, Seen).complete
      ensures r.None? ==> offset == |content| && Delivered == RowsOf(DEFAULT, Seen).complete
      ensures parser.status == Success ==> Delivered <= RowsOf(DEFAULT, content).complete
      ensures parser.status == Success && r.None? ==> Delivered == RowsOf(DEFAULT, content).complete
      ensures parser.EverythingGranted() && |content| < 0x8000_0000_0000_0000 ==>
        parser.status == Success && (r.None? ==> Delivered == RowsOf(DEFAULT, content).complete)
    {
      var found := Await();
      if !found {
        AllRead();
        return None;
      }
      var values := Deliver();
      SomeRead();
      r := Some(values);
    }

    method Deliver() returns (values: Row)
      requires Valid() && queue.Head != null
      modifies this`Delivered, queue
      ensures Valid() && Delivered == old(Delivered) + [values] && queue.Repr == old(queue.Repr)
    {
      ghost var waiting := queue.Contents();
      values := queue.Take();
      assert Delivered + waiting == Delivered + [values] + queue.Contents();
      Delivered := Delivered + [values];
    }

    lemma AllRead()
      requires Valid() && offset == |content| && queue.Head == null
      ensures Delivered == RowsOf(DEFAULT, Seen).complete
      ensures parser.status == Success ==> Seen == content
    {
      assert content[..offset] == content && queue.Nodes == [];
      assert Delivered + [] == Delivered;
    }

    lemma SomeRead()
      requires Valid()
      ensures Delivered <= RowsOf(DEFAULT, Seen).complete
      ensures parser.status == Success ==> Delivered <= RowsOf(DEFAULT, content).complete
    {
      assert Delivered <= Delivered + queue.Contents();
      if parser.status == Success {
        RowsGrow(content, offset);
      }
    }
  }

  // With all memory there, reading until there is no more row gives all complete rows.
  method ReadThrough(content: seq<Byte>) returns (rows: seq<Row>)
    requires |content| < 0x8000_0000_0000_0000
    ensures rows == RowsOf(DEFAULT, content).complete
  {
    var file := new CsvFile(content, (k, n) => true);
    rows := [];
    while true
      invariant file.Valid() && file.content == content && file.parser.EverythingGranted() && rows == file.Delivered
      invariant rows <= RowsOf(DEFAULT, content).complete
      invariant fresh(file) && fresh(file.queue) && fresh(file.queue.Repr) && fresh(file.parser) && fresh(file.parser.entryBuf)
      decreases |RowsOf(DEFAULT, content).complete| - |rows|
    {
      var r := file.Read();
      if r.None? {
        return;
      }
      rows := rows + [r.value];
    }
  }

  // A file with the row a, complete with its line end, of which nothing is delivered
  // because the parser gets no buffer.
  method RowDropped() returns (file: CsvFile, r: Option<Row>)
    ensures file.content == [0x61, LF] && r == None && file.Delivered == []
    ensures RowsOf(DEFAULT, file.content).complete == [[[0x61]]]
  {
    file := new CsvFile([0x61, LF], (k, n) => false);
    r := file.Read();
    assert file.parser.NothingGranted();
    assert file.Seen == [];
    RowOfOneField();
  }

  // Reading on leaves the rows that are complete as they are.
  lemma RowsGrow(text: seq<Byte>, i: nat)
    requires i <= |text|
    ensures RowsOf(DEFAULT, text[..i]).complete <= RowsOf(DEFAULT, text).complete
  {
    var r := Fold(DEFAULT, START, text[..i]);
    assert text == text[..i] + text[i..];
    FoldAppend(DEFAULT, START, text[..i], text[i..]);
    if !r.failed {
      var more := Fold(DEFAULT, r.core, text[i..]).events;
      CollectAppend(Rows([], []), r.events, more);
      CollectGrows(Collect(Rows([], []), r.events), more);
    }
  }

  lemma {:induction false} CollectGrows(rows: Rows, events: seq<Event>)
    ensures rows.complete <= Collect(rows, events).complete
    decreases |events|
  {
    if events == [] {
    } else {
      CollectGrows(CollectOne(rows, events[0]), events[1..]);
    }
  }

  // The n bytes of the file from offset on.
  ghost function Part(content: seq<Byte>, offset: nat, n: nat): seq<Byte> {
    if offset + n <= |content| then content[offset..offset + n] else []
  }

  lemma PartOfChunk(content: seq<Byte>, offset: nat, size: nat, n: nat)
    requires offset + size <= |content| && n <= size
    ensures content[offset..offset + size][..n] == Part(content, offset, n)
  {}

  // The rows that came out are those of the bytes that the parser has seen.
  ghost predicate Tracks(seen: seq<Byte>, now: Core, all: seq<Event>, rows: Rows) {
    ReadTo(seen, now, all) && RowsOf(DEFAULT, seen) == rows
  }

  // These are the bytes so far as long as the entry buffer could grow, and fewer from
  // then on.
  ghost predicate Kept(seen: seq<Byte>, bytes: seq<Byte>, success: bool, entrySize: nat) {
    && (if success then seen == bytes else |seen| < |bytes|)
    && (entrySize == 0 ==> seen == [])
  }

  // The entry is no longer than what has been read.
  lemma EntryFits(seen: seq<Byte>, now: Core, all: seq<Event>)
    requires ReadTo(seen, now, all)
    ensures |now.entry| <= |seen|
  {
    FoldKeeps(DEFAULT, START, seen);
    FoldUsed(DEFAULT, START, seen);
  }

  lemma KeptMore(seen: seq<Byte>, content: seq<Byte>, offset: nat, size: nat, pos: nat,
                 before: bool, entryBefore: nat, after: bool, entryAfter: nat)
    requires offset + size <= |content| && pos <= size && Kept(seen, content[..offset], before, entryBefore)
    requires after == (before && pos == size) && entryBefore <= entryAfter && (pos > 0 ==> entryAfter > 0)
    ensures Kept(seen + Part(content, offset, pos), content[..offset + size], after, entryAfter)
  {
    assert content[..offset] + content[offset..offset + size] == content[..offset + size];
  }

  // The bytes of text have led to this state and these callbacks.
  ghost predicate ReadTo(text: seq<Byte>, now: Core, all: seq<Event>) {
    Fold(DEFAULT, START, text) == Outcome(now, all, |text|, false)
  }

  // One more chunk: state, callbacks and rows of what has been read.
  lemma ChunkRead(text: seq<Byte>, chunk: seq<Byte>, start: Core, before: seq<Event>, now: Core, all: seq<Event>)
    requires ReadTo(text, start, before) && RanTo(DEFAULT, start, before, chunk, now, all)
    ensures ReadTo(text + chunk, now, all) && |before| <= |all|
    ensures RowsOf(DEFAULT, text + chunk) == Collect(RowsOf(DEFAULT, text), all[|before|..])
  {
    FoldAppend(DEFAULT, START, text, chunk);
    assert all == before + all[|before|..];
    CollectAppend(Rows([], []), before, all[|before|..]);
  }

  lemma OneField()
    ensures Fold(DEFAULT, START, [0x61, LF]).events == RowEvents([[0x61]], LF)
  {
    var a: seq<Byte> := [0x61];
    var m := Core(FieldBegun, false, 0, a);
    assert START.entry + a == a && DropLast(a, 0) == a;
    RunsOne(DEFAULT, START, 0x61);
    RunsOne(DEFAULT, m, LF);
    RunsThen(DEFAULT, START, a, m, [], [LF], START, [Field(Some(a)), Event.Row(LF)]);
    assert a + [LF] == [0x61, LF];
    OneFieldEvents(a);
  }

  lemma OneFieldEvents(a: seq<Byte>)
    ensures RowEvents([a], LF) == [Field(Some(a)), Event.Row(LF)]
  {
    assert [a][1..] == [];
    assert RowEvents([], LF) == [Event.Row(LF)];
  }

  lemma RowOfOneField()
    ensures RowsOf(DEFAULT, [0x61, LF]).complete == [[[0x61]]]
  {
    OneField();
    CollectRow([], [], [[0x61]], LF);
    assert [] + [[0x61]] == [[0x61]];
  }
}

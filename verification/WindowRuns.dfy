/** Whole runs of calls on a cursor window: the flat buffer refines a table of cells with an account of the space. */
module WindowRuns {
  import opened Memory
  import opened WindowLayout
  import opened CursorWindows

  datatype Call =
    | CallClear
    | CallSetNumColumns(columns: u32)
    | CallAllocRow
    | CallFreeLastRow
    | CallPut(row: nat, column: nat, v: Value)

  /** What a caller sees of a window, a table of cells, and what decides whether calls succeed: the bytes and the chunks
      in use. */
  datatype Cells = Cells(columns: nat, table: Table, used: nat, chunks: nat)

  ghost function Seen(w: CursorWindow): Cells
    reads w, w.data
    requires HEADER + CHUNK <= w.data.Length
  {
    Cells(w.shape.columns, w.table, w.FreeOffset(), |w.shape.chunks|)
  }

  const EMPTY: Cells := Cells(0, [], HEADER + CHUNK, 1)

  function HasCell(c: Cells, row: nat, column: nat): bool {
    row < |c.table| && column < c.columns
  }

  function DataSize(v: Value): nat {
    if v.Str? || v.Blob? then |v.bytes| else 0
  }

  /** Chunks in use once the next row has its slot. */
  function ChunksFor(c: Cells): nat {
    var n := |c.table|;
    if n > 0 && n % CHUNK_ROWS == 0 then n / CHUNK_ROWS + 1 else c.chunks
  }

  /** Bytes in use once the next row has its slot, and once it has its directory as well. */
  function SlotUse(c: Cells): nat {
    SlotEnd(c.used, |c.table|, c.chunks)
  }

  function RowUse(c: Cells): nat {
    Align(SlotUse(c)) + DirSize(c.columns)
  }

  /** The room of a row in numbers: a chunk of 404 bytes for every hundred rows, unless the chain has one, and 12 bytes
      a column, each on a 4-byte boundary; an empty window has 420 bytes in use. */
  lemma {:induction false} RowTakes(c: Cells)
    ensures EMPTY == Cells(0, [], 420, 1)
    ensures var n := |c.table|;
            && SlotUse(c) == (if n > 0 && n % 100 == 0 && n / 100 == c.chunks then c.used + (4 - c.used % 4) % 4 + 404
                              else c.used)
            && RowUse(c) == SlotUse(c) + (4 - SlotUse(c) % 4) % 4 + 12 * c.columns
            && ChunksFor(c) == if n > 0 && n % 100 == 0 then n / 100 + 1 else c.chunks
  {
    RoundsUp(c.used);
    RoundsUp(SlotUse(c));
    hide Align;
  }

  /** What a call on a writable window of `limit` bytes answers. */
  function Answer(c: Cells, call: Call, limit: nat): Status {
    match call
    case CallClear => OK
    case CallSetNumColumns(n) => if (c.columns > 0 || c.table != []) && c.columns != n then INVALID_OPERATION else OK
    case CallAllocRow => if SlotUse(c) > limit || RowUse(c) > limit then NO_MEMORY else OK
    case CallFreeLastRow => OK
    case CallPut(row, column, v) =>
      if !HasCell(c, row, column) then BAD_VALUE
      else if DataSize(v) > 0 && c.used + DataSize(v) > limit then NO_MEMORY
      else OK
  }

  /** What a call does when it succeeds. */
  function Effect(c: Cells, call: Call): Cells {
    match call
    case CallClear => EMPTY
    case CallSetNumColumns(n) => c.(columns := n)
    case CallAllocRow =>
      c.(table := c.table + [NullRow(c.columns)], used := RowUse(c), chunks := ChunksFor(c))
    case CallFreeLastRow => if c.table == [] then c else c.(table := c.table[..|c.table| - 1])
    case CallPut(row, column, v) =>
      if HasCell(c, row, column) && column < |c.table[row]| then
        c.(table := c.table[row := c.table[row][column := v]], used := c.used + DataSize(v))
      else c
  }

  /** A call that fails changes no cell; a row that finds no room for its directory keeps the room for its slot. */
  function After(c: Cells, call: Call, limit: nat): Cells {
    if Answer(c, call, limit) == OK then Effect(c, call)
    else if call.CallAllocRow? && SlotUse(c) <= limit then c.(used := SlotUse(c), chunks := ChunksFor(c))
    else c
  }

  /** What calls make of a writable window. */
  function Replay(c: Cells, calls: seq<Call>, limit: nat): Cells {
    if calls == [] then c else After(Replay(c, calls[..|calls| - 1], limit), calls[|calls| - 1], limit)
  }

  /** Sums of offsets and sizes stay below 2^32. */
  predicate InRange(call: Call, size: nat) {
    match call
    case CallSetNumColumns(n) => NoWrap(size, n)
    case CallPut(_, _, v) => size + DataSize(v) + 3 < TWO32
    case _ => true
  }

  /** Any call is answered, and has the effect, that table and space say; a read-only window refuses it. */
  method Perform(w: CursorWindow, call: Call) returns (status: Status)
    requires w.Valid() && HEADER + CHUNK <= w.data.Length && InRange(call, w.data.Length)
    modifies w, w.data
    ensures w.Valid()
    ensures status == if w.mReadOnly then INVALID_OPERATION else Answer(old(Seen(w)), call, w.data.Length)
    ensures Seen(w) == if w.mReadOnly then old(Seen(w)) else After(old(Seen(w)), call, w.data.Length)
  {
    w.SizeFits();
    hide Represents, Align, SlotEnd, U32;
    match call {
      case CallClear => status := w.Clear();
      case CallSetNumColumns(n) => status := w.SetNumColumns(n);
      case CallAllocRow => status := w.AllocRow();
      case CallFreeLastRow => status := w.FreeLastRow();
      case CallPut(row, column, v) => status := Put(w, row, column, v);
    }
  }

  method Put(w: CursorWindow, row: nat, column: nat, v: Value) returns (status: Status)
    requires w.Valid() && HEADER + CHUNK <= w.data.Length && InRange(CallPut(row, column, v), w.data.Length)
    modifies w, w.data
    ensures w.Valid()
    ensures var call := CallPut(row, column, v);
            && status == (if w.mReadOnly then INVALID_OPERATION else Answer(old(Seen(w)), call, w.data.Length))
            && Seen(w) == if w.mReadOnly then old(Seen(w)) else After(old(Seen(w)), call, w.data.Length)
  {
    w.SizeFits();
    hide Represents, U32;
    match v {
      case Null => status := w.PutNull(row, column);
      case Integer(i) => status := w.PutLong(row, column, i);
      case Float(bits) => status := w.PutDouble(row, column, bits);
      case Str(bytes) => status := w.PutBlobOrString(row, column, bytes, false);
      case Blob(bytes) => status := w.PutBlobOrString(row, column, bytes, true);
    }
  }

  /** Over every sequence of calls on a writable window the flat buffer stands for the table that the calls make, and
      each call succeeds exactly when table and space say; a read-only window never changes. */
  method Run(w: CursorWindow, calls: seq<Call>) returns (answers: seq<Status>)
    requires w.Valid() && HEADER + CHUNK <= w.data.Length
    requires forall i :: 0 <= i < |calls| ==> InRange(calls[i], w.data.Length)
    modifies w, w.data
    ensures w.Valid() && |answers| == |calls|
    ensures !w.mReadOnly ==>
              && Seen(w) == Replay(old(Seen(w)), calls, w.data.Length)
              && forall i :: 0 <= i < |calls| ==>
                   answers[i] == Answer(Replay(old(Seen(w)), calls[..i], w.data.Length), calls[i], w.data.Length)
    ensures w.mReadOnly ==> Seen(w) == old(Seen(w)) && forall i :: 0 <= i < |calls| ==> answers[i] == INVALID_OPERATION
  {
    hide Represents, Answer, After;
    answers := [];
    ghost var limit, c := w.data.Length, Seen(w);
    for n := 0 to |calls|
      invariant w.Valid() && |answers| == n
      invariant Seen(w) == if w.mReadOnly then c else Replay(c, calls[..n], limit)
      invariant forall i :: 0 <= i < n ==>
                  answers[i] == if w.mReadOnly then INVALID_OPERATION
                                else Answer(Replay(c, calls[..i], limit), calls[i], limit)
    {
      var status := Perform(w, calls[n]);
      answers := answers + [status];
      assert calls[..n + 1][..n] == calls[..n];
    }
    assert calls[..|calls|] == calls;
  }

  /** A call that fails changes no cell. */
  lemma {:induction false} FailureKeepsCells(c: Cells, call: Call, limit: nat)
    ensures Answer(c, call, limit) != OK ==>
              After(c, call, limit).table == c.table && After(c, call, limit).columns == c.columns
  {
  }
}

/** The cursor window: a table of cells packed into one flat buffer by bump allocation. */
module CursorWindows {
  import opened Memory
  import opened WindowLayout

  datatype Status = OK | NO_MEMORY | INVALID_OPERATION | BAD_VALUE

  /** Bytes skipped so that an allocation at `free` starts on a 4-byte boundary, in 32-bit arithmetic. */
  function Padding(free: nat): (p: nat)
    ensures p < 4 && (free + p) % 4 == 0
  {
    ((TWO32 - free) % TWO32) % 4
  }

  function Align(free: nat): (a: nat)
    ensures a % 4 == 0 && free <= a < free + 4
  {
    free + Padding(free)
  }

  /** Up to the next multiple of four. */
  lemma {:induction false} RoundsUp(free: nat)
    ensures Align(free) == free + (4 - free % 4) % 4
  {
  }

  /** Where an allocation would start, and where the next one would, both in 32-bit arithmetic. */
  function AllocStart(free: u32, aligned: bool): u32 {
    (if aligned then Align(free) else free) % TWO32
  }

  function AllocEnd(free: u32, size: nat, aligned: bool): u32 {
    (AllocStart(free, aligned) + size) % TWO32
  }

  /** An allocation that passes the size check lies between the free offset and the end of the window, exactly when
      the check was not passed by 32-bit wrap-around. */
  lemma {:induction false} AllocInside(free: u32, size: nat, aligned: bool, limit: u32)
    requires free <= limit
    ensures AllocEnd(free, size, aligned) <= limit ==>
              (free <= AllocStart(free, aligned) && AllocStart(free, aligned) + size <= limit
               <==> (if aligned then Align(free) else free) + size < TWO32)
  {
  }

  lemma {:induction false} NoWrapAlloc(free: u32, size: nat, aligned: bool)
    ensures free + 3 + size < TWO32 ==>
              && AllocStart(free, aligned) == (if aligned then Align(free) else free)
              && AllocEnd(free, size, aligned) == AllocStart(free, aligned) + size
  {
    hide Padding;
  }

  /** The next row needs a chunk the chain does not have yet. */
  predicate NeedsChunk(rows: nat, chunks: nat) {
    rows > 0 && rows % CHUNK_ROWS == 0 && rows / CHUNK_ROWS == chunks
  }

  /** The free offset once the next row's slot is there. */
  function SlotEnd(free: nat, rows: nat, chunks: nat): nat {
    if NeedsChunk(rows, chunks) then Align(free) + CHUNK else free
  }

  // ---- writes ----

  lemma {:induction false} PutOther(s: seq<byte>, o: nat, b: seq<byte>, x: nat, m: nat)
    requires o + |b| <= |s| && x + m <= |s| && Apart(o, |b|, x, m)
    ensures Put(s, o, b)[x..x + m] == s[x..x + m]
  {
    var s' := Put(s, o, b);
    assert forall k :: x <= k < x + m ==> s'[k] == s[k];
  }

  lemma {:induction false} PutWord(s: seq<byte>, o: nat, v: u32)
    requires o + 4 <= |s|
    ensures U32(Put(s, o, ToBytes(v, 4)), o) == v
  {
    Powers();
    RoundTrip(v, 4);
    assert Put(s, o, ToBytes(v, 4))[o..o + 4] == ToBytes(v, 4);
  }

  /** A write to one header word keeps the other three and every byte beyond the header. */
  lemma {:induction false} HeaderWrite(s: seq<byte>, o: nat, v: u32)
    requires HEADER <= |s|
    requires o == FREE_OFFSET || o == FIRST_CHUNK || o == NUM_ROWS || o == NUM_COLUMNS
    ensures var s' := Put(s, o, ToBytes(v, 4));
            && U32(s', o) == v
            && (o != FREE_OFFSET ==> U32(s', FREE_OFFSET) == U32(s, FREE_OFFSET))
            && (o != FIRST_CHUNK ==> U32(s', FIRST_CHUNK) == U32(s, FIRST_CHUNK))
            && (o != NUM_ROWS ==> U32(s', NUM_ROWS) == U32(s, NUM_ROWS))
            && (o != NUM_COLUMNS ==> U32(s', NUM_COLUMNS) == U32(s, NUM_COLUMNS))
            && (forall k :: HEADER <= k < |s| ==> s'[k] == s[k])
  {
    PutWord(s, o, v);
    var b := ToBytes(v, 4);
    if o != FREE_OFFSET { PutOther(s, o, b, FREE_OFFSET, 4); }
    if o != FIRST_CHUNK { PutOther(s, o, b, FIRST_CHUNK, 4); }
    if o != NUM_ROWS { PutOther(s, o, b, NUM_ROWS, 4); }
    if o != NUM_COLUMNS { PutOther(s, o, b, NUM_COLUMNS, 4); }
  }

  /** A write beyond the header keeps the header. */
  lemma {:induction false} BodyWrite(s: seq<byte>, o: nat, b: seq<byte>)
    requires HEADER <= o && o + |b| <= |s|
    ensures var s' := Put(s, o, b);
            && U32(s', FREE_OFFSET) == U32(s, FREE_OFFSET)
            && U32(s', FIRST_CHUNK) == U32(s, FIRST_CHUNK)
            && U32(s', NUM_ROWS) == U32(s, NUM_ROWS)
            && U32(s', NUM_COLUMNS) == U32(s, NUM_COLUMNS)
            && s'[o..o + |b|] == b
            && (forall k :: 0 <= k < |s| && !(o <= k < o + |b|) ==> s'[k] == s[k])
  {
    PutOther(s, o, b, FREE_OFFSET, 4);
    PutOther(s, o, b, FIRST_CHUNK, 4);
    PutOther(s, o, b, NUM_ROWS, 4);
    PutOther(s, o, b, NUM_COLUMNS, 4);
  }

  lemma {:induction false} EmptyWindow(s: seq<byte>)
    requires HeaderOk(s, 0, 0) && Free(s) == HEADER + CHUNK && U32(s, HEADER + NEXT) == 0
    ensures Represents(s, Shape([HEADER], [], 0), [])
  {
  }

  /** The bytes after a chunk was allocated at `o`, linked at `w`, and its own link cleared. */
  lemma {:induction false} LinkBytes(s: seq<byte>, w: nat, o: nat)
    requires HEADER + CHUNK <= |s| && HEADER <= w && w + 4 <= Free(s) <= o && o + CHUNK <= |s| < TWO32
    ensures var s' := Put(Put(Put(s, FREE_OFFSET, ToBytes(o + CHUNK, 4)), w, ToBytes(o, 4)), o + NEXT, ToBytes(0, 4));
            && U32(s', w) == o && U32(s', o + NEXT) == 0
            && Free(s') == o + CHUNK && U32(s', FIRST_CHUNK) == U32(s, FIRST_CHUNK)
            && U32(s', NUM_ROWS) == U32(s, NUM_ROWS) && U32(s', NUM_COLUMNS) == U32(s, NUM_COLUMNS)
            && Only(s, s', w, 4, Free(s))
  {
    hide U32, Put;
    HeaderWrite(s, FREE_OFFSET, o + CHUNK);
    var s1 := Put(s, FREE_OFFSET, ToBytes(o + CHUNK, 4));
    BodyWrite(s1, w, ToBytes(o, 4));
    PutWord(s1, w, o);
    var s2 := Put(s1, w, ToBytes(o, 4));
    BodyWrite(s2, o + NEXT, ToBytes(0, 4));
    PutWord(s2, o + NEXT, 0);
    var s3 := Put(s2, o + NEXT, ToBytes(0, 4));
    WordKept(s2, s3, w);
  }

  /** The bytes after a row's directory was allocated at `o`, zeroed, and entered in the slot at `w`; `back` is the
      image with the row not yet counted. */
  lemma {:induction false} RowBytes(s: seq<byte>, rows: u32, w: nat, o: nat, size: nat)
    requires HEADER + CHUNK <= |s| && HEADER <= w && w + 4 <= Free(s) <= o && o + size <= |s| < TWO32
    ensures var s' := Put(Put(Put(s, FREE_OFFSET, ToBytes(o + size, 4)), o, seq(size, _ => 0)), w, ToBytes(o, 4));
            var back := Put(s, NUM_ROWS, ToBytes(rows, 4));
            && U32(s', w) == o && Zeros(s'[o..o + size])
            && Free(s') == o + size && U32(s', FIRST_CHUNK) == U32(s, FIRST_CHUNK)
            && U32(s', NUM_ROWS) == U32(s, NUM_ROWS) && U32(s', NUM_COLUMNS) == U32(s, NUM_COLUMNS)
            && Free(back) == Free(s) && Only(back, s', w, 4, Free(s))
  {
    hide U32, Put;
    HeaderWrite(s, NUM_ROWS, rows);
    HeaderWrite(s, FREE_OFFSET, o + size);
    var s1 := Put(s, FREE_OFFSET, ToBytes(o + size, 4));
    BodyWrite(s1, o, seq(size, _ => 0));
    var s2 := Put(s1, o, seq(size, _ => 0));
    BodyWrite(s2, w, ToBytes(o, 4));
    PutWord(s2, w, o);
    var s3 := Put(s2, w, ToBytes(o, 4));
    assert s3[o..o + size] == s2[o..o + size];
  }

  /** The row count is one ahead, and setting it back leaves the table as it was. */
  lemma {:induction false} CountedRow(s: seq<byte>, sh: Shape, t: Table)
    requires Represents(s, sh, t) && |t| < CHUNK_ROWS * |sh.chunks|
    ensures HEADER + CHUNK <= |s| && |t| + 1 < TWO32 && U32(s, NUM_ROWS) == |t|
    ensures var s' := Put(s, NUM_ROWS, ToBytes(|t| + 1, 4));
            && U32(s', NUM_ROWS) == |t| + 1 && Free(s') == Free(s)
            && Represents(Put(s', NUM_ROWS, ToBytes(|t|, 4)), sh, t)
    ensures SlotAt(sh.chunks, |t|) > 0
  {
    hide U32, Put, CellsOk, DataDisjoint, DirsPlaced, ChainLinked, SlotsFilled;
    ChunkRoom(sh.chunks, Free(s));
    HeaderWrite(s, NUM_ROWS, |t| + 1);
    var s1 := Put(s, NUM_ROWS, ToBytes(|t| + 1, 4));
    HeaderWrite(s1, NUM_ROWS, |t|);
    SameTable(s, Put(s1, NUM_ROWS, ToBytes(|t|, 4)), sh, t);
  }

  lemma {:induction false} ReservedHeader(s: seq<byte>, sh: Shape, t: Table)
    requires HEADER + CHUNK <= |s| && |t| + 1 < TWO32 && |t| < CHUNK_ROWS * |sh.chunks|
    requires U32(s, NUM_ROWS) == |t| + 1
    requires Represents(Put(s, NUM_ROWS, ToBytes(|t|, 4)), sh, t)
    ensures HeaderOk(s, |t| + 1, sh.columns) && ChunksPlaced(sh.chunks, Free(s))
    ensures HEADER <= SlotAt(sh.chunks, |t|) && SlotAt(sh.chunks, |t|) + 4 <= Free(s)
    ensures Free(Put(s, NUM_ROWS, ToBytes(|t|, 4))) == Free(s)
  {
    hide U32, Put, CellsOk, DataDisjoint, DirsPlaced, ChainLinked, SlotsFilled;
    HeaderWrite(s, NUM_ROWS, |t|);
  }

  /** The bytes after a field slot at `a` got type `ty` and an 8-byte payload. */
  lemma {:induction false} FieldBytes(s: seq<byte>, a: nat, ty: u32, payload: u64)
    requires HEADER <= a && a + FIELD <= |s|
    ensures var s' := Put(Put(s, a, ToBytes(ty, 4)), a + 4, ToBytes(payload, 8));
            && U32(s', a) == ty && U64(s', a + 4) == payload
            && SameBut(s, s', a, FIELD)
  {
    hide U32, Put;
    BodyWrite(s, a, ToBytes(ty, 4));
    PutWord(s, a, ty);
    var s1 := Put(s, a, ToBytes(ty, 4));
    BodyWrite(s1, a + 4, ToBytes(payload, 8));
    var s2 := Put(s1, a + 4, ToBytes(payload, 8));
    WordKept(s1, s2, a);
    Powers();
    RoundTrip(payload, 8);
  }

  /** The same for a string or blob: `value` goes to `o`, its offset and size into the slot. */
  lemma {:induction false} BufferBytes(s: seq<byte>, a: nat, ty: u32, o: u32, value: seq<byte>)
    requires HEADER <= a && a + FIELD <= o && o + |value| <= |s| && |value| < TWO32
    ensures var s' := Put(Put(Put(Put(s, o, value), a, ToBytes(ty, 4)), a + 4, ToBytes(o, 4)),
                          a + 8, ToBytes(|value|, 4));
            && U32(s', a) == ty && U32(s', a + 4) == o && U32(s', a + 8) == |value|
            && s'[o..o + |value|] == value
            && SameBut(s, s', a, o + |value| - a) && (forall k :: a + FIELD <= k < o ==> s'[k] == s[k])
  {
    hide U32, Put;
    BodyWrite(s, o, value);
    var s0 := Put(s, o, value);
    BodyWrite(s0, a, ToBytes(ty, 4));
    PutWord(s0, a, ty);
    var s1 := Put(s0, a, ToBytes(ty, 4));
    BodyWrite(s1, a + 4, ToBytes(o, 4));
    PutWord(s1, a + 4, o);
    var s2 := Put(s1, a + 4, ToBytes(o, 4));
    BodyWrite(s2, a + 8, ToBytes(|value|, 4));
    PutWord(s2, a + 8, |value|);
    var s3 := Put(s2, a + 8, ToBytes(|value|, 4));
    WordKept(s1, s3, a);
    WordKept(s2, s3, a + 4);
    assert s3[o..o + |value|] == s0[o..o + |value|];
  }

  /** The header is the same, and so is every byte outside `n` bytes at `w`. */
  ghost predicate SameBut(s: seq<byte>, s': seq<byte>, w: nat, n: nat) {
    && |s'| == |s| && HEADER <= |s|
    && U32(s', FREE_OFFSET) == U32(s, FREE_OFFSET)
    && U32(s', FIRST_CHUNK) == U32(s, FIRST_CHUNK)
    && U32(s', NUM_ROWS) == U32(s, NUM_ROWS)
    && U32(s', NUM_COLUMNS) == U32(s, NUM_COLUMNS)
    && (forall k :: 0 <= k < |s| && !(w <= k < w + n) ==> s'[k] == s[k])
  }

  lemma {:induction false} WordKept(s: seq<byte>, s': seq<byte>, x: nat)
    requires |s| == |s'| && x + 4 <= |s| && forall k :: x <= k < x + 4 ==> s'[k] == s[k]
    ensures U32(s', x) == U32(s, x)
  {
    assert s'[x..x + 4] == s[x..x + 4];
  }

  /** The chunks take up room, so the row count stays within 32 bits. */
  lemma {:induction false} ChunkRoom(chunks: seq<nat>, free: nat)
    requires ChunksPlaced(chunks, free)
    ensures HEADER + CHUNK * |chunks| <= free
  {
    if |chunks| > 1 {
      var k := |chunks| - 1;
      ChunkRoom(chunks[..k], chunks[k]);
    }
  }

  /** What a put without data may do: exactly one cell changes, or the call fails and none does. */
  ghost predicate CellPut(was: Table, now: Table, columns: nat, readOnly: bool, row: nat, column: nat, v: Value,
                          status: Status)
  {
    && status == (if readOnly then INVALID_OPERATION
                  else if row >= |was| || column >= columns then BAD_VALUE
                  else OK)
    && (status == OK ==> column < |was[row]| && now == was[row := was[row][column := v]])
    && (status != OK ==> now == was)
  }

  /** Where the next row goes, as allocRowSlot counts it. */
  lemma {:induction false} RowPlace(rows: nat, k: nat, chunkPos: nat)
    requires chunkPos <= CHUNK_ROWS && chunkPos + CHUNK_ROWS * k == rows && (k > 0 ==> chunkPos > 0)
    ensures chunkPos == CHUNK_ROWS ==> rows > 0 && rows % CHUNK_ROWS == 0 && rows / CHUNK_ROWS == k + 1
    ensures chunkPos < CHUNK_ROWS ==> rows / CHUNK_ROWS == k && (rows % CHUNK_ROWS == 0 ==> rows == 0)
  {
  }

  class CursorWindow {
    const data: array<byte>
    const mReadOnly: bool
    /** Where things lie in `data`. */
    ghost var shape: Shape
    /** The cells `data` stands for. */
    ghost var table: Table

    ghost predicate Valid()
      reads this, data
    {
      Represents(data[..], shape, table)
    }

    ghost function FreeOffset(): u32
      reads this, data
      requires data.Length >= HEADER + CHUNK
    {
      Free(data[..])
    }

    lemma {:induction false} SizeFits()
      requires Valid()
      ensures HEADER + CHUNK <= data.Length && NoWrap(data.Length, shape.columns) && FreeOffset() <= data.Length
      ensures forall r :: 0 <= r < |table| ==> |table[r]| == shape.columns
    {
    }

    function Load(o: nat): u32
      reads data
      requires o + 4 <= data.Length
    {
      U32(data[..], o)
    }

    /** memcpy, or the assignment of a struct member. */
    method Store(o: nat, b: seq<byte>)
      requires o + |b| <= data.Length
      modifies data
      ensures data[..] == Put(old(data[..]), o, b)
    {
      for i := 0 to |b|
        invariant forall k :: 0 <= k < i ==> data[o + k] == b[k]
        invariant forall k :: 0 <= k < data.Length && !(o <= k < o + i) ==> data[k] == old(data[k])
      {
        data[o + i] := b[i];
      }
      assert data[..] == Put(old(data[..]), o, b);
    }

    method StoreWord(o: nat, v: u32)
      requires o + 4 <= data.Length
      modifies data
      ensures data[..] == Put(old(data[..]), o, ToBytes(v, 4))
    {
      Store(o, ToBytes(v, 4));
    }

    constructor (size: nat)
      requires HEADER + CHUNK <= size && NoWrap(size, 0)
      ensures Valid() && table == [] && shape == Shape([HEADER], [], 0)
      ensures data.Length == size && !mReadOnly && fresh(data)
      ensures FreeOffset() == HEADER + CHUNK
    {
      data := new byte[size];
      mReadOnly := false;
      shape, table := Shape([HEADER], [], 0), [];
      new;
      var _ := Clear();
    }

    method Clear() returns (status: Status)
      requires HEADER + CHUNK <= data.Length && NoWrap(data.Length, 0)
      modifies this, data
      ensures mReadOnly ==> status == INVALID_OPERATION && unchanged(this) && unchanged(data)
      ensures !mReadOnly ==> status == OK && Valid() && table == [] && shape == Shape([HEADER], [], 0)
      ensures !mReadOnly ==> FreeOffset() == HEADER + CHUNK
    {
      if mReadOnly {
        return INVALID_OPERATION;
      }
      hide Represents, Put, U32;
      ghost var s0 := data[..];
      StoreWord(FREE_OFFSET, HEADER + CHUNK);
      StoreWord(FIRST_CHUNK, HEADER);
      HeaderWrite(s0, FREE_OFFSET, HEADER + CHUNK);
      HeaderWrite(Put(s0, FREE_OFFSET, ToBytes(HEADER + CHUNK, 4)), FIRST_CHUNK, HEADER);
      ghost var s1 := data[..];
      StoreWord(NUM_ROWS, 0);
      StoreWord(NUM_COLUMNS, 0);
      HeaderWrite(s1, NUM_ROWS, 0);
      HeaderWrite(Put(s1, NUM_ROWS, ToBytes(0, 4)), NUM_COLUMNS, 0);
      ghost var s2 := data[..];
      var firstChunk := Load(FIRST_CHUNK);
      StoreWord(firstChunk + NEXT, 0);
      BodyWrite(s2, firstChunk + NEXT, ToBytes(0, 4));
      PutWord(s2, firstChunk + NEXT, 0);
      shape, table := Shape([HEADER], [], 0), [];
      EmptyWindow(data[..]);
      return OK;
    }

    method SetNumColumns(numColumns: u32) returns (status: Status)
      requires Valid() && NoWrap(data.Length, numColumns)
      modifies this, data
      ensures Valid() && table == old(table) && shape.chunks == old(shape.chunks) && FreeOffset() == old(FreeOffset())
      ensures status == (if mReadOnly || ((old(shape).columns > 0 || |table| > 0) && old(shape).columns != numColumns)
                         then INVALID_OPERATION else OK)
      ensures shape.columns == if status == OK then numColumns else old(shape).columns
    {
      if mReadOnly {
        return INVALID_OPERATION;
      }
      var cur := Load(NUM_COLUMNS);
      if (cur > 0 || Load(NUM_ROWS) > 0) && cur != numColumns {
        return INVALID_OPERATION;
      }
      ghost var s := data[..];
      HeaderWrite(s, NUM_COLUMNS, numColumns);
      StoreWord(NUM_COLUMNS, numColumns);
      if cur == numColumns {
        SameTable(s, data[..], shape, table);
      } else {
        KeptChunks(s, data[..], Free(s), 0, shape, Free(s));
        shape := shape.(columns := numColumns);
      }
      return OK;
    }

    method Alloc(size: nat, aligned: bool) returns (offset: u32)
      requires HEADER + CHUNK <= data.Length
      modifies data
      ensures var o, end := AllocStart(old(FreeOffset()), aligned), AllocEnd(old(FreeOffset()), size, aligned);
              if end > data.Length
              then offset == 0 && data[..] == old(data[..])
              else offset == o && data[..] == Put(old(data[..]), FREE_OFFSET, ToBytes(end, 4))
      ensures old(FreeOffset()) + 3 + size < TWO32 ==>
                && AllocStart(old(FreeOffset()), aligned)
                   == (if aligned then Align(old(FreeOffset())) else old(FreeOffset()))
                && AllocEnd(old(FreeOffset()), size, aligned) == AllocStart(old(FreeOffset()), aligned) + size
    {
      hide U32, Put, ToBytes, Padding;
      NoWrapAlloc(FreeOffset(), size, aligned);
      var free := Load(FREE_OFFSET);
      var padding := if aligned then Padding(free) else 0;
      offset := (free + padding) % TWO32;
      var nextFreeOffset := (offset + size) % TWO32;
      if nextFreeOffset > data.Length {
        return 0;
      }
      StoreWord(FREE_OFFSET, nextFreeOffset);
    }

    method GetRowSlot(row: nat) returns (slot: nat)
      requires Valid() && row < |table|
      ensures slot == SlotAt(shape.chunks, row)
    {
      var chunkPos := row;
      var chunk: nat := Load(FIRST_CHUNK);
      ghost var i := 0;
      while chunkPos >= CHUNK_ROWS
        invariant 0 <= i < |shape.chunks| && chunk == shape.chunks[i]
        invariant 0 <= chunkPos && chunkPos + CHUNK_ROWS * i == row
      {
        assert i + 1 < |shape.chunks|;
        chunk := Load(chunk + NEXT);
        chunkPos := chunkPos - CHUNK_ROWS;
        i := i + 1;
      }
      return chunk + 4 * chunkPos;
    }

    /** The chunk after chunk `k`: reused if the chain already has one, else allocated; it becomes the chain's end. */
    method NextChunk(chunk: nat, ghost k: nat) returns (next: nat)
      requires Valid() && !mReadOnly
      requires k < |shape.chunks| && chunk == shape.chunks[k] && |table| == CHUNK_ROWS * (k + 1)
      modifies this, data
      ensures Valid() && table == old(table) && shape.dirs == old(shape.dirs) && shape.columns == old(shape.columns)
      ensures var end := if k + 1 == |old(shape.chunks)| then Align(old(FreeOffset())) + CHUNK else old(FreeOffset());
              if end <= data.Length
              then |shape.chunks| == k + 2 && next == shape.chunks[k + 1] && next > 0 && FreeOffset() == end
              else next == 0 && shape == old(shape) && FreeOffset() == old(FreeOffset())
    {
      hide DirsPlaced, CellsOk, DataDisjoint, SlotsFilled, Put, U32;
      ghost var s := data[..];
      assert Load(chunk + NEXT) == if k + 1 < |shape.chunks| then shape.chunks[k + 1] else 0;
      if Load(chunk + NEXT) == 0 {
        assert k + 1 == |shape.chunks|;
        var o := Alloc(CHUNK, true);
        ghost var s1 := data[..];
        StoreWord(chunk + NEXT, o);
        if Load(chunk + NEXT) == 0 {
          PutWord(s1, chunk + NEXT, o);
          BodyWrite(s1, chunk + NEXT, ToBytes(0, 4));
          CutChain(s, data[..], shape, table, k);
          assert shape.chunks[..k + 1] == shape.chunks;
          return 0;
        }
        PutWord(s1, chunk + NEXT, o);
        next := Load(chunk + NEXT);
        StoreWord(next + NEXT, 0);
        LinkBytes(s, chunk + NEXT, o);
        LinkChunk(s, data[..], shape, table, o);
        shape := shape.(chunks := shape.chunks + [o]);
      } else {
        next := Load(chunk + NEXT);
        StoreWord(next + NEXT, 0);
        BodyWrite(s, next + NEXT, ToBytes(0, 4));
        PutWord(s, next + NEXT, 0);
        CutChain(s, data[..], shape, table, k + 1);
        shape := shape.(chunks := shape.chunks[..k + 2]);
      }
    }

    /** The row count is one ahead of the table: with it set back, the bytes stand for the table. */
    ghost predicate Reserved()
      reads this, data
    {
      && HEADER + CHUNK <= data.Length
      && |table| + 1 < TWO32
      && |table| < CHUNK_ROWS * |shape.chunks|
      && U32(data[..], NUM_ROWS) == |table| + 1
      && Represents(Put(data[..], NUM_ROWS, ToBytes(|table|, 4)), shape, table)
    }

    method AllocRowSlot() returns (slot: nat)
      requires Valid() && !mReadOnly
      modifies this, data
      ensures table == old(table) && shape.dirs == old(shape.dirs) && shape.columns == old(shape.columns)
      ensures if SlotEnd(old(FreeOffset()), |table|, |old(shape.chunks)|) <= data.Length
              then && Reserved() && slot == SlotAt(shape.chunks, |table|)
                   && FreeOffset() == SlotEnd(old(FreeOffset()), |table|, |old(shape.chunks)|)
                   && |shape.chunks| == (if |table| > 0 && |table| % CHUNK_ROWS == 0 then |table| / CHUNK_ROWS + 1
                                         else |old(shape.chunks)|)
              else && Valid() && slot == 0 && shape == old(shape) && FreeOffset() == old(FreeOffset())
    {
      hide Represents, Put, U32, ChunksPlaced;
      var chunk, chunkPos, k := ChunkForNewRow();
      RowPlace(|table|, k, chunkPos);
      if chunkPos == CHUNK_ROWS {
        chunk := NextChunk(chunk, k);
        if chunk == 0 {
          return 0;
        }
        chunkPos := 0;
      }
      CountedRow(data[..], shape, table);
      StoreWord(NUM_ROWS, Load(NUM_ROWS) + 1);
      return chunk + 4 * chunkPos;
    }

    /** Walks the chain to the chunk of the last row; `chunkPos` is the next row's place in it, 100 if it is full. */
    method ChunkForNewRow() returns (chunk: nat, chunkPos: nat, ghost k: nat)
      requires Valid()
      ensures k < |shape.chunks| && chunk == shape.chunks[k] && chunkPos <= CHUNK_ROWS
      ensures chunkPos + CHUNK_ROWS * k == |table| && (k > 0 ==> chunkPos > 0)
      ensures FreeOffset() <= data.Length
    {
      assert |table| <= CHUNK_ROWS * |shape.chunks|;
      hide DirsPlaced, CellsOk, DataDisjoint, SlotsFilled, U32;
      chunkPos := Load(NUM_ROWS);
      chunk := Load(FIRST_CHUNK);
      k := 0;
      while chunkPos > CHUNK_ROWS
        invariant 0 <= k < |shape.chunks| && chunk == shape.chunks[k]
        invariant chunkPos + CHUNK_ROWS * k == |table| && (k > 0 ==> chunkPos > 0)
      {
        assert Load(chunk + NEXT) == shape.chunks[k + 1];
        chunk := Load(chunk + NEXT);
        chunkPos := chunkPos - CHUNK_ROWS;
        k := k + 1;
      }
    }

    /** Second half of allocRow: the directory of the row whose slot was just counted. */
    method AllocDirectory(rowSlot: nat) returns (status: Status)
      requires Reserved() && rowSlot == SlotAt(shape.chunks, |table|)
      modifies this, data
      ensures Valid() && shape.columns == old(shape.columns) && shape.chunks == old(shape.chunks)
      ensures if Align(old(FreeOffset())) + DirSize(shape.columns) <= data.Length
              then && status == OK && table == old(table) + [NullRow(shape.columns)]
                   && FreeOffset() == Align(old(FreeOffset())) + DirSize(shape.columns)
              else status == NO_MEMORY && table == old(table) && FreeOffset() == old(FreeOffset())
    {
      hide Represents, Put, U32, SlotAt, Only, Zeros, ChunksPlaced;
      ghost var s1 := data[..];
      ReservedHeader(s1, shape, table);
      var fieldDirSize := Load(NUM_COLUMNS) * FIELD;
      var fieldDirOffset := Alloc(fieldDirSize, true);
      if fieldDirOffset == 0 {
        StoreWord(NUM_ROWS, Load(NUM_ROWS) - 1);
        return NO_MEMORY;
      }
      Store(fieldDirOffset, seq(fieldDirSize, _ => 0));
      StoreWord(rowSlot, fieldDirOffset);
      RowBytes(s1, |table|, rowSlot, fieldDirOffset, fieldDirSize);
      AppendRow(Put(s1, NUM_ROWS, ToBytes(|table|, 4)), data[..], shape, table, fieldDirOffset);
      shape := shape.(dirs := shape.dirs + [fieldDirOffset]);
      table := table + [NullRow(shape.columns)];
      return OK;
    }

    method AllocRow() returns (status: Status)
      requires Valid()
      modifies this, data
      ensures Valid() && shape.columns == old(shape.columns)
      ensures mReadOnly ==> status == INVALID_OPERATION && unchanged(this) && unchanged(data)
      ensures !mReadOnly ==>
                var slotEnd := SlotEnd(old(FreeOffset()), |old(table)|, |old(shape.chunks)|);
                var chunks := if |old(table)| > 0 && |old(table)| % CHUNK_ROWS == 0 then |old(table)| / CHUNK_ROWS + 1
                              else |old(shape.chunks)|;
                if slotEnd > data.Length then
                  status == NO_MEMORY && table == old(table) && shape == old(shape) && FreeOffset() == old(FreeOffset())
                else if Align(slotEnd) + DirSize(shape.columns) > data.Length then
                  && status == NO_MEMORY && table == old(table)
                  && FreeOffset() == slotEnd && |shape.chunks| == chunks
                else
                  && status == OK && table == old(table) + [NullRow(shape.columns)]
                  && FreeOffset() == Align(slotEnd) + DirSize(shape.columns) && |shape.chunks| == chunks
    {
      if mReadOnly {
        return INVALID_OPERATION;
      }
      hide Represents, Put, U32, SlotAt;
      var rowSlot := AllocRowSlot();
      if rowSlot == 0 {
        return NO_MEMORY;
      }
      status := AllocDirectory(rowSlot);
    }

    method FreeLastRow() returns (status: Status)
      requires Valid()
      modifies this, data
      ensures Valid() && shape.columns == old(shape.columns) && shape.chunks == old(shape.chunks)
      ensures FreeOffset() == old(FreeOffset())
      ensures status == if mReadOnly then INVALID_OPERATION else OK
      ensures table == if mReadOnly || |old(table)| == 0 then old(table) else old(table)[..|old(table)| - 1]
    {
      if mReadOnly {
        return INVALID_OPERATION;
      }
      if Load(NUM_ROWS) > 0 {
        hide DirsPlaced, CellsOk, DataDisjoint, SlotsFilled, Put, U32, ChainLinked, ChunksPlaced;
        ghost var s := data[..];
        HeaderWrite(s, NUM_ROWS, |table| - 1);
        StoreWord(NUM_ROWS, Load(NUM_ROWS) - 1);
        DropRow(s, data[..], shape, table);
        shape := shape.(dirs := shape.dirs[..|table| - 1]);
        table := table[..|table| - 1];
      }
      return OK;
    }

    /** The address of a field slot, or 0 if there is no such row or column. */
    method GetFieldSlot(row: nat, column: nat) returns (slot: nat)
      requires Valid()
      ensures if row < |table| && column < shape.columns then slot == FieldAt(shape, row, column) && slot > 0
              else slot == 0
    {
      if row >= Load(NUM_ROWS) || column >= Load(NUM_COLUMNS) {
        return 0;
      }
      var rowSlot := GetRowSlot(row);
      return Load(rowSlot) + FIELD * column;
    }

    /** The table with one cell replaced. */
    ghost function With(row: nat, column: nat, v: Value): Table
      reads this
      requires row < |table| && column < |table[row]|
    {
      table[row := table[row][column := v]]
    }

    method PutBlobOrString(row: nat, column: nat, value: seq<byte>, blob: bool) returns (status: Status)
      requires Valid() && FreeOffset() + |value| + 3 < TWO32
      modifies this, data
      ensures Valid() && shape == old(shape)
      ensures status == if mReadOnly then INVALID_OPERATION
                        else if row >= |old(table)| || column >= shape.columns then BAD_VALUE
                        else if old(FreeOffset()) + |value| > data.Length then NO_MEMORY
                        else OK
      ensures status == OK ==> table == old(With(row, column, BufferValue(blob, value)))
                               && FreeOffset() == old(FreeOffset()) + |value|
      ensures status != OK ==> table == old(table) && FreeOffset() == old(FreeOffset())
    {
      if mReadOnly {
        return INVALID_OPERATION;
      }
      var fieldSlot := GetFieldSlot(row, column);
      if fieldSlot == 0 {
        return BAD_VALUE;
      }
      FieldPlace(data[..], shape, table, row, column);
      hide Represents, Put, U32, BufferImage;
      if FreeOffset() + |value| <= data.Length {
        BufferWrite(data[..], shape, table, row, column, blob, value);
      }
      var placed := PlaceBuffer(fieldSlot, value, blob);
      if !placed {
        return NO_MEMORY;
      }
      table := With(row, column, BufferValue(blob, value));
      return OK;
    }

    /** The allocation, the memcpy of the data, and the assignments to the field slot that points to it. */
    method PlaceBuffer(fieldSlot: nat, value: seq<byte>, blob: bool) returns (placed: bool)
      requires HEADER + CHUNK <= data.Length < TWO32 && fieldSlot + FIELD <= data.Length
      requires HEADER + CHUNK <= FreeOffset() && FreeOffset() + |value| + 3 < TWO32
      modifies data
      ensures placed <==> old(FreeOffset()) + |value| <= data.Length
      ensures data[..] == if placed then BufferImage(old(data[..]), fieldSlot, blob, value) else old(data[..])
    {
      hide Put, U32;
      var offset := Alloc(|value|, false);
      if offset == 0 {
        return false;
      }
      Store(offset, value);
      StoreWord(fieldSlot, BufferType(blob));
      StoreWord(fieldSlot + 4, offset);
      StoreWord(fieldSlot + 8, |value|);
      return true;
    }

    method PutLong(row: nat, column: nat, value: int64) returns (status: Status)
      requires Valid()
      modifies this, data
      ensures Valid() && shape == old(shape) && FreeOffset() == old(FreeOffset())
      ensures CellPut(old(table), table, shape.columns, mReadOnly, row, column, Integer(value), status)
    {
      if mReadOnly {
        return INVALID_OPERATION;
      }
      var fieldSlot := GetFieldSlot(row, column);
      if fieldSlot == 0 {
        return BAD_VALUE;
      }
      hide Represents, Put, U32, FieldAt, Number, Unsigned;
      IntegerNumber(value);
      StoreField(row, column, fieldSlot, TYPE_INTEGER, Unsigned(value));
      return OK;
    }

    method PutDouble(row: nat, column: nat, bits: u64) returns (status: Status)
      requires Valid()
      modifies this, data
      ensures Valid() && shape == old(shape) && FreeOffset() == old(FreeOffset())
      ensures CellPut(old(table), table, shape.columns, mReadOnly, row, column, Float(bits), status)
    {
      if mReadOnly {
        return INVALID_OPERATION;
      }
      var fieldSlot := GetFieldSlot(row, column);
      if fieldSlot == 0 {
        return BAD_VALUE;
      }
      hide Represents, Put, U32, FieldAt;
      StoreField(row, column, fieldSlot, TYPE_FLOAT, bits);
      return OK;
    }

    method PutNull(row: nat, column: nat) returns (status: Status)
      requires Valid()
      modifies this, data
      ensures Valid() && shape == old(shape) && FreeOffset() == old(FreeOffset())
      ensures CellPut(old(table), table, shape.columns, mReadOnly, row, column, Null, status)
    {
      if mReadOnly {
        return INVALID_OPERATION;
      }
      var fieldSlot := GetFieldSlot(row, column);
      if fieldSlot == 0 {
        return BAD_VALUE;
      }
      hide Represents, Put, U32, FieldAt;
      StoreField(row, column, fieldSlot, TYPE_NULL, 0);
      return OK;
    }

    /** The assignments to a field slot that needs no data: its type and the 8 bytes of its union. */
    method StoreField(row: nat, column: nat, fieldSlot: nat, ty: u32, payload: u64)
      requires Valid() && row < |table| && column < shape.columns && fieldSlot == FieldAt(shape, row, column)
      requires ty == TYPE_NULL || ty == TYPE_INTEGER || ty == TYPE_FLOAT
      modifies this, data
      ensures Valid() && shape == old(shape) && FreeOffset() == old(FreeOffset())
      ensures column < |old(table)[row]| && table == old(With(row, column, Number(ty, payload)))
    {
      hide Represents, Put, U32, FieldAt, Cell, CellIn, Number, ToBytes;
      NumberWrite(data[..], shape, table, row, column, ty, payload);
      StoreNumber(fieldSlot, ty, payload);
      table := table[row := table[row][column := Number(ty, payload)]];
    }

    method StoreNumber(fieldSlot: nat, ty: u32, payload: u64)
      requires fieldSlot + FIELD <= data.Length
      modifies data
      ensures data[..] == Put(Put(old(data[..]), fieldSlot, ToBytes(ty, 4)), fieldSlot + 4, ToBytes(payload, 8))
    {
      hide Put, ToBytes;
      StoreWord(fieldSlot, ty);
      Store(fieldSlot + 4, ToBytes(payload, 8));
    }

    /** Reads a cell back through the field slot accessors. */
    method GetValue(row: nat, column: nat) returns (found: bool, v: Value)
      requires Valid()
      ensures found <==> row < |table| && column < shape.columns
      ensures found ==> v == table[row][column]
    {
      var fieldSlot := GetFieldSlot(row, column);
      if fieldSlot == 0 {
        return false, Null;
      }
      FieldPlace(data[..], shape, table, row, column);
      hide Represents, U32, CellIn, Cell;
      found := true;
      v := ReadField(fieldSlot);
    }

    /** The field slot accessors. */
    method ReadField(fieldSlot: nat) returns (v: Value)
      requires HEADER + CHUNK <= data.Length && fieldSlot + FIELD <= FreeOffset() <= data.Length
      requires CellIn(data[..], fieldSlot, FreeOffset())
      ensures v == Cell(data[..], fieldSlot, FreeOffset())
    {
      hide U32, U64;
      var ty := Load(fieldSlot);
      var offset, size := Load(fieldSlot + 4), Load(fieldSlot + 8);
      if ty == TYPE_STRING {
        v := Str(data[offset..offset + size]);
      } else if ty == TYPE_BLOB {
        v := Blob(data[offset..offset + size]);
      } else if ty == TYPE_INTEGER {
        v := Integer(Signed(U64(data[..], fieldSlot + 4)));
      } else if ty == TYPE_FLOAT {
        v := Float(U64(data[..], fieldSlot + 4));
      } else {
        v := Null;
      }
    }
  }

  function Number(ty: u32, payload: u64): Value {
    if ty == TYPE_INTEGER then Integer(Signed(payload)) else if ty == TYPE_FLOAT then Float(payload) else Null
  }

  lemma {:induction false} IntegerNumber(value: int64)
    ensures Number(TYPE_INTEGER, Unsigned(value)) == Integer(value)
  {
  }

  lemma {:induction false} FieldPlace(s: seq<byte>, sh: Shape, t: Table, r: nat, c: nat)
    requires Represents(s, sh, t) && r < |t| && c < sh.columns
    ensures |t[r]| == sh.columns && HeaderOk(s, |t|, sh.columns)
    ensures var a := FieldAt(sh, r, c);
            HEADER + CHUNK <= a && a + FIELD <= Free(s) && CellIn(s, a, Free(s)) && Cell(s, a, Free(s)) == t[r][c]
  {
    assert CellOk(s, FieldAt(sh, r, c), sh, Free(s), t[r][c]);
  }

  lemma {:induction false} NumberCell(s: seq<byte>, a: nat, ty: u32, payload: u64, free: nat)
    requires a + FIELD <= |s| && free <= |s| && U32(s, a) == ty && U64(s, a + 4) == payload
    requires ty == TYPE_NULL || ty == TYPE_INTEGER || ty == TYPE_FLOAT
    ensures CellIn(s, a, free) && Cell(s, a, free) == Number(ty, payload) && !HasData(s, a)
  {
  }

  lemma {:induction false} BufferCell(s: seq<byte>, a: nat, blob: bool, value: seq<byte>, free: nat)
    requires a + FIELD <= |s| && free <= |s| && U32(s, a) == (BufferType(blob))
    requires HEADER + CHUNK <= U32(s, a + 4) && U32(s, a + 4) + U32(s, a + 8) <= free
    requires s[U32(s, a + 4)..U32(s, a + 4) + U32(s, a + 8)] == value
    ensures CellIn(s, a, free) && Cell(s, a, free) == BufferValue(blob, value)
    ensures DataAt(s, a) == U32(s, a + 4)
  {
  }

  /** Rewriting a field slot that needs no data replaces its cell. */
  lemma {:induction false} NumberWrite(s: seq<byte>, sh: Shape, t: Table, r: nat, c: nat, ty: u32, payload: u64)
    requires Represents(s, sh, t) && r < |t| && c < sh.columns
    requires ty == TYPE_NULL || ty == TYPE_INTEGER || ty == TYPE_FLOAT
    ensures FieldAt(sh, r, c) + FIELD <= |s| && HEADER + CHUNK <= |s| && |t[r]| == sh.columns
    ensures var s' := Put(Put(s, FieldAt(sh, r, c), ToBytes(ty, 4)), FieldAt(sh, r, c) + 4, ToBytes(payload, 8));
            Represents(s', sh, t[r := t[r][c := Number(ty, payload)]]) && Free(s') == Free(s)
  {
    FieldPlace(s, sh, t, r, c);
    hide Represents, Put, U32, Cell, CellIn, ToBytes, FieldAt, Number, HasData;
    var a := FieldAt(sh, r, c);
    FieldBytes(s, a, ty, payload);
    var s' := Put(Put(s, a, ToBytes(ty, 4)), a + 4, ToBytes(payload, 8));
    NumberCell(s', a, ty, payload, Free(s));
    PutCell(s, s', sh, t, r, c, Number(ty, payload));
  }

  function BufferType(blob: bool): u32 {
    if blob then TYPE_BLOB else TYPE_STRING
  }

  function BufferValue(blob: bool, value: seq<byte>): Value {
    if blob then Blob(value) else Str(value)
  }

  /** The bytes after `value` was placed at the free offset and the field slot at `a` pointed to it. */
  function BufferImage(s: seq<byte>, a: nat, blob: bool, value: seq<byte>): seq<byte>
    requires HEADER + CHUNK <= |s| < TWO32 && a + FIELD <= |s| && Free(s) + |value| <= |s|
  {
    var s1 := Put(s, FREE_OFFSET, ToBytes(Free(s) + |value|, 4));
    var s2 := Put(Put(s1, Free(s), value), a, ToBytes(BufferType(blob), 4));
    Put(Put(s2, a + 4, ToBytes(Free(s), 4)), a + 8, ToBytes(|value|, 4))
  }

  lemma {:induction false} BufferFacts(s: seq<byte>, a: nat, blob: bool, value: seq<byte>)
    requires HEADER + CHUNK <= |s| < TWO32 && Free(s) + |value| <= |s|
    requires HEADER + CHUNK <= a && a + FIELD <= Free(s)
    ensures var s' := BufferImage(s, a, blob, value);
            && Free(s') == Free(s) + |value|
            && U32(s', FIRST_CHUNK) == U32(s, FIRST_CHUNK) && U32(s', NUM_ROWS) == U32(s, NUM_ROWS)
            && U32(s', NUM_COLUMNS) == U32(s, NUM_COLUMNS)
            && Only(s, s', a, FIELD, Free(s))
            && CellIn(s', a, Free(s')) && Cell(s', a, Free(s')) == BufferValue(blob, value)
            && DataAt(s', a) == Free(s)
  {
    hide Put, U32, Cell, CellIn;
    var o := Free(s);
    HeaderWrite(s, FREE_OFFSET, o + |value|);
    BufferBytes(Put(s, FREE_OFFSET, ToBytes(o + |value|, 4)), a, BufferType(blob), o, value);
    BufferCell(BufferImage(s, a, blob, value), a, blob, value, o + |value|);
  }

  /** Placing a string or blob at the free offset and pointing a field slot to it replaces its cell. */
  lemma {:induction false} BufferWrite(s: seq<byte>, sh: Shape, t: Table, r: nat, c: nat, blob: bool, value: seq<byte>)
    requires Represents(s, sh, t) && r < |t| && c < sh.columns
    requires Free(s) + |value| <= |s|
    ensures FieldAt(sh, r, c) + FIELD <= |s| && HEADER + CHUNK <= |s| < TWO32 && |t[r]| == sh.columns
    ensures var s' := BufferImage(s, FieldAt(sh, r, c), blob, value);
            && Represents(s', sh, t[r := t[r][c := BufferValue(blob, value)]])
            && Free(s') == Free(s) + |value|
  {
    FieldPlace(s, sh, t, r, c);
    BufferFacts(s, FieldAt(sh, r, c), blob, value);
    hide Represents, Put, U32, Cell, CellIn, BufferImage, Only;
    PutCell(s, BufferImage(s, FieldAt(sh, r, c), blob, value), sh, t, r, c, BufferValue(blob, value));
  }
}

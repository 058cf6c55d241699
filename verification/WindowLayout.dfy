/** The byte layout of a cursor window: header, chain of row-slot chunks, field directories and cell data,
    and the table of cells these bytes stand for. */
module WindowLayout {
  import opened Memory

  const HEADER: nat := 16
  const CHUNK_ROWS: nat := 100
  const CHUNK: nat := 404
  const NEXT: nat := 400
  const FIELD: nat := 12

  /** Header words. */
  const FREE_OFFSET: nat := 0
  const FIRST_CHUNK: nat := 4
  const NUM_ROWS: nat := 8
  const NUM_COLUMNS: nat := 12

  const TYPE_NULL: u32 := 0
  const TYPE_INTEGER: u32 := 1
  const TYPE_FLOAT: u32 := 2
  const TYPE_STRING: u32 := 3
  const TYPE_BLOB: u32 := 4

  /** A cell. A double is its 64-bit pattern; string bytes include the terminator the caller passed. */
  datatype Value = Null | Integer(v: int64) | Float(bits: u64) | Str(bytes: seq<byte>) | Blob(bytes: seq<byte>)

  type Row = seq<Value>
  type Table = seq<Row>

  function NullRow(columns: nat): (r: Row)
    ensures |r| == columns && forall c :: 0 <= c < columns ==> r[c] == Null
  {
    seq(columns, _ => Null)
  }

  /** Where the parts of a window lie: the chunks on the chain, the field directory of each live row, and the number
      of columns. */
  datatype Shape = Shape(chunks: seq<nat>, dirs: seq<nat>, columns: nat)

  function DirSize(columns: nat): nat {
    FIELD * columns
  }

  /** Address of the slot of row `r`. */
  function SlotAt(chunks: seq<nat>, r: nat): nat
    requires r < CHUNK_ROWS * |chunks|
  {
    chunks[r / CHUNK_ROWS] + 4 * (r % CHUNK_ROWS)
  }

  /** Address of the field slot of row `r`, column `c`. */
  function FieldAt(sh: Shape, r: nat, c: nat): nat
    requires r < |sh.dirs|
  {
    sh.dirs[r] + FIELD * c
  }

  // ---- geometry: numbers only ----

  /** The chunks, in chain order, are 4-byte aligned, disjoint, and lie between the header and `free`. */
  ghost predicate ChunksPlaced(chunks: seq<nat>, free: nat) {
    && |chunks| > 0
    && chunks[0] == HEADER
    && (forall i :: 0 <= i < |chunks| ==> chunks[i] >= HEADER && chunks[i] % 4 == 0 && chunks[i] + CHUNK <= free)
    && (forall i, j :: 0 <= i < j < |chunks| ==> chunks[i] + CHUNK <= chunks[j])
  }

  /** The field directories of live rows are 4-byte aligned, disjoint from each other and from every chunk. */
  ghost predicate DirsPlaced(sh: Shape, free: nat) {
    && |sh.dirs| <= CHUNK_ROWS * |sh.chunks|
    && (forall r :: 0 <= r < |sh.dirs| ==>
          sh.dirs[r] % 4 == 0 && HEADER + CHUNK <= sh.dirs[r] && sh.dirs[r] + DirSize(sh.columns) <= free)
    && (forall r, q :: 0 <= r < q < |sh.dirs| ==> sh.dirs[r] + DirSize(sh.columns) <= sh.dirs[q])
    && (forall i, r :: 0 <= i < |sh.chunks| && 0 <= r < |sh.dirs| ==>
          Apart(sh.chunks[i], CHUNK, sh.dirs[r], DirSize(sh.columns)))
  }

  // ---- bytes ----

  /** The field slot at `a` holds a known type, and the data it points to lies below `free`. */
  ghost predicate CellIn(s: seq<byte>, a: nat, free: nat)
  {
    && a + FIELD <= |s| && free <= |s|
    && U32(s, a) <= TYPE_BLOB
    && (HasData(s, a) ==> HEADER + CHUNK <= DataAt(s, a) && DataAt(s, a) + DataSize(s, a) <= free)
  }

  predicate HasData(s: seq<byte>, a: nat)
    requires a + FIELD <= |s|
  {
    U32(s, a) == TYPE_STRING || U32(s, a) == TYPE_BLOB
  }

  function DataAt(s: seq<byte>, a: nat): u32
    requires a + FIELD <= |s|
  {
    U32(s, a + 4)
  }

  function DataSize(s: seq<byte>, a: nat): u32
    requires a + FIELD <= |s|
  {
    U32(s, a + 8)
  }

  /** The value the field slot at `a` stands for. */
  ghost function Cell(s: seq<byte>, a: nat, free: nat): Value
    requires CellIn(s, a, free)
  {
    if U32(s, a) == TYPE_NULL then Null
    else if U32(s, a) == TYPE_INTEGER then Integer(Signed(U64(s, a + 4)))
    else if U32(s, a) == TYPE_FLOAT then Float(U64(s, a + 4))
    else
      var bytes := s[DataAt(s, a)..DataAt(s, a) + DataSize(s, a)];
      if U32(s, a) == TYPE_STRING then Str(bytes) else Blob(bytes)
  }

  /** The string or blob of the field slot at `a` meets no chunk and no field directory. */
  ghost predicate DataApart(s: seq<byte>, a: nat, sh: Shape)
    requires a + FIELD <= |s|
  {
    HasData(s, a) ==>
      && (forall i :: 0 <= i < |sh.chunks| ==> Apart(sh.chunks[i], CHUNK, DataAt(s, a), DataSize(s, a)))
      && (forall r :: 0 <= r < |sh.dirs| ==> Apart(sh.dirs[r], DirSize(sh.columns), DataAt(s, a), DataSize(s, a)))
  }

  function Free(s: seq<byte>): u32
    requires |s| >= HEADER + CHUNK
  {
    U32(s, FREE_OFFSET)
  }

  /** No allocation the window makes for a row overflows 32-bit offsets. */
  predicate NoWrap(size: nat, columns: nat) {
    size + CHUNK + DirSize(columns) + 4 < TWO32
  }

  ghost predicate HeaderOk(s: seq<byte>, rows: nat, columns: nat) {
    && HEADER + CHUNK <= |s|
    && NoWrap(|s|, columns)
    && HEADER + CHUNK <= Free(s) <= |s|
    && U32(s, FIRST_CHUNK) == HEADER
    && U32(s, NUM_ROWS) == rows
    && U32(s, NUM_COLUMNS) == columns
  }

  /** Each chunk links to the next one, the last to none. */
  ghost predicate ChainLinked(s: seq<byte>, chunks: seq<nat>)
    requires forall i :: 0 <= i < |chunks| ==> chunks[i] + CHUNK <= |s|
  {
    forall i :: 0 <= i < |chunks| ==>
      U32(s, chunks[i] + NEXT) == if i + 1 < |chunks| then chunks[i + 1] else 0
  }

  /** Each live row's slot holds the offset of its field directory. */
  ghost predicate SlotsFilled(s: seq<byte>, sh: Shape)
    requires ChunksPlaced(sh.chunks, |s|) && |sh.dirs| <= CHUNK_ROWS * |sh.chunks|
  {
    forall r :: 0 <= r < |sh.dirs| ==> U32(s, SlotAt(sh.chunks, r)) == sh.dirs[r]
  }

  ghost predicate CellOk(s: seq<byte>, a: nat, sh: Shape, free: nat, v: Value) {
    CellIn(s, a, free) && DataApart(s, a, sh) && Cell(s, a, free) == v
  }

  ghost predicate CellsOk(s: seq<byte>, sh: Shape, free: nat, t: Table)
    requires |t| == |sh.dirs| && forall r :: 0 <= r < |t| ==> |t[r]| == sh.columns
  {
    forall r, c :: 0 <= r < |t| && 0 <= c < sh.columns ==> CellOk(s, FieldAt(sh, r, c), sh, free, t[r][c])
  }

  /** The field slots at `a` and `b` both point to data, and the data share a byte. */
  ghost predicate DataMeets(s: seq<byte>, a: nat, b: nat, free: nat) {
    && CellIn(s, a, free) && CellIn(s, b, free) && HasData(s, a) && HasData(s, b)
    && !Apart(DataAt(s, a), DataSize(s, a), DataAt(s, b), DataSize(s, b))
  }

  /** No two live strings or blobs share a byte. */
  ghost predicate DataDisjoint(s: seq<byte>, sh: Shape, free: nat) {
    forall r, c, q, d :: 0 <= r < |sh.dirs| && 0 <= c < sh.columns && 0 <= q < |sh.dirs| && 0 <= d < sh.columns &&
                         (r != q || c != d) ==>
      !DataMeets(s, FieldAt(sh, r, c), FieldAt(sh, q, d), free)
  }

  /** The bytes `s`, laid out as `sh`, stand for the table `t`. */
  ghost predicate Represents(s: seq<byte>, sh: Shape, t: Table) {
    && HeaderOk(s, |t|, sh.columns)
    && ChunksPlaced(sh.chunks, Free(s))
    && |sh.dirs| == |t|
    && DirsPlaced(sh, Free(s))
    && ChainLinked(s, sh.chunks)
    && SlotsFilled(s, sh)
    && (forall r :: 0 <= r < |t| ==> |t[r]| == sh.columns)
    && CellsOk(s, sh, Free(s), t)
    && DataDisjoint(s, sh, Free(s))
  }

  // ---- framing ----

  /** Between the header and `free` the only bytes that changed are the `n` bytes at `w`. */
  ghost predicate Only(s: seq<byte>, s': seq<byte>, w: nat, n: nat, free: nat) {
    && |s'| == |s| && free <= |s|
    && forall k :: HEADER <= k < free && !(w <= k < w + n) ==> s'[k] == s[k]
  }

  lemma {:induction false} Kept(s: seq<byte>, s': seq<byte>, w: nat, n: nat, free: nat, x: nat, m: nat)
    requires Only(s, s', w, n, free)
    requires HEADER <= x && x + m <= free && Apart(w, n, x, m)
    ensures s'[x..x + m] == s[x..x + m]
  {
  }

  /** A field slot and its data that the write does not meet still hold the same value. */
  lemma {:induction false} KeptCell(s: seq<byte>, s': seq<byte>, w: nat, n: nat, free: nat, free': nat, a: nat)
    requires Only(s, s', w, n, free) && free <= free' <= |s|
    requires HEADER <= a && a + FIELD <= free && Apart(w, n, a, FIELD)
    requires CellIn(s, a, free)
    requires HasData(s, a) ==> Apart(w, n, DataAt(s, a), DataSize(s, a))
    ensures CellIn(s', a, free') && Cell(s', a, free') == Cell(s, a, free)
    ensures U32(s', a) == U32(s, a) && DataAt(s', a) == DataAt(s, a) && DataSize(s', a) == DataSize(s, a)
  {
    Kept(s, s', w, n, free, a, 4);
    Kept(s, s', w, n, free, a + 4, 4);
    Kept(s, s', w, n, free, a + 8, 4);
    Kept(s, s', w, n, free, a + 4, 8);
    if HasData(s, a) {
      Kept(s, s', w, n, free, DataAt(s, a), DataSize(s, a));
    }
  }

  /** Two shapes over the same columns agree below `free`: what `sh'` adds lies above it. */
  ghost predicate Extends(sh: Shape, sh': Shape, free: nat) {
    && sh'.columns == sh.columns
    && (forall i :: 0 <= i < |sh'.chunks| ==> sh'.chunks[i] in sh.chunks || free <= sh'.chunks[i])
    && (forall r :: 0 <= r < |sh'.dirs| ==> sh'.dirs[r] in sh.dirs || free <= sh'.dirs[r])
  }

  lemma {:induction false} KeptCellOk(s: seq<byte>, s': seq<byte>, w: nat, n: nat, free: nat, free': nat,
                   a: nat, sh: Shape, sh': Shape, v: Value)
    requires Only(s, s', w, n, free) && free <= free' <= |s|
    requires HEADER <= a && a + FIELD <= free && Apart(w, n, a, FIELD)
    requires CellOk(s, a, sh, free, v)
    requires HasData(s, a) ==> Apart(w, n, DataAt(s, a), DataSize(s, a))
    requires Extends(sh, sh', free)
    ensures CellOk(s', a, sh', free', v)
    ensures U32(s', a) == U32(s, a) && DataAt(s', a) == DataAt(s, a) && DataSize(s', a) == DataSize(s, a)
  {
    KeptCell(s, s', w, n, free, free', a);
  }

  /** A write that meets no chunk keeps the chain and every row slot. */
  lemma {:induction false} KeptChunks(s: seq<byte>, s': seq<byte>, w: nat, n: nat, sh: Shape, free: nat)
    requires ChunksPlaced(sh.chunks, free) && |sh.dirs| <= CHUNK_ROWS * |sh.chunks|
    requires Only(s, s', w, n, free)
    requires forall i :: 0 <= i < |sh.chunks| ==> Apart(w, n, sh.chunks[i], CHUNK)
    requires ChainLinked(s, sh.chunks) && SlotsFilled(s, sh)
    ensures ChainLinked(s', sh.chunks) && SlotsFilled(s', sh)
  {
    forall i | 0 <= i < |sh.chunks|
      ensures U32(s', sh.chunks[i] + NEXT) == U32(s, sh.chunks[i] + NEXT)
    {
      Kept(s, s', w, n, free, sh.chunks[i] + NEXT, 4);
    }
    forall r | 0 <= r < |sh.dirs|
      ensures U32(s', SlotAt(sh.chunks, r)) == U32(s, SlotAt(sh.chunks, r))
    {
      assert Apart(w, n, sh.chunks[r / CHUNK_ROWS], CHUNK);
      Kept(s, s', w, n, free, SlotAt(sh.chunks, r), 4);
    }
  }

  /** Bytes changed only above `free` and in the header words: the table is the same. */
  lemma {:induction false} SameTable(s: seq<byte>, s': seq<byte>, sh: Shape, t: Table)
    requires Represents(s, sh, t)
    requires Only(s, s', Free(s), 0, Free(s))
    requires HeaderOk(s', |t|, sh.columns) && Free(s) <= Free(s')
    ensures Represents(s', sh, t)
  {
    KeptChunks(s, s', Free(s), 0, sh, Free(s));
    DataBelow(s, sh, t);
    KeptCells(s, s', Free(s), 0, sh, sh, t, Free(s'));
  }

  lemma {:induction false} DataBelow(s: seq<byte>, sh: Shape, t: Table)
    requires Represents(s, sh, t)
    ensures forall r, c :: 0 <= r < |t| && 0 <= c < sh.columns ==> FieldAt(sh, r, c) + FIELD <= Free(s)
    ensures forall r, c :: 0 <= r < |t| && 0 <= c < sh.columns && HasData(s, FieldAt(sh, r, c)) ==>
              DataAt(s, FieldAt(sh, r, c)) + DataSize(s, FieldAt(sh, r, c)) <= Free(s)
  {
    forall r, c | 0 <= r < |t| && 0 <= c < sh.columns
      ensures CellOk(s, FieldAt(sh, r, c), sh, Free(s), t[r][c])
    {
    }
  }

  /** The data of a field slot of the new layout, if any, was there before. */
  ghost predicate DataKept(s: seq<byte>, s': seq<byte>, sh: Shape, sh': Shape, free: nat, r: nat, c: nat)
    requires r < |sh'.dirs|
  {
    var a := FieldAt(sh', r, c);
    a + FIELD <= |s'| && HasData(s', a) ==>
      && r < |sh.dirs| && sh'.dirs[r] == sh.dirs[r] && CellIn(s, a, free) && HasData(s, a)
      && DataAt(s', a) == DataAt(s, a) && DataSize(s', a) == DataSize(s, a)
  }

  /** Data that were disjoint and have stayed are disjoint. */
  lemma {:induction false} StaysDisjoint(s: seq<byte>, s': seq<byte>, sh: Shape, sh': Shape, free: nat, free': nat)
    requires DataDisjoint(s, sh, free) && sh'.columns == sh.columns
    requires forall r, c :: 0 <= r < |sh'.dirs| && 0 <= c < sh.columns ==> DataKept(s, s', sh, sh', free, r, c)
    ensures DataDisjoint(s', sh', free')
  {
    hide HasData, DataAt, DataSize;
    forall r, c, q, d | 0 <= r < |sh'.dirs| && 0 <= c < sh.columns && 0 <= q < |sh'.dirs| && 0 <= d < sh.columns &&
                        (r != q || c != d)
      ensures !DataMeets(s', FieldAt(sh', r, c), FieldAt(sh', q, d), free')
    {
      assert DataKept(s, s', sh, sh', free, r, c) && DataKept(s, s', sh, sh', free, q, d);
      if r < |sh.dirs| && q < |sh.dirs| {
        assert !DataMeets(s, FieldAt(sh, r, c), FieldAt(sh, q, d), free);
      }
    }
  }

  /** A write that meets no live field slot and no live data keeps every cell. */
  lemma {:induction false} KeptCells(s: seq<byte>, s': seq<byte>, w: nat, n: nat, sh: Shape, sh': Shape, t: Table,
                                     free': nat)
    requires Represents(s, sh, t)
    requires Only(s, s', w, n, Free(s)) && Free(s) <= free' <= |s|
    requires forall r :: 0 <= r < |t| ==> Apart(w, n, sh.dirs[r], DirSize(sh.columns))
    requires forall r, c :: 0 <= r < |t| && 0 <= c < sh.columns && HasData(s, FieldAt(sh, r, c)) ==>
               Apart(w, n, DataAt(s, FieldAt(sh, r, c)), DataSize(s, FieldAt(sh, r, c)))
    requires Extends(sh, sh', Free(s)) && sh'.dirs == sh.dirs
    ensures CellsOk(s', sh', free', t)
    ensures DataDisjoint(s', sh', free')
  {
    hide ChainLinked, SlotsFilled, DataDisjoint, Only;
    var f := Free(s);
    forall r, c | 0 <= r < |t| && 0 <= c < sh.columns
      ensures CellOk(s', FieldAt(sh', r, c), sh', free', t[r][c])
      ensures DataKept(s, s', sh, sh', f, r, c)
    {
      assert CellOk(s, FieldAt(sh, r, c), sh, f, t[r][c]);
      KeptCellOk(s, s', w, n, f, free', FieldAt(sh, r, c), sh, sh', t[r][c]);
    }
    StaysDisjoint(s, s', sh, sh', f, free');
  }

  // ---- what each window operation does to the bytes, and what that does to the table ----

  function Last(chunks: seq<nat>): nat
    requires |chunks| > 0
  {
    chunks[|chunks| - 1]
  }

  /** A new chunk at `o`, above everything in use, is linked to the end of the chain. */
  lemma {:induction false} LinkChunk(s: seq<byte>, s': seq<byte>, sh: Shape, t: Table, o: nat)
    requires Represents(s, sh, t)
    requires o % 4 == 0 && Free(s) <= o && o + CHUNK <= |s|
    requires Only(s, s', Last(sh.chunks) + NEXT, 4, Free(s))
    requires U32(s', Last(sh.chunks) + NEXT) == o && U32(s', o + NEXT) == 0
    requires HeaderOk(s', |t|, sh.columns) && Free(s') == o + CHUNK
    ensures Represents(s', sh.(chunks := sh.chunks + [o]), t)
  {
    hide CellsOk, DataDisjoint, DirsPlaced, SlotsFilled, ChainLinked, U32;
    var sh' := sh.(chunks := sh.chunks + [o]);
    ChunkAdded(sh, Free(s), o);
    LongerChain(s, s', sh.chunks, o, Free(s));
    OtherSlots(s, s', sh, |sh.chunks| - 1, Free(s));
    SlotsInLongerChain(s', sh, sh', Free(s'));
    ChunkWriteKeepsCells(s, s', sh, sh', t, |sh.chunks| - 1, NEXT, Free(s'));
  }

  lemma {:induction false} ChunkAdded(sh: Shape, free: nat, o: nat)
    requires ChunksPlaced(sh.chunks, free) && DirsPlaced(sh, free) && o % 4 == 0 && free <= o
    ensures ChunksPlaced(sh.chunks, o + CHUNK) && ChunksPlaced(sh.chunks + [o], o + CHUNK)
    ensures DirsPlaced(sh.(chunks := sh.chunks + [o]), o + CHUNK)
    ensures |sh.dirs| <= CHUNK_ROWS * |sh.chunks|
    ensures Extends(sh, sh.(chunks := sh.chunks + [o]), free)
  {
    assert forall i :: 0 <= i < |sh.chunks| ==> (sh.chunks + [o])[i] == sh.chunks[i];
  }

  /** A write to the link word of chunk `k` keeps the other links. */
  lemma {:induction false} OtherLinks(s: seq<byte>, s': seq<byte>, chunks: seq<nat>, k: nat, free: nat)
    requires ChunksPlaced(chunks, free) && k < |chunks|
    requires Only(s, s', chunks[k] + NEXT, 4, free)
    ensures forall i :: 0 <= i < |chunks| && i != k ==> U32(s', chunks[i] + NEXT) == U32(s, chunks[i] + NEXT)
  {
    forall i | 0 <= i < |chunks| && i != k
      ensures U32(s', chunks[i] + NEXT) == U32(s, chunks[i] + NEXT)
    {
      Kept(s, s', chunks[k] + NEXT, 4, free, chunks[i] + NEXT, 4);
    }
  }

  lemma {:induction false} LongerChain(s: seq<byte>, s': seq<byte>, chunks: seq<nat>, o: nat, free: nat)
    requires ChunksPlaced(chunks, free) && ChunksPlaced(chunks + [o], o + CHUNK)
    requires Only(s, s', Last(chunks) + NEXT, 4, free) && free <= o && o + CHUNK <= |s| == |s'|
    requires ChainLinked(s, chunks)
    requires U32(s', Last(chunks) + NEXT) == o && U32(s', o + NEXT) == 0
    ensures ChainLinked(s', chunks + [o])
  {
    OtherLinks(s, s', chunks, |chunks| - 1, free);
    hide U32, Only;
  }

  lemma {:induction false} ShorterChain(s: seq<byte>, s': seq<byte>, chunks: seq<nat>, k: nat, free: nat)
    requires ChunksPlaced(chunks, free) && k < |chunks|
    requires Only(s, s', chunks[k] + NEXT, 4, free) && free <= |s| == |s'| && ChainLinked(s, chunks)
    requires U32(s', chunks[k] + NEXT) == 0
    ensures ChainLinked(s', chunks[..k + 1])
  {
    OtherLinks(s, s', chunks, k, free);
    hide U32, Only;
  }

  /** Row slots are where they were after the chain grew or lost chunks without rows. */
  lemma {:induction false} SlotsInLongerChain(s: seq<byte>, sh: Shape, sh': Shape, free: nat)
    requires ChunksPlaced(sh.chunks, free) && ChunksPlaced(sh'.chunks, free) && free <= |s|
    requires sh.chunks <= sh'.chunks || sh'.chunks <= sh.chunks
    requires sh'.dirs == sh.dirs
    requires |sh.dirs| <= CHUNK_ROWS * |sh.chunks| && |sh.dirs| <= CHUNK_ROWS * |sh'.chunks|
    requires SlotsFilled(s, sh)
    ensures SlotsFilled(s, sh')
  {
    forall r | 0 <= r < |sh.dirs|
      ensures U32(s, SlotAt(sh'.chunks, r)) == sh.dirs[r]
    {
      assert SlotAt(sh'.chunks, r) == SlotAt(sh.chunks, r);
    }
  }

  /** A write to the link word of chunk `k` keeps every row slot. */
  lemma {:induction false} OtherSlots(s: seq<byte>, s': seq<byte>, sh: Shape, k: nat, free: nat)
    requires ChunksPlaced(sh.chunks, free) && |sh.dirs| <= CHUNK_ROWS * |sh.chunks| && k < |sh.chunks|
    requires Only(s, s', sh.chunks[k] + NEXT, 4, free)
    requires SlotsFilled(s, sh)
    ensures SlotsFilled(s', sh)
  {
    forall r | 0 <= r < |sh.dirs|
      ensures U32(s', SlotAt(sh.chunks, r)) == U32(s, SlotAt(sh.chunks, r))
    {
      Kept(s, s', sh.chunks[k] + NEXT, 4, free, SlotAt(sh.chunks, r), 4);
    }
  }

  /** A write of one word inside a chunk keeps every cell. */
  lemma {:induction false} ChunkWriteKeepsCells(s: seq<byte>, s': seq<byte>, sh: Shape, sh': Shape, t: Table, k: nat,
                                                o: nat, free': nat)
    requires Represents(s, sh, t)
    requires k < |sh.chunks| && o + 4 <= CHUNK && Free(s) <= free' <= |s|
    requires Only(s, s', sh.chunks[k] + o, 4, Free(s))
    requires Extends(sh, sh', Free(s)) && sh'.dirs == sh.dirs
    ensures CellsOk(s', sh', free', t)
    ensures DataDisjoint(s', sh', free')
  {
    var w := sh.chunks[k] + o;
    forall r | 0 <= r < |t|
      ensures Apart(w, 4, sh.dirs[r], DirSize(sh.columns))
    {
      assert Apart(sh.chunks[k], CHUNK, sh.dirs[r], DirSize(sh.columns));
    }
    forall r, c | 0 <= r < |t| && 0 <= c < sh.columns && HasData(s, FieldAt(sh, r, c))
      ensures Apart(w, 4, DataAt(s, FieldAt(sh, r, c)), DataSize(s, FieldAt(sh, r, c)))
    {
      assert CellOk(s, FieldAt(sh, r, c), sh, Free(s), t[r][c]);
      assert Apart(sh.chunks[k], CHUNK, DataAt(s, FieldAt(sh, r, c)), DataSize(s, FieldAt(sh, r, c)));
    }
    KeptCells(s, s', w, 4, sh, sh', t, free');
  }

  /** Chunk `k` becomes the end of the chain; no live row has its slot beyond it. */
  lemma {:induction false} CutChain(s: seq<byte>, s': seq<byte>, sh: Shape, t: Table, k: nat)
    requires Represents(s, sh, t)
    requires k < |sh.chunks| && |t| <= CHUNK_ROWS * (k + 1)
    requires Only(s, s', sh.chunks[k] + NEXT, 4, Free(s))
    requires U32(s', sh.chunks[k] + NEXT) == 0
    requires HeaderOk(s', |t|, sh.columns) && Free(s') == Free(s)
    ensures Represents(s', sh.(chunks := sh.chunks[..k + 1]), t)
  {
    hide CellsOk, DataDisjoint, DirsPlaced, SlotsFilled, ChainLinked, U32;
    var sh' := sh.(chunks := sh.chunks[..k + 1]);
    ChunksCut(sh, Free(s), k);
    ShorterChain(s, s', sh.chunks, k, Free(s));
    OtherSlots(s, s', sh, k, Free(s));
    SlotsInLongerChain(s', sh, sh', Free(s'));
    ChunkWriteKeepsCells(s, s', sh, sh', t, k, NEXT, Free(s'));
  }

  lemma {:induction false} ChunksCut(sh: Shape, free: nat, k: nat)
    requires ChunksPlaced(sh.chunks, free) && DirsPlaced(sh, free)
    requires k < |sh.chunks| && |sh.dirs| <= CHUNK_ROWS * (k + 1)
    ensures ChunksPlaced(sh.chunks[..k + 1], free)
    ensures DirsPlaced(sh.(chunks := sh.chunks[..k + 1]), free)
    ensures |sh.dirs| <= CHUNK_ROWS * |sh.chunks|
    ensures Extends(sh, sh.(chunks := sh.chunks[..k + 1]), free)
  {
  }

  /** The next free slot gets a zeroed field directory at `d`, above everything in use. */
  lemma {:induction false} AppendRow(s: seq<byte>, s': seq<byte>, sh: Shape, t: Table, d: nat)
    requires Represents(s, sh, t)
    requires |t| < CHUNK_ROWS * |sh.chunks|
    requires d % 4 == 0 && Free(s) <= d && d + DirSize(sh.columns) <= |s|
    requires Only(s, s', SlotAt(sh.chunks, |t|), 4, Free(s))
    requires U32(s', SlotAt(sh.chunks, |t|)) == d
    requires Zeros(s'[d..d + DirSize(sh.columns)])
    requires HeaderOk(s', |t| + 1, sh.columns) && Free(s') == d + DirSize(sh.columns)
    ensures Represents(s', sh.(dirs := sh.dirs + [d]), t + [NullRow(sh.columns)])
  {
    hide CellsOk, DataDisjoint, DirsPlaced, Only, ChainLinked, Zeros;
    var n, f := |t|, Free(s);
    var sh' := sh.(dirs := sh.dirs + [d]);
    DirAdded(sh, f, d);
    SlotWrite(s, s', sh, f);
    ChunkWriteKeepsCells(s, s', sh, sh, t, n / CHUNK_ROWS, 4 * (n % CHUNK_ROWS), f);
    AppendedCells(s', sh, t, d, f);
  }

  lemma {:induction false} DirAdded(sh: Shape, free: nat, d: nat)
    requires ChunksPlaced(sh.chunks, free) && DirsPlaced(sh, free) && |sh.dirs| < CHUNK_ROWS * |sh.chunks|
    requires d % 4 == 0 && HEADER + CHUNK <= free <= d
    ensures DirsPlaced(sh.(dirs := sh.dirs + [d]), d + DirSize(sh.columns))
    ensures ChunksPlaced(sh.chunks, d + DirSize(sh.columns))
    ensures Extends(sh, sh, free)
  {
  }

  /** A write to the first slot beyond the live rows keeps the chain and every row slot. */
  lemma {:induction false} SlotWrite(s: seq<byte>, s': seq<byte>, sh: Shape, free: nat)
    requires ChunksPlaced(sh.chunks, free) && |sh.dirs| < CHUNK_ROWS * |sh.chunks|
    requires Only(s, s', SlotAt(sh.chunks, |sh.dirs|), 4, free)
    requires ChainLinked(s, sh.chunks) && SlotsFilled(s, sh)
    ensures ChainLinked(s', sh.chunks) && SlotsFilled(s', sh)
  {
    var w := SlotAt(sh.chunks, |sh.dirs|);
    forall i | 0 <= i < |sh.chunks|
      ensures U32(s', sh.chunks[i] + NEXT) == U32(s, sh.chunks[i] + NEXT)
    {
      Kept(s, s', w, 4, free, sh.chunks[i] + NEXT, 4);
    }
    forall r | 0 <= r < |sh.dirs|
      ensures U32(s', SlotAt(sh.chunks, r)) == U32(s, SlotAt(sh.chunks, r))
    {
      DistinctSlots(sh.chunks, free, r, |sh.dirs|);
      Kept(s, s', w, 4, free, SlotAt(sh.chunks, r), 4);
    }
  }

  lemma {:induction false} DistinctSlots(chunks: seq<nat>, free: nat, r: nat, q: nat)
    requires ChunksPlaced(chunks, free)
    requires r < q < CHUNK_ROWS * |chunks|
    ensures SlotAt(chunks, r) + 4 <= SlotAt(chunks, q)
  {
  }

  lemma {:induction false} AppendedCells(s: seq<byte>, sh: Shape, t: Table, d: nat, free: nat)
    requires |t| == |sh.dirs| && forall r :: 0 <= r < |t| ==> |t[r]| == sh.columns
    requires free <= d && d + DirSize(sh.columns) <= |s|
    requires CellsOk(s, sh, free, t) && DataDisjoint(s, sh, free)
    requires Zeros(s[d..d + DirSize(sh.columns)])
    ensures CellsOk(s, sh.(dirs := sh.dirs + [d]), d + DirSize(sh.columns), t + [NullRow(sh.columns)])
    ensures DataDisjoint(s, sh.(dirs := sh.dirs + [d]), d + DirSize(sh.columns))
  {
    var sh', free' := sh.(dirs := sh.dirs + [d]), d + DirSize(sh.columns);
    var t' := t + [NullRow(sh.columns)];
    forall r, c | 0 <= r < |t'| && 0 <= c < sh.columns
      ensures CellOk(s, FieldAt(sh', r, c), sh', free', t'[r][c])
    {
      AppendedCell(s, sh, t, d, free, r, c);
    }
    AppendedDisjoint(s, sh, t, d, free);
  }

  lemma {:induction false} AppendedCell(s: seq<byte>, sh: Shape, t: Table, d: nat, free: nat, r: nat, c: nat)
    requires |t| == |sh.dirs| && forall q :: 0 <= q < |t| ==> |t[q]| == sh.columns
    requires free <= d && d + DirSize(sh.columns) <= |s|
    requires CellsOk(s, sh, free, t) && Zeros(s[d..d + DirSize(sh.columns)])
    requires r <= |t| && c < sh.columns
    ensures var sh' := sh.(dirs := sh.dirs + [d]);
            CellOk(s, FieldAt(sh', r, c), sh', d + DirSize(sh.columns), (t + [NullRow(sh.columns)])[r][c])
  {
    if r == |t| {
      NullCell(s, d, sh.columns, c, d + DirSize(sh.columns));
    } else {
      assert CellOk(s, FieldAt(sh, r, c), sh, free, t[r][c]);
    }
  }

  lemma {:induction false} AppendedDisjoint(s: seq<byte>, sh: Shape, t: Table, d: nat, free: nat)
    requires |t| == |sh.dirs| && forall r :: 0 <= r < |t| ==> |t[r]| == sh.columns
    requires free <= d && d + DirSize(sh.columns) <= |s|
    requires CellsOk(s, sh, free, t) && DataDisjoint(s, sh, free)
    requires Zeros(s[d..d + DirSize(sh.columns)])
    ensures DataDisjoint(s, sh.(dirs := sh.dirs + [d]), d + DirSize(sh.columns))
  {
    hide DataDisjoint, Zeros;
    var sh', free' := sh.(dirs := sh.dirs + [d]), d + DirSize(sh.columns);
    forall r, c | 0 <= r < |sh'.dirs| && 0 <= c < sh.columns
      ensures DataKept(s, s, sh, sh', free, r, c)
    {
      if r == |t| {
        NullCell(s, d, sh.columns, c, free');
      } else {
        assert CellOk(s, FieldAt(sh, r, c), sh, free, t[r][c]);
      }
    }
    StaysDisjoint(s, s, sh, sh', free, free');
  }

  /** A field slot in a zeroed directory is NULL. */
  lemma {:induction false} NullCell(s: seq<byte>, d: nat, columns: nat, c: nat, free: nat)
    requires c < columns && d + DirSize(columns) <= free <= |s|
    requires Zeros(s[d..d + DirSize(columns)])
    ensures CellIn(s, d + FIELD * c, free) && Cell(s, d + FIELD * c, free) == Null
    ensures !HasData(s, d + FIELD * c)
  {
    var a := d + FIELD * c;
    var b := s[a..a + 4];
    forall i | 0 <= i < 4
      ensures b[i] == 0
    {
      assert b[i] == s[d..d + DirSize(columns)][FIELD * c + i];
    }
    ZeroValue(b);
  }

  /** The last row is dropped; its bytes stay behind as garbage. */
  lemma {:induction false} DropRow(s: seq<byte>, s': seq<byte>, sh: Shape, t: Table)
    requires Represents(s, sh, t) && |t| > 0
    requires Only(s, s', Free(s), 0, Free(s))
    requires HeaderOk(s', |t| - 1, sh.columns) && Free(s') == Free(s)
    ensures Represents(s', sh.(dirs := sh.dirs[..|t| - 1]), t[..|t| - 1])
  {
    hide CellsOk, DataDisjoint, ChainLinked;
    KeptChunks(s, s', Free(s), 0, sh, Free(s));
    DataBelow(s, sh, t);
    KeptCells(s, s', Free(s), 0, sh, sh, t, Free(s'));
    DroppedCells(s', sh, t, Free(s'));
  }

  lemma {:induction false} DroppedCells(s: seq<byte>, sh: Shape, t: Table, free: nat)
    requires |t| == |sh.dirs| > 0 && forall r :: 0 <= r < |t| ==> |t[r]| == sh.columns
    requires CellsOk(s, sh, free, t) && DataDisjoint(s, sh, free)
    ensures CellsOk(s, sh.(dirs := sh.dirs[..|t| - 1]), free, t[..|t| - 1])
    ensures DataDisjoint(s, sh.(dirs := sh.dirs[..|t| - 1]), free)
  {
    hide DataDisjoint;
    var sh', t' := sh.(dirs := sh.dirs[..|t| - 1]), t[..|t| - 1];
    forall r, c | 0 <= r < |t'| && 0 <= c < sh.columns
      ensures CellOk(s, FieldAt(sh', r, c), sh', free, t'[r][c])
      ensures DataKept(s, s, sh, sh', free, r, c)
    {
      assert CellOk(s, FieldAt(sh, r, c), sh, free, t[r][c]);
    }
    StaysDisjoint(s, s, sh, sh', free, free);
  }

  /** One field slot is rewritten; string or blob bytes, if any, were placed above everything in use. */
  lemma {:induction false} PutCell(s: seq<byte>, s': seq<byte>, sh: Shape, t: Table, r: nat, c: nat, v: Value)
    requires Represents(s, sh, t)
    requires r < |t| && c < sh.columns
    requires Only(s, s', FieldAt(sh, r, c), FIELD, Free(s))
    requires HeaderOk(s', |t|, sh.columns) && Free(s) <= Free(s')
    requires CellIn(s', FieldAt(sh, r, c), Free(s')) && Cell(s', FieldAt(sh, r, c), Free(s')) == v
    requires HasData(s', FieldAt(sh, r, c)) ==> Free(s) <= DataAt(s', FieldAt(sh, r, c))
    ensures Represents(s', sh, t[r := t[r][c := v]])
  {
    hide CellsOk, DataDisjoint, CellIn, Cell;
    var a := FieldAt(sh, r, c);
    forall i | 0 <= i < |sh.chunks|
      ensures Apart(a, FIELD, sh.chunks[i], CHUNK)
    {
      assert Apart(sh.chunks[i], CHUNK, sh.dirs[r], DirSize(sh.columns));
    }
    KeptChunks(s, s', a, FIELD, sh, Free(s));
    PutCellOk(s, s', sh, t, r, c, v);
    PutCellDisjoint(s, s', sh, t, r, c);
  }

  lemma {:induction false} PutCellOk(s: seq<byte>, s': seq<byte>, sh: Shape, t: Table, r: nat, c: nat, v: Value)
    requires Represents(s, sh, t)
    requires r < |t| && c < sh.columns
    requires Only(s, s', FieldAt(sh, r, c), FIELD, Free(s))
    requires Free(s) <= Free(s') <= |s'|
    requires CellIn(s', FieldAt(sh, r, c), Free(s')) && Cell(s', FieldAt(sh, r, c), Free(s')) == v
    requires HasData(s', FieldAt(sh, r, c)) ==> Free(s) <= DataAt(s', FieldAt(sh, r, c))
    ensures CellsOk(s', sh, Free(s'), t[r := t[r][c := v]])
  {
    hide DataDisjoint, ChainLinked, SlotsFilled;
    var t' := t[r := t[r][c := v]];
    forall q, d | 0 <= q < |t| && 0 <= d < sh.columns
      ensures CellOk(s', FieldAt(sh, q, d), sh, Free(s'), t'[q][d])
    {
      if q != r || d != c {
        OtherCell(s, s', sh, t, r, c, q, d, Free(s'));
      } else {
        DataAboveApart(s', sh, FieldAt(sh, r, c), Free(s));
      }
    }
  }

  /** Data placed above everything in use meets no chunk and no directory. */
  lemma {:induction false} DataAboveApart(s: seq<byte>, sh: Shape, a: nat, free: nat)
    requires ChunksPlaced(sh.chunks, free) && DirsPlaced(sh, free) && a + FIELD <= |s|
    requires HasData(s, a) ==> free <= DataAt(s, a)
    ensures DataApart(s, a, sh)
  {
  }

  lemma {:induction false} PutCellDisjoint(s: seq<byte>, s': seq<byte>, sh: Shape, t: Table, r: nat, c: nat)
    requires Represents(s, sh, t)
    requires r < |t| && c < sh.columns
    requires Only(s, s', FieldAt(sh, r, c), FIELD, Free(s))
    requires Free(s) <= Free(s') <= |s'|
    requires HasData(s', FieldAt(sh, r, c)) ==> Free(s) <= DataAt(s', FieldAt(sh, r, c))
    ensures DataDisjoint(s', sh, Free(s'))
  {
    hide CellsOk, ChainLinked, SlotsFilled;
    forall q, d, q', d' | 0 <= q < |t| && 0 <= d < sh.columns && 0 <= q' < |t| && 0 <= d' < sh.columns &&
                          (q != q' || d != d')
      ensures !DataMeets(s', FieldAt(sh, q, d), FieldAt(sh, q', d'), Free(s'))
    {
      if q != r || d != c {
        OtherCell(s, s', sh, t, r, c, q, d, Free(s'));
      }
      if q' != r || d' != c {
        OtherCell(s, s', sh, t, r, c, q', d', Free(s'));
      }
      assert !DataMeets(s, FieldAt(sh, q, d), FieldAt(sh, q', d'), Free(s));
    }
  }

  lemma {:induction false} OtherCell(s: seq<byte>, s': seq<byte>, sh: Shape, t: Table, r: nat, c: nat, q: nat, d: nat,
                                     free': nat)
    requires Represents(s, sh, t)
    requires r < |t| && c < sh.columns && q < |t| && d < sh.columns && (q != r || d != c)
    requires Only(s, s', FieldAt(sh, r, c), FIELD, Free(s)) && Free(s) <= free' <= |s|
    ensures CellOk(s', FieldAt(sh, q, d), sh, free', t[q][d])
    ensures U32(s', FieldAt(sh, q, d)) == U32(s, FieldAt(sh, q, d))
    ensures DataAt(s', FieldAt(sh, q, d)) == DataAt(s, FieldAt(sh, q, d))
    ensures DataSize(s', FieldAt(sh, q, d)) == DataSize(s, FieldAt(sh, q, d))
    ensures CellIn(s, FieldAt(sh, q, d), Free(s))
  {
    var a, b := FieldAt(sh, r, c), FieldAt(sh, q, d);
    assert CellOk(s, b, sh, Free(s), t[q][d]);
    assert Apart(a, FIELD, b, FIELD) by {
      if r < q {
        assert sh.dirs[r] + DirSize(sh.columns) <= sh.dirs[q];
      } else if q < r {
        assert sh.dirs[q] + DirSize(sh.columns) <= sh.dirs[r];
      }
    }
    if HasData(s, b) {
      assert Apart(sh.dirs[r], DirSize(sh.columns), DataAt(s, b), DataSize(s, b));
    }
    KeptCellOk(s, s', a, FIELD, Free(s), free', b, sh, sh, t[q][d]);
  }

  // ---- what the layout promises ----

  /** The regions of a window. */
  datatype Region = Head | ChunkOf(i: nat) | DirOf(r: nat) | DataOf(row: nat, column: nat)

  ghost predicate Live(s: seq<byte>, sh: Shape, x: Region)
  {
    match x
    case Head => true
    case ChunkOf(i) => i < |sh.chunks|
    case DirOf(r) => r < |sh.dirs|
    case DataOf(r, c) =>
      r < |sh.dirs| && c < sh.columns && FieldAt(sh, r, c) + FIELD <= |s| && HasData(s, FieldAt(sh, r, c))
  }

  ghost function Start(s: seq<byte>, sh: Shape, x: Region): nat
    requires Live(s, sh, x)
  {
    match x
    case Head => 0
    case ChunkOf(i) => sh.chunks[i]
    case DirOf(r) => sh.dirs[r]
    case DataOf(r, c) => DataAt(s, FieldAt(sh, r, c))
  }

  ghost function Length(s: seq<byte>, sh: Shape, x: Region): nat
    requires Live(s, sh, x)
  {
    match x
    case Head => HEADER
    case ChunkOf(_) => CHUNK
    case DirOf(_) => DirSize(sh.columns)
    case DataOf(r, c) => DataSize(s, FieldAt(sh, r, c))
  }

  /** Header, chunks, field directories and cell data are pairwise disjoint and lie below the free offset, which lies
      within the window. */
  lemma {:induction false} RegionsDisjoint(s: seq<byte>, sh: Shape, t: Table, x: Region, y: Region)
    requires Represents(s, sh, t)
    requires x != y && Live(s, sh, x) && Live(s, sh, y)
    ensures Apart(Start(s, sh, x), Length(s, sh, x), Start(s, sh, y), Length(s, sh, y))
    ensures Start(s, sh, x) + Length(s, sh, x) <= Free(s) <= |s|
  {
    if x.DataOf? {
      assert CellOk(s, FieldAt(sh, x.row, x.column), sh, Free(s), t[x.row][x.column]);
    }
    if y.DataOf? {
      assert CellOk(s, FieldAt(sh, y.row, y.column), sh, Free(s), t[y.row][y.column]);
    }
    if x.DataOf? && y.DataOf? {
      assert !DataMeets(s, FieldAt(sh, x.row, x.column), FieldAt(sh, y.row, y.column), Free(s));
    }
  }

  /** The format of a window: the words of the header, the links at offset 400 of each chunk, the slot of row r as word
      r % 100 of chunk r / 100, and the 12 bytes of a field. */
  lemma {:induction false} Format(s: seq<byte>, sh: Shape, t: Table)
    requires Represents(s, sh, t)
    ensures |s| >= 420 && U32(s, 0) <= |s| && U32(s, 4) == 16 && U32(s, 8) == |t| && U32(s, 12) == sh.columns
    ensures |sh.chunks| > 0 && sh.chunks[0] == 16
    ensures forall i :: 0 <= i < |sh.chunks| ==>
              && sh.chunks[i] + 404 <= |s|
              && U32(s, sh.chunks[i] + 400) == if i + 1 < |sh.chunks| then sh.chunks[i + 1] else 0
    ensures forall r :: 0 <= r < |t| ==> r / 100 < |sh.chunks| && |t[r]| == sh.columns
    ensures forall r, c :: 0 <= r < |t| && 0 <= c < sh.columns ==>
              FieldHolds(s, U32(s, sh.chunks[r / 100] + 4 * (r % 100)) + 12 * c, t[r][c])
  {
    forall r, c | 0 <= r < |t| && 0 <= c < sh.columns
      ensures FieldHolds(s, U32(s, sh.chunks[r / 100] + 4 * (r % 100)) + 12 * c, t[r][c])
    {
      assert U32(s, SlotAt(sh.chunks, r)) == sh.dirs[r];
      assert CellOk(s, FieldAt(sh, r, c), sh, Free(s), t[r][c]);
    }
  }

  /** The 12 bytes of a field: the type, and an integer in two's complement, a double's bits, or the offset and the size
      of the bytes. */
  predicate FieldHolds(s: seq<byte>, a: nat, v: Value) {
    && a + 12 <= |s|
    && match v
       case Null => U32(s, a) == 0
       case Integer(i) => U32(s, a) == 1 && U64(s, a + 4) == i % 0x1_0000_0000_0000_0000
       case Float(bits) => U32(s, a) == 2 && U64(s, a + 4) == bits
       case Str(bytes) =>
         && U32(s, a) == 3 && U32(s, a + 4) + U32(s, a + 8) <= |s|
         && bytes == s[U32(s, a + 4)..U32(s, a + 4) + U32(s, a + 8)]
       case Blob(bytes) =>
         && U32(s, a) == 4 && U32(s, a + 4) + U32(s, a + 8) <= |s|
         && bytes == s[U32(s, a + 4)..U32(s, a + 4) + U32(s, a + 8)]
  }

  /** The bytes of a window determine its table, whatever the bookkeeping says. */
  lemma {:induction false} TableDetermined(s: seq<byte>, sh: Shape, t: Table, sh': Shape, t': Table)
    requires Represents(s, sh, t) && Represents(s, sh', t')
    ensures t == t' && sh == sh'
  {
    hide CellsOk, DataDisjoint;
    ChainDetermined(s, sh.chunks, sh'.chunks, |sh.chunks|, Free(s));
    ChainDetermined(s, sh'.chunks, sh.chunks, |sh'.chunks|, Free(s));
    assert sh.chunks == sh'.chunks;
    forall r | 0 <= r < |t|
      ensures sh.dirs[r] == sh'.dirs[r]
    {
      assert U32(s, SlotAt(sh.chunks, r)) == sh.dirs[r];
    }
    assert sh.dirs == sh'.dirs;
    CellsDetermined(s, sh, Free(s), t, t');
  }

  lemma {:induction false} CellsDetermined(s: seq<byte>, sh: Shape, free: nat, t: Table, t': Table)
    requires |t| == |t'| == |sh.dirs| && forall r :: 0 <= r < |t| ==> |t[r]| == |t'[r]| == sh.columns
    requires CellsOk(s, sh, free, t) && CellsOk(s, sh, free, t')
    ensures t == t'
  {
    forall r | 0 <= r < |t|
      ensures t[r] == t'[r]
    {
      forall c | 0 <= c < sh.columns
        ensures t[r][c] == t'[r][c]
      {
        assert CellOk(s, FieldAt(sh, r, c), sh, free, t[r][c]) && CellOk(s, FieldAt(sh, r, c), sh, free, t'[r][c]);
      }
    }
  }

  lemma {:induction false} LinkAt(s: seq<byte>, chunks: seq<nat>, i: nat)
    requires forall k :: 0 <= k < |chunks| ==> HEADER <= chunks[k] && chunks[k] + CHUNK <= |s|
    requires ChainLinked(s, chunks) && i < |chunks|
    ensures U32(s, chunks[i] + NEXT) == if i + 1 < |chunks| then chunks[i + 1] else 0
  {
  }

  /** Two chains read from the same bytes agree link by link. */
  lemma {:induction false} ChainDetermined(s: seq<byte>, chunks: seq<nat>, other: seq<nat>, n: nat, free: nat)
    requires ChunksPlaced(chunks, free) && ChunksPlaced(other, free) && free <= |s|
    requires ChainLinked(s, chunks) && ChainLinked(s, other)
    requires n <= |chunks|
    ensures n <= |other| && chunks[..n] == other[..n]
  {
    if n > 1 {
      ChainDetermined(s, chunks, other, n - 1, free);
      var i := n - 2;
      assert chunks[i] == chunks[..n - 1][i] == other[..n - 1][i] == other[i];
      LinkAt(s, chunks, i);
      LinkAt(s, other, i);
      assert chunks[..n] == chunks[..n - 1] + [chunks[i + 1]];
    }
  }
}

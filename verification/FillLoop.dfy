/** Copying a query's rows into a cursor window: the two loops of the repository and what they have in common. */
module FillLoop {
  import opened Memory
  import opened WindowLayout
  import opened CursorWindows
  import Utf8
  import WindowStrings

  /** A result column as SQLite reports it; a text as sqlite3_column_text gives it and as sqlite3_column_text16 does. */
  datatype Column = NullColumn | IntColumn(v: int64) | FloatColumn(bits: u64)
                  | TextColumn(text: seq<byte>, utf16: seq<bv16>) | BlobColumn(blob: seq<byte>) | UnknownColumn

  type QueryRow = seq<Column>

  /** The cell a column becomes. Text is stored with its terminator. */
  function Stored(c: Column): Value
    requires !c.UnknownColumn?
  {
    match c
    case NullColumn => Null
    case IntColumn(v) => Integer(v)
    case FloatColumn(bits) => Float(bits)
    case TextColumn(text, _) => Str(text + [0])
    case BlobColumn(blob) => Blob(blob)
  }

  predicate AllKnown(row: QueryRow) {
    forall c :: 0 <= c < |row| ==> !row[c].UnknownColumn?
  }

  function StoredRow(row: QueryRow): Row
    requires AllKnown(row)
  {
    seq(|row|, c requires 0 <= c < |row| => Stored(row[c]))
  }

  /** The window's table holds exactly `rows`. */
  ghost predicate TableOf(t: Table, rows: seq<QueryRow>) {
    |t| == |rows| && forall r :: 0 <= r < |rows| ==> AllKnown(rows[r]) && t[r] == StoredRow(rows[r])
  }

  /** What a reader of the cell learns of the column: its type, and the integer, the bits of the double, the bytes of
      the blob, or those of the text and a NUL. */
  predicate Shows(cell: Value, c: Column) {
    && (c.NullColumn? <==> cell.Null?) && (c.IntColumn? <==> cell.Integer?) && (c.FloatColumn? <==> cell.Float?)
    && (c.TextColumn? <==> cell.Str?) && (c.BlobColumn? <==> cell.Blob?)
    && (c.IntColumn? && cell.Integer? ==> cell.v == c.v) && (c.FloatColumn? && cell.Float? ==> cell.bits == c.bits)
    && (c.TextColumn? && cell.Str? ==> cell.bytes == c.text + [0])
    && (c.BlobColumn? && cell.Blob? ==> cell.bytes == c.blob)
  }

  predicate ShowsRow(r: Row, row: QueryRow) {
    |r| == |row| && forall c :: 0 <= c < |row| ==> Shows(r[c], row[c])
  }

  /** The table shows the query's rows from `start` on. */
  predicate ShowsRows(t: Table, rows: seq<QueryRow>, start: nat) {
    t != [] ==> start + |t| <= |rows| && forall i :: 0 <= i < |t| ==> ShowsRow(t[i], rows[start + i])
  }

  /** The same when texts went through Java strings: their cells have the modified UTF-8 form and a NUL. */
  predicate ShowsJava(cell: Value, c: Column) {
    if c.TextColumn? then cell == Str(WindowStrings.Held(Utf8.ModifiedUtf8All(c.utf16)) + [0]) else Shows(cell, c)
  }

  predicate ShowsJavaRow(r: Row, row: QueryRow) {
    |r| == |row| && forall c :: 0 <= c < |row| ==> ShowsJava(r[c], row[c])
  }

  predicate ShowsJavaRows(t: Table, rows: seq<QueryRow>, start: nat) {
    t != [] ==> start + |t| <= |rows| && forall i :: 0 <= i < |t| ==> ShowsJavaRow(t[i], rows[start + i])
  }

  lemma {:induction false} StoredShows(row: QueryRow)
    requires AllKnown(row)
    ensures ShowsRow(StoredRow(row), row)
  {
  }

  lemma {:induction false} StoredShowsJava(row: QueryRow)
    requires AllKnown(row)
    ensures ShowsJavaRow(StoredRow(JavaRow(row)), row)
  {
    forall c | 0 <= c < |row|
      ensures ShowsJava(StoredRow(JavaRow(row))[c], row[c])
    {
      assert JavaRow(row)[c] == JavaColumn(row[c]);
    }
  }

  lemma {:induction false} TableShows(t: Table, f: Fill, rows: seq<QueryRow>)
    requires TableOf(t, f.rows) && HoldsRun(f, rows)
    ensures ShowsRows(t, rows, f.start)
  {
    hide StoredRow, ShowsRow;
    forall i | 0 <= i < |t|
      ensures ShowsRow(t[i], rows[f.start + i])
    {
      StoredShows(f.rows[i]);
    }
  }

  lemma {:induction false} TableShowsJava(t: Table, f: Fill, rows: seq<QueryRow>)
    requires TableOf(t, f.rows) && HoldsRun(f, JavaRows(rows))
    ensures ShowsJavaRows(t, rows, f.start)
  {
    hide StoredRow, ShowsJavaRow;
    forall i | 0 <= i < |t|
      ensures ShowsJavaRow(t[i], rows[f.start + i])
    {
      assert f.rows[i] == JavaRow(rows[f.start + i]);
      StoredShowsJava(rows[f.start + i]);
    }
  }

  lemma {:induction false} FillHoldsRun(rows: seq<QueryRow>, k: nat, start: nat, required: int, columns: nat,
                                        limit: nat)
    requires k <= |rows|
    ensures HoldsRun(FillTo(rows, k, start, required, columns, limit), rows)
  {
    hide FillTo;
    Contiguous(rows, k, start, required, columns, limit);
  }

  /** String or blob bytes a column takes up. */
  function Size(c: Column): nat {
    match c
    case TextColumn(text, _) => |text| + 1
    case BlobColumn(blob) => |blob|
    case _ => 0
  }

  function DataBytes(row: QueryRow): nat {
    if row == [] then 0 else DataBytes(row[..|row| - 1]) + Size(row[|row| - 1])
  }

  // ---- text on its way through a Java string ----

  /** The column as the second loop puts it: text goes through a Java string, which put-string stores as modified
      UTF-8. */
  function JavaColumn(c: Column): Column {
    if c.TextColumn? then c.(text := WindowStrings.Held(Utf8.ModifiedUtf8All(c.utf16))) else c
  }

  function JavaRow(row: QueryRow): (java: QueryRow)
    ensures |java| == |row| && (AllKnown(java) <==> AllKnown(row))
  {
    var java := seq(|row|, c requires 0 <= c < |row| => JavaColumn(row[c]));
    assert forall c :: 0 <= c < |row| ==> java[c] == JavaColumn(row[c]);
    java
  }

  function JavaRows(rows: seq<QueryRow>): (java: seq<QueryRow>)
    ensures |java| == |rows| && forall i :: 0 <= i < |rows| ==> java[i] == JavaRow(rows[i])
  {
    seq(|rows|, i requires 0 <= i < |rows| => JavaRow(rows[i]))
  }

  /** What the second loop stores for a text is what put-string makes of the Java string. */
  lemma {:induction false} JavaStored(c: Column)
    requires c.TextColumn?
    ensures Stored(JavaColumn(c)) == Str(WindowStrings.CellOf(c.utf16))
  {
  }

  /** The column of a well-formed text. */
  function TextOf(text: seq<Utf8.Scalar>): Column {
    TextColumn(WindowStrings.Held(Utf8.Utf8All(text)), Utf8.Utf16All(text))
  }

  /** A text column holds a well-formed text without NUL and supplementary characters. */
  ghost predicate PlainColumn(c: Column) {
    c.TextColumn? ==> exists text :: c == TextOf(text) && Utf8.PlainText(text)
  }

  ghost predicate WellFormedColumn(c: Column) {
    c.TextColumn? ==> exists text :: c == TextOf(text)
  }

  ghost predicate PlainRow(row: QueryRow) {
    forall c :: 0 <= c < |row| ==> PlainColumn(row[c])
  }

  ghost predicate WellFormedRow(row: QueryRow) {
    forall c :: 0 <= c < |row| ==> WellFormedColumn(row[c])
  }

  ghost predicate PlainRows(rows: seq<QueryRow>) {
    forall i :: 0 <= i < |rows| ==> PlainRow(rows[i])
  }

  /** The two loops store a well-formed text the same exactly if it is plain. */
  lemma {:induction false} TextIffPlain(text: seq<Utf8.Scalar>)
    ensures JavaColumn(TextOf(text)) == TextOf(text) <==> Utf8.PlainText(text)
  {
    Utf8.SameFormIffPlain(text);
    WindowStrings.HeldBack(Utf8.Utf8All(text));
    WindowStrings.HeldBack(Utf8.JavaForm(text));
  }

  /** Whatever the loop, a well-formed text is read back from its cell as the Java string it is. */
  lemma {:induction false} TextReadBack(text: seq<Utf8.Scalar>)
    ensures WindowStrings.StringOf(Stored(TextOf(text)).bytes) == Utf8.Utf16All(text)
    ensures WindowStrings.StringOf(Stored(JavaColumn(TextOf(text))).bytes) == Utf8.Utf16All(text)
  {
    var b := Utf8.Utf8All(text);
    WindowStrings.HeldBack(b);
    Utf8.Utf8ToUtf16(text, []);
    assert b + [] == b && Utf8.Decode([]) == [];
    var cell := Stored(TextOf(text)).bytes;
    assert cell[..|b|] == WindowStrings.Held(b);
    JavaStored(TextOf(text));
    WindowStrings.CellRoundTrip(Utf8.Utf16All(text));
  }

  lemma {:induction false} ColumnIffPlain(c: Column)
    requires WellFormedColumn(c)
    ensures JavaColumn(c) == c <==> PlainColumn(c)
  {
    if c.TextColumn? {
      var text :| c == TextOf(text);
      TextIffPlain(text);
      if PlainColumn(c) {
        var t :| c == TextOf(t) && Utf8.PlainText(t);
        TextIffPlain(t);
      }
    }
  }

  /** The same for the cells of a whole row. */
  lemma {:induction false} RowIffPlain(row: QueryRow)
    requires WellFormedRow(row) && AllKnown(row)
    ensures StoredRow(JavaRow(row)) == StoredRow(row) <==> PlainRow(row)
    ensures JavaRow(row) == row <==> PlainRow(row)
  {
    hide JavaColumn, PlainColumn, WellFormedColumn;
    forall c | 0 <= c < |row|
      ensures (JavaRow(row)[c] == row[c] <==> PlainColumn(row[c]))
              && (StoredRow(JavaRow(row))[c] == StoredRow(row)[c] <==> PlainColumn(row[c]))
    {
      ColumnIffPlain(row[c]);
      SameCell(row[c]);
      assert JavaRow(row)[c] == JavaColumn(row[c]);
      assert StoredRow(JavaRow(row))[c] == Stored(JavaRow(row)[c]) && StoredRow(row)[c] == Stored(row[c]);
    }
  }

  lemma {:induction false} SameCell(c: Column)
    requires !c.UnknownColumn?
    ensures !JavaColumn(c).UnknownColumn? && (Stored(JavaColumn(c)) == Stored(c) <==> JavaColumn(c) == c)
  {
    if c.TextColumn? {
      assert JavaColumn(c).text == (JavaColumn(c).text + [0])[..|JavaColumn(c).text|];
      assert c.text == (c.text + [0])[..|c.text|];
    }
  }

  lemma {:induction false} PlainRowsStay(rows: seq<QueryRow>)
    requires PlainRows(rows)
    ensures JavaRows(rows) == rows
  {
    forall i | 0 <= i < |rows|
      ensures JavaRow(rows[i]) == rows[i]
    {
      assert PlainRow(rows[i]);
      forall c | 0 <= c < |rows[i]|
        ensures JavaColumn(rows[i][c]) == rows[i][c]
      {
        assert PlainColumn(rows[i][c]);
        ColumnIffPlain(rows[i][c]);
      }
    }
  }

  // ---- space ----

  /** Free offset after a row's slot and field directory were allocated, in a window filled up to `free` with `n`
      rows. */
  function DirEnd(free: nat, n: nat, columns: nat): nat {
    Align(SlotEnd(free, n, ChunkCount(n))) + DirSize(columns)
  }

  /** Bytes a window holding exactly `rows` uses when it was filled from empty. */
  function Used(rows: seq<QueryRow>, columns: nat): nat {
    if rows == [] then HEADER + CHUNK
    else
      var k := |rows| - 1;
      DirEnd(Used(rows[..k], columns), k, columns) + DataBytes(rows[k])
  }

  function ChunkCount(n: nat): nat {
    if n == 0 then 1 else (n - 1) / CHUNK_ROWS + 1
  }

  datatype CopyRowResult = CPR_OK | CPR_FULL | CPR_ERROR

  /** What happens when the columns of a row are put in turn, from column `i` on. */
  function CopyColumns(free: nat, row: QueryRow, i: nat, limit: nat): CopyRowResult
    requires i <= |row|
    decreases |row| - i
  {
    if i == |row| then CPR_OK
    else if row[i].UnknownColumn? then CPR_ERROR
    else if free + Size(row[i]) > limit && (row[i].TextColumn? || row[i].BlobColumn?) then CPR_FULL
    else CopyColumns(free + Size(row[i]), row, i + 1, limit)
  }

  /** What copying `row` into a window that holds `rows` gives. */
  function Copy(rows: seq<QueryRow>, row: QueryRow, columns: nat, limit: nat): CopyRowResult {
    var end := DirEnd(Used(rows, columns), |rows|, columns);
    if end > limit then CPR_FULL else CopyColumns(end, row, 0, limit)
  }

  lemma {:induction false} CopyColumnsOk(free: nat, row: QueryRow, i: nat, limit: nat)
    requires i <= |row| && free <= limit
    ensures CopyColumns(free, row, i, limit) == CPR_OK <==>
              AllKnown(row[i..]) && free + DataBytes(row) - DataBytes(row[..i]) <= limit
    ensures DataBytes(row[..i]) <= DataBytes(row)
    decreases |row| - i
  {
    if i == |row| {
      assert row[..i] == row;
    } else {
      assert row[..i + 1][..i] == row[..i];
      assert row[i..] == [row[i]] + row[i + 1..];
      if free + Size(row[i]) <= limit {
        CopyColumnsOk(free + Size(row[i]), row, i + 1, limit);
      } else {
        PrefixBytes(row, i + 1);
      }
    }
  }

  /** A row fails, rather than finding the window full, exactly if it comes to an unknown column before it runs out of
      room. */
  lemma {:induction false} CopyFails(rows: seq<QueryRow>, row: QueryRow, columns: nat, limit: nat)
    ensures Copy(rows, row, columns, limit) == CPR_ERROR <==>
              exists i :: 0 <= i < |row| && row[i].UnknownColumn? && AllKnown(row[..i])
                          && Used(rows + [[]], columns) + DataBytes(row[..i]) <= limit
  {
    UsedGrows(rows, [], columns);
    var end := DirEnd(Used(rows, columns), |rows|, columns);
    hide Used, DirEnd;
    assert row[..0] == [];
    if end <= limit {
      ColumnsFail(end, row, 0, end, limit);
    }
  }

  lemma {:induction false} ColumnsFail(end: nat, row: QueryRow, i: nat, free: nat, limit: nat)
    requires i <= |row| && AllKnown(row[..i]) && free == end + DataBytes(row[..i]) <= limit
    ensures CopyColumns(free, row, i, limit) == CPR_ERROR <==>
              exists j :: 0 <= j < |row| && row[j].UnknownColumn? && AllKnown(row[..j])
                          && end + DataBytes(row[..j]) <= limit
    decreases |row| - i
  {
    assert forall j :: 0 <= j < i ==> row[..i][j] == row[j];
    if i < |row| && !row[i].UnknownColumn? {
      assert row[..i + 1] == row[..i] + [row[i]];
      if free + Size(row[i]) <= limit {
        ColumnsFail(end, row, i + 1, free + Size(row[i]), limit);
      } else {
        forall j | 0 <= j < |row| && row[j].UnknownColumn? && AllKnown(row[..j])
          ensures end + DataBytes(row[..j]) > limit
        {
          PrefixBytes(row[..j], i + 1);
          assert row[..j][..i + 1] == row[..i + 1];
        }
      }
    }
  }

  lemma {:induction false} PrefixBytes(row: QueryRow, i: nat)
    requires i <= |row|
    ensures DataBytes(row[..i]) <= DataBytes(row)
  {
    if i == |row| {
      assert row[..i] == row;
    } else {
      PrefixBytes(row[..|row| - 1], i);
      assert row[..|row| - 1][..i] == row[..i];
    }
  }

  /** A row is copied exactly when it has no unknown column and the window with it still fits. */
  lemma {:induction false} CopyOk(rows: seq<QueryRow>, row: QueryRow, columns: nat, limit: nat)
    ensures Copy(rows, row, columns, limit) == CPR_OK <==> AllKnown(row) && Used(rows + [row], columns) <= limit
  {
    var end := DirEnd(Used(rows, columns), |rows|, columns);
    assert (rows + [row])[..|rows|] == rows;
    assert row[..0] == [] && row[0..] == row;
    if end <= limit {
      CopyColumnsOk(end, row, 0, limit);
    }
  }

  /** A row fits alone in a cleared window exactly when its directory and data fit behind header and first chunk. */
  lemma {:induction false} FitsAlone(row: QueryRow, columns: nat, limit: nat)
    ensures Copy([], row, columns, limit) == CPR_OK <==>
              AllKnown(row) && 420 + 12 * columns + DataBytes(row) <= limit
  {
    CopyOk([], row, columns, limit);
    assert [] + [row] == [row] && [row][..0] == [];
  }

  lemma {:induction false} RoomAtFirst(columns: nat)
    ensures Used([], columns) == 420
  {
  }

  /** The bytes in use, row by row, 420 at first: a row takes up a directory of 12 bytes a column on a 4-byte boundary,
      behind a chunk of 404 bytes on a 4-byte boundary before every hundredth row but the first. */
  lemma {:induction false} RoomOfRows(rows: seq<QueryRow>, row: QueryRow, columns: nat)
    ensures var u := Used(rows, columns);
            var slot := if |rows| > 0 && |rows| % 100 == 0 then u + (4 - u % 4) % 4 + 404 else u;
            Used(rows + [row], columns) == slot + (4 - slot % 4) % 4 + 12 * columns + DataBytes(row)
  {
    hide Align, ChunkCount, NeedsChunk;
    UsedGrows(rows, row, columns);
    hide Used;
    var u := Used(rows, columns);
    RoundsUp(u);
    RoundsUp(SlotEnd(u, |rows|, ChunkCount(|rows|)));
    ChunkNeeded(|rows|);
  }

  lemma {:induction false} ChunkNeeded(n: nat)
    ensures NeedsChunk(n, ChunkCount(n)) <==> n > 0 && n % 100 == 0
  {
  }

  /** The data of a row, column by column: the bytes of a text and a NUL, the bytes of a blob, and nothing else. */
  lemma {:induction false} RoomOfData(row: QueryRow, c: Column)
    ensures DataBytes([]) == 0
    ensures c.TextColumn? ==> DataBytes(row + [c]) == DataBytes(row) + |c.text| + 1
    ensures c.BlobColumn? ==> DataBytes(row + [c]) == DataBytes(row) + |c.blob|
    ensures !c.TextColumn? && !c.BlobColumn? ==> DataBytes(row + [c]) == DataBytes(row)
  {
    assert (row + [c])[..|row|] == row;
  }

  // ---- copying one row ----

  /** The window was filled from empty with exactly `rows`. */
  ghost predicate Holds(w: CursorWindow, rows: seq<QueryRow>, columns: nat)
    reads w, w.data
  {
    && w.Valid() && !w.mReadOnly && HEADER + CHUNK <= w.data.Length
    && w.shape.columns == columns && |w.shape.chunks| == ChunkCount(|rows|)
    && w.FreeOffset() == Used(rows, columns)
    && TableOf(w.table, rows)
  }

  /** SQLite's columns are far below 4 GB, so offset arithmetic cannot wrap. */
  predicate Sized(row: QueryRow, columns: nat, limit: nat) {
    |row| == columns && forall c :: 0 <= c < |row| ==> limit + Size(row[c]) + 3 < TWO32
  }

  /** One column of the sqlite-android loop's row copy. */
  method PutColumn(window: CursorWindow, row: nat, i: nat, column: Column) returns (status: Status)
    requires window.Valid() && !window.mReadOnly && !column.UnknownColumn?
    requires row < |window.table| && i < window.shape.columns
    requires window.data.Length + Size(column) + 3 < TWO32
    modifies window, window.data
    ensures window.Valid() && window.shape == old(window.shape)
    ensures status == if (column.TextColumn? || column.BlobColumn?)
                         && old(window.FreeOffset()) + Size(column) > window.data.Length then NO_MEMORY else OK
    ensures window.FreeOffset() == old(window.FreeOffset()) + if status == OK then Size(column) else 0
    ensures window.table == if status == OK then old(window.With(row, i, Stored(column))) else old(window.table)
  {
    match column
    case TextColumn(text, _) => status := window.PutBlobOrString(row, i, text + [0], false);
    case IntColumn(v) => status := window.PutLong(row, i, v);
    case FloatColumn(bits) => status := window.PutDouble(row, i, bits);
    case BlobColumn(blob) => status := window.PutBlobOrString(row, i, blob, true);
    case NullColumn => status := window.PutNull(row, i);
  }

  lemma {:induction false} UsedGrows(rows: seq<QueryRow>, row: QueryRow, columns: nat)
    ensures Used(rows + [row], columns) == DirEnd(Used(rows, columns), |rows|, columns) + DataBytes(row)
  {
    assert (rows + [row])[..|rows|] == rows;
  }

  /** The window holds `rows` and a last row of which the first `i` cells are put. */
  ghost predicate Partial(w: CursorWindow, rows: seq<QueryRow>, row: QueryRow, i: nat, columns: nat)
    reads w, w.data
  {
    && w.Valid() && !w.mReadOnly && w.shape.columns == columns && HEADER + CHUNK <= w.data.Length
    && |w.shape.chunks| == ChunkCount(|rows| + 1)
    && |w.table| == |rows| + 1 && |w.table[|rows|]| == columns
    && TableOf(w.table[..|rows|], rows)
    && i <= |row| == columns && AllKnown(row[..i])
    && (forall c :: 0 <= c < i ==> w.table[|rows|][c] == Stored(row[..i][c]))
    && w.FreeOffset() == DirEnd(Used(rows, columns), |rows|, columns) + DataBytes(row[..i])
  }

  /** The chunks of a window filled from empty grow as allocRow lets them. */
  lemma {:induction false} ChunksGrow(n: nat)
    ensures (if n > 0 && n % CHUNK_ROWS == 0 then n / CHUNK_ROWS + 1 else ChunkCount(n)) == ChunkCount(n + 1)
  {
  }

  method StartRow(window: CursorWindow, ghost rows: seq<QueryRow>, ghost row: QueryRow, ghost columns: nat)
    returns (status: Status)
    requires Holds(window, rows, columns) && |row| == columns
    modifies window, window.data
    ensures status == OK <==> DirEnd(Used(rows, columns), |rows|, columns) <= window.data.Length
    ensures status == OK ==> Partial(window, rows, row, 0, columns)
    ensures status != OK ==> window.Valid() && window.shape.columns == columns && TableOf(window.table, rows)
  {
    ChunksGrow(|rows|);
    hide Represents, Used, Align, SlotEnd, ChunkCount;
    status := window.AllocRow();
    assert status == OK ==> window.table[..|rows|] == old(window.table);
  }

  method PutNext(window: CursorWindow, ghost rows: seq<QueryRow>, row: QueryRow, addedRows: nat, i: nat,
                 ghost columns: nat) returns (status: Status)
    requires Partial(window, rows, row, i, columns) && addedRows == |rows|
    requires Sized(row, columns, window.data.Length) && i < columns && !row[i].UnknownColumn?
    modifies window, window.data
    ensures status == if (row[i].TextColumn? || row[i].BlobColumn?)
                         && old(window.FreeOffset()) + Size(row[i]) > window.data.Length then NO_MEMORY else OK
    ensures status == OK ==> Partial(window, rows, row, i + 1, columns)
                             && window.FreeOffset() == old(window.FreeOffset()) + Size(row[i])
    ensures status != OK ==> Partial(window, rows, row, i, columns)
  {
    hide Represents, Used, Stored;
    status := PutColumn(window, addedRows, i, row[i]);
    assert row[..i + 1][..i] == row[..i];
    assert window.table[..|rows|] == old(window.table)[..|rows|];
  }

  /** freeLastRow on a row of which some columns were put. */
  method BackOut(window: CursorWindow, ghost rows: seq<QueryRow>, ghost row: QueryRow, ghost i: nat, ghost columns: nat)
    requires Partial(window, rows, row, i, columns)
    modifies window, window.data
    ensures window.Valid() && window.shape.columns == columns && TableOf(window.table, rows)
  {
    hide Represents, Used, Stored;
    ghost var t := window.table;
    var _ := window.FreeLastRow();
    assert window.table == t[..|rows|];
  }

  method CopyRow(window: CursorWindow, ghost rows: seq<QueryRow>, row: QueryRow, numColumns: nat, addedRows: nat)
    returns (result: CopyRowResult)
    requires Holds(window, rows, numColumns) && addedRows == |rows|
    requires Sized(row, numColumns, window.data.Length)
    modifies window, window.data
    ensures result == Copy(rows, row, numColumns, window.data.Length)
    ensures result == CPR_OK ==> AllKnown(row) && Holds(window, rows + [row], numColumns)
    ensures result == CPR_OK ==> ShowsRow(window.table[addedRows], row)
    ensures result != CPR_OK ==> window.Valid() && window.shape.columns == numColumns && TableOf(window.table, rows)
  {
    hide Represents, Used, ShowsRow, StoredRow;
    var status := StartRow(window, rows, row, numColumns);
    if status != OK {
      return CPR_FULL;
    }
    result := CPR_OK;
    ghost var end := DirEnd(Used(rows, numColumns), |rows|, numColumns);
    assert row[..0] == [];
    var i := 0;
    while i < numColumns
      invariant i <= numColumns && result == CPR_OK
      invariant Partial(window, rows, row, i, numColumns)
      invariant CopyColumns(end, row, 0, window.data.Length)
             == CopyColumns(window.FreeOffset(), row, i, window.data.Length)
    {
      if row[i].UnknownColumn? {
        result := CPR_ERROR;
        break;
      }
      status := PutNext(window, rows, row, addedRows, i, numColumns);
      if status != OK {
        result := CPR_FULL;
        break;
      }
      i := i + 1;
    }
    if result != CPR_OK {
      BackOut(window, rows, row, i, numColumns);
    } else {
      assert row[..numColumns] == row;
      CopiedAll(window, rows, row, numColumns);
      StoredShows(row);
    }
  }

  lemma {:induction false} CopiedAll(window: CursorWindow, rows: seq<QueryRow>, row: QueryRow, columns: nat)
    requires Partial(window, rows, row, columns, columns) && row[..columns] == row
    ensures AllKnown(row) && Holds(window, rows + [row], columns) && window.table[|rows|] == StoredRow(row)
  {
    hide Represents, Used;
    UsedGrows(rows, row, columns);
    assert window.table[|rows|] == StoredRow(row);
    assert forall r :: 0 <= r < |rows| ==> window.table[r] == window.table[..|rows|][r];
  }

  /** The other loop's row copy: text is handed over as a Java string, and the row is freed inside the column loop. */
  method CopyRowToWindow(win: CursorWindow, ghost rows: seq<QueryRow>, row: QueryRow, iRow: nat) returns (bOk: bool)
    requires Holds(win, rows, |row|) && iRow == |rows| && AllKnown(row)
    requires Sized(JavaRow(row), |row|, win.data.Length)
    modifies win, win.data
    ensures bOk <==> Copy(rows, JavaRow(row), |row|, win.data.Length) == CPR_OK
    ensures bOk ==> Holds(win, rows + [JavaRow(row)], |row|) && ShowsJavaRow(win.table[iRow], row)
    ensures !bOk ==> win.Valid() && win.shape.columns == |row| && TableOf(win.table, rows)
  {
    hide Represents, Used, JavaColumn, ShowsJavaRow, StoredRow, TableOf, Align, SlotEnd, ChunkCount;
    var nCol := |row|;
    var java := JavaRow(row);
    var status := StartRow(win, rows, java, nCol);
    bOk := status == OK;
    var i := 0;
    ghost var end := DirEnd(Used(rows, nCol), |rows|, nCol);
    assert java[..0] == [];
    while bOk && i < nCol
      invariant i <= nCol
      invariant bOk ==> Partial(win, rows, java, i, nCol) && end <= win.data.Length
      invariant bOk ==> (CopyColumns(end, java, 0, win.data.Length)
                         == CopyColumns(win.FreeOffset(), java, i, win.data.Length))
      invariant !bOk ==> win.Valid() && win.shape.columns == nCol && TableOf(win.table, rows)
      invariant !bOk ==> Copy(rows, java, nCol, win.data.Length) != CPR_OK
    {
      status := PutNext(win, rows, java, iRow, i, nCol);
      bOk := status == OK;
      if !bOk {
        BackOut(win, rows, java, i, nCol);
      }
      i := i + 1;
    }
    if bOk {
      assert java[..nCol] == java;
      CopiedAll(win, rows, java, nCol);
      StoredShowsJava(row);
    }
  }

  /** A row that was copied is read back, column by column, as SQLite reported it. */
  method CopyThenRead(window: CursorWindow, ghost rows: seq<QueryRow>, row: QueryRow, addedRows: nat, column: nat)
    returns (result: CopyRowResult, v: Value)
    requires Holds(window, rows, |row|) && addedRows == |rows| && column < |row|
    requires Sized(row, |row|, window.data.Length)
    modifies window, window.data
    ensures result == CPR_OK ==>
              match row[column]
              case NullColumn => v == Null
              case IntColumn(i) => v == Integer(i)
              case FloatColumn(bits) => v == Float(bits)
              case TextColumn(text, _) => v == Str(text + [0])
              case BlobColumn(blob) => v == Blob(blob)
              case UnknownColumn => false
  {
    hide Represents, Used;
    v := Null;
    result := CopyRow(window, rows, row, |row|, addedRows);
    if result == CPR_OK {
      var found;
      found, v := window.GetValue(addedRows, column);
      assert Shows(window.table[addedRows][column], row[column]);
    }
  }

  // ---- filling the window ----

  /** Where the filling of a window stands: the first row it is to hold, the rows in it, and whether the loop has
      found the window full or met a column of unknown type. */
  datatype Fill = Fill(start: nat, rows: seq<QueryRow>, full: bool, failed: bool)

  /** What the sqlite-android loop does with row `i`. */
  function Next(f: Fill, i: nat, row: QueryRow, required: int, columns: nat, limit: nat): Fill {
    if i < f.start || f.full || f.failed then f
    else match Copy(f.rows, row, columns, limit)
      case CPR_OK => f.(rows := f.rows + [row])
      case CPR_ERROR => f.(failed := true)
      case CPR_FULL =>
        if |f.rows| > 0 && f.start + |f.rows| <= required then
          match Copy([], row, columns, limit)
          case CPR_OK => Fill(f.start + |f.rows|, [row], false, false)
          case CPR_FULL => Fill(f.start + |f.rows|, [], true, false)
          case CPR_ERROR => Fill(f.start + |f.rows|, [], false, true)
        else f.(full := true)
  }

  /** The first `k` rows of the query, taken in turn. */
  function FillTo(rows: seq<QueryRow>, k: nat, start: nat, required: int, columns: nat, limit: nat): Fill
    requires k <= |rows|
  {
    if k == 0 then Fill(start, [], false, false)
    else Next(FillTo(rows, k - 1, start, required, columns, limit), k - 1, rows[k - 1], required, columns, limit)
  }

  /** What the other loop does with row `i`: it clears a full window even when nothing is in it. */
  function NextOther(f: Fill, i: nat, row: QueryRow, required: int, columns: nat, limit: nat): Fill {
    if i < f.start || f.full then f
    else if Copy(f.rows, row, columns, limit) == CPR_OK then f.(rows := f.rows + [row])
    else if i <= required then
      if Copy([], row, columns, limit) == CPR_OK then Fill(i, [row], false, false) else Fill(i, [], true, false)
    else f.(full := true)
  }

  function FillToOther(rows: seq<QueryRow>, k: nat, start: nat, required: int, columns: nat, limit: nat): Fill
    requires k <= |rows|
  {
    if k == 0 then Fill(start, [], false, false)
    else
      var f := FillToOther(rows, k - 1, start, required, columns, limit);
      NextOther(f, k - 1, rows[k - 1], required, columns, limit)
  }

  /** `f.rows` is the run of the query's rows from `f.start` on; while the window is neither full nor failed it reaches
      up to the last of the `k` rows read. */
  ghost predicate RunOf(f: Fill, rows: seq<QueryRow>, k: nat) {
    && f.start + |f.rows| <= |rows|
    && f.rows == rows[f.start..f.start + |f.rows|]
    && (if f.full || f.failed then f.start + |f.rows| < k else f.start + |f.rows| == k)
    && !(f.full && f.failed)
  }

  lemma {:induction false} Contiguous(rows: seq<QueryRow>, k: nat, start: nat, required: int, columns: nat, limit: nat)
    requires k <= |rows|
    ensures var f := FillTo(rows, k, start, required, columns, limit);
            if k < start then f == Fill(start, [], false, false) else start <= f.start && RunOf(f, rows, k)
  {
    hide Next;
    if k > 0 {
      Contiguous(rows, k - 1, start, required, columns, limit);
      if k - 1 < start {
        NextSkips(FillTo(rows, k - 1, start, required, columns, limit), k - 1, rows[k - 1], required, columns, limit);
      } else {
        NextRun(FillTo(rows, k - 1, start, required, columns, limit), rows, k - 1, required, columns, limit);
      }
    }
  }

  lemma {:induction false} NextSkips(f: Fill, i: nat, row: QueryRow, required: int, columns: nat, limit: nat)
    requires i < f.start
    ensures Next(f, i, row, required, columns, limit) == f
  {
  }

  lemma {:induction false} NextRun(f: Fill, rows: seq<QueryRow>, k: nat, required: int, columns: nat, limit: nat)
    requires k < |rows| && RunOf(f, rows, k)
    ensures RunOf(Next(f, k, rows[k], required, columns, limit), rows, k + 1)
    ensures f.start <= Next(f, k, rows[k], required, columns, limit).start
  {
    hide Copy;
    assert rows[k..k + 1] == [rows[k]];
    assert !f.full && !f.failed ==> rows[f.start..k + 1] == f.rows + [rows[k]];
  }

  /** The window was started again at row `b`, having been filled from row `a` on: row `b`, not behind the required one,
      found it full. */
  ghost predicate PageEnds(rows: seq<QueryRow>, a: nat, b: nat, required: int, columns: nat, limit: nat) {
    a < b < |rows| && b <= required && Copy(rows[a..b], rows[b], columns, limit) == CPR_FULL
  }

  /** From page to page. */
  ghost predicate PagesTo(rows: seq<QueryRow>, a: nat, b: nat, required: int, columns: nat, limit: nat)
    decreases b
  {
    a == b || exists q: nat :: q < b && PagesTo(rows, a, q, required, columns, limit)
                               && PageEnds(rows, q, b, required, columns, limit)
  }

  /** The window is started again only at rows that found it full before the required row was in; it is left full only
      when it holds a row behind the required one, or none. */
  lemma {:induction false} NoNeedlessRestart(rows: seq<QueryRow>, k: nat, start: nat, required: int, columns: nat,
                                             limit: nat)
    requires k <= |rows|
    ensures var f := FillTo(rows, k, start, required, columns, limit);
            && PagesTo(rows, start, f.start, required, columns, limit)
            && (f.full ==> f.rows == [] || required < f.start + |f.rows|)
  {
    hide Copy;
    if k > 0 {
      NoNeedlessRestart(rows, k - 1, start, required, columns, limit);
      Contiguous(rows, k - 1, start, required, columns, limit);
      var f := FillTo(rows, k - 1, start, required, columns, limit);
      var g := FillTo(rows, k, start, required, columns, limit);
      if g.start != f.start {
        assert PageEnds(rows, f.start, g.start, required, columns, limit);
      }
    }
  }

  /** A window whose required row lies before the start is never started again. */
  lemma {:induction false} StartsOnce(rows: seq<QueryRow>, k: nat, start: nat, required: int, columns: nat, limit: nat)
    requires k <= |rows| && required <= start
    ensures FillTo(rows, k, start, required, columns, limit).start == start
  {
    NoNeedlessRestart(rows, k, start, required, columns, limit);
    NoPages(rows, start, FillTo(rows, k, start, required, columns, limit).start, required, columns, limit);
  }

  lemma {:induction false} NoPages(rows: seq<QueryRow>, a: nat, b: nat, required: int, columns: nat, limit: nat)
    requires PagesTo(rows, a, b, required, columns, limit) && required <= a
    ensures b == a
    decreases b
  {
    if a != b {
      var q: nat :| q < b && PagesTo(rows, a, q, required, columns, limit)
                    && PageEnds(rows, q, b, required, columns, limit);
      NoPages(rows, a, q, required, columns, limit);
    }
  }

  /** Every row from `start` to `required` fits alone in a cleared window. */
  ghost predicate EachFits(rows: seq<QueryRow>, start: nat, required: int, columns: nat, limit: nat) {
    forall i :: start <= i <= required && i < |rows| ==>
      AllKnown(rows[i]) && 420 + 12 * columns + DataBytes(rows[i]) <= limit
  }

  /** The window never starts beyond the required row, and is never found full or failed before that row is in it. */
  lemma {:induction false} RequiredKept(rows: seq<QueryRow>, k: nat, start: nat, required: int, columns: nat,
                                        limit: nat)
    requires k <= |rows| && start <= required
    requires EachFits(rows, start, required, columns, limit)
    ensures var f := FillTo(rows, k, start, required, columns, limit);
            && f.start <= required
            && (k > required ==> required < f.start + |f.rows|)
            && (k <= required ==> !f.full && !f.failed)
  {
    hide Copy, EachFits, RunOf, Next;
    if k > 0 {
      RequiredKept(rows, k - 1, start, required, columns, limit);
      Contiguous(rows, k - 1, start, required, columns, limit);
      var f := FillTo(rows, k - 1, start, required, columns, limit);
      NextKept(f, rows, k - 1, start, required, columns, limit);
    }
  }

  /** One more row. */
  lemma {:induction false} NextKept(f: Fill, rows: seq<QueryRow>, i: nat, start: nat, required: int, columns: nat,
                                    limit: nat)
    requires i < |rows| && start <= required && EachFits(rows, start, required, columns, limit)
    requires if i < start then f == Fill(start, [], false, false) else start <= f.start && RunOf(f, rows, i)
    requires f.start <= required && (i > required ==> required < f.start + |f.rows|)
    requires i <= required ==> !f.full && !f.failed
    ensures var f' := Next(f, i, rows[i], required, columns, limit);
            && f'.start <= required
            && (i + 1 > required ==> required < f'.start + |f'.rows|)
            && (i + 1 <= required ==> !f'.full && !f'.failed)
  {
    hide Copy;
    if start <= i <= required {
      FitsAlone(rows[i], columns, limit);
      NoError(f.rows, rows[i], columns, limit);
    }
  }

  lemma {:induction false} NoError(rows: seq<QueryRow>, row: QueryRow, columns: nat, limit: nat)
    requires AllKnown(row)
    ensures Copy(rows, row, columns, limit) != CPR_ERROR
  {
    var end := DirEnd(Used(rows, columns), |rows|, columns);
    if end <= limit {
      KnownColumns(end, row, 0, limit);
    }
  }

  lemma {:induction false} KnownColumns(free: nat, row: QueryRow, i: nat, limit: nat)
    requires AllKnown(row) && i <= |row|
    ensures CopyColumns(free, row, i, limit) != CPR_ERROR
    decreases |row| - i
  {
    if i < |row| {
      KnownColumns(free + Size(row[i]), row, i + 1, limit);
    }
  }

  /** A window found full, or failed, could not take the next row: not behind the rows it holds, nor alone if it holds
      none. */
  lemma {:induction false} FullIsFull(rows: seq<QueryRow>, k: nat, start: nat, required: int, columns: nat, limit: nat)
    requires k <= |rows|
    ensures var f := FillTo(rows, k, start, required, columns, limit);
            f.full || f.failed ==>
              && f.start + |f.rows| < k
              && Copy(f.rows, rows[f.start + |f.rows|], columns, limit) == if f.full then CPR_FULL else CPR_ERROR
  {
    hide Copy;
    if k > 0 {
      FullIsFull(rows, k - 1, start, required, columns, limit);
      Contiguous(rows, k - 1, start, required, columns, limit);
    }
  }

  /** Once full, a window stays as it is for the rest of the query. */
  lemma {:induction false} FullStays(rows: seq<QueryRow>, k: nat, n: nat, start: nat, required: int, columns: nat,
                                     limit: nat)
    requires k <= n <= |rows| && FillTo(rows, k, start, required, columns, limit).full
    ensures FillTo(rows, n, start, required, columns, limit) == FillTo(rows, k, start, required, columns, limit)
    decreases n - k
  {
    hide Copy;
    if k < n {
      FullStays(rows, k, n - 1, start, required, columns, limit);
    }
  }

  /** On rows of known types the two loops keep the same start row and the same rows. */
  lemma {:induction false} SameFill(rows: seq<QueryRow>, k: nat, start: nat, required: int, columns: nat, limit: nat)
    requires k <= |rows| && forall i :: 0 <= i < |rows| ==> AllKnown(rows[i])
    ensures FillTo(rows, k, start, required, columns, limit) == FillToOther(rows, k, start, required, columns, limit)
    ensures !FillTo(rows, k, start, required, columns, limit).failed
  {
    hide Copy;
    if k > 0 {
      SameFill(rows, k - 1, start, required, columns, limit);
      Contiguous(rows, k - 1, start, required, columns, limit);
      var f := FillTo(rows, k - 1, start, required, columns, limit);
      NoError(f.rows, rows[k - 1], columns, limit);
      NoError([], rows[k - 1], columns, limit);
    }
  }

  // ---- the two loops ----

  /** What one call of sqlite3_step gives: the next row or the end of the query, SQLITE_BUSY or SQLITE_LOCKED, or an
      error. */
  datatype Outcome = Ready | Busy | Broken

  /** The window refused to be cleared, or the loop ran: first row, row count, and whether an exception is pending. */
  datatype LoopResult = Refused | Result(start: nat, total: nat, exception: bool)

  const MAX_RETRIES: nat := 50

  /** The last of `calls` calls made the loop give up: an error, or one busy call more than the retries allow. */
  ghost predicate GaveUp(outcome: nat -> Outcome, calls: nat) {
    && calls > 0
    && (outcome(calls - 1) == Broken
        || (calls >= MAX_RETRIES + 2 && forall d :: calls - MAX_RETRIES - 2 <= d < calls ==> outcome(d) == Busy))
  }

  /** The loop gives up at an error, and at the 52nd busy answer in a row. */
  lemma {:induction false} GivesUpAfter(outcome: nat -> Outcome, calls: nat)
    ensures GaveUp(outcome, calls) <==>
              && calls > 0
              && (|| outcome(calls - 1) == Broken
                  || (calls >= 52 && forall d :: calls - 52 <= d < calls ==> outcome(d) == Busy))
  {
  }

  /** How many of the first `calls` calls found a row or the end of the query. */
  ghost function ReadyCalls(outcome: nat -> Outcome, calls: nat): nat {
    if calls == 0 then 0 else ReadyCalls(outcome, calls - 1) + if outcome(calls - 1) == Ready then 1 else 0
  }

  /** The loop made `calls` calls: it did not give up before the last of them, and each row it counted took one that was
      ready, as did the end of the query if it got there. */
  ghost predicate CallsMade(outcome: nat -> Outcome, calls: nat, total: nat, ended: bool) {
    && (forall c :: 0 <= c < calls ==> !GaveUp(outcome, c))
    && ReadyCalls(outcome, calls) == total + if ended then 1 else 0
  }

  /** A query of `n` rows makes the loop give up before its end is reached. */
  ghost predicate BreaksOff(outcome: nat -> Outcome, n: nat) {
    exists c :: GaveUp(outcome, c) && ReadyCalls(outcome, c) <= n
  }

  /** Before a call, the last `retries` calls found the database busy, and the one before them did not. */
  ghost predicate Waiting(outcome: nat -> Outcome, calls: nat, retries: nat) {
    && retries <= MAX_RETRIES + 1 && retries <= calls
    && (forall d :: calls - retries <= d < calls ==> outcome(d) == Busy)
    && (calls > retries ==> outcome(calls - retries - 1) == Ready)
  }

  lemma {:induction false} NoCall(outcome: nat -> Outcome)
    ensures Waiting(outcome, 0, 0) && !GaveUp(outcome, 0) && CallsMade(outcome, 0, 0, false)
  {
  }

  lemma {:induction false} CountCall(outcome: nat -> Outcome, calls: nat, total: nat)
    requires CallsMade(outcome, calls, total, false) && !GaveUp(outcome, calls)
    ensures outcome(calls) == Ready ==>
              CallsMade(outcome, calls + 1, total + 1, false) && CallsMade(outcome, calls + 1, total, true)
    ensures outcome(calls) != Ready ==> CallsMade(outcome, calls + 1, total, false)
  {
    hide GaveUp;
  }

  lemma {:induction false} MoreReady(outcome: nat -> Outcome, c: nat, d: nat)
    requires c <= d
    ensures ReadyCalls(outcome, c) <= ReadyCalls(outcome, d)
    decreases d
  {
    if c < d {
      MoreReady(outcome, c, d - 1);
    }
  }

  /** The loop that counts all rows gives up exactly if the query does not get to its end. */
  lemma {:induction false} GivesUpIff(outcome: nat -> Outcome, calls: nat, n: nat, total: nat)
    requires total <= n && CallsMade(outcome, calls, total, !GaveUp(outcome, calls))
    requires !GaveUp(outcome, calls) ==> total == n
    ensures GaveUp(outcome, calls) <==> BreaksOff(outcome, n)
  {
    hide GaveUp;
    if BreaksOff(outcome, n) && !GaveUp(outcome, calls) {
      var c :| GaveUp(outcome, c) && ReadyCalls(outcome, c) <= n;
      MoreReady(outcome, calls, c);
      assert false;
    }
  }

  lemma {:induction false} OneCall(outcome: nat -> Outcome, calls: nat, retries: nat)
    requires Waiting(outcome, calls, retries)
    ensures outcome(calls) == Ready ==> Waiting(outcome, calls + 1, 0)
    ensures outcome(calls) == Busy && retries <= MAX_RETRIES ==> Waiting(outcome, calls + 1, retries + 1)
    ensures GaveUp(outcome, calls + 1)
            <==> outcome(calls) == Broken || (outcome(calls) == Busy && retries == MAX_RETRIES + 1)
  {
  }

  /** The call fails for a reason of the database: an error, or one busy call more than the retries allow. */
  ghost predicate Fails(outcome: nat -> Outcome, call: nat) {
    || outcome(call) == Broken
    || forall d :: call <= d <= call + MAX_RETRIES + 1 ==> outcome(d) == Busy
  }

  predicate SizedRows(rows: seq<QueryRow>, columns: nat, limit: nat) {
    forall i :: 0 <= i < |rows| ==> Sized(rows[i], columns, limit)
  }

  /** clear and setNumColumns. */
  method SetWindowNumColumns(win: CursorWindow, nCol: nat) returns (bOk: bool)
    requires HEADER + CHUNK <= win.data.Length && NoWrap(win.data.Length, nCol)
    modifies win, win.data
    ensures win.mReadOnly ==> unchanged(win) && unchanged(win.data)
    ensures bOk <==> !win.mReadOnly
    ensures bOk ==> Holds(win, [], nCol)
  {
    if win.mReadOnly {
      return false;
    }
    var _ := win.Clear();
    var status := win.SetNumColumns(nCol);
    return status == OK;
  }

  /** What the window holds for the fill `f`; while it can still take rows its space is accounted for exactly. */
  ghost predicate Filled(w: CursorWindow, f: Fill, columns: nat)
    reads w, w.data
  {
    && w.Valid() && w.shape.columns == columns && TableOf(w.table, f.rows)
    && (!f.full && !f.failed ==> Holds(w, f.rows, columns))
  }

  /** The body of the sqlite-android loop for a row at or after the start position, while the window is not full. */
  method TakeRow(window: CursorWindow, ghost f: Fill, ghost i: nat, row: QueryRow, numColumns: nat,
                 startPos: nat, requiredPos: int, addedRows: nat)
    returns (startPos': nat, addedRows': nat, windowFull: bool, gotException: bool)
    requires Filled(window, f, numColumns) && !f.full && !f.failed && f.start <= i
    requires startPos == f.start && addedRows == |f.rows|
    requires Sized(row, numColumns, window.data.Length) && NoWrap(window.data.Length, numColumns)
    modifies window, window.data
    ensures var g := Next(f, i, row, requiredPos, numColumns, window.data.Length);
            && Filled(window, g, numColumns)
            && startPos' == g.start && addedRows' == |g.rows| && windowFull == g.full && gotException == g.failed
  {
    hide Represents, Used, Copy;
    startPos', addedRows', windowFull, gotException := startPos, addedRows, false, false;
    var cpr := CopyRow(window, f.rows, row, numColumns, addedRows);
    if cpr == CPR_FULL && addedRows != 0 && startPos + addedRows <= requiredPos {
      var _ := SetWindowNumColumns(window, numColumns);
      startPos' := startPos + addedRows;
      addedRows' := 0;
      cpr := CopyRow(window, [], row, numColumns, 0);
      assert [] + [row] == [row];
    }
    if cpr == CPR_OK {
      addedRows' := addedRows' + 1;
    } else if cpr == CPR_FULL {
      windowFull := true;
    } else {
      gotException := true;
    }
  }

  method ExecuteForCursorWindow(window: CursorWindow, rows: seq<QueryRow>, outcome: nat -> Outcome, numColumns: nat,
                                startPos: nat, requiredPos: int, countAllRows: bool)
    returns (r: LoopResult, ghost calls: nat)
    requires HEADER + CHUNK <= window.data.Length && NoWrap(window.data.Length, numColumns)
    requires SizedRows(rows, numColumns, window.data.Length)
    modifies window, window.data
    ensures window.mReadOnly ==> r == Refused && unchanged(window) && unchanged(window.data)
    ensures !window.mReadOnly ==> r.Result? && r.total <= |rows| && ShowsRows(window.table, rows, r.start)
    ensures !window.mReadOnly ==>
              var f := FillTo(rows, r.total, startPos, requiredPos, numColumns, window.data.Length);
              && r.start == f.start
              && window.Valid() && window.shape.columns == numColumns && TableOf(window.table, f.rows)
              && (!r.exception ==> !f.failed && (r.total == |rows| || (f.full && !countAllRows)))
              && (r.exception <==> f.failed || GaveUp(outcome, calls))
              && CallsMade(outcome, calls, r.total, !r.exception && (f.full ==> countAllRows))
              && (countAllRows && !f.failed ==> (r.exception <==> BreaksOff(outcome, |rows|)))
    ensures !window.mReadOnly ==>
              forall j :: 0 <= j < r.total ==>
                var f := FillTo(rows, j, startPos, requiredPos, numColumns, window.data.Length);
                !f.failed && (f.full ==> countAllRows)
  {
    hide Represents, Used, Copy, Waiting, GaveUp, CallsMade, BreaksOff, ShowsRows, HoldsRun;
    NoCall(outcome);
    var cleared := SetWindowNumColumns(window, numColumns);
    if !cleared {
      return Refused, 0;
    }
    var retryCount, totalRows, addedRows, startPos' := 0, 0, 0, startPos;
    var windowFull, gotException := false, false;
    var call := 0;
    calls := 0;
    ghost var limit := window.data.Length;
    ghost var f := Fill(startPos, [], false, false);
    while !gotException && (!windowFull || countAllRows)
      invariant 0 <= retryCount <= MAX_RETRIES + 1 && (!gotException ==> Waiting(outcome, call, retryCount))
      invariant totalRows <= |rows|
      invariant f == FillTo(rows, totalRows, startPos, requiredPos, numColumns, limit)
      invariant Filled(window, f, numColumns)
      invariant startPos' == f.start && addedRows == |f.rows| && windowFull == f.full
      invariant f.failed ==> gotException
      invariant calls == call && (gotException <==> f.failed || GaveUp(outcome, calls))
      invariant CallsMade(outcome, calls, totalRows, false)
      invariant forall j :: 0 <= j < totalRows ==>
                  var f := FillTo(rows, j, startPos, requiredPos, numColumns, limit);
                  !f.failed && (f.full ==> countAllRows)
      decreases !gotException, |rows| - totalRows, MAX_RETRIES + 1 - retryCount
    {
      OneCall(outcome, call, retryCount);
      CountCall(outcome, call, totalRows);
      var err := outcome(call);
      call := call + 1;
      calls := calls + 1;
      if err == Ready && totalRows < |rows| {
        retryCount := 0;
        totalRows := totalRows + 1;
        ghost var g := Next(f, totalRows - 1, rows[totalRows - 1], requiredPos, numColumns, limit);
        if startPos' >= totalRows || windowFull {
          f := g;
          continue;
        }
        startPos', addedRows, windowFull, gotException :=
          TakeRow(window, f, totalRows - 1, rows[totalRows - 1], numColumns, startPos', requiredPos, addedRows);
        f := g;
      } else if err == Ready {
        break;
      } else if err == Busy {
        if retryCount > MAX_RETRIES {
          gotException := true;
        } else {
          retryCount := retryCount + 1;
        }
      } else {
        gotException := true;
      }
    }
    FillHoldsRun(rows, totalRows, startPos, requiredPos, numColumns, limit);
    TableShows(window.table, f, rows);
    if countAllRows && !f.failed {
      GivesUpIff(outcome, calls, |rows|, totalRows);
    }
    r := Result(startPos', totalRows, gotException);
  }

  /** The body of the other loop for a row at or after the start position, while the window is not full. */
  method TakeRowOther(win: CursorWindow, ghost f: Fill, row: QueryRow, nRow: nat, nCol: nat, iStart0: nat,
                      iRowRequired: int) returns (iStart: nat, bOk: bool)
    requires Filled(win, f, nCol) && !f.full && !f.failed && iStart0 == f.start && nRow == f.start + |f.rows|
    requires AllKnown(row) && Sized(JavaRow(row), nCol, win.data.Length) && NoWrap(win.data.Length, nCol)
    modifies win, win.data
    ensures var g := NextOther(f, nRow, JavaRow(row), iRowRequired, nCol, win.data.Length);
            Filled(win, g, nCol) && iStart == g.start && bOk == !g.full && !g.failed
  {
    hide Represents, Used, Copy, JavaColumn, JavaRow, ShowsJavaRow;
    iStart := iStart0;
    bOk := CopyRowToWindow(win, f.rows, row, nRow - iStart);
    if !bOk && nRow <= iRowRequired {
      bOk := SetWindowNumColumns(win, nCol);
      iStart := nRow;
      bOk := CopyRowToWindow(win, [], row, 0);
      assert [] + [JavaRow(row)] == [JavaRow(row)];
    }
  }

  /** The other loop. `broken` says that the query fails after `rows`; a busy database ends this loop like an error. */
  method ExecuteForCursorWindowOther(win: CursorWindow, rows: seq<QueryRow>, broken: bool, nCol: nat,
                                     startPos: nat, iRowRequired: int, countAllRows: bool) returns (r: LoopResult)
    requires HEADER + CHUNK <= win.data.Length && NoWrap(win.data.Length, nCol)
    requires SizedRows(JavaRows(rows), nCol, win.data.Length) && forall i :: 0 <= i < |rows| ==> AllKnown(rows[i])
    modifies win, win.data
    ensures win.mReadOnly ==> r == Refused && unchanged(win) && unchanged(win.data)
    ensures !win.mReadOnly ==> r.Result? && r.total <= |rows| && ShowsJavaRows(win.table, rows, r.start)
    ensures !win.mReadOnly ==>
              var k := if r.total == |rows| then |rows| else r.total + 1;
              var f := FillToOther(JavaRows(rows), k, startPos, iRowRequired, nCol, win.data.Length);
              && win.Valid() && win.shape.columns == nCol && TableOf(win.table, f.rows)
              && r.start == f.start
              && (r.total < |rows| ==> f.full && !countAllRows && !r.exception)
              && (r.total == |rows| ==> (f.full ==> countAllRows) && r.exception == broken)
    ensures !win.mReadOnly ==>
              forall j :: 0 <= j <= r.total ==>
                FillToOther(JavaRows(rows), j, startPos, iRowRequired, nCol, win.data.Length).full ==> countAllRows
  {
    hide Represents, Used, Copy, JavaColumn, JavaRow, ShowsJavaRows, HoldsRun;
    var bOk := SetWindowNumColumns(win, nCol);
    if !bOk {
      return Refused;
    }
    var nRow, iStart := 0, startPos;
    ghost var limit, java := win.data.Length, JavaRows(rows);
    ghost var f := Fill(startPos, [], false, false);
    while nRow < |rows|
      invariant nRow <= |rows|
      invariant f == FillToOther(java, nRow, startPos, iRowRequired, nCol, limit) && !f.failed
      invariant Filled(win, f, nCol) && iStart == f.start && bOk == !f.full
      invariant !f.full && f.start <= nRow ==> |f.rows| == nRow - iStart
      invariant f.start > nRow ==> f.rows == []
      invariant forall j :: 0 <= j <= nRow ==>
                  FillToOther(java, j, startPos, iRowRequired, nCol, limit).full ==> countAllRows
    {
      ghost var g := NextOther(f, nRow, java[nRow], iRowRequired, nCol, limit);
      if nRow >= iStart && bOk {
        iStart, bOk := TakeRowOther(win, f, rows[nRow], nRow, nCol, iStart, iRowRequired);
        if !bOk && !countAllRows {
          f := g;
          break;
        }
      }
      f := g;
      nRow := nRow + 1;
    }
    HoldsJavaRun(java, if nRow == |rows| then nRow else nRow + 1, startPos, iRowRequired, nCol, limit);
    TableShowsJava(win.table, f, rows);
    return Result(iStart, nRow, broken && nRow == |rows|);
  }

  lemma {:induction false} HoldsJavaRun(rows: seq<QueryRow>, k: nat, start: nat, required: int, columns: nat,
                                        limit: nat)
    requires k <= |rows| && forall i :: 0 <= i < |rows| ==> AllKnown(rows[i])
    ensures HoldsRun(FillToOther(rows, k, start, required, columns, limit), rows)
  {
    SameFill(rows, k, start, required, columns, limit);
    FillHoldsRun(rows, k, start, required, columns, limit);
  }

  // ---- how the two loops compare ----

  /** What the whole query makes of the window, once it is full for good or the query is at its end. */
  function Final(rows: seq<QueryRow>, start: nat, required: int, columns: nat, limit: nat): Fill {
    FillTo(rows, |rows|, start, required, columns, limit)
  }

  /** The loop gives up counting: it stops at a full window. */
  predicate Stops(f: Fill, countAllRows: bool) {
    f.full && !countAllRows
  }

  /** Run on the same query, without errors and never busy for longer than the retries allow, over windows of the same
      size, each loop ends with the final fill of its rows: those of SQLite, or those whose texts went through Java
      strings. If all texts are plain, start row and cells are the same. The row counts then agree, except that the
      sqlite-android loop counts one more exactly if it stops at a full window. If all texts are well-formed, start row
      and cells are the same only if the two windows hold the same run of rows and its texts are plain. */
  method LoopsAgree(window: CursorWindow, win: CursorWindow, rows: seq<QueryRow>, columns: nat,
                    outcome: nat -> Outcome, startPos: nat, required: int, countAllRows: bool)
    returns (r: LoopResult, s: LoopResult)
    requires forall call :: !Fails(outcome, call)
    requires window != win && window.data != win.data && !window.mReadOnly && !win.mReadOnly
    requires HEADER + CHUNK <= window.data.Length == win.data.Length && NoWrap(win.data.Length, columns)
    requires SizedRows(rows, columns, win.data.Length) && SizedRows(JavaRows(rows), columns, win.data.Length)
    requires forall i :: 0 <= i < |rows| ==> AllKnown(rows[i])
    modifies window, window.data, win, win.data
    ensures window.Valid() && win.Valid()
    ensures var f := Final(rows, startPos, required, columns, win.data.Length);
            && r == Result(f.start, if Stops(f, countAllRows) then f.start + |f.rows| + 1 else |rows|, false)
            && TableOf(window.table, f.rows)
    ensures var g := Final(JavaRows(rows), startPos, required, columns, win.data.Length);
            && s == Result(g.start, if Stops(g, countAllRows) then g.start + |g.rows| else |rows|, false)
            && TableOf(win.table, g.rows)
    ensures PlainRows(rows) ==>
              var f := Final(rows, startPos, required, columns, win.data.Length);
              && window.table == win.table && r.start == s.start
              && r.total == s.total + if Stops(f, countAllRows) then 1 else 0
    ensures WellFormedRows(rows) ==>
              (r.start == s.start && window.table == win.table
               <==> SamePlainRun(Final(rows, startPos, required, columns, win.data.Length),
                                 Final(JavaRows(rows), startPos, required, columns, win.data.Length)))
  {
    hide Represents, Used, Copy, JavaColumn, JavaRow, FillTo, FillToOther, Fails, GaveUp, PlainRows, HoldsRun,
         WellFormedRows, SamePlainRun, CallsMade, BreaksOff;
    var limit := win.data.Length;
    ghost var calls;
    r, calls := ExecuteForCursorWindow(window, rows, outcome, columns, startPos, required, countAllRows);
    NeverGivesUp(outcome, calls);
    SameFill(rows, r.total, startPos, required, columns, limit);
    label between:
    s := ExecuteForCursorWindowOther(win, rows, false, columns, startPos, required, countAllRows);
    FirstEnds(rows, r.total, startPos, required, columns, limit, countAllRows);
    OtherEnds(JavaRows(rows), s.total, startPos, required, columns, limit, countAllRows);
    if PlainRows(rows) {
      PlainRowsStay(rows);
      SameTables(window.table, win.table, Final(rows, startPos, required, columns, limit).rows);
    }
    FinalRun(rows, startPos, required, columns, limit);
    FinalRun(JavaRows(rows), startPos, required, columns, limit);
    if WellFormedRows(rows) {
      SameCellsIffPlain(rows, window.table, win.table, Final(rows, startPos, required, columns, limit),
                        Final(JavaRows(rows), startPos, required, columns, limit));
    }
  }

  lemma {:induction false} NeverGivesUp(outcome: nat -> Outcome, calls: nat)
    requires forall call :: !Fails(outcome, call)
    ensures !GaveUp(outcome, calls)
  {
    if calls > 0 {
      assert !Fails(outcome, calls - 1);
      if calls >= MAX_RETRIES + 2 {
        assert !Fails(outcome, calls - MAX_RETRIES - 2);
      }
    }
  }

  /** Where the sqlite-android loop ends. */
  lemma {:induction false} FirstEnds(rows: seq<QueryRow>, total: nat, start: nat, required: int, columns: nat,
                                     limit: nat, countAllRows: bool)
    requires total <= |rows| && forall i :: 0 <= i < |rows| ==> AllKnown(rows[i])
    requires total == |rows| || (FillTo(rows, total, start, required, columns, limit).full && !countAllRows)
    requires forall j :: 0 <= j < total ==> FillTo(rows, j, start, required, columns, limit).full ==> countAllRows
    ensures var f := Final(rows, start, required, columns, limit);
            && f == FillTo(rows, total, start, required, columns, limit) && !f.failed
            && total == if Stops(f, countAllRows) then f.start + |f.rows| + 1 else |rows|
  {
    hide Next, Copy;
    SameFill(rows, |rows|, start, required, columns, limit);
    if total < |rows| {
      FullStays(rows, total, |rows|, start, required, columns, limit);
    }
    if FillTo(rows, total, start, required, columns, limit).full && !countAllRows {
      SameFill(rows, total - 1, start, required, columns, limit);
      StopsAtFull(rows, total - 1, start, required, columns, limit);
    }
  }

  /** Where the other loop ends, which does not count the row that it stops at. */
  lemma {:induction false} OtherEnds(rows: seq<QueryRow>, total: nat, start: nat, required: int, columns: nat,
                                     limit: nat, countAllRows: bool)
    requires total <= |rows| && forall i :: 0 <= i < |rows| ==> AllKnown(rows[i])
    requires total < |rows| ==> FillToOther(rows, total + 1, start, required, columns, limit).full && !countAllRows
    requires forall j :: 0 <= j <= total ==> FillToOther(rows, j, start, required, columns, limit).full ==> countAllRows
    ensures var g := Final(rows, start, required, columns, limit);
            && g == FillToOther(rows, if total == |rows| then |rows| else total + 1, start, required, columns, limit)
            && total == if Stops(g, countAllRows) then g.start + |g.rows| else |rows|
  {
    hide Next, NextOther, Copy;
    SameFill(rows, |rows|, start, required, columns, limit);
    if total < |rows| {
      SameFill(rows, total, start, required, columns, limit);
      SameFill(rows, total + 1, start, required, columns, limit);
      FullStays(rows, total + 1, |rows|, start, required, columns, limit);
      StopsAtFull(rows, total, start, required, columns, limit);
    }
  }

  /** The fill holds a run of the query's rows. */
  ghost predicate HoldsRun(f: Fill, rows: seq<QueryRow>) {
    f.rows == [] || (f.start + |f.rows| <= |rows| && f.rows == rows[f.start..f.start + |f.rows|])
  }

  /** The two fills hold the same run of rows, and the texts in it are plain. */
  ghost predicate SamePlainRun(f: Fill, g: Fill) {
    f.start == g.start && |f.rows| == |g.rows| && PlainRows(f.rows)
  }

  ghost predicate WellFormedRows(rows: seq<QueryRow>) {
    forall i :: 0 <= i < |rows| ==> WellFormedRow(rows[i])
  }

  /** On a query of well-formed texts the two loops end with the same start row and the same cells exactly if they hold
      the same run of rows and its texts are plain. */
  lemma {:induction false} SameCellsIffPlain(rows: seq<QueryRow>, t: Table, u: Table, f: Fill, g: Fill)
    requires (forall i :: 0 <= i < |rows| ==> AllKnown(rows[i])) && WellFormedRows(rows)
    requires HoldsRun(f, rows) && HoldsRun(g, JavaRows(rows)) && TableOf(t, f.rows) && TableOf(u, g.rows)
    ensures f.start == g.start && t == u <==> SamePlainRun(f, g)
  {
    hide PlainRow, WellFormedRow, JavaRow, StoredRow;
    if f.start == g.start && |f.rows| == |g.rows| {
      forall k | 0 <= k < |f.rows|
        ensures t[k] == u[k] <==> PlainRow(f.rows[k])
      {
        assert f.rows[k] == rows[f.start + k] && g.rows[k] == JavaRow(rows[f.start + k]);
        RowIffPlain(f.rows[k]);
      }
    }
  }

  lemma {:induction false} FinalRun(rows: seq<QueryRow>, start: nat, required: int, columns: nat, limit: nat)
    ensures HoldsRun(Final(rows, start, required, columns, limit), rows)
  {
    hide FillTo;
    Contiguous(rows, |rows|, start, required, columns, limit);
  }

  /** One row with U+1F600, in windows of 1024 bytes: both loops deliver it, in different cells of different size. */
  lemma {:induction false} EmojiDiffers(t: Table, u: Table)
    requires var rows := [[TextOf([0x1F600])]];
             TableOf(t, Final(rows, 0, 0, 1, 1024).rows) && TableOf(u, Final(JavaRows(rows), 0, 0, 1, 1024).rows)
    ensures |t| == |u| == 1 && t != u
  {
    var text: seq<Utf8.Scalar> := [0x1F600];
    var row := [TextOf(text)];
    Utf8.EmojiForms();
    OneRow(row, 1024);
    OneRow(JavaRow(row), 1024);
    assert JavaRows([row]) == [JavaRow(row)];
    assert t[0][0] == Stored(TextOf(text)) && u[0][0] == Stored(JavaColumn(TextOf(text)));
    assert |t[0][0].bytes| == 5 && |u[0][0].bytes| == 7;
  }

  lemma {:induction false} OneRow(row: QueryRow, limit: nat)
    requires AllKnown(row) && HEADER + CHUNK + FIELD + DataBytes(row) <= limit
    ensures Final([row], 0, 0, 1, limit) == Fill(0, [row], false, false)
  {
    hide Copy;
    FitsAlone(row, 1, limit);
    assert [] + [row] == [row];
    assert FillTo([row], 0, 0, 0, 1, limit) == Fill(0, [], false, false);
  }

  /** One row with a 1024-byte blob, in a window of 1024 bytes: the loops stop at once, counting one row and none. */
  lemma {:induction false} BigRowStops(blob: seq<byte>)
    requires |blob| == 1024
    ensures var f := Final([[BlobColumn(blob)]], 0, 0, 1, 1024); Stops(f, false) && f.start + |f.rows| == 0
  {
    var row := [BlobColumn(blob)];
    assert row[..0] == [] && DataBytes([]) == 0;
    FitsAlone(row, 1, 1024);
    NoError([], row, 1, 1024);
    hide Copy;
    assert FillTo([row], 0, 0, 0, 1, 1024) == Fill(0, [], false, false);
  }

  lemma {:induction false} SameTables(t: Table, u: Table, rows: seq<QueryRow>)
    requires TableOf(t, rows) && TableOf(u, rows)
    ensures t == u
  {
  }

  /** The row at which the window is first found full is the one behind the rows it holds. */
  lemma {:induction false} StopsAtFull(rows: seq<QueryRow>, k: nat, start: nat, required: int, columns: nat, limit: nat)
    requires k < |rows|
    requires !FillTo(rows, k, start, required, columns, limit).full
    requires !FillTo(rows, k, start, required, columns, limit).failed
    requires FillTo(rows, k + 1, start, required, columns, limit).full
    ensures var f := FillTo(rows, k + 1, start, required, columns, limit); f.start + |f.rows| == k
  {
    Contiguous(rows, k, start, required, columns, limit);
  }

  /** The window holds as many rows of the query from `start` on as there is room for. */
  ghost predicate AsManyAsFit(t: Table, rows: seq<QueryRow>, start: nat, columns: nat, limit: nat) {
    var n := start + |t|;
    && n <= |rows| && TableOf(t, rows[start..n])
    && (n < |rows| ==> Copy(rows[start..n], rows[n], columns, limit) != CPR_OK)
  }

  /** The required row is in the window when the loop ends. */
  ghost predicate Delivered(t: Table, rows: seq<QueryRow>, start: nat, required: nat) {
    && start <= required < start + |t| && required < |rows| && AllKnown(rows[required])
    && t[required - start] == StoredRow(rows[required]) && ShowsRow(t[required - start], rows[required])
  }

  /** The loop's promise: on a query without errors, if every row up to the required one fits alone, the required row is
      in the window when the loop ends, with as many rows around it as fit. */
  method RequiredRowDelivered(window: CursorWindow, rows: seq<QueryRow>, columns: nat,
                              outcome: nat -> Outcome, startPos: nat, required: nat, countAllRows: bool)
    returns (r: LoopResult)
    requires forall call :: !Fails(outcome, call)
    requires !window.mReadOnly && HEADER + CHUNK <= window.data.Length && NoWrap(window.data.Length, columns)
    requires SizedRows(rows, columns, window.data.Length)
    requires startPos <= required < |rows|
    requires EachFits(rows, startPos, required, columns, window.data.Length)
    modifies window, window.data
    ensures r.Result? && window.Valid()
    ensures Delivered(window.table, rows, r.start, required)
    ensures AsManyAsFit(window.table, rows, r.start, columns, window.data.Length)
  {
    hide Represents, Used, Copy;
    ghost var calls;
    r, calls := ExecuteForCursorWindow(window, rows, outcome, columns, startPos, required, countAllRows);
    NeverGivesUp(outcome, calls);
    FillDelivers(rows, r.total, startPos, required, columns, window.data.Length, window.table);
  }

  /** What a fill says of the table that holds its rows. */
  lemma {:induction false} FillDelivers(rows: seq<QueryRow>, k: nat, start: nat, required: nat, columns: nat,
                                        limit: nat, t: Table)
    requires k <= |rows| && start <= required < |rows| && EachFits(rows, start, required, columns, limit)
    requires var f := FillTo(rows, k, start, required, columns, limit);
             TableOf(t, f.rows) && (k == |rows| || f.full || f.failed)
    ensures var f := FillTo(rows, k, start, required, columns, limit);
            Delivered(t, rows, f.start, required) && AsManyAsFit(t, rows, f.start, columns, limit)
  {
    hide Used, Copy, EachFits, FillTo;
    RequiredKept(rows, k, start, required, columns, limit);
    Contiguous(rows, k, start, required, columns, limit);
    FullIsFull(rows, k, start, required, columns, limit);
    ghost var f := FillTo(rows, k, start, required, columns, limit);
    assert f.rows[required - f.start] == rows[required];
    StoredShows(rows[required]);
  }

  /** The same promise of the other loop, whose texts take up the room of their modified UTF-8 form. */
  method RequiredRowDeliveredOther(win: CursorWindow, rows: seq<QueryRow>, nCol: nat, broken: bool, startPos: nat,
                                   iRowRequired: nat, countAllRows: bool) returns (r: LoopResult)
    requires !win.mReadOnly && HEADER + CHUNK <= win.data.Length && NoWrap(win.data.Length, nCol)
    requires SizedRows(JavaRows(rows), nCol, win.data.Length) && forall i :: 0 <= i < |rows| ==> AllKnown(rows[i])
    requires startPos <= iRowRequired < |rows|
    requires EachFits(JavaRows(rows), startPos, iRowRequired, nCol, win.data.Length)
    modifies win, win.data
    ensures r.Result? && win.Valid()
    ensures Delivered(win.table, JavaRows(rows), r.start, iRowRequired)
    ensures AsManyAsFit(win.table, JavaRows(rows), r.start, nCol, win.data.Length)
  {
    hide Represents, Used, Copy, JavaColumn, JavaRow, FillTo, FillToOther, EachFits;
    r := ExecuteForCursorWindowOther(win, rows, broken, nCol, startPos, iRowRequired, countAllRows);
    ghost var k := if r.total == |rows| then |rows| else r.total + 1;
    SameFill(JavaRows(rows), k, startPos, iRowRequired, nCol, win.data.Length);
    FillDelivers(JavaRows(rows), k, startPos, iRowRequired, nCol, win.data.Length, win.table);
  }
}

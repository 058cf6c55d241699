# Verification of the SQLite bindings

A Dafny model of the native and Java code with which this application talks to SQLite, with proofs of what that code
promises. `dafny verify dfyconfig.toml` checks all of it.

| file | models |
|---|---|
| `Common.dfy` | options, and sequences without repetition |
| `Memory.dfy` | little-endian words in a byte buffer |
| `WindowLayout.dfy`, `CursorWindow.dfy`, `WindowRuns.dfy` | the cursor window: a table of cells in one flat buffer (bump allocator, chain of 100-row slot chunks, field directories, string and blob bytes) |
| `FillLoop.dfy` | the two independent loops that fill a window with a run of a query's rows |
| `Utf8.dfy`, `WindowStrings.dfy` | the UTF-8 decoder with error recovery, and strings in window cells |
| `IntArrayBounds.dfy`, `IntArraySearch.dfy`, `IntArrayPlan.dfy` | the INTARRAY virtual table: bounds, cursor, search strategies, query planner |
| `IntArrayMap.dfy` | its hash table of names |
| `Job.dfy`, `Queue.dfy` | jobs and the job queue over all interleavings of their threads |
| `Statements.dfy` | the compiled-statement cache and the registry of statements |
| `Buffers.dfy` | the pool of direct buffers and the streams that write into them |

Code that changes state in place is modelled by classes and methods with loops, proved against functions of the old
state; what the code promises is then proved of those functions, or is the invariant the methods keep. Each synchronized
block of the job and the queue is one atomic step, proved by a method on the class; the threads around it are a state
machine whose schedules are arbitrary sequences of steps. SQLite, JNI and Android appear as their answers: a return code,
a row, whether an allocation succeeds, the order of steps are parameters.

Words used below: a *live* row is one the window counts; the *run* of a window is the rows `start`, `start + 1`, ... of
the query that it holds; a *scan* is xFilter followed by xNext until the end.

## Where the code and its documentation differ

The model follows the code.

- A cancelled job whose body still returns a value passes that value to `jobFinished`; `SQLiteJob.java:119-133`
  promises null (`Jobs.CancelledPassesResult`; the exact condition is `Jobs.FinishedAsDocumented`).
- `jobFinished` is not always called: a ThreadDeath thrown by `jobCancelled` or `jobError` skips it
  (`Jobs.NeverFinished`; `Jobs.FinishedOnce` says that nothing else skips it).
- A job reported as cancelled can later be reported as erred (`Jobs.CancelledBecomesError`; the exact condition is
  `Jobs.CancelledMayErr`).
- `stop(true)` followed by `stop(false)`, which the documentation of `stop` offers for a shutdown that is not graceful,
  cancels the pending jobs but not the one being executed, which `stop(false)` alone does
  (`Queues.StopCancelsCurrent`, with a run in `Queues.LateStopCancelsNothing`). The documentation says only that a
  running job may be cancelled.
- The row count of the sqlite-android loop is one greater than that of the other loop, whose count is documented, when
  the loop stops at a full window (`FillLoop.LoopsAgree`; `FillLoop.BigRowStops` gives a query).
- The sqlite-android loop stores a text as SQLite has it, in UTF-8; the other loop stores the modified UTF-8 form of its
  Java string. They agree on a text exactly if it has neither NUL nor a supplementary character
  (`FillLoop.TextIffPlain`, `FillLoop.SameCellsIffPlain`; `FillLoop.EmojiDiffers` gives a query).
- A bound `> 9223372036854775807` or `< -9223372036854775808` lets one value through although SQLite is told not to test
  it again (`IntArrayBounds.FaithfulIffTight`; `IntArrayPlan.ExtremeReturned` gives a query).
- A scan of an ordered array of up to seven values does not test the lower bound, and a minimum on the rowid is cut to
  32 bits (`IntArraySearch.ScanVisits` says what a scan visits and `IntArraySearch.VisitedIffExact` exactly when that is
  right; two lemmas give inputs for which it is not). `IntArrayPlan.Query` says, for both reasons together, when a
  query returns the right rows.
- A name behind a tombstone cannot be removed from the INTARRAY hash table and is still found
  (`IntArrayMaps.RemoveLeavesName`; the exact condition is in `IntArrayMaps.RemoveOk`).

## Model

| member | source | states |
|---|---|---|
| `WindowLayout.RegionsDisjoint` | app/src/main/jni/sqlite-android/CursorWindow.cpp:129-278 | the header, every chunk on the chain, the field directory of every live row and every live string or blob are pairwise disjoint and lie below the free offset, which lies within the window |
| `WindowLayout.TableDetermined` | app/src/main/jni/sqlite-android/CursorWindow.cpp:151-199 | the bytes alone determine the table: two layouts read from the same bytes have the same chunks, directories and cells |
| `WindowLayout.ChainDetermined` | app/src/main/jni/sqlite-android/CursorWindow.cpp:151-160 | following the links from the first chunk gives one chain only |
| `WindowLayout.Format` | app/src/main/jni/sqlite-android/CursorWindow.h:55-136 | the byte format in numbers: header words at 0, 4, 8 and 12, a link at 400 in each chunk, the slot of row r as word r % 100 of chunk r / 100, fields of 12 bytes with types 0 to 4 |
| `Memory.WordBytes` | app/src/main/jni/sqlite-android/CursorWindow.cpp:60-73 | a word is stored least significant byte first |
| `Memory.LongBytes` | app/src/main/jni/sqlite-android/CursorWindow.cpp:234-262 | and so is a 64-bit value |
| `WindowLayout.LinkChunk` | app/src/main/jni/sqlite-android/CursorWindow.cpp:162-183 | a chunk linked to the end of the chain leaves every cell as it was |
| `WindowLayout.CutChain` | app/src/main/jni/sqlite-android/CursorWindow.cpp:162-183 | reusing the chunk after the last row, and clearing its link, loses no live row |
| `WindowLayout.AppendRow` | app/src/main/jni/sqlite-android/CursorWindow.cpp:89-116 | a zeroed directory entered in the next slot appends a row of NULLs and keeps every other cell |
| `WindowLayout.DropRow` | app/src/main/jni/sqlite-android/CursorWindow.cpp:118-127 | counting one row less drops the last row and keeps all others |
| `WindowLayout.PutCell` | app/src/main/jni/sqlite-android/CursorWindow.cpp:210-278 | rewriting one field slot, with data placed above everything in use, replaces exactly that cell |
| `CursorWindows.AllocInside` | app/src/main/jni/sqlite-android/CursorWindow.cpp:129-149 | an allocation that passes the size check lies between the free offset and the end exactly when no 32-bit wrap-around made it pass |
| `CursorWindows.RoundsUp` | app/src/main/jni/sqlite-android/CursorWindow.cpp:129-149 | an aligned allocation starts at the next multiple of four |
| `CursorWindows.CursorWindow.constructor` | app/src/main/jni/sqlite-android/CursorWindow.cpp:39-58 | a new window holds the empty table |
| `CursorWindows.CursorWindow.Clear` | app/src/main/jni/sqlite-android/CursorWindow.cpp:60-73 | a writable window is emptied, whatever its bytes were; a read-only one is refused and unchanged |
| `CursorWindows.CursorWindow.SetNumColumns` | app/src/main/jni/sqlite-android/CursorWindow.cpp:75-87 | the column count changes only while there is neither a column nor a row, or not at all; cells are kept |
| `CursorWindows.CursorWindow.AllocRow` | app/src/main/jni/sqlite-android/CursorWindow.cpp:89-116 | appends a row of NULLs, or fails and leaves the table as it was, with the exact free offset in each case |
| `CursorWindows.CursorWindow.FreeLastRow` | app/src/main/jni/sqlite-android/CursorWindow.cpp:118-127 | drops the last row only; the free offset stays |
| `CursorWindows.CursorWindow.Alloc` | app/src/main/jni/sqlite-android/CursorWindow.cpp:129-149 | the bump allocator in 32-bit arithmetic: aligned start, new free offset, or 0 and no change |
| `CursorWindows.CursorWindow.GetRowSlot` | app/src/main/jni/sqlite-android/CursorWindow.cpp:151-160 | the walk with >= finds the slot of row r in chunk r / 100 |
| `CursorWindows.CursorWindow.AllocRowSlot` | app/src/main/jni/sqlite-android/CursorWindow.cpp:162-183 | the walk with > reserves the very slot getRowSlot will find for the new row, reusing a chunk if the chain has one; on failure nothing changes |
| `CursorWindows.CursorWindow.GetFieldSlot` | app/src/main/jni/sqlite-android/CursorWindow.cpp:185-199 | the address of the field slot, or 0 exactly if the row or column does not exist |
| `CursorWindows.CursorWindow.PutBlobOrString` | app/src/main/jni/sqlite-android/CursorWindow.cpp:201-232 | exactly one cell changes, to the given bytes, or the call fails with the right status and the table is unchanged |
| `CursorWindows.CursorWindow.PutLong` | app/src/main/jni/sqlite-android/CursorWindow.cpp:234-247 | exactly one cell changes, to the given integer, or nothing does |
| `CursorWindows.CursorWindow.PutDouble` | app/src/main/jni/sqlite-android/CursorWindow.cpp:249-262 | exactly one cell changes, to the given double, or nothing does |
| `CursorWindows.CursorWindow.PutNull` | app/src/main/jni/sqlite-android/CursorWindow.cpp:264-278 | exactly one cell becomes NULL, or nothing changes |
| `CursorWindows.CursorWindow.ReadField` | app/src/main/jni/sqlite-android/CursorWindow.h:113-136 | the accessors read back the value the field slot stands for |
| `CursorWindows.CursorWindow.GetValue` | app/src/main/jni/sqlite-android/android_database_CursorWindow.cpp:160-205 | what is read at a row and column is the table's cell |
| `WindowRuns.Perform` | app/src/main/jni/sqlite-android/CursorWindow.cpp:60-278 | any call on a writable window is answered, and has the effect, that the table and the space in use say; a read-only window refuses it and stays |
| `WindowRuns.FailureKeepsCells` | app/src/main/jni/sqlite-android/CursorWindow.cpp:89-278 | a call that fails changes no cell |
| `WindowRuns.Run` | app/src/main/jni/sqlite-android/CursorWindow.cpp:60-278 | over every sequence of calls the flat buffer refines a table of cells with an account of its space: each call succeeds exactly when table and space say, and the buffer stands for the table that the calls make |
| `WindowRuns.RowTakes` | app/src/main/jni/sqlite-android/CursorWindow.cpp:89-183 | the room of a row in numbers: 404 bytes before every hundredth row unless the chain has a chunk, and 12 bytes a column, each aligned |
| `FillLoop.CopyOk` | app/src/main/jni/sqlite-android/android_database_SQLiteConnection.cpp:662-753 | a row is copied exactly if directory and data fit behind what is in use |
| `FillLoop.FitsAlone` | app/src/main/jni/sqlite-android/android_database_SQLiteConnection.cpp:662-753 | a row fits in a cleared window exactly if 420 bytes plus 12 for each column plus its string and blob bytes do |
| `FillLoop.CopyRow` | app/src/main/jni/sqlite-android/android_database_SQLiteConnection.cpp:662-753 | the row is appended whole or not at all, and its cells show what SQLite reported, type by type; on every failure the partial row is backed out |
| `FillLoop.CopyThenRead` | app/src/main/jni/sqlite-android/android_database_SQLiteConnection.cpp:662-753 | a row that was copied is read back column by column: an integer as this integer, a double as its bits, a blob as its bytes, a text as its bytes and a NUL, NULL as NULL |
| `FillLoop.CopyFails` | app/src/main/jni/sqlite-android/android_database_SQLiteConnection.cpp:690-742 | a row fails, rather than finding the window full, exactly if it comes to a column of unknown type before it runs out of room |
| `FillLoop.RoomOfRows` | app/src/main/jni/sqlite-android/android_database_SQLiteConnection.cpp:662-753 | the bytes in use, row by row, in numbers |
| `FillLoop.RoomAtFirst` | app/src/main/jni/sqlite-android/android_database_SQLiteConnection.cpp:760-764 | a cleared window has 420 bytes in use |
| `FillLoop.RoomOfData` | app/src/main/jni/sqlite-android/android_database_SQLiteConnection.cpp:672-735 | the data of a row, column by column: text and NUL, blob, and nothing else |
| `FillLoop.CopyRowToWindow` | app/src/main/jni/sqlite/android_database_SQLiteConnection.cpp:608-666 | the row is appended whole, with each text in the modified UTF-8 form of its Java string, or not at all; it fails exactly if that form does not fit |
| `FillLoop.JavaStored` | app/src/main/jni/sqlite/android_database_SQLiteConnection.cpp:640-646 | the cell of a text is the one that put-string makes of the Java string |
| `FillLoop.SetWindowNumColumns` | app/src/main/jni/sqlite/android_database_SQLiteConnection.cpp:668-679 | clears the window and sets its columns |
| `FillLoop.Contiguous` | app/src/main/jni/sqlite-android/android_database_SQLiteConnection.cpp:775-831 | after any number of rows the window holds an uninterrupted run of the query's rows |
| `FillLoop.RequiredKept` | app/src/main/jni/sqlite-android/android_database_SQLiteConnection.cpp:792-802 | if every row up to the required one fits alone, the window never starts beyond it and is never given up before it is in |
| `FillLoop.FullIsFull` | app/src/main/jni/sqlite-android/android_database_SQLiteConnection.cpp:785-789 | a window found full, or failed, could not take the next row |
| `FillLoop.FullStays` | app/src/main/jni/sqlite-android/android_database_SQLiteConnection.cpp:785-789 | a full window stays as it is for the rest of the query |
| `FillLoop.NoNeedlessRestart` | app/src/main/jni/sqlite-android/android_database_SQLiteConnection.cpp:792-802 | the window is started again only at a row, not behind the required one, that found it full, and stays full only if it holds a row behind the required one or none |
| `FillLoop.StartsOnce` | app/src/main/jni/sqlite-android/android_database_SQLiteConnection.cpp:792-802 | a window whose required row lies before its start is never started again |
| `FillLoop.TakeRow` | app/src/main/jni/sqlite-android/android_database_SQLiteConnection.cpp:791-812 | the loop's body: copies the row, or restarts the window at it when the required row is still to come |
| `FillLoop.TakeRowOther` | app/src/main/jni/sqlite/android_database_SQLiteConnection.cpp:756-777 | the same for the other loop, which clears a full window even when nothing is in it |
| `FillLoop.ExecuteForCursorWindow` | app/src/main/jni/sqlite-android/android_database_SQLiteConnection.cpp:755-844 | terminates, and on every exit, also a full window or an exception, the window holds exactly the run of rows that a step-by-step fill of the query gives, no partial row, with cells that show what SQLite reported; the start and row count returned describe it; an exception is pending if and only if a column had an unknown type or the last call made, and no earlier one, made the loop give up; if all rows are counted and known, if and only if the query makes the loop give up before its end |
| `FillLoop.GivesUpIff` | app/src/main/jni/sqlite-android/android_database_SQLiteConnection.cpp:762-784 | the loop that counts all rows gives up exactly if an error, or one busy answer more than the retries allow, comes before the end of the query |
| `FillLoop.GivesUpAfter` | app/src/main/jni/sqlite-android/android_database_SQLiteConnection.cpp:762-784 | the loop gives up at an error and at the 52nd busy answer in a row |
| `FillLoop.RequiredRowDelivered` | app/src/main/jni/sqlite-android/android_database_SQLiteConnection.cpp:755-844 | without errors, and if every row from the start to the required one fits alone, the required row is in the window when the loop ends, with as many rows around it as fit |
| `FillLoop.RequiredRowDeliveredOther` | app/src/main/jni/sqlite/android_database_SQLiteConnection.cpp:680-795 | the same of the other loop, counting the room of the modified UTF-8 forms |
| `FillLoop.ExecuteForCursorWindowOther` | app/src/main/jni/sqlite/android_database_SQLiteConnection.cpp:707-795 | the same for the other loop, over the rows whose texts went through Java strings; its cells show what SQLite reported, with texts in modified UTF-8 |
| `FillLoop.SameFill` | app/src/main/jni/sqlite/android_database_SQLiteConnection.cpp:690-706 | the two ways to fill a window agree after every row of an error-free query, given the same texts |
| `FillLoop.LoopsAgree` | app/src/main/jni/sqlite/android_database_SQLiteConnection.cpp:680-795 | on every error-free query each loop ends with the final fill of its rows and with exactly this count: all rows, or, if it stops at a full window, the rows up to the last one in the window, and in the sqlite-android loop one more; if all texts are plain, start row and cells agree; if all are well-formed, they agree if and only if both windows hold the same run of rows and its texts are plain |
| `FillLoop.TextIffPlain` | app/src/main/jni/sqlite/android_database_SQLiteConnection.cpp:640-646 | the two loops put the same bytes for a well-formed text exactly if it has neither NUL nor a supplementary character |
| `FillLoop.RowIffPlain` | app/src/main/jni/sqlite/android_database_SQLiteConnection.cpp:608-666 | the same for all cells of a row |
| `FillLoop.SameCellsIffPlain` | app/src/main/jni/sqlite/android_database_SQLiteConnection.cpp:608-666 | of two windows filled by the two loops, start and cells agree exactly if they hold the same run of rows and its texts are plain |
| `FillLoop.TextReadBack` | app/src/main/jni/sqlite-android/android_database_CursorWindow.cpp:160-188 | from the cell of either loop, get-string gives the Java string of a well-formed text |
| `FillLoop.EmojiDiffers` | app/src/main/jni/sqlite/android_database_SQLiteConnection.cpp:640-646 | a query of one row, U+1F600, for which the cells differ in content and size |
| `FillLoop.BigRowStops` | app/src/main/jni/sqlite-android/android_database_SQLiteConnection.cpp:814-831 | a query of one row, too large for the window, at which the loops stop: one counts it, the other does not |
| `Utf8.Utf8ToJavaCharArray` | app/src/main/jni/sqlite-android/JNIString.cpp:27-117 | on arbitrary bytes the loop terminates, writes no more code units than there are bytes, and computes Decode |
| `Utf8.Turn1` | app/src/main/jni/sqlite-android/JNIString.cpp:33-114 | one turn of the loop, with the put-back of a byte that ends a sequence early |
| `Utf8.IllegalByte` | app/src/main/jni/sqlite-android/JNIString.cpp:38-57 | a byte 0x80 to 0xbf, 0xfe or 0xff, and a lead byte with too few bytes behind it, become U+FFFD alone |
| `Utf8.CutShort` | app/src/main/jni/sqlite-android/JNIString.cpp:59-69 | a lead byte and fewer continuation bytes than it calls for become one U+FFFD, and the byte behind them is read again |
| `Utf8.WholeTurn` | app/src/main/jni/sqlite-android/JNIString.cpp:59-110 | a sequence with all its bytes becomes the units of its value |
| `Utf8.LeadRanges` | app/src/main/jni/sqlite-android/JNIString.cpp:38-49 | how many bytes each range of lead bytes calls for, and what a continuation byte is |
| `Utf8.LeadValue` | app/src/main/jni/sqlite-android/JNIString.cpp:59-60 | the bits of a lead byte that belong to the value |
| `Utf8.PushedValue` | app/src/main/jni/sqlite-android/JNIString.cpp:70-73 | each continuation byte adds six bits |
| `Utf8.UnitsOfValue` | app/src/main/jni/sqlite-android/JNIString.cpp:88-110 | U+FFFD for surrogates not written in three bytes and beyond U+10FFFF, a surrogate pair from U+10000 on, else the value |
| `Utf8.ModifiedRoundTrip` | app/src/main/jni/sqlite-android/JNIString.cpp:27-117 | the modified UTF-8 form (section 4.4.7 of the Java Virtual Machine Specification) of any sequence of 16-bit units, NUL and lone surrogates included, decodes to that sequence, whatever follows it |
| `Utf8.Utf8ToUtf16` | app/src/main/jni/sqlite-android/JNIString.cpp:27-117 | the UTF-8 form (section 3 of RFC 3629) of any text decodes to its UTF-16 form (section 2.1 of RFC 2781), whatever follows it |
| `Utf8.Resynchronizes` | app/src/main/jni/sqlite-android/JNIString.cpp:64-69 | after any garbage, well-formed text behind it is decoded in full |
| `Utf8.SameFormIffPlain` | app/src/main/jni/sqlite-android/android_database_CursorWindow.cpp:291-311 | the UTF-8 form of a text is the modified UTF-8 form of its UTF-16 form if and only if the text has neither NUL nor a supplementary character |
| `Utf8.Examples` | app/src/main/jni/sqlite-android/android_database_CursorWindow.cpp:291-311 | examples of UTF-8, UTF-16 and modified UTF-8 in numbers |
| `Utf8.EmojiForms` | app/src/main/jni/sqlite-android/android_database_CursorWindow.cpp:291-311 | U+1F600 takes four bytes in one form and six in the other |
| `WindowStrings.CellRoundTrip` | app/src/main/jni/sqlite-android/android_database_CursorWindow.cpp:291-311 | the cell content put-string makes of a Java string stands for that string |
| `WindowStrings.StringOfCell` | app/src/main/jni/sqlite-android/android_database_CursorWindow.cpp:160-188 | the last byte of a cell is no part of its string, whatever it is |
| `WindowStrings.PutString` | app/src/main/jni/sqlite-android/android_database_CursorWindow.cpp:291-311 | puts modified UTF-8 and a NUL into one cell |
| `WindowStrings.GetString` | app/src/main/jni/sqlite-android/android_database_CursorWindow.cpp:160-188 | the string of a text cell |
| `WindowStrings.PutThenGet` | app/src/main/jni/sqlite-android/android_database_CursorWindow.cpp:160-311 | a string that was put is got back unchanged |
| `IntArrayBounds.ConstrainMeaning` | app/src/main/jni/sqlite4java/native/intarray.c:456-520 | turning a constraint into bounds lets through, of the values let through before, exactly those that meet it, and the extreme of a strict bound at an extreme of the 64-bit range |
| `IntArrayBounds.Comparisons` | app/src/main/jni/sqlite4java/native/intarray.c:456-520 | what the operators mean, in terms of differences and of each other; whole doubles compare like integers, NULL like nothing, text above all numbers |
| `IntArrayBounds.FaithfulIffTight` | app/src/main/jni/sqlite4java/native/intarray.c:456-462 | bounds mean the constraint exactly if it is not a strict bound at an extreme of the 64-bit range |
| `IntArraySearch.BinarySearch` | app/src/main/jni/sqlite4java/native/intarray.c:266-279 | the lower bound, both when locating the first of equal values and for distinct values |
| `IntArraySearch.Cursor.IntarrayNextMatch` | app/src/main/jni/sqlite4java/native/intarray.c:237-264 | the next row the search stops at, and what is left of the number of values to find |
| `IntArraySearch.Cursor.IntarrayBoundary` | app/src/main/jni/sqlite4java/native/intarray.c:464-477 | the boundary an operator sets |
| `IntArraySearch.Cursor.IntarrayConstrainCursor` | app/src/main/jni/sqlite4java/native/intarray.c:479-520 | the bounds after one argument |
| `IntArraySearch.Cursor.IntarrayFilter` | app/src/main/jni/sqlite4java/native/intarray.c:524-567 | the bounds of the arguments, then the search from the lower bound or the first row |
| `IntArraySearch.Cursor.IntarrayNext` | app/src/main/jni/sqlite4java/native/intarray.c:421-425 | the search goes on behind the current row |
| `IntArraySearch.Cursor.VisitAll` | app/src/main/jni/sqlite4java/native/intarray.c:411-567 | filter and repeated next visit exactly the rows of `Visited`, in order; these are what a naive scan would visit if and only if ScanExact holds |
| `IntArraySearch.ScanVisits` | app/src/main/jni/sqlite4java/native/intarray.c:237-264 | for every array, bounds and start that xFilter can choose, and every search strategy, the search visits the rows within the bounds, but for a minimum that is not looked at or is cut to 32 bits |
| `IntArraySearch.SelectMeans` | app/src/main/jni/sqlite4java/native/intarray.c:411-425 | the rows of a scan are those that pass its test, each once and in ascending order |
| `IntArraySearch.VisitedIffExact` | app/src/main/jni/sqlite4java/native/intarray.c:551-556 | these rows are those that a scan testing every row would give if and only if ScanExact holds |
| `IntArraySearch.MisreadIff` | app/src/main/jni/sqlite4java/native/intarray.c:551-556 | row by row, by which guard a scan goes wrong |
| `IntArraySearch.OrderedVisit` | app/src/main/jni/sqlite4java/native/intarray.c:246-248 | a search in an ordered array, which ends at the first value above the maximum, loses no row within the bounds |
| `IntArraySearch.UnorderedVisit` | app/src/main/jni/sqlite4java/native/intarray.c:249-261 | a search in an unordered array visits exactly the wanted rows, also when the count of values left to find cuts it off |
| `IntArraySearch.Pigeonhole` | app/src/main/jni/sqlite4java/native/intarray.c:249-261 | once all values between the bounds have been found in an array of distinct values, no later value is wanted |
| `IntArraySearch.InitialLeftCounts` | app/src/main/jni/sqlite4java/native/intarray.c:558-565 | the limit computed with 64-bit wrap-around is the number of values between the bounds |
| `IntArraySearch.ScanExactInPractice` | app/src/main/jni/sqlite4java/native/intarray.c:551-556 | conditions that a caller can check and that make a scan exact |
| `IntArraySearch.SmallOrderedArrayVisitsTooMuch` | app/src/main/jni/sqlite4java/native/intarray.c:551-556 | a small ordered array for which the scan visits a row below the minimum |
| `IntArraySearch.LargeRowidWraps` | app/src/main/jni/sqlite4java/native/intarray.c:551-553 | a rowid minimum beyond 32 bits for which the scan visits a row too much |
| `IntArrayPlan.IndexInfo.C2opbits` | app/src/main/jni/sqlite4java/native/intarray.c:589-608 | which of two constraints become arguments, and their bits |
| `IntArrayPlan.IndexInfo.Classify` | app/src/main/jni/sqlite4java/native/intarray.c:632-656 | the first two usable constraints on the rowid and on the value, or that an operator is strange |
| `IntArrayPlan.IndexInfo.BestIndex` | app/src/main/jni/sqlite4java/native/intarray.c:623-673 | a full scan if a usable constraint has a strange operator or none is usable; else by rowid if a usable constraint is on it, and only otherwise by value; the first usable constraint on that column is argument 1, the second argument 2 unless it bounds the same side, both omitted, all others unused |
| `IntArrayPlan.OpBits` | app/src/main/jni/sqlite4java/native/intarray.c:571-587 | the bits of the operators, and when two bound the same side |
| `IntArrayPlan.BoundsOfPlan` | app/src/main/jni/sqlite4java/native/intarray.c:524-549 | xFilter decodes from the index number what the planner encoded |
| `IntArrayPlan.PlanRow` | app/src/main/jni/sqlite4java/native/intarray.c:589-608 | a row meets the WHERE clause exactly if it lies within the planned bounds, passes the tests left to SQLite and does not slip through a bound |
| `IntArrayPlan.PlanKeepsWhere` | app/src/main/jni/sqlite4java/native/intarray.c:623-673 | the same for whichever plan is chosen, and the bounds xFilter makes of it |
| `IntArrayPlan.Query` | app/src/main/jni/sqlite4java/native/intarray.c:524-673 | planner, cursor and SQLite's own tests together return, in ascending order, the rows visited that pass the tests; these are the rows that meet the WHERE clause if and only if none of those that pass the tests is misjudged, so always if the scan is exact and no strict bound at an extreme was taken over |
| `IntArrayPlan.RightIffNoneMisjudged` | app/src/main/jni/sqlite4java/native/intarray.c:589-608 | the rows returned are right if and only if no row that passes SQLite's own tests slips through a bound when visited, or lies below a minimum that is not looked at, or between a minimum and what it is cut to |
| `IntArrayPlan.ExtremeReturned` | app/src/main/jni/sqlite4java/native/intarray.c:456-462 | a query, value > 9223372036854775807 on an array of this value, that returns a row too much |
| `IntArrayMaps.StrHash` | app/src/main/jni/sqlite4java/native/intarray.c:128-134 | the hash of a name, which HashLaw, MixedIn and Cut describe byte by byte |
| `IntArrayMaps.HashLaw` | app/src/main/jni/sqlite4java/native/intarray.c:128-134 | the hash is made byte by byte, from 0 |
| `IntArrayMaps.MixedIn` | app/src/main/jni/sqlite4java/native/intarray.c:128-134 | state, eight times the state, and the lower-case byte, signed where char is, exclusive or, in 32 bits |
| `IntArrayMaps.Cut` | app/src/main/jni/sqlite4java/native/intarray.c:128-134 | at the end 0 becomes 1 and the top bit is cut off |
| `IntArrayMaps.FoldsSame` | app/src/main/jni/sqlite4java/native/intarray.c:136-146 | names are compared equal exactly if they have the same length and differ, byte by byte, at most in the case of an ASCII letter |
| `IntArrayMaps.HashIgnoresCase` | app/src/main/jni/sqlite4java/native/intarray.c:128-134 | names that differ, byte by byte, at most in the case of an ASCII letter have the same hash |
| `IntArrayMaps.FindExact` | app/src/main/jni/sqlite4java/native/intarray.c:220-233 | a search finds the handle of the name if the table has it, and nothing else |
| `IntArrayMaps.InsertOk` | app/src/main/jni/sqlite4java/native/intarray.c:136-163 | an insertion adds the name and keeps all others findable |
| `IntArrayMaps.StopDecides` | app/src/main/jni/sqlite4java/native/intarray.c:136-163 | where probing stops decides whether a name is a duplicate, tombstones included |
| `IntArrayMaps.LiveCells` | app/src/main/jni/sqlite4java/native/intarray.c:187-197 | the count of names is the count of live cells, so a table that is not full has a gap |
| `IntArrayMaps.RemoveOk` | app/src/main/jni/sqlite4java/native/intarray.c:199-218 | removal deletes the name if no tombstone precedes it on its probe path, and otherwise changes nothing |
| `IntArrayMaps.RemovableWithoutTombs` | app/src/main/jni/sqlite4java/native/intarray.c:199-218 | as long as there is no tombstone every name can be removed |
| `IntArrayMaps.MapPut` | app/src/main/jni/sqlite4java/native/intarray.c:136-163 | duplicates are refused, all else is inserted; never an internal error |
| `IntArrayMaps.IntArrayMap.constructor` | app/src/main/jni/sqlite4java/native/intarray.c:111-121 | an empty table of 17 cells |
| `IntArrayMaps.IntArrayMap.Rehash` | app/src/main/jni/sqlite4java/native/intarray.c:165-185 | the larger table holds the same map and has no tombstone |
| `IntArrayMaps.IntArrayMap.Put` | app/src/main/jni/sqlite4java/native/intarray.c:187-197 | inserts the name, or reports a duplicate exactly if the table has it in whatever case; the count stays below the rehash size, which stays below the size |
| `IntArrayMaps.IntArrayMap.Remove` | app/src/main/jni/sqlite4java/native/intarray.c:199-218 | the exact effect on the cells and on the map; no other name is lost |
| `IntArrayMaps.IntArrayMap.Find` | app/src/main/jni/sqlite4java/native/intarray.c:220-233 | the handle whose name is the same in whatever case, if and only if there is one |
| `IntArrayMaps.NamesOk` | app/src/main/jni/sqlite4java/native/intarray.c:136-163 | no two names of a table are the same but for case |
| `IntArrayMaps.CaseIgnored` | app/src/main/jni/sqlite4java/native/intarray.c:136-233 | the name A is found as a, and a is refused as a second name |
| `IntArrayMaps.RemoveLeavesName` | app/src/main/jni/sqlite4java/native/intarray.c:199-218 | two names with one home cell: after the first is removed the second cannot be, is still found and still taken |
| `Jobs.SQLiteJob.Cancel` | app/src/main/java/com/almworks/sqlite4java/SQLiteJob.java:216-230 | a job that is done, or is running and may not be interrupted, is refused and stays as it is; any other is cancelled, and interrupted exactly if it has a connection |
| `Jobs.SQLiteJob.StartJob` | app/src/main/java/com/almworks/sqlite4java/SQLiteJob.java:380-392 | only a pending job starts, and only then gets connection and queue |
| `Jobs.SQLiteJob.ProcessJobError` | app/src/main/java/com/almworks/sqlite4java/SQLiteJob.java:403-417 | an interruption makes the job cancelled and goes no further; any other failure is kept, makes it erred and is rethrown |
| `Jobs.SQLiteJob.FinishJob` | app/src/main/java/com/almworks/sqlite4java/SQLiteJob.java:419-430 | the connection is given up; the result is stored, and the job succeeds, only if it is still running |
| `Jobs.SQLiteJob.NotifyFinished` | app/src/main/java/com/almworks/sqlite4java/SQLiteJob.java:447-450 | the job leaves its queue and nothing else changes |
| `Jobs.SQLiteJob.IsDone` | app/src/main/java/com/almworks/sqlite4java/SQLiteJob.java:185-189 | true for succeeded, cancelled and erred jobs |
| `Jobs.Kept` | app/src/main/java/com/almworks/sqlite4java/SQLiteJob.java:216-455 | every step of every thread keeps the job's invariant |
| `Jobs.Outcome` | app/src/main/java/com/almworks/sqlite4java/SQLiteJob.java:368-430 | over every interleaving: a job ends erred exactly if its body failed other than by the interruption, and with that very failure; cancelled if it was interrupted, or was cancelled and did not so fail; else succeeded with the value its body returned |
| `Jobs.CancelMeans` | app/src/main/java/com/almworks/sqlite4java/SQLiteJob.java:216-245 | a cancel changes nothing exactly if the job is done, or is running and must not be interrupted; else the job is cancelled, and the connection it runs on interrupted, or the caller is to finish it |
| `Jobs.ExecuteMeans` | app/src/main/java/com/almworks/sqlite4java/SQLiteJob.java:368-392 | an execute runs a pending job on its connection, and no other job |
| `Jobs.CallbacksMean` | app/src/main/java/com/almworks/sqlite4java/SQLiteJob.java:431-446 | jobFinished follows jobCancelled or jobError with the same result unless these throw ThreadDeath |
| `Jobs.NotifyMeans` | app/src/main/java/com/almworks/sqlite4java/SQLiteJob.java:447-450 | at the end the job leaves its queue |
| `Jobs.FinishedOnce` | app/src/main/java/com/almworks/sqlite4java/SQLiteJob.java:368-455 | over every interleaving the body runs at most once and finishJob runs at most once, and exactly once when an execute that ran the job or a cancel of a pending job has returned; by then jobFinished was called once, unless jobCancelled or jobError threw ThreadDeath |
| `Jobs.NeverFinished` | app/src/main/java/com/almworks/sqlite4java/SQLiteJob.java:431-446 | an interleaving in which a cancelled job is over and jobFinished was never called |
| `Jobs.ResultStored` | app/src/main/java/com/almworks/sqlite4java/SQLiteJob.java:419-430 | a result is stored only by the step from RUNNING to SUCCEEDED |
| `Jobs.DoneForGood` | app/src/main/java/com/almworks/sqlite4java/SQLiteJob.java:185-189 | once done a job stays done; only CANCELLED may still become ERROR, and not after finishJob |
| `Jobs.CancelAssertion` | app/src/main/java/com/almworks/sqlite4java/SQLiteJob.java:225 | the assertion in cancel holds over every interleaving |
| `Jobs.FinishedAsDocumented` | app/src/main/java/com/almworks/sqlite4java/SQLiteJob.java:419-455 | jobFinished gets the documented value, the result of a job that succeeded and else none, if and only if finishJob found the job running or was given no result; an erred job always passes none |
| `Jobs.CancelledPassesResult` | app/src/main/java/com/almworks/sqlite4java/SQLiteJob.java:431-446 | an interleaving in which a cancelled job passes a result to jobFinished |
| `Jobs.CancelledBecomesError` | app/src/main/java/com/almworks/sqlite4java/SQLiteJob.java:403-417 | an interleaving in which a cancelled job becomes an erred one |
| `Jobs.CancelledMayErr` | app/src/main/java/com/almworks/sqlite4java/SQLiteJob.java:403-417 | in some continuation a cancelled job becomes an erred one if and only if its body has not ended yet, or has thrown other than the interruption and that is not yet recorded |
| `Jobs.CancelledStep` | app/src/main/java/com/almworks/sqlite4java/SQLiteJob.java:403-417 | the one step that turns a cancelled job into an erred one |
| `Queues.SQLiteQueue.Start` | app/src/main/java/com/almworks/sqlite4java/SQLiteQueue.java:194-217 | one thread is started, and only if there is none and no stop was requested |
| `Queues.SQLiteQueue.Stop` | app/src/main/java/com/almworks/sqlite4java/SQLiteQueue.java:245-264 | a request that is not graceful is always recorded; the current job is to be cancelled exactly if it is the first request and not graceful |
| `Queues.SQLiteQueue.Execute` | app/src/main/java/com/almworks/sqlite4java/SQLiteQueue.java:322-333 | the job joins the end of the queue, or is to be cancelled if the queue has been stopped |
| `Queues.SQLiteQueue.SelectJob` | app/src/main/java/com/almworks/sqlite4java/SQLiteQueue.java:439-447 | the oldest pending job |
| `Queues.SQLiteQueue.NextJob` | app/src/main/java/com/almworks/sqlite4java/SQLiteQueue.java:648-667 | the oldest job, the wait for one, or the end: at once after a stop that is not graceful, with no job left after a graceful one |
| `Queues.SQLiteQueue.ThreadStopped` | app/src/main/java/com/almworks/sqlite4java/SQLiteQueue.java:685-697 | a thread that ends without a stop is started again if allowed; otherwise the queue is stopped and its jobs are taken out, to be cancelled |
| `Queues.QKept` | app/src/main/java/com/almworks/sqlite4java/SQLiteQueue.java:193-705 | every step of every thread keeps the invariant of queue, threads and jobs |
| `Queues.StartMeans` | app/src/main/java/com/almworks/sqlite4java/SQLiteQueue.java:193-217 | in every reachable state a call of start makes a database thread exactly if there is none and no stop was requested |
| `Queues.RunThreadMeans` | app/src/main/java/com/almworks/sqlite4java/SQLiteQueue.java:205-217 | the thread that start made opens the connection |
| `Queues.OpenMeans` | app/src/main/java/com/almworks/sqlite4java/SQLiteQueue.java:636-646 | it comes to the lock exactly if it has got a connection and could set it up |
| `Queues.TakeLockMeans` | app/src/main/java/com/almworks/sqlite4java/SQLiteQueue.java:648-667 | the oldest pending job is selected unless the queue is to stop at once; the loop ends when a stop is requested and nothing is left to do; else the thread waits |
| `Queues.NoneSelectedAtOnce` | app/src/main/java/com/almworks/sqlite4java/SQLiteQueue.java:648-667 | after a stop that is not graceful no job is selected in any continuation |
| `Queues.RunJobMeans` | app/src/main/java/com/almworks/sqlite4java/SQLiteQueue.java:525-540 | the selected job is executed on the connection that the thread opened |
| `Queues.InJobMeans` | app/src/main/java/com/almworks/sqlite4java/SQLiteQueue.java:525-540 | a thread inside a job takes the steps of that job and of no other |
| `Queues.ReturnMeans` | app/src/main/java/com/almworks/sqlite4java/SQLiteQueue.java:525-540 | when execute has returned the thread goes back to the lock; a ThreadDeath ends it |
| `Queues.ExecuteAccepts` | app/src/main/java/com/almworks/sqlite4java/SQLiteQueue.java:318-338 | a job is accepted, as the last one, exactly if no stop was requested; else it is rejected and cancelled |
| `Queues.CancelCalled` | app/src/main/java/com/almworks/sqlite4java/SQLiteJob.java:216-245 | a cancel called by any thread |
| `Queues.CancelNextMeans` | app/src/main/java/com/almworks/sqlite4java/SQLiteQueue.java:671-677 | a thread with jobs to cancel cancels the first of them, even while it is running |
| `Queues.CancelReturns` | app/src/main/java/com/almworks/sqlite4java/SQLiteQueue.java:671-677 | and goes on with the next one, unless a callback threw ThreadDeath |
| `Queues.StopThreadMeans` | app/src/main/java/com/almworks/sqlite4java/SQLiteQueue.java:679-705 | a database thread that ends is replaced, with no job dropped, exactly if no stop was called and it can be; else the queue stops and all pending jobs are to be cancelled |
| `Queues.WakeMeans` | app/src/main/java/com/almworks/sqlite4java/SQLiteQueue.java:593-617 | the reincarnator starts the queue again unless it is interrupted or a stop was requested while it waited |
| `Queues.Reincarnates` | app/src/main/java/com/almworks/sqlite4java/SQLiteQueue.java:593-705 | from every reachable state in which the database thread has ended without a stop, if it can be replaced, four steps give a new one on the same pending jobs |
| `Queues.StopsForCause` | app/src/main/java/com/almworks/sqlite4java/SQLiteQueue.java:679-705 | a queue stops for good only if stop was called or a database thread could not be replaced |
| `Queues.GracefulStop` | app/src/main/java/com/almworks/sqlite4java/SQLiteQueue.java:243-269 | a graceful stop cancels nothing and leaves the pending jobs to be executed |
| `Queues.OneDatabaseThread` | app/src/main/java/com/almworks/sqlite4java/SQLiteQueue.java:636-705 | over every interleaving at most one database thread is live |
| `Queues.InOrder` | app/src/main/java/com/almworks/sqlite4java/SQLiteQueue.java:439-447 | jobs are selected in the order accepted; each accepted job is selected, dropped or pending; jobs are dropped only after a stop that is not graceful, or when a database thread ended abnormally and a stop was called or it could not be replaced |
| `Queues.BodiesConfined` | app/src/main/java/com/almworks/sqlite4java/SQLiteQueue.java:525-540 | bodies run one at a time, on the database thread, with an open connection |
| `Queues.DoneAfterExecute` | app/src/main/java/com/almworks/sqlite4java/SQLiteQueue.java:550-555 | the assertion in afterExecute holds over every interleaving |
| `Queues.AtRest` | app/src/main/java/com/almworks/sqlite4java/SQLiteQueue.java:318-338 | when all threads are at rest every job that was accepted or rejected has been finished exactly once, but for those still pending or whose cancellation a dying callback cut off |
| `Queues.StoppedForGood` | app/src/main/java/com/almworks/sqlite4java/SQLiteQueue.java:679-705 | once the thread has stopped without reincarnating the queue is empty and stays empty |
| `Queues.StopCancelsCurrent` | app/src/main/java/com/almworks/sqlite4java/SQLiteQueue.java:243-269 | a stop that is not graceful cancels the current job, selected or being executed, if and only if no stop was requested before |
| `Queues.LateStopCancelsNothing` | app/src/main/java/com/almworks/sqlite4java/SQLiteQueue.java:243-269 | a run in which the stop that is not graceful follows a graceful one while a job is being executed, and nobody cancels the job |
| `Statements.SQLiteConnection.Prepare` | app/src/main/java/com/almworks/sqlite4java/SQLiteConnection.java:604-672 | a statement starts with a handle that is reset and has no bindings, taken from the cache or newly compiled; ownership is kept; blank SQL is refused |
| `Statements.SQLiteConnection.CacheStatementHandle` | app/src/main/java/com/almworks/sqlite4java/SQLiteConnection.java:1442-1483 | the handle is cached clean, or finalized if cleaning failed or another copy is cached |
| `Statements.SQLiteConnection.FinalizeStatement` | app/src/main/java/com/almworks/sqlite4java/SQLiteConnection.java:1363-1373 | the statement's handle, and only that, is finalized |
| `Statements.SQLiteConnection.FinalizeHandle` | app/src/main/java/com/almworks/sqlite4java/SQLiteConnection.java:1354-1361 | the handle is finalized once and leaves the cache; another one is kept |
| `Statements.SQLiteConnection.ForgetCachedHandle` | app/src/main/java/com/almworks/sqlite4java/SQLiteConnection.java:1485-1492 | only this handle's entry, or an empty one, is removed |
| `Statements.SQLiteConnection.ForgetStatement` | app/src/main/java/com/almworks/sqlite4java/SQLiteConnection.java:1494-1500 | the registry loses this statement only |
| `Statements.SQLiteConnection.FinalizeStatements` | app/src/main/java/com/almworks/sqlite4java/SQLiteConnection.java:1253-1293 | both loops terminate; every handle that was live is finalized, and every statement disposed |
| `Statements.SQLiteConnection.Dispose` | app/src/main/java/com/almworks/sqlite4java/SQLiteConnection.java:489-525 | on the confining thread every handle ever prepared ends up finalized; from another thread nothing happens |
| `Statements.SQLiteStatement.Bind` | app/src/main/java/com/almworks/sqlite4java/SQLiteStatement.java:553-560 | whatever SQLite answers, a parameter that may be bound is covered by the flag |
| `Statements.SQLiteStatement.BindStream` | app/src/main/java/com/almworks/sqlite4java/SQLiteStatement.java:882-899 | an open stream is covered by the flag |
| `Statements.SQLiteStatement.CloseStream` | app/src/main/java/com/almworks/sqlite4java/SQLiteStatement.java:1478-1492 | a stream binds once, while it is open; on a disposed statement the close fails |
| `Statements.SQLiteStatement.ClearBindStreams` | app/src/main/java/com/almworks/sqlite4java/SQLiteStatement.java:1299-1316 | all streams are closed or discarded |
| `Statements.SQLiteStatement.Step` | app/src/main/java/com/almworks/sqlite4java/SQLiteStatement.java:285-305 | a statement that may have stepped is covered by the flag, also when the step fails or is interrupted |
| `Statements.SQLiteStatement.Reset` | app/src/main/java/com/almworks/sqlite4java/SQLiteStatement.java:204-231 | the statement is reset, and cleared if asked |
| `Statements.SQLiteStatement.ClearBindings` | app/src/main/java/com/almworks/sqlite4java/SQLiteStatement.java:251-262 | bindings and streams are cleared, or the flag stays |
| `Statements.SQLiteStatement.Dispose` | app/src/main/java/com/almworks/sqlite4java/SQLiteStatement.java:177-190 | the handle goes to the cache or is finalized; the statement keeps none |
| `Statements.WithoutOne` | app/src/main/java/com/almworks/sqlite4java/SQLiteConnection.java:1494-1500 | removing a registered statement removes it alone |
| `Statements.Run` | app/src/main/java/com/almworks/sqlite4java/SQLiteConnection.java:489-672 | after any calls on a connection and its statements in any order, ended by dispose, every handle ever compiled has been finalized, each once; prepares that do not ask the cache compile one each |
| `Statements.Perform` | app/src/main/java/com/almworks/sqlite4java/SQLiteStatement.java:177-305 | any one call keeps each live handle with exactly one holder, and cached handles clean; a handle is compiled exactly by a prepare the cache cannot serve |
| `Statements.OnStatement` | app/src/main/java/com/almworks/sqlite4java/SQLiteStatement.java:177-305 | any call on a statement has its effect on the compiled statement behind it: stepped, bound, reset, cleared, or given back |
| `Statements.DisposeThenPrepare` | app/src/main/java/com/almworks/sqlite4java/SQLiteConnection.java:1442-1483 | a cached statement that was disposed of gives its handle, clean, to the next statement for the same SQL; nothing is compiled or finalized |
| `Buffers.BufferPool.SizeFor` | app/src/main/java/com/almworks/sqlite4java/SQLiteConnection.java:1677-1682 | the least power of two from 1024 on that the request and the control bytes fit in |
| `Buffers.BufferPool.AllocateBuffer` | app/src/main/java/com/almworks/sqlite4java/SQLiteConnection.java:1677-1729 | the smallest suitable pooled buffer, or a new one that joins the pool if that stays small; no stream and no binding holds it |
| `Buffers.BufferPool.Pooled` | app/src/main/java/com/almworks/sqlite4java/SQLiteConnection.java:1687-1711 | of the unused pooled buffers that are large enough, a smallest one |
| `Buffers.BufferPool.Pool` | app/src/main/java/com/almworks/sqlite4java/SQLiteConnection.java:1716-1727 | the pool stays sorted and its total the sum of its capacities, below 1 << 20 |
| `Buffers.BufferPool.FreeBuffer` | app/src/main/java/com/almworks/sqlite4java/SQLiteConnection.java:1662-1675 | the holder leaves; memory without holder outside the pool is freed |
| `Buffers.BufferPool.WrapperFree` | app/src/main/jni/sqlite4java/native/sqlite3_wrap_manual.c:525-540 | memory in use is marked, other memory freed |
| `Buffers.BufferPool.WrapperBindBuffer` | app/src/main/jni/sqlite4java/native/sqlite3_wrap_manual.c:544-565 | SQLite becomes a holder of the bytes written so far |
| `Buffers.BufferPool.BindRelease` | app/src/main/jni/sqlite4java/native/sqlite3_wrap_manual.c:567-577 | SQLite leaves; marked memory is freed, once |
| `Buffers.BufferPool.FinalizeBuffers` | app/src/main/java/com/almworks/sqlite4java/SQLiteConnection.java:1221-1238 | no buffer is left but those SQLite still holds, which are marked |
| `Buffers.BindStream.Write` | app/src/main/java/com/almworks/sqlite4java/SQLiteStatement.java:1434-1454 | what the stream holds is all that was written, across any growth |
| `Buffers.BindStream.Room` | app/src/main/java/com/almworks/sqlite4java/SQLiteStatement.java:1456-1476 | room for the bytes, in the same or in a larger buffer with the same content |
| `Buffers.BindStream.Close` | app/src/main/java/com/almworks/sqlite4java/SQLiteStatement.java:1478-1492 | SQLite is given exactly the concatenation of all writes |
| `Buffers.Run` | app/src/main/java/com/almworks/sqlite4java/SQLiteStatement.java:1410-1495 | over any calls on any streams in any order, and any releases by SQLite, the log of all that SQLite was given is, close by close, exactly what the closed stream was told to write; what is not released is as it was given; each call is answered as it should be; no two open streams share a buffer |
| `Buffers.Perform` | app/src/main/java/com/almworks/sqlite4java/SQLiteStatement.java:1410-1495 | any one call has its effect on its own stream and leaves the writes of all others as they were; an open or write fails only without memory, a close exactly if SQLite refuses the buffer |
| `Buffers.OneStream` | app/src/main/java/com/almworks/sqlite4java/SQLiteStatement.java:1410-1495 | a stream opened, written to and closed gives SQLite its bytes |
| `Buffers.InsertedInOrder` | app/src/main/java/com/almworks/sqlite4java/SQLiteConnection.java:1716-1727 | inserting before the first larger buffer keeps the pool sorted |

## Left out

- 32-bit wrap-around of window offsets: rows are allocated only in windows for which `NoWrap` holds, and puts require
  that the offset plus the data stay below 2^32; `CursorWindows.AllocInside` says what happens otherwise.
- Windows smaller than one header and one chunk (420 bytes).
- Negative start positions and row numbers, the packing of start and count into one 64-bit result, and the sleep between
  retries.
- SQLite's own conversion of a text to UTF-16: a text column has both forms. `FillLoop.SameCellsIffPlain`,
  `FillLoop.TextIffPlain` and `FillLoop.TextReadBack` are about well-formed texts, for which the two forms belong together.
- The Java window API of the second loop; its window is modelled by the same class.
- Column types SQLite does not have in the second loop: its queries have known types only.
- Sharing of one window by several threads or processes, and its reference counting.
- Numbers formatted as text by `nativeGetString`, `copyStringToBuffer`, and getters that convert between types.
- BLOB arguments of INTARRAY constraints, the double 2^63, NaN, and arrays of more than 2^30 values; doubles are real
  numbers, of which those below 2^63 that matter are 1024 apart.
- Cost estimates of the planner, and the life cycle of virtual tables, cursors and transactions.
- The case folding of `tolower` in other than the C locale: IntArrayMaps folds ASCII letters only.
- Allocation failures inside the hash table.
- Jobs.FinishedOnce: says nothing about when a job is finished; waiting, time-outs, interrupts and other liveness of
  `get`, `flush`, `join` and the reincarnation wait are not modelled.
- Queues.AtRest: jobs that wait in a queue that was never started, or was stopped before its thread was started again,
  are not finished by the code.
- The rollback after a job that was cancelled or has failed, and the disposal of the connection.
- Subclasses of the queue that override job selection or exception handling. Calls made by a job's body or by a callback
  are steps of some other thread.
- Statements.SQLiteStatement.Step: stands for `loadInts` and `loadLongs` too, which differ in what they return; column
  streams and the progress handler are left out.
- Statements.SQLiteConnection.Prepare: the branch for a connection that is closed while a statement is being prepared is
  left out, since only the confining thread closes it.
- Use of a statement from a thread that is not the confining one, the finalizer, blobs and arrays of a connection.
- A `sqlite3_bind_blob` that fails: it leaves the use count as it was; SQLite's call of the destructor in that case is
  left out.
- Buffers.BufferPool.Pooled: the removal of invalid buffers from the pool is left out, since no pooled buffer is ever
  invalid. The content of a buffer is a sequence in a field, not an array.
- Buffers.BindStream.Write: requests beyond 2^30 bytes, for which the size in the code overflows, are excluded.
- Native library loading, the profiler, backup, blobs, `SQLParts`, and all user interface code.

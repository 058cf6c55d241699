/** Strings in the cells of a cursor window: put-string and get-string. */
module WindowStrings {
  import opened Memory
  import WindowLayout
  import opened CursorWindows
  import opened Utf8

  /** The bytes as the window holds them, and back. */
  function Held(b: seq<bv8>): (s: seq<byte>)
    ensures |s| == |b|
  {
    seq(|b|, i requires 0 <= i < |b| => b[i] as int)
  }

  function Chars(s: seq<byte>): (b: seq<bv8>)
    ensures |b| == |s|
  {
    seq(|s|, i requires 0 <= i < |s| => s[i] as bv8)
  }

  lemma {:induction false} HeldBack(b: seq<bv8>)
    ensures Chars(Held(b)) == b
  {
    forall i | 0 <= i < |b|
      ensures Chars(Held(b))[i] == b[i]
    {
      ByteBack(b[i]);
    }
  }

  lemma {:induction false} ByteBack(x: bv8)
    ensures (x as int) as bv8 == x
  {
  }

  /** The cell content of a Java string: its modified UTF-8 form and a NUL. */
  function CellOf(value: seq<bv16>): (s: seq<byte>)
    ensures |s| > 0
  {
    Held(ModifiedUtf8All(value)) + [0]
  }

  /** The Java string of a cell content. */
  function StringOf(s: seq<byte>): seq<bv16> {
    if |s| <= 1 then [] else Decode(Chars(s[..|s| - 1]))
  }

  /** The last byte of a cell is no part of the string, whatever it is; a cell of one byte, or none, is the empty
      string. */
  lemma {:induction false} StringOfCell(b: seq<bv8>, last: byte)
    ensures StringOf([]) == [] && StringOf(Held(b) + [last]) == Decode(b)
  {
    HeldBack(b);
    assert (Held(b) + [last])[..|b|] == Held(b);
    assert b == [] ==> Decode(b) == [];
  }

  lemma {:induction false} CellRoundTrip(value: seq<bv16>)
    ensures StringOf(CellOf(value)) == value
  {
    var b := ModifiedUtf8All(value);
    HeldBack(b);
    ModifiedRoundTrip(value, []);
    assert b + [] == b && value + [] == value;
    assert CellOf(value)[..|b|] == Held(b);
    assert Decode([]) == [];
  }

  /** What get-string answers: no such cell, no string in it, or the string. */
  datatype Answer = NoCell | Other(v: WindowLayout.Value) | Text(chars: seq<bv16>)

  method PutString(window: CursorWindow, value: seq<bv16>, row: nat, column: nat) returns (status: Status)
    requires window.Valid() && window.FreeOffset() + |CellOf(value)| + 3 < TWO32
    modifies window, window.data
    ensures window.Valid() && window.shape == old(window.shape)
    ensures status == OK ==> row < |old(window.table)| && column < window.shape.columns
                             && window.table == old(window.With(row, column, WindowLayout.Str(CellOf(value))))
    ensures status != OK ==> window.table == old(window.table)
  {
    status := window.PutBlobOrString(row, column, CellOf(value), false);
  }

  method GetString(window: CursorWindow, row: nat, column: nat) returns (r: Answer)
    requires window.Valid()
    ensures r == if row >= |window.table| || column >= window.shape.columns then NoCell
                 else if window.table[row][column].Str? then Text(StringOf(window.table[row][column].bytes))
                 else Other(window.table[row][column])
  {
    hide WindowLayout.Represents, StringOf;
    var found, v := window.GetValue(row, column);
    if !found {
      return NoCell;
    }
    if !v.Str? {
      return Other(v);
    }
    var chars := NewString(v.bytes);
    return Text(chars);
  }

  method NewString(value: seq<byte>) returns (string16: seq<bv16>)
    ensures string16 == StringOf(value)
  {
    hide Decode, Chars;
    if |value| <= 1 {
      return [];
    }
    var n := |value| - 1;
    var bytes := Chars(value[..n]);
    var d, chars := new bv8[n](i requires 0 <= i < n => bytes[i]), new bv16[n](_ => 0);
    assert d[..] == bytes;
    assert d[..n] == d[..];
    var size := Utf8ToJavaCharArray(d, chars, n);
    return chars[..size];
  }

  /** A string that was put is got back unchanged, and every other cell reads as before. */
  method PutThenGet(window: CursorWindow, value: seq<bv16>, row: nat, column: nat) returns (status: Status, r: Answer)
    requires window.Valid() && window.FreeOffset() + |CellOf(value)| + 3 < TWO32
    modifies window, window.data
    ensures status == OK ==> r == Text(value)
  {
    status := PutString(window, value, row, column);
    r := GetString(window, row, column);
    CellRoundTrip(value);
  }
}

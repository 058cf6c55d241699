/** The decoder from UTF-8, modified UTF-8 and arbitrary bytes to UTF-16 code units. */
module Utf8 {

  const REPLACEMENT: bv16 := 0xfffd

  /** The number of bytes that follow the lead byte `b0`. */
  function Count(b0: bv8): (n: nat)
    ensures 1 <= n <= 5
  {
    if b0 & 0xf0 == 0xe0 then 2
    else if b0 & 0xf8 == 0xf0 then 3
    else if b0 & 0xfc == 0xf8 then 4
    else if b0 & 0xfe == 0xfc then 5
    else 1
  }

  predicate IsLead(b0: bv8) {
    b0 & 0xe0 == 0xc0 || b0 & 0xf0 == 0xe0 || b0 & 0xf8 == 0xf0 || b0 & 0xfc == 0xf8 || b0 & 0xfe == 0xfc
  }

  predicate IsContinuation(b: bv8) {
    b & 0xc0 == 0x80
  }

  /** The bits of a lead byte that belong to the code point. */
  function LeadBits(b0: bv8, n: nat): bv32
    requires 1 <= n <= 5
  {
    (b0 as bv32) & ((0x1f as bv32) >> (n - 1))
  }

  function Push(val: bv32, b: bv8): bv32 {
    (val << 6) | ((b as bv32) & 0x3f)
  }

  /** How many of the first `n` bytes are continuation bytes, up to the first that is not. */
  function Run(d: seq<bv8>, n: nat): (k: nat)
    requires n <= |d|
    ensures k <= n && (forall i :: 0 <= i < k ==> IsContinuation(d[i])) && (k < n ==> !IsContinuation(d[k]))
  {
    if n == 0 || !IsContinuation(d[0]) then 0 else 1 + Run(d[1..], n - 1)
  }

  function PushAll(val: bv32, d: seq<bv8>): bv32
    decreases |d|
  {
    if d == [] then val else PushAll(Push(val, d[0]), d[1..])
  }

  /** The code units for a value read from a lead byte and `n` continuation bytes. */
  function Units(val: bv32, n: nat): (u: seq<bv16>)
    ensures 1 <= |u| <= 2
  {
    if n != 2 && 0xD800 <= val <= 0xDFFF then [REPLACEMENT]
    else if val > 0x10FFFF then [REPLACEMENT]
    else if val < 0x10000 then [(val & 0xffff) as bv16]
    else
      var x := val & 0xffff;
      var w := (((val >> 16) & 0x1f) - 1) & 0xffff;
      [((0xd800 | (w << 6) | (x >> 10)) & 0xffff) as bv16, ((0xdc00 | (x & 0x3ff)) & 0xffff) as bv16]
  }

  /** One turn of the decoder's loop: the units it writes and the bytes it consumes. */
  datatype Turn = Turn(units: seq<bv16>, used: nat)

  function Decode1(d: seq<bv8>): (t: Turn)
    requires d != []
    ensures 1 <= t.used <= |d| && 1 <= |t.units| <= t.used && |t.units| <= 2
  {
    var b0 := d[0];
    if b0 & 0x80 == 0 then Turn([b0 as bv16], 1)
    else if !IsLead(b0) || 1 + Count(b0) > |d| then Turn([REPLACEMENT], 1)
    else
      var n := Count(b0);
      var k := Run(d[1..], n);
      if k < n then Turn([REPLACEMENT], 1 + k)
      else Turn(Units(PushAll(LeadBits(b0, n), d[1..][..n]), n), 1 + n)
  }

  function Decode(d: seq<bv8>): (v: seq<bv16>)
    ensures |v| <= |d|
    decreases |d|
  {
    if d == [] then [] else Decode1(d).units + Decode(d[Decode1(d).used..])
  }

  lemma {:induction false} NothingDecodes()
    ensures Decode([]) == []
  {
  }

  /** The decoder. The caller provides as many code units as there are bytes. */
  method Utf8ToJavaCharArray(d: array<bv8>, v: array<bv16>, byteCount: nat) returns (s: nat)
    requires byteCount <= d.Length && byteCount <= v.Length
    modifies v
    ensures s <= byteCount && v[..s] == Decode(d[..byteCount])
  {
    hide Decode1, Decode;
    NothingDecodes();
    var idx, last := 0, byteCount;
    s := 0;
    assert d[0..byteCount] == d[..byteCount];
    while idx < last
      invariant 0 <= s <= idx <= last
      invariant v[..s] + Decode(d[idx..byteCount]) == Decode(d[..byteCount])
    {
      ghost var rest, was := d[idx..byteCount], v[..s];
      DecodeUnfolds(rest);
      var units;
      units, idx := Turn1(d, idx, last);
      v[s] := units[0];
      if |units| == 2 {
        v[s + 1] := units[1];
      }
      s := s + |units|;
      assert v[..s] == was + units;
      assert d[idx..byteCount] == rest[Decode1(rest).used..];
    }
  }

  lemma {:induction false} DecodeUnfolds(d: seq<bv8>)
    requires d != []
    ensures Decode(d) == Decode1(d).units + Decode(d[Decode1(d).used..])
  {
  }

  /** The body of the decoder's loop: reads from `idx0`, gives the units to write and the next index. */
  method Turn1(d: array<bv8>, idx0: nat, last: nat) returns (units: seq<bv16>, idx: nat)
    requires idx0 < last <= d.Length
    ensures units == Decode1(d[idx0..last]).units && idx == idx0 + Decode1(d[idx0..last]).used
  {
    ghost var rest := d[idx0..last];
    idx := idx0;
    var b0 := d[idx];
    idx := idx + 1;
    if b0 & 0x80 == 0 {
      return [b0 as bv16], idx;
    } else if IsLead(b0) {
      var utfCount := Count(b0);
      if idx + utfCount > last {
        return [REPLACEMENT], idx;
      }
      var val, complete;
      val, idx, complete := Tail(d, idx, last, utfCount, LeadBits(b0, utfCount));
      assert rest[1..] == d[idx0 + 1..last];
      return if complete then Units(val, utfCount) else [REPLACEMENT], idx;
    } else {
      return [REPLACEMENT], idx;
    }
  }

  /** Reads up to `n` continuation bytes; a byte that is none is put back. */
  method Tail(d: array<bv8>, idx0: nat, last: nat, n: nat, val0: bv32) returns (val: bv32, idx: nat, complete: bool)
    requires idx0 + n <= last <= d.Length
    ensures idx == idx0 + Run(d[idx0..last], n) && (complete <==> Run(d[idx0..last], n) == n)
    ensures complete ==> val == PushAll(val0, d[idx0..last][..n])
  {
    hide Push, IsContinuation;
    val, idx := val0, idx0;
    assert d[idx0..last][..n] == d[idx0..idx0 + n];
    var i := 0;
    while i < n
      invariant 0 <= i <= n && idx == idx0 + i
      invariant Run(d[idx0..last], n) == i + Run(d[idx..last], n - i)
      invariant PushAll(val0, d[idx0..idx0 + n]) == PushAll(val, d[idx..idx0 + n])
    {
      var b := d[idx];
      assert d[idx..last][1..] == d[idx + 1..last];
      assert d[idx..idx0 + n][1..] == d[idx + 1..idx0 + n];
      idx := idx + 1;
      if !IsContinuation(b) {
        return val, idx - 1, false;
      }
      val := Push(val, b);
      i := i + 1;
    }
    complete := true;
  }

  // ---- the encodings, as their standards define them ----

  function Byte(x: bv32): bv8 {
    (x & 0xff) as bv8
  }

  function Unit(x: bv32): bv16 {
    (x & 0xffff) as bv16
  }

  /** Modified UTF-8 of a code unit: section 4.4.7 of the Java Virtual Machine Specification. */
  function ModifiedUtf8(u: bv16): (b: seq<bv8>)
    ensures 1 <= |b| <= 3
  {
    ModifiedBytes(u as bv32)
  }

  function ModifiedBytes(x: bv32): (b: seq<bv8>)
    ensures 1 <= |b| <= 3
  {
    if 0x1 <= x <= 0x7f then [Byte(x)]
    else if x <= 0x7ff then [Byte(0xc0 | (x >> 6)), Byte(0x80 | (x & 0x3f))]
    else [Byte(0xe0 | (x >> 12)), Byte(0x80 | ((x >> 6) & 0x3f)), Byte(0x80 | (x & 0x3f))]
  }

  function ModifiedUtf8All(u: seq<bv16>): seq<bv8> {
    if u == [] then [] else ModifiedUtf8(u[0]) + ModifiedUtf8All(u[1..])
  }

  /** A Unicode scalar value: any code point but a surrogate. */
  type Scalar = cp: bv32 | cp <= 0x10ffff && !(0xd800 <= cp <= 0xdfff)

  /** UTF-8 of a Unicode scalar value: section 3 of RFC 3629. */
  function Utf8Of(cp: Scalar): (b: seq<bv8>)
    ensures 1 <= |b| <= 4
  {
    if cp <= 0x7f then [Byte(cp)]
    else if cp <= 0x7ff then [Byte(0xc0 | (cp >> 6)), Byte(0x80 | (cp & 0x3f))]
    else if cp <= 0xffff then [Byte(0xe0 | (cp >> 12)), Byte(0x80 | ((cp >> 6) & 0x3f)), Byte(0x80 | (cp & 0x3f))]
    else [Byte(0xf0 | (cp >> 18)), Byte(0x80 | ((cp >> 12) & 0x3f)), Byte(0x80 | ((cp >> 6) & 0x3f)),
          Byte(0x80 | (cp & 0x3f))]
  }

  function Utf8All(text: seq<Scalar>): seq<bv8> {
    if text == [] then [] else Utf8Of(text[0]) + Utf8All(text[1..])
  }

  /** UTF-16 of a Unicode scalar value: section 2.1 of RFC 2781. */
  function Utf16Of(cp: Scalar): seq<bv16> {
    if cp < 0x10000 then [Unit(cp)]
    else
      var v := cp - 0x10000;
      [Unit(0xd800 | (v >> 10)), Unit(0xdc00 | (v & 0x3ff))]
  }

  function Utf16All(text: seq<Scalar>): seq<bv16> {
    if text == [] then [] else Utf16Of(text[0]) + Utf16All(text[1..])
  }

  // ---- one character ----

  /** A lead byte with all its continuation bytes is decoded the same whatever follows. */
  lemma {:induction false} WholeCharacter(lead: bv8, tail: seq<bv8>, rest: seq<bv8>)
    requires lead & 0x80 != 0 && IsLead(lead) && |tail| == Count(lead)
    requires forall i :: 0 <= i < |tail| ==> IsContinuation(tail[i])
    ensures Decode1([lead] + tail + rest) == Turn(Units(PushAll(LeadBits(lead, |tail|), tail), |tail|), 1 + |tail|)
  {
    hide Units, LeadBits, Push;
    var d := [lead] + tail + rest;
    assert d[1..] == tail + rest;
    assert d[1..][..|tail|] == tail;
    assert forall i :: 0 <= i < |tail| ==> d[1..][i] == tail[i];
  }

  lemma {:induction false} Pushed(val: bv32, a: bv8, b: bv8, c: bv8)
    ensures PushAll(val, [a]) == Push(val, a)
    ensures PushAll(val, [a, b]) == Push(Push(val, a), b)
    ensures PushAll(val, [a, b, c]) == Push(Push(Push(val, a), b), c)
  {
    hide Push;
    assert [a, b][1..] == [b] && [a, b, c][1..] == [b, c];
    assert PushAll(Push(val, a), [b]) == Push(Push(val, a), b);
    assert PushAll(Push(Push(val, a), b), [c]) == Push(Push(Push(val, a), b), c);
    assert PushAll(Push(val, a), [b, c]) == PushAll(Push(Push(val, a), b), [c]);
  }

  lemma {:induction false} TwoBytes(x: bv32)
    requires x <= 0x7ff
    ensures var lead, b := Byte(0xc0 | (x >> 6)), Byte(0x80 | (x & 0x3f));
            && lead & 0x80 != 0 && IsLead(lead) && Count(lead) == 1 && IsContinuation(b)
            && Push(LeadBits(lead, 1), b) == x
  {
  }

  lemma {:induction false} ThreeBytes(x: bv32)
    requires x <= 0xffff
    ensures var lead, b, c := Byte(0xe0 | (x >> 12)), Byte(0x80 | ((x >> 6) & 0x3f)), Byte(0x80 | (x & 0x3f));
            && lead & 0x80 != 0 && IsLead(lead) && Count(lead) == 2 && IsContinuation(b) && IsContinuation(c)
            && Push(Push(LeadBits(lead, 2), b), c) == x
  {
  }

  lemma {:induction false} FourBytes(x: bv32)
    requires x <= 0x10ffff
    ensures var lead, b, c, e := Byte(0xf0 | (x >> 18)), Byte(0x80 | ((x >> 12) & 0x3f)),
                                 Byte(0x80 | ((x >> 6) & 0x3f)), Byte(0x80 | (x & 0x3f));
            && lead & 0x80 != 0 && IsLead(lead) && Count(lead) == 3
            && IsContinuation(b) && IsContinuation(c) && IsContinuation(e)
            && Push(Push(Push(LeadBits(lead, 3), b), c), e) == x
  {
  }

  /** The decoder's surrogate arithmetic is that of UTF-16. */
  lemma {:induction false} Surrogates(cp: Scalar)
    requires cp >= 0x10000
    ensures Units(cp, 3) == Utf16Of(cp)
  {
  }

  lemma {:induction false} TwoByteTurn(x: bv32, rest: seq<bv8>)
    requires x <= 0x7ff
    ensures Decode1([Byte(0xc0 | (x >> 6)), Byte(0x80 | (x & 0x3f))] + rest) == Turn(Units(x, 1), 2)
  {
    TwoBytes(x);
    hide Decode1, Units, LeadBits, Push, Count, IsLead, IsContinuation, Byte;
    var lead, b := Byte(0xc0 | (x >> 6)), Byte(0x80 | (x & 0x3f));
    WholeCharacter(lead, [b], rest);
    Pushed(LeadBits(lead, 1), b, b, b);
    assert [lead, b] == [lead] + [b];
  }

  lemma {:induction false} ThreeByteTurn(x: bv32, rest: seq<bv8>)
    requires x <= 0xffff
    ensures Decode1([Byte(0xe0 | (x >> 12)), Byte(0x80 | ((x >> 6) & 0x3f)), Byte(0x80 | (x & 0x3f))] + rest)
         == Turn(Units(x, 2), 3)
  {
    ThreeBytes(x);
    hide Decode1, Units, LeadBits, Push, Count, IsLead, IsContinuation, Byte;
    var lead, b, c := Byte(0xe0 | (x >> 12)), Byte(0x80 | ((x >> 6) & 0x3f)), Byte(0x80 | (x & 0x3f));
    WholeCharacter(lead, [b, c], rest);
    Pushed(LeadBits(lead, 2), b, c, c);
    assert [lead, b, c] == [lead] + [b, c];
  }

  lemma {:induction false} FourByteTurn(x: bv32, rest: seq<bv8>)
    requires x <= 0x10ffff
    ensures Decode1([Byte(0xf0 | (x >> 18)), Byte(0x80 | ((x >> 12) & 0x3f)), Byte(0x80 | ((x >> 6) & 0x3f)),
                     Byte(0x80 | (x & 0x3f))] + rest)
         == Turn(Units(x, 3), 4)
  {
    FourBytes(x);
    hide Decode1, Units, LeadBits, Push, Count, IsLead, IsContinuation, Byte;
    var lead, b, c, e := Byte(0xf0 | (x >> 18)), Byte(0x80 | ((x >> 12) & 0x3f)),
                         Byte(0x80 | ((x >> 6) & 0x3f)), Byte(0x80 | (x & 0x3f));
    WholeCharacter(lead, [b, c, e], rest);
    Pushed(LeadBits(lead, 3), b, c, e);
    assert [lead, b, c, e] == [lead] + [b, c, e];
  }

  lemma {:induction false} ModifiedBytesTurn(x: bv32, rest: seq<bv8>)
    requires x <= 0xffff
    ensures Decode1(ModifiedBytes(x) + rest) == Turn([Unit(x)], |ModifiedBytes(x)|)
  {
    SameUnit(x);
    hide Decode1, Byte, Units, Unit;
    if 0x1 <= x <= 0x7f {
      OneByteTurn(x, rest);
    } else if x <= 0x7ff {
      TwoByteTurn(x, rest);
    } else {
      ThreeByteTurn(x, rest);
    }
  }

  lemma {:induction false} SameUnit(x: bv32)
    ensures x <= 0xffff ==> Units(x, 2) == [Unit(x)]
    ensures x <= 0x7ff ==> Units(x, 1) == [Unit(x)]
  {
  }

  lemma {:induction false} UnitBack(u: bv16)
    ensures u as bv32 <= 0xffff && Unit(u as bv32) == u
  {
  }

  lemma {:induction false} ModifiedTurn(u: bv16, rest: seq<bv8>)
    ensures Decode1(ModifiedUtf8(u) + rest) == Turn([u], |ModifiedUtf8(u)|)
  {
    hide Decode1, ModifiedBytes, Unit;
    UnitBack(u);
    ModifiedBytesTurn(u as bv32, rest);
  }

  lemma {:induction false} OneByteTurn(x: bv32, rest: seq<bv8>)
    requires x <= 0x7f
    ensures Decode1([Byte(x)] + rest) == Turn([Unit(x)], 1)
  {
  }

  lemma {:induction false} ScalarTurn(cp: Scalar, rest: seq<bv8>)
    ensures Decode1(Utf8Of(cp) + rest) == Turn(Utf16Of(cp), |Utf8Of(cp)|)
  {
    hide Decode1, Byte;
    if cp <= 0x7f {
      OneByteTurn(cp, rest);
    } else if cp <= 0x7ff {
      TwoByteTurn(cp, rest);
    } else if cp <= 0xffff {
      ThreeByteTurn(cp, rest);
    } else {
      FourByteTurn(cp, rest);
      Surrogates(cp);
    }
  }

  // ---- whole texts ----

  lemma {:induction false} Front(head: seq<bv8>, tail: seq<bv8>, units: seq<bv16>)
    requires head != [] && Decode1(head + tail) == Turn(units, |head|)
    ensures Decode(head + tail) == units + Decode(tail)
  {
    hide Decode1;
    assert (head + tail)[|head|..] == tail;
  }

  /** Modified UTF-8 comes back unit by unit, NUL and lone surrogates included, and independently of what follows. */
  lemma {:induction false} ModifiedRoundTrip(u: seq<bv16>, rest: seq<bv8>)
    ensures Decode(ModifiedUtf8All(u) + rest) == u + Decode(rest)
  {
    hide Decode1, ModifiedUtf8;
    if u == [] {
      assert ModifiedUtf8All(u) + rest == rest;
    } else {
      var head, tail := ModifiedUtf8(u[0]), ModifiedUtf8All(u[1..]) + rest;
      assert ModifiedUtf8All(u) + rest == head + tail;
      ModifiedTurn(u[0], tail);
      Front(head, tail, [u[0]]);
      ModifiedRoundTrip(u[1..], rest);
      assert [u[0]] + (u[1..] + Decode(rest)) == u + Decode(rest);
    }
  }

  /** Well-formed UTF-8 becomes the UTF-16 of the same text, independently of what follows. */
  lemma {:induction false} Utf8ToUtf16(text: seq<Scalar>, rest: seq<bv8>)
    ensures Decode(Utf8All(text) + rest) == Utf16All(text) + Decode(rest)
  {
    hide Decode1, Utf8Of, Utf16Of;
    if text == [] {
      assert Utf8All(text) + rest == rest;
    } else {
      var head, tail := Utf8Of(text[0]), Utf8All(text[1..]) + rest;
      assert Utf8All(text) + rest == head + tail;
      ScalarTurn(text[0], tail);
      Front(head, tail, Utf16Of(text[0]));
      hide Decode;
      Utf8ToUtf16(text[1..], rest);
      assert Utf16Of(text[0]) + (Utf16All(text[1..]) + Decode(rest)) == Utf16All(text) + Decode(rest);
    }
  }

  /** A turn that starts before `e` does not read into it, unless `e` starts with a continuation byte. */
  lemma {:induction false} StaysInside(g: seq<bv8>, e: seq<bv8>)
    requires g != [] && (e == [] || !IsContinuation(e[0]))
    ensures Decode1(g + e).used <= |g|
  {
    hide Units, LeadBits, PushAll, Count, IsContinuation;
    var d := g + e;
    if d[0] & 0x80 != 0 && IsLead(d[0]) && 1 + Count(d[0]) <= |d| && Count(d[0]) >= |g| {
      assert d[1..][|g| - 1] == e[0];
      RunStops(d[1..], Count(d[0]), |g| - 1);
    }
  }

  lemma {:induction false} RunStops(d: seq<bv8>, n: nat, j: nat)
    requires j < n <= |d| && !IsContinuation(d[j])
    ensures Run(d, n) <= j
  {
    hide IsContinuation;
    if j > 0 {
      RunStops(d[1..], n - 1, j - 1);
    }
  }

  lemma {:induction false} StartsCharacter(cp: Scalar)
    ensures !IsContinuation(Utf8Of(cp)[0])
  {
  }

  /** Recovery: whatever bytes come first, well-formed text behind them is decoded in full. */
  lemma {:induction false} Resynchronizes(garbage: seq<bv8>, text: seq<Scalar>)
    ensures exists p :: Decode(garbage + Utf8All(text)) == p + Utf16All(text)
    decreases |garbage|
  {
    hide Decode1, Utf8Of, Utf16Of;
    var e := Utf8All(text);
    if garbage == [] {
      assert garbage + e == e == e + [];
      Utf8ToUtf16(text, []);
      assert Decode(garbage + e) == [] + Utf16All(text);
    } else {
      if text != [] {
        StartsCharacter(text[0]);
        assert e[0] == Utf8Of(text[0])[0];
      }
      StaysInside(garbage, e);
      var t := Decode1(garbage + e);
      assert (garbage + e)[t.used..] == garbage[t.used..] + e;
      Resynchronizes(garbage[t.used..], text);
      var p :| Decode(garbage[t.used..] + e) == p + Utf16All(text);
      assert Decode(garbage + e) == (t.units + p) + Utf16All(text);
    }
  }

  // ---- broken sequences, and values, in numbers ----

  /** How many bytes a lead byte calls for, by its range. */
  lemma {:induction false} LeadRanges(b: bv8)
    ensures IsLead(b) <==> 0xc0 <= b <= 0xfd
    ensures 0xc0 <= b <= 0xdf ==> Count(b) == 1
    ensures 0xe0 <= b <= 0xef ==> Count(b) == 2
    ensures 0xf0 <= b <= 0xf7 ==> Count(b) == 3
    ensures 0xf8 <= b <= 0xfb ==> Count(b) == 4
    ensures 0xfc <= b <= 0xfd ==> Count(b) == 5
    ensures IsContinuation(b) <==> 0x80 <= b <= 0xbf
    ensures b & 0x80 == 0 <==> b <= 0x7f
  {
  }

  /** A byte that is no lead byte, and a lead byte with too few bytes behind it, become U+FFFD alone. */
  lemma {:induction false} IllegalByte(d: seq<bv8>)
    requires d != []
    ensures 0x80 <= d[0] <= 0xbf || d[0] >= 0xfe ==> Decode1(d) == Turn([0xfffd], 1)
    ensures 0xc0 <= d[0] <= 0xfd && |d| <= Count(d[0]) ==> Decode1(d) == Turn([0xfffd], 1)
    ensures d[0] <= 0x7f ==> Decode1(d) == Turn([d[0] as bv16], 1)
  {
    LeadRanges(d[0]);
    hide IsLead, Count;
  }

  /** A lead byte and `k` continuation bytes, fewer than it calls for, become U+FFFD; the byte behind them is read
      again. */
  lemma {:induction false} CutShort(d: seq<bv8>, k: nat)
    requires d != [] && 0xc0 <= d[0] <= 0xfd && k < Count(d[0]) < |d|
    requires forall i :: 1 <= i <= k ==> 0x80 <= d[i] <= 0xbf
    requires d[1 + k] < 0x80 || d[1 + k] > 0xbf
    ensures Decode1(d) == Turn([0xfffd], 1 + k)
  {
    hide IsLead, Count, IsContinuation, LeadBits, Units, PushAll;
    LeadRanges(d[0]);
    forall i | 0 <= i <= k
      ensures IsContinuation(d[1..][i]) <==> i < k
    {
      LeadRanges(d[1 + i]);
    }
    RunIs(d[1..], Count(d[0]), k);
  }

  lemma {:induction false} RunIs(d: seq<bv8>, n: nat, k: nat)
    requires k <= n <= |d| && forall i :: 0 <= i < k ==> IsContinuation(d[i])
    requires k < n ==> !IsContinuation(d[k])
    ensures Run(d, n) == k
  {
    hide IsContinuation;
    if k > 0 {
      RunIs(d[1..], n - 1, k - 1);
    }
  }

  /** A sequence with all its bytes becomes the units of its value. */
  lemma {:induction false} WholeTurn(d: seq<bv8>)
    requires d != [] && 0xc0 <= d[0] <= 0xfd && Count(d[0]) < |d|
    requires forall i :: 1 <= i <= Count(d[0]) ==> 0x80 <= d[i] <= 0xbf
    ensures var n := Count(d[0]); Decode1(d) == Turn(Units(PushAll(LeadBits(d[0], n), d[1..1 + n]), n), 1 + n)
  {
    hide IsLead, Count, IsContinuation, LeadBits, Units, PushAll;
    LeadRanges(d[0]);
    var n := Count(d[0]);
    forall i | 0 <= i < n
      ensures IsContinuation(d[1..][i])
    {
      LeadRanges(d[1 + i]);
    }
    assert d[1..][..n] == d[1..1 + n];
    RunIs(d[1..], n, n);
  }

  /** The value: the low bits of the lead byte, then six bits of each continuation byte. */
  lemma {:induction false} LeadValue(b: bv8)
    ensures LeadBits(b, 1) == (b as bv32) & 0x1f && LeadBits(b, 2) == (b as bv32) & 0x0f
    ensures LeadBits(b, 3) == (b as bv32) & 0x07 && LeadBits(b, 4) == (b as bv32) & 0x03
    ensures LeadBits(b, 5) == (b as bv32) & 0x01
  {
  }

  lemma {:induction false} PushedValue(val: bv32, b: bv8)
    requires 0x80 <= b <= 0xbf
    ensures Push(val, b) == 64 * val + ((b as bv32) - 0x80)
  {
  }

  /** The units of a value: U+FFFD for a surrogate that is not written in three bytes and for what lies beyond U+10FFFF;
      a surrogate pair from U+10000 on; else the value. */
  lemma {:induction false} UnitsOfValue(val: bv32, n: nat)
    ensures val > 0x10ffff || (n != 2 && 0xd800 <= val <= 0xdfff) ==> Units(val, n) == [0xfffd]
    ensures val < 0x10000 && !(n != 2 && 0xd800 <= val <= 0xdfff) ==> Units(val, n) == [val as bv16]
    ensures 0x10000 <= val <= 0x10ffff ==>
              Units(val, n) == [(0xd800 + ((val - 0x10000) >> 10)) as bv16, (0xdc00 + (val & 0x3ff)) as bv16]
  {
  }

  /** Examples of the encodings. */
  lemma {:induction false} Examples()
    ensures Utf8Of(0x24) == [0x24] && Utf8Of(0xa3) == [0xc2, 0xa3] && Utf8Of(0x20ac) == [0xe2, 0x82, 0xac]
    ensures Utf8Of(0x10348) == [0xf0, 0x90, 0x8d, 0x88]
    ensures Utf16Of(0x20ac) == [0x20ac] && Utf16Of(0x10437) == [0xd801, 0xdc37]
    ensures ModifiedUtf8(0) == [0xc0, 0x80] && ModifiedUtf8(0x24) == [0x24] && ModifiedUtf8(0xa3) == [0xc2, 0xa3]
    ensures ModifiedUtf8(0xd801) == [0xed, 0xa0, 0x81]
  {
  }

  // ---- where UTF-8 and modified UTF-8 are the same ----

  /** No NUL and no supplementary character. */
  predicate PlainText(text: seq<Scalar>) {
    forall i :: 0 <= i < |text| ==> PlainScalar(text[i])
  }

  predicate PlainScalar(cp: Scalar) {
    0 < cp < 0x10000
  }

  /** The modified UTF-8 form a Java string of this text is stored in. */
  function JavaForm(text: seq<Scalar>): seq<bv8> {
    ModifiedUtf8All(Utf16All(text))
  }

  lemma {:induction false} ModifiedConcat(u: seq<bv16>, v: seq<bv16>)
    ensures ModifiedUtf8All(u + v) == ModifiedUtf8All(u) + ModifiedUtf8All(v)
  {
    hide ModifiedUtf8;
    if u == [] {
      assert u + v == v;
    } else {
      assert (u + v)[1..] == u[1..] + v && (u + v)[0] == u[0];
      ModifiedConcat(u[1..], v);
    }
  }

  /** One character: the same bytes if it is plain, else more. */
  lemma {:induction false} ScalarForms(cp: Scalar)
    ensures PlainScalar(cp) ==> ModifiedUtf8All(Utf16Of(cp)) == Utf8Of(cp)
    ensures !PlainScalar(cp) ==> |ModifiedUtf8All(Utf16Of(cp))| > |Utf8Of(cp)|
  {
    hide ModifiedUtf8, ModifiedUtf8All;
    if cp < 0x10000 {
      SameUnit(cp);
      ModifiedSingle(Unit(cp));
      ModifiedOfUnit(cp);
    } else {
      SurrogatesAreLong(cp);
    }
  }

  lemma {:induction false} ModifiedOfUnit(cp: bv32)
    requires cp < 0x10000
    ensures ModifiedUtf8(Unit(cp)) == ModifiedBytes(cp)
  {
    UnitValue(cp);
    hide ModifiedBytes;
  }

  lemma {:induction false} SurrogatesAreLong(cp: Scalar)
    requires cp >= 0x10000
    ensures |ModifiedUtf8All(Utf16Of(cp))| == 6
  {
    SurrogateUnits(cp);
    hide ModifiedUtf8, ModifiedUtf8All, Unit;
    var v := cp - 0x10000;
    var hi, lo := Unit(0xd800 | (v >> 10)), Unit(0xdc00 | (v & 0x3ff));
    ModifiedConcat([hi], [lo]);
    ModifiedSingle(hi);
    ModifiedSingle(lo);
    assert [hi] + [lo] == [hi, lo];
  }

  lemma {:induction false} ModifiedSingle(u: bv16)
    ensures ModifiedUtf8All([u]) == ModifiedUtf8(u)
  {
    hide ModifiedUtf8;
    assert [u][1..] == [];
    assert ModifiedUtf8All([]) == [];
  }

  lemma {:induction false} UnitValue(cp: bv32)
    requires cp < 0x10000
    ensures Unit(cp) as bv32 == cp
  {
  }

  /** Surrogates take three bytes each. */
  lemma {:induction false} SurrogateUnits(cp: Scalar)
    requires cp >= 0x10000
    ensures var v := cp - 0x10000;
            |ModifiedUtf8(Unit(0xd800 | (v >> 10)))| == 3 && |ModifiedUtf8(Unit(0xdc00 | (v & 0x3ff)))| == 3
  {
    var v := cp - 0x10000;
    SurrogateRange(v);
    hide ModifiedUtf8;
    ThreeByteUnit(0xd800 | (v >> 10));
    ThreeByteUnit(0xdc00 | (v & 0x3ff));
  }

  lemma {:induction false} SurrogateRange(v: bv32)
    requires v < 0x100000
    ensures 0x800 <= (0xd800 | (v >> 10)) < 0x10000 && 0x800 <= (0xdc00 | (v & 0x3ff)) < 0x10000
  {
  }

  lemma {:induction false} ThreeByteUnit(x: bv32)
    requires 0x800 <= x < 0x10000
    ensures |ModifiedUtf8(Unit(x))| == 3
  {
    UnitValue(x);
    hide Unit, Byte;
  }

  /** A text's UTF-8 form is the form its Java string is stored in exactly if the text is plain; it is never longer. */
  lemma {:induction false} SameFormIffPlain(text: seq<Scalar>)
    ensures JavaForm(text) == Utf8All(text) <==> PlainText(text)
    ensures |JavaForm(text)| >= |Utf8All(text)|
    ensures !PlainText(text) ==> |JavaForm(text)| > |Utf8All(text)|
  {
    hide Utf8Of, Utf16Of, ModifiedUtf8, PlainScalar;
    if text != [] {
      SameFormIffPlain(text[1..]);
      ScalarForms(text[0]);
      ModifiedConcat(Utf16Of(text[0]), Utf16All(text[1..]));
      assert PlainText(text) <==> PlainScalar(text[0]) && PlainText(text[1..]);
    }
  }

  /** U+1F600: four bytes of UTF-8, six of modified UTF-8. */
  lemma {:induction false} EmojiForms()
    ensures |Utf8All([0x1F600])| == 4 && |JavaForm([0x1F600])| == 6
  {
    var text: seq<Scalar> := [0x1F600];
    assert text[1..] == [];
    assert Utf8All([]) == [] && Utf16All([]) == [];
    var hi, lo := Unit(0xd83d), Unit(0xde00);
    assert Utf16Of(0x1F600) == [hi, lo];
    assert Utf16All(text) == [hi, lo];
    ModifiedConcat([hi], [lo]);
    ModifiedSingle(hi);
    ModifiedSingle(lo);
    assert [hi] + [lo] == [hi, lo];
    SurrogateUnits(0x1F600);
  }
}

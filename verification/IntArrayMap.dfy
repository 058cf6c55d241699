/** The hash table of the INTARRAY module: named arrays, open addressing, tombstones. */
module IntArrayMaps {
  import opened Common

  type Name = seq<bv8>

  /** A sqlite3_intarray. Its name never changes. */
  datatype Handle = Handle(name: Name, id: nat)

  /** Free: the zeroed cell. Tomb: hash -1 and no key; a search has to go on. */
  datatype Entry = Free | Tomb | Live(key: Name, hash: nat, value: Handle)

  datatype Status = OK | DuplicateName | InternalError

  const INITIAL_COUNT: nat := 17

  // ---- names ----

  function ToLower(c: bv8): bv8 {
    if 65 <= c <= 90 then c + 32 else c
  }

  /** What stricmp compares. */
  function Fold(name: Name): (f: Name)
    ensures |f| == |name|
  {
    if name == [] then [] else Fold(name[..|name| - 1]) + [ToLower(name[|name| - 1])]
  }

  /** Whether the platform's char is signed: the hash of names with bytes above 127 depends on it. */
  const SIGNED_CHAR: bool

  function Mix(name: Name): bv32 {
    if name == [] then 0 else MixIn(Mix(name[..|name| - 1]), ToLower(name[|name| - 1]))
  }

  function MixIn(h: bv32, c: bv8): bv32 {
    (h << 3) ^ h ^ Promoted(c)
  }

  /** A char as the unsigned int it becomes in an expression. */
  function Promoted(c: bv8): bv32 {
    if SIGNED_CHAR && c >= 128 then 0xffff_ff00 | (c as bv32) else c as bv32
  }

  function Masked(h: bv32): nat {
    if h == 0 then 1 else ((h & 0x7FFF_FFFF) as bv31) as int
  }

  /** The hash of a name. It is never negative as an int, so no name has the hash -1 of a tombstone. */
  function HashOf(name: Name): (h: nat) {
    Masked(Mix(name))
  }

  method StrHash(s: Name) returns (hash: nat)
    ensures hash == HashOf(s)
  {
    hide MixIn, ToLower, Masked;
    var h: bv32 := 0;
    for i := 0 to |s|
      invariant h == Mix(s[..i])
    {
      assert s[..i + 1][..i] == s[..i];
      h := MixIn(h, ToLower(s[i]));
    }
    assert s[..|s|] == s;
    hash := Masked(h);
  }

  lemma {:induction false} FoldsHashSame(s: Name, t: Name)
    requires Fold(s) == Fold(t)
    ensures Mix(s) == Mix(t) && HashOf(s) == HashOf(t)
  {
    hide MixIn, ToLower, Masked;
    if s != [] {
      var n := |s| - 1;
      assert Fold(s)[..n] == Fold(s[..n]) && Fold(t)[..n] == Fold(t[..n]);
      assert Fold(s)[n] == ToLower(s[n]) && Fold(t)[n] == ToLower(t[n]);
      FoldsHashSame(s[..n], t[..n]);
    }
  }

  /** Two bytes are the same but for the case of an ASCII letter. */
  predicate SameLetter(c: bv8, d: bv8) {
    c == d || (65 <= c <= 90 && d == c + 32) || (65 <= d <= 90 && c == d + 32)
  }

  /** Two names are the same but for the case of ASCII letters. */
  predicate SameName(s: Name, t: Name) {
    |s| == |t| && forall i :: 0 <= i < |s| ==> SameLetter(s[i], t[i])
  }

  lemma {:induction false} FoldAt(s: Name, i: nat)
    requires i < |s|
    ensures Fold(s)[i] == ToLower(s[i])
  {
    if i < |s| - 1 {
      FoldAt(s[..|s| - 1], i);
    }
  }

  /** Names fold to the same exactly if they have the same length and differ, byte by byte, at most in that one is in
      65..90 and the other is 32 more. */
  lemma {:induction false} FoldsSame(s: Name, t: Name)
    ensures Fold(s) == Fold(t) <==>
              && |s| == |t|
              && forall i :: 0 <= i < |s| ==>
                   s[i] == t[i] || (65 <= s[i] <= 90 && t[i] == s[i] + 32) || (65 <= t[i] <= 90 && s[i] == t[i] + 32)
    ensures Fold(s) == Fold(t) <==> SameName(s, t)
  {
    hide Fold, ToLower;
    if |s| == |t| {
      forall i | 0 <= i < |s|
        ensures Fold(s)[i] == Fold(t)[i] <==> SameLetter(s[i], t[i])
      {
        FoldAt(s, i);
        FoldAt(t, i);
        LowerSame(s[i], t[i]);
      }
    }
  }

  /** Names that differ only in the case of letters have the same hash, so a search by hash and name misses none of
      them. */
  lemma {:induction false} HashIgnoresCase(s: Name, t: Name)
    requires |s| == |t|
    requires forall i :: 0 <= i < |s| ==>
               s[i] == t[i] || (65 <= s[i] <= 90 && t[i] == s[i] + 32) || (65 <= t[i] <= 90 && s[i] == t[i] + 32)
    ensures HashOf(s) == HashOf(t)
  {
    hide HashOf, Fold, Mix;
    FoldsSame(s, t);
    FoldsHashSame(s, t);
  }

  lemma {:induction false} LowerSame(c: bv8, d: bv8)
    ensures ToLower(c) == ToLower(d) <==> SameLetter(c, d)
  {
  }

  /** The hash is made byte by byte, from 0; `MixedIn` and `Cut` say how. */
  lemma {:induction false} HashLaw(s: Name, c: bv8)
    ensures Mix([]) == 0 && Mix(s + [c]) == MixIn(Mix(s), ToLower(c)) && HashOf(s) == Masked(Mix(s))
  {
    hide MixIn, ToLower, Masked;
    assert (s + [c])[..|s|] == s;
  }

  /** A byte in lower case; one above 127 is a negative char where char is signed. */
  function CharBits(c: bv8): bv32 {
    if 65 <= c <= 90 then (c + 32) as bv32
    else if c >= 128 && SIGNED_CHAR then 0xffff_ff00 | (c as bv32)
    else c as bv32
  }

  /** The state and eight times the state, in 32 bits, and the lower-case byte, exclusive or. */
  lemma {:induction false} MixedIn(h: bv32, c: bv8)
    ensures MixIn(h, ToLower(c)) == (h << 3) ^ h ^ CharBits(c)
  {
  }

  /** The top bit is cut off, and 0 becomes 1. */
  lemma {:induction false} Cut(h: bv32)
    ensures Masked(h) == if h == 0 then 1 else ((h & 0x7fff_ffff) as int)
  {
  }

  // ---- probe paths ----

  /** The cell `d` steps after `s` in a table of `n` cells. */
  function Slot(s: nat, d: nat, n: nat): (i: nat)
    requires s < n && d < n
    ensures i < n
  {
    if s + d < n then s + d else s + d - n
  }

  /** How many steps from `s` to `i`. */
  function Distance(s: nat, i: nat, n: nat): (d: nat)
    requires s < n && i < n
    ensures d < n && Slot(s, d, n) == i
  {
    if s <= i then i - s else i + n - s
  }

  function Cell(t: seq<Entry>, s: nat, d: nat): Entry
    requires s < |t| && d < |t|
  {
    t[Slot(s, d, |t|)]
  }

  predicate Matches(e: Entry, name: Name) {
    e.Live? && e.hash == HashOf(name) && Fold(e.key) == Fold(name)
  }

  function Home(name: Name, n: nat): (s: nat)
    requires n > 0
    ensures s < n
  {
    HashOf(name) % n
  }

  // ---- what a table means ----

  /** The cells hold exactly the entries of `m`, each once. */
  ghost predicate Represents(t: seq<Entry>, m: map<Name, Handle>) {
    && (forall i :: 0 <= i < |t| ==> Recorded(t[i], m))
    && Distinct(t)
    && (forall k :: k in m ==> HasKey(t, k))
  }

  predicate Recorded(e: Entry, m: map<Name, Handle>) {
    e.Live? ==> Fold(e.key) in m && m[Fold(e.key)] == e.value
  }

  predicate Distinct(t: seq<Entry>) {
    forall i, j :: 0 <= i < j < |t| ==> Different(t[i], t[j])
  }

  predicate Different(e: Entry, e': Entry) {
    e.Live? && e'.Live? ==> Fold(e.key) != Fold(e'.key)
  }

  ghost predicate HasKey(t: seq<Entry>, k: Name) {
    exists i :: 0 <= i < |t| && t[i].Live? && Fold(t[i].key) == k
  }

  /** No free cell among the first `d` of a probe path. */
  predicate Unbroken(t: seq<Entry>, s: nat, d: nat)
    requires s < |t| && d <= |t|
  {
    forall e :: 0 <= e < d ==> !Cell(t, s, e).Free?
  }

  /** A search for the entry's name reaches the cell. */
  predicate Placed(t: seq<Entry>, i: nat)
    requires i < |t|
  {
    t[i].Live? ==>
      && t[i].hash == HashOf(t[i].key) && t[i].key == t[i].value.name
      && Unbroken(t, Home(t[i].key, |t|), Distance(Home(t[i].key, |t|), i, |t|))
  }

  predicate AllPlaced(t: seq<Entry>) {
    forall i :: 0 <= i < |t| ==> Placed(t, i)
  }

  ghost predicate TableOk(t: seq<Entry>, m: map<Name, Handle>) {
    Represents(t, m) && AllPlaced(t)
  }

  /** A table holds one map only. */
  lemma {:induction false} MapDetermined(t: seq<Entry>, m: map<Name, Handle>, m': map<Name, Handle>)
    requires Represents(t, m) && Represents(t, m')
    ensures m == m'
  {
    assert forall k :: k in m ==> HasKey(t, k) && k in m';
    assert forall k :: k in m' ==> HasKey(t, k) && k in m;
  }

  /** There are as many names as live cells: at most as many as cells, and fewer if a cell is not live. */
  lemma {:induction false} LiveCells(t: seq<Entry>, m: map<Name, Handle>)
    requires Represents(t, m)
    ensures |m| <= |t| && ((forall i :: 0 <= i < |t| ==> t[i].Live?) ==> |m| == |t|)
  {
    if t == [] {
      assert forall k :: k in m ==> HasKey(t, k);
      assert m == map[];
    } else {
      var n := |t| - 1;
      var m' := Front(t, m);
      LiveCells(t[..n], m');
      assert (forall i :: 0 <= i < |t| ==> t[i].Live?) ==> forall i :: 0 <= i < n ==> t[..n][i].Live?;
    }
  }

  lemma {:induction false} Front(t: seq<Entry>, m: map<Name, Handle>) returns (m': map<Name, Handle>)
    requires t != [] && Represents(t, m)
    ensures Represents(t[..|t| - 1], m')
    ensures |m| == |m'| + if t[|t| - 1].Live? then 1 else 0
  {
    hide Fold;
    var n := |t| - 1;
    m' := if t[n].Live? then m - {Fold(t[n].key)} else m;
    if t[n].Live? {
      assert Recorded(t[n], m);
      assert m == m'[Fold(t[n].key) := t[n].value];
    }
    FrontRepresents(t, m, m');
  }

  lemma {:induction false} FrontRepresents(t: seq<Entry>, m: map<Name, Handle>, m': map<Name, Handle>)
    requires t != [] && Represents(t, m)
    requires m' == if t[|t| - 1].Live? then m - {Fold(t[|t| - 1].key)} else m
    ensures Represents(t[..|t| - 1], m')
  {
    hide Fold;
    var n := |t| - 1;
    forall i | 0 <= i < n
      ensures Recorded(t[..n][i], m')
    {
      assert t[..n][i] == t[i] && Recorded(t[i], m) && Different(t[i], t[n]);
    }
    forall i, j | 0 <= i < j < n
      ensures Different(t[..n][i], t[..n][j])
    {
      assert Different(t[i], t[j]);
    }
    forall k | k in m'
      ensures HasKey(t[..n], k)
    {
      var i := KeyAt(t, k, m);
      InFront(t, n, i);
    }
  }

  lemma {:induction false} KeyAt(t: seq<Entry>, k: Name, m: map<Name, Handle>) returns (i: nat)
    requires Represents(t, m) && k in m
    ensures i < |t| && t[i].Live? && Fold(t[i].key) == k && t[i].value == m[k]
  {
    assert HasKey(t, k);
    i :| 0 <= i < |t| && t[i].Live? && Fold(t[i].key) == k;
    assert Recorded(t[i], m);
  }

  lemma {:induction false} InFront(t: seq<Entry>, n: nat, i: nat)
    requires i < n <= |t| && t[i].Live?
    ensures HasKey(t[..n], Fold(t[i].key))
  {
    assert t[..n][i] == t[i];
  }

  // ---- search ----

  /** What intarrayMapFind returns from the `d`-th cell of the probe path on. */
  function Search(t: seq<Entry>, name: Name, d: nat): Option<Handle>
    requires t != [] && d <= |t|
    decreases |t| - d
  {
    if d == |t| || Cell(t, Home(name, |t|), d).Free? then None
    else if Matches(Cell(t, Home(name, |t|), d), name) then Some(Cell(t, Home(name, |t|), d).value)
    else Search(t, name, d + 1)
  }

  function Lookup(m: map<Name, Handle>, name: Name): Option<Handle> {
    if Fold(name) in m then Some(m[Fold(name)]) else None
  }

  /** Where a live entry stands on the probe path of its name. */
  lemma {:induction false} OnPath(t: seq<Entry>, m: map<Name, Handle>, name: Name) returns (d: nat)
    requires t != [] && TableOk(t, m) && Fold(name) in m
    ensures d < |t| && Matches(Cell(t, Home(name, |t|), d), name) && Unbroken(t, Home(name, |t|), d)
    ensures Cell(t, Home(name, |t|), d).value == m[Fold(name)]
    ensures forall e :: 0 <= e < |t| && Matches(Cell(t, Home(name, |t|), e), name) ==> e == d
  {
    assert HasKey(t, Fold(name));
    var i :| 0 <= i < |t| && t[i].Live? && Fold(t[i].key) == Fold(name);
    FoldsHashSame(t[i].key, name);
    assert Placed(t, i);
    d := Distance(Home(name, |t|), i, |t|);
  }

  /** No live cell matches a name that the map does not have. */
  lemma {:induction false} NotOnPath(t: seq<Entry>, m: map<Name, Handle>, name: Name)
    requires t != [] && Represents(t, m) && Fold(name) !in m
    ensures forall e :: 0 <= e < |t| ==> !Matches(Cell(t, Home(name, |t|), e), name)
  {
  }

  lemma {:induction false} SearchReaches(t: seq<Entry>, name: Name, d: nat, at: nat)
    requires t != [] && d <= at < |t| && Unbroken(t, Home(name, |t|), at)
    requires Matches(Cell(t, Home(name, |t|), at), name)
    requires forall e :: d <= e < at ==> !Matches(Cell(t, Home(name, |t|), e), name)
    ensures Search(t, name, d) == Some(Cell(t, Home(name, |t|), at).value)
    decreases at - d
  {
    if d < at {
      SearchReaches(t, name, d + 1, at);
    }
  }

  lemma {:induction false} SearchMisses(t: seq<Entry>, name: Name, d: nat)
    requires t != [] && d <= |t|
    requires forall e :: d <= e < |t| ==> !Matches(Cell(t, Home(name, |t|), e), name)
    ensures Search(t, name, d) == None
    decreases |t| - d
  {
    if d < |t| {
      SearchMisses(t, name, d + 1);
    }
  }

  /** Find is exact. */
  lemma {:induction false} FindExact(t: seq<Entry>, m: map<Name, Handle>, name: Name)
    requires t != [] && TableOk(t, m)
    ensures Search(t, name, 0) == Lookup(m, name)
  {
    hide Matches, Placed, Cell, Represents, AllPlaced;
    if Fold(name) in m {
      var at := OnPath(t, m, name);
      SearchReaches(t, name, 0, at);
    } else {
      NotOnPath(t, m, name);
      SearchMisses(t, name, 0);
    }
  }

  // ---- insertion ----

  /** Where the probing of mapPut_ and intarrayMapRemove stops: at the name's cell or at the first that is not live. */
  function Stop(t: seq<Entry>, name: Name, d: nat): (g: nat)
    requires t != [] && d <= |t|
    ensures d <= g <= |t|
    ensures forall e :: d <= e < g ==> Cell(t, Home(name, |t|), e).Live? && !Matches(Cell(t, Home(name, |t|), e), name)
    ensures g < |t| ==> !Cell(t, Home(name, |t|), g).Live? || Matches(Cell(t, Home(name, |t|), g), name)
    decreases |t| - d
  {
    if d == |t| || !Cell(t, Home(name, |t|), d).Live? || Matches(Cell(t, Home(name, |t|), d), name) then d
    else Stop(t, name, d + 1)
  }

  function Inserted(t: seq<Entry>, a: Handle): seq<Entry>
    requires t != [] && Stop(t, a.name, 0) < |t|
  {
    t[Slot(Home(a.name, |t|), Stop(t, a.name, 0), |t|) := Live(a.name, HashOf(a.name), a)]
  }

  /** With fewer names than cells, probing always stops. */
  lemma {:induction false} Stops(t: seq<Entry>, m: map<Name, Handle>, name: Name)
    requires Represents(t, m) && |m| < |t|
    ensures Stop(t, name, 0) < |t|
  {
    LiveCells(t, m);
    var i :| 0 <= i < |t| && !t[i].Live?;
    assert Cell(t, Home(name, |t|), Distance(Home(name, |t|), i, |t|)) == t[i];
  }

  /** A cell that was not free and is live now breaks no probe path. */
  lemma {:induction false} StillUnbroken(t: seq<Entry>, i: nat, e: Entry, s: nat, d: nat)
    requires i < |t| && s < |t| && d <= |t| && !e.Free? && Unbroken(t, s, d)
    ensures Unbroken(t[i := e], s, d)
  {
    var t' := t[i := e];
    forall k | 0 <= k < d
      ensures !Cell(t', s, k).Free?
    {
      assert !Cell(t, s, k).Free?;
    }
  }

  lemma {:induction false} InsertPlaces(t: seq<Entry>, a: Handle)
    requires t != [] && AllPlaced(t) && Stop(t, a.name, 0) < |t|
    ensures AllPlaced(Inserted(t, a))
  {
    var s := Home(a.name, |t|);
    var g := Stop(t, a.name, 0);
    var i := Slot(s, g, |t|);
    var e := Live(a.name, HashOf(a.name), a);
    hide Stop, Slot, HashOf, Matches;
    var t' := t[i := e];
    forall k | 0 <= k < |t|
      ensures Placed(t', k)
    {
      assert Placed(t, k);
      if k == i {
        assert Distance(s, i, |t|) == g by {
          SlotDistance(s, g, |t|);
        }
        assert Unbroken(t, s, g);
        StillUnbroken(t, i, e, s, g);
      } else if t[k].Live? {
        StillUnbroken(t, i, e, Home(t[k].key, |t|), Distance(Home(t[k].key, |t|), k, |t|));
      }
    }
  }

  lemma {:induction false} SlotDistance(s: nat, d: nat, n: nat)
    requires s < n && d < n
    ensures Distance(s, Slot(s, d, n), n) == d
  {
  }

  lemma {:induction false} SetRepresents(t: seq<Entry>, m: map<Name, Handle>, i: nat, a: Handle, h: nat)
    requires Represents(t, m) && i < |t| && !t[i].Live? && Fold(a.name) !in m
    ensures Represents(t[i := Live(a.name, h, a)], m[Fold(a.name) := a])
  {
    var t', m' := t[i := Live(a.name, h, a)], m[Fold(a.name) := a];
    assert t'[i].Live? && Fold(t'[i].key) == Fold(a.name);
    forall k | k in m'
      ensures HasKey(t', k)
    {
      if k != Fold(a.name) {
        assert HasKey(t, k);
        var j :| 0 <= j < |t| && t[j].Live? && Fold(t[j].key) == k;
        assert t'[j] == t[j];
      }
    }
  }

  /** Insertion adds the name and nothing else. */
  lemma {:induction false} InsertOk(t: seq<Entry>, m: map<Name, Handle>, a: Handle)
    requires t != [] && TableOk(t, m) && |m| < |t| && Fold(a.name) !in m
    ensures Stop(t, a.name, 0) < |t|
    ensures TableOk(Inserted(t, a), m[Fold(a.name) := a])
  {
    hide Represents, AllPlaced, HashOf, Home;
    var s := Home(a.name, |t|);
    Stops(t, m, a.name);
    assert !Cell(t, s, Stop(t, a.name, 0)).Live? by {
      NotOnPath(t, m, a.name);
    }
    InsertPlaces(t, a);
    SetRepresents(t, m, Slot(s, Stop(t, a.name, 0), |t|), a, HashOf(a.name));
  }

  // ---- removal ----

  function Removed(t: seq<Entry>, name: Name): seq<Entry>
    requires t != []
  {
    var s, g := Home(name, |t|), Stop(t, name, 0);
    if g < |t| && Cell(t, s, g).Live? then t[Slot(s, g, |t|) := Tomb] else t
  }

  /** The name is in the table and no tombstone precedes it on its probe path. */
  predicate Removable(t: seq<Entry>, name: Name)
    requires t != []
  {
    exists d :: 0 <= d < |t| && Matches(Cell(t, Home(name, |t|), d), name) && NoTomb(t, Home(name, |t|), d)
  }

  predicate NoTomb(t: seq<Entry>, s: nat, d: nat)
    requires s < |t| && d <= |t|
  {
    forall e :: 0 <= e < d ==> !Cell(t, s, e).Tomb?
  }

  lemma {:induction false} TombPlaces(t: seq<Entry>, i: nat)
    requires AllPlaced(t) && i < |t|
    ensures AllPlaced(t[i := Tomb])
  {
    hide HashOf, Slot;
    var t' := t[i := Tomb];
    forall k | 0 <= k < |t|
      ensures Placed(t', k)
    {
      assert Placed(t, k);
      if k != i && t[k].Live? {
        StillUnbroken(t, i, Tomb, Home(t[k].key, |t|), Distance(Home(t[k].key, |t|), k, |t|));
      }
    }
  }

  lemma {:induction false} TombRepresents(t: seq<Entry>, m: map<Name, Handle>, i: nat)
    requires Represents(t, m) && i < |t| && t[i].Live?
    ensures Represents(t[i := Tomb], m - {Fold(t[i].key)})
  {
    var t', m' := t[i := Tomb], m - {Fold(t[i].key)};
    forall k | k in m'
      ensures HasKey(t', k)
    {
      assert HasKey(t, k);
      var j :| 0 <= j < |t| && t[j].Live? && Fold(t[j].key) == k;
      assert t'[j] == t[j];
    }
  }

  /** Removal deletes the name exactly if no tombstone precedes it; otherwise it changes nothing at all. */
  lemma {:induction false} RemoveOk(t: seq<Entry>, m: map<Name, Handle>, name: Name)
    requires t != [] && TableOk(t, m)
    ensures Removable(t, name) ==> Fold(name) in m && TableOk(Removed(t, name), m - {Fold(name)})
    ensures !Removable(t, name) ==> Removed(t, name) == t
  {
    var s, g := Home(name, |t|), Stop(t, name, 0);
    hide Represents, AllPlaced, HashOf, Home;
    if Removable(t, name) {
      RemovableStops(t, m, name);
      TombPlaces(t, Slot(s, g, |t|));
      TombRepresents(t, m, Slot(s, g, |t|));
    } else if g < |t| {
      assert NoTomb(t, s, g);
    }
  }

  /** A table changes only if its entry is removed. */
  lemma {:induction false} RemoveChanges(t: seq<Entry>, m: map<Name, Handle>, name: Name)
    requires t != [] && TableOk(t, m)
    ensures var g := Stop(t, name, 0);
            Removable(t, name) <==> g < |t| && Cell(t, Home(name, |t|), g).Live?
  {
    var s, g := Home(name, |t|), Stop(t, name, 0);
    hide HashOf, Home, Represents, AllPlaced;
    if Removable(t, name) {
      RemovableStops(t, m, name);
    }
    if g < |t| {
      assert NoTomb(t, s, g);
    }
  }

  lemma {:induction false} RemovableStops(t: seq<Entry>, m: map<Name, Handle>, name: Name)
    requires t != [] && TableOk(t, m) && Removable(t, name)
    ensures Fold(name) in m && Stop(t, name, 0) < |t|
    ensures Matches(Cell(t, Home(name, |t|), Stop(t, name, 0)), name)
  {
    var s, g := Home(name, |t|), Stop(t, name, 0);
    if Fold(name) !in m {
      NotOnPath(t, m, name);
      assert false;
    }
    hide Represents, AllPlaced, HashOf, Home, Stop, Matches;
    var at := OnPath(t, m, name);
    var d :| 0 <= d < |t| && Matches(Cell(t, s, d), name) && NoTomb(t, s, d);
    assert d == at;
    assert forall e :: 0 <= e < d ==> !Cell(t, s, e).Free? && !Cell(t, s, e).Tomb?;
    assert g <= d;
  }

  /** As long as a table has no tombstone, every name in it can be removed. */
  lemma {:induction false} RemovableWithoutTombs(t: seq<Entry>, m: map<Name, Handle>, name: Name)
    requires t != [] && TableOk(t, m) && Fold(name) in m && Tomb !in t
    ensures Removable(t, name)
  {
    var d := OnPath(t, m, name);
    assert NoTomb(t, Home(name, |t|), d);
  }

  // ---- the table as an object ----

  lemma {:induction false} Wrap(s: nat, d: nat, n: nat)
    requires s < n && d < n
    ensures d + 1 < n ==> (Slot(s, d, n) + 1) % n == Slot(s, d + 1, n)
    ensures d + 1 == n ==> (Slot(s, d, n) + 1) % n == s
  {
  }

  /** The probing loop that mapPut_ and intarrayMapRemove share. `j` counts the cells left. */
  method Probe(t: array<Entry>, name: Name, hash: nat) returns (i: nat, j: nat)
    requires t.Length > 0 && hash == HashOf(name)
    ensures j <= t.Length && t.Length - j == Stop(t[..], name, 0)
    ensures j > 0 ==> i < t.Length && i == Slot(Home(name, t.Length), t.Length - j, t.Length)
  {
    hide HashOf;
    var size := t.Length;
    i := hash % size;
    j := size;
    while j > 0 && t[i].Live?
      invariant 0 <= j <= size && 0 <= i < size
      invariant j > 0 ==> i == Slot(Home(name, size), size - j, size)
      invariant Stop(t[..], name, size - j) == Stop(t[..], name, 0)
    {
      if hash == t[i].hash && Fold(t[i].key) == Fold(name) {
        return;
      }
      Wrap(Home(name, size), size - j, size);
      i := (i + 1) % size;
      j := j - 1;
    }
  }

  /** mapPut_: duplicate names are refused, also beyond a tombstone that could be used again. */
  method MapPut(t: array<Entry>, a: Handle, hash: nat, ghost m: map<Name, Handle>) returns (rc: Status)
    requires t.Length > 0 && hash == HashOf(a.name) && TableOk(t[..], m) && |m| < t.Length
    modifies t
    ensures rc == if Fold(a.name) in m then DuplicateName else OK
    ensures rc == DuplicateName ==> t[..] == old(t[..])
    ensures rc == OK ==> Stop(old(t[..]), a.name, 0) < t.Length && t[..] == Inserted(old(t[..]), a)
    ensures rc == OK ==> TableOk(t[..], m[Fold(a.name) := a])
  {
    hide Represents, AllPlaced, HashOf, Stop, Search;
    ghost var was := t[..];
    Stops(was, m, a.name);
    StopDecides(was, m, a.name);
    var i, j := Probe(t, a.name, hash);
    if j == 0 {
      return InternalError;
    }
    if t[i].Live? {
      return DuplicateName;
    }
    if t[i].Tomb? {
      var duplicate := Trail(t, a, hash, i, j, Home(a.name, t.Length));
      if duplicate {
        return DuplicateName;
      }
    }
    InsertOk(was, m, a);
    t[i] := Live(a.name, hash, a);
    return OK;
  }

  /** What the cell at which probing stops says about the name. */
  lemma {:induction false} StopDecides(t: seq<Entry>, m: map<Name, Handle>, name: Name)
    requires t != [] && TableOk(t, m) && Stop(t, name, 0) < |t|
    ensures var g := Stop(t, name, 0); var e := Cell(t, Home(name, |t|), g);
            && (e.Live? ==> Fold(name) in m)
            && (e.Free? ==> Fold(name) !in m)
            && (Fold(name) in m <==> Search(t, name, g) != None)
  {
    hide Represents, AllPlaced, HashOf, Home;
    FindExact(t, m, name);
    SearchSkips(t, name, 0, Stop(t, name, 0));
    if Fold(name) !in m {
      NotOnPath(t, m, name);
    }
  }

  lemma {:induction false} SearchSkips(t: seq<Entry>, name: Name, d: nat, g: nat)
    requires t != [] && d <= g <= |t|
    requires forall e :: d <= e < g ==> !Matches(Cell(t, Home(name, |t|), e), name) && Cell(t, Home(name, |t|), e).Live?
    ensures Search(t, name, d) == Search(t, name, g)
    decreases g - d
  {
    if d < g {
      SearchSkips(t, name, d + 1, g);
    }
  }

  /** The rest of the probe path beyond a tombstone: is the name there? */
  method Trail(t: array<Entry>, a: Handle, hash: nat, i: nat, j0: nat, ghost s: nat) returns (duplicate: bool)
    requires t.Length > 0 && hash == HashOf(a.name) && s == Home(a.name, t.Length)
    requires 0 < j0 <= t.Length && i == Slot(s, t.Length - j0, t.Length) && t[i].Tomb?
    ensures duplicate <==> Search(t[..], a.name, t.Length - j0) != None
  {
    hide HashOf;
    var size := t.Length;
    Wrap(s, size - j0, size);
    var k := (i + 1) % size;
    var j := j0 - 1;
    while j > 0 && !t[k].Free?
      invariant 0 <= j < j0 && 0 <= k < size
      invariant j > 0 ==> k == Slot(s, size - j, size)
      invariant Search(t[..], a.name, size - j) == Search(t[..], a.name, size - j0)
    {
      if t[k].Live? && hash == t[k].hash && Fold(t[k].key) == Fold(a.name) {
        return true;
      }
      Wrap(s, size - j, size);
      k := (k + 1) % size;
      j := j - 1;
    }
    return false;
  }

  // ---- the names of a map ----

  /** The map has the name, in whatever case. */
  ghost predicate HasName(m: map<Name, Handle>, name: Name) {
    exists h :: h in m.Values && SameName(h.name, name)
  }

  /** No two names in a table are the same but for case, and a name is found under what it folds to. */
  lemma {:induction false} NamesOk(t: seq<Entry>, m: map<Name, Handle>)
    requires TableOk(t, m)
    ensures forall k :: k in m ==> Fold(m[k].name) == k
    ensures forall h, g :: h in m.Values && g in m.Values && SameName(h.name, g.name) ==> h == g
  {
    hide Fold, SameName, Unbroken, Distance, HashOf, Home;
    forall k | k in m
      ensures Fold(m[k].name) == k
    {
      var i := KeyAt(t, k, m);
      assert Placed(t, i);
    }
    forall h, g | h in m.Values && g in m.Values && SameName(h.name, g.name)
      ensures h == g
    {
      FoldsSame(h.name, g.name);
    }
  }

  lemma {:induction false} HasNameIff(t: seq<Entry>, m: map<Name, Handle>, name: Name)
    requires TableOk(t, m)
    ensures HasName(m, name) <==> Fold(name) in m
    ensures Fold(name) in m ==> m[Fold(name)] in m.Values && SameName(m[Fold(name)].name, name)
  {
    NamesOk(t, m);
    hide Fold, SameName, TableOk;
    forall h | h in m.Values
      ensures SameName(h.name, name) <==> Fold(h.name) == Fold(name)
    {
      FoldsSame(h.name, name);
    }
  }

  lemma {:induction false} NameAdded(m: map<Name, Handle>, k: Name, a: Handle)
    requires k !in m
    ensures m[k := a].Values == m.Values + {a}
  {
    var m' := m[k := a];
    assert forall j :: j in m ==> j != k && m'[j] == m[j];
    assert m'[k] == a;
  }

  lemma {:induction false} NameDropped(t: seq<Entry>, m: map<Name, Handle>, name: Name)
    requires TableOk(t, m)
    ensures !HasName(m - {Fold(name)}, name) && (m - {Fold(name)}).Values <= m.Values
    ensures forall h :: h in m.Values && !SameName(h.name, name) ==> h in (m - {Fold(name)}).Values
  {
    NamesOk(t, m);
    hide Fold, SameName, TableOk;
    var m' := m - {Fold(name)};
    forall h | h in m'.Values
      ensures !SameName(h.name, name)
    {
      FoldsSame(h.name, name);
    }
    forall h | h in m.Values && !SameName(h.name, name)
      ensures h in m'.Values
    {
      FoldsSame(h.name, name);
      var k :| k in m && m[k] == h;
      assert k in m' && m'[k] == h;
    }
  }

  class IntArrayMap {
    var hashtable: array<Entry>
    var rehashSize: nat
    var count: nat
    ghost var contents: map<Name, Handle>

    ghost predicate Valid()
      reads this, hashtable
    {
      && TableOk(hashtable[..], contents)
      && count == |contents|
      && 2 <= rehashSize && count < rehashSize < hashtable.Length
    }

    /** intarrayMapInit */
    constructor ()
      ensures Valid() && fresh(hashtable) && contents == map[] && hashtable.Length == INITIAL_COUNT
      ensures hashtable[..] == seq(INITIAL_COUNT, _ => Free) && hashtable.Length == 17 && rehashSize == 11
    {
      hashtable := new Entry[INITIAL_COUNT](_ => Free);
      rehashSize := INITIAL_COUNT * 2 / 3;
      count := 0;
      contents := map[];
    }

    method Rehash()
      requires TableOk(hashtable[..], contents) && count == |contents|
      requires 2 <= rehashSize && count <= rehashSize < hashtable.Length
      modifies this`hashtable, this`rehashSize
      ensures Valid() && fresh(hashtable) && Tomb !in hashtable[..]
      ensures rehashSize == old(hashtable.Length) && hashtable.Length == rehashSize + rehashSize / 2
    {
      hide Represents, AllPlaced, HashOf;
      var size := hashtable.Length;
      var newsize := size + size / 2;
      var t := hashtable;
      var newtable := new Entry[newsize](_ => Free);
      ghost var all := t[..];
      ghost var moved: map<Name, Handle> := map[];
      EmptyOk(newtable[..], all[..0]);
      for i := 0 to size
        invariant t[..] == all && fresh(newtable) && newtable.Length == newsize
        invariant Represents(all[..i], moved) && TableOk(newtable[..], moved)
        invariant Tomb !in newtable[..]
      {
        ghost var moved' := NextMoved(all, i, moved, contents);
        if t[i].Live? {
          LiveCells(all[..i], moved);
          ghost var before := newtable[..];
          var rc := MapPut(newtable, t[i].value, t[i].hash, moved);
          NoTombInserted(before, t[i].value);
        }
        moved := moved';
      }
      assert all[..size] == all;
      MapDetermined(all, moved, contents);
      rehashSize := size;
      hashtable := newtable;
      LiveCells(all, contents);
    }

    /** intarrayMapPut: inserts or reports a duplicate, and never fails for want of a cell. */
    method Put(a: Handle) returns (rc: Status)
      requires Valid()
      modifies this, hashtable
      ensures Valid() && (hashtable == old(hashtable) || fresh(hashtable))
      ensures rc == if Fold(a.name) in old(contents) then DuplicateName else OK
      ensures contents == if rc == OK then old(contents)[Fold(a.name) := a] else old(contents)
      ensures rc == DuplicateName <==> HasName(old(contents), a.name)
      ensures rc == OK ==> contents.Values == old(contents).Values + {a}
      ensures rc == OK ==> Stop(old(hashtable[..]), a.name, 0) < old(hashtable.Length)
      ensures rc == OK && hashtable == old(hashtable) ==> hashtable[..] == Inserted(old(hashtable[..]), a)
      ensures rc == OK && old(count) + 1 == old(rehashSize) ==>
                && fresh(hashtable) && Tomb !in hashtable[..]
                && rehashSize == old(hashtable.Length) && hashtable.Length == rehashSize + rehashSize / 2
      ensures rc != OK || old(count) + 1 < old(rehashSize) ==>
                hashtable == old(hashtable) && rehashSize == old(rehashSize)
    {
      hide TableOk, HashOf, Stop, HasName, Fold, SameName, Inserted;
      HasNameIff(hashtable[..], contents, a.name);
      var h1 := StrHash(a.name);
      rc := MapPut(hashtable, a, h1, contents);
      if rc != OK {
        return;
      }
      NameAdded(contents, Fold(a.name), a);
      contents := contents[Fold(a.name) := a];
      count := count + 1;
      if count >= rehashSize {
        Rehash();
      }
    }

    /** intarrayMapRemove */
    method Remove(a: Handle)
      requires Valid()
      modifies this`count, this`contents, hashtable
      ensures Valid()
      ensures hashtable[..] == Removed(old(hashtable[..]), a.name)
      ensures contents == if Removable(old(hashtable[..]), a.name) then old(contents) - {Fold(a.name)}
                          else old(contents)
      ensures HasName(contents, a.name) <==> HasName(old(contents), a.name) && !Removable(old(hashtable[..]), a.name)
      ensures forall h :: h in old(contents).Values && !SameName(h.name, a.name) ==> h in contents.Values
      ensures contents.Values <= old(contents).Values
    {
      hide HasName, SameName, TableOk, HashOf, Removable, Stop, Fold;
      HasNameIff(hashtable[..], contents, a.name);
      NameDropped(hashtable[..], contents, a.name);
      var hash := StrHash(a.name);
      RemoveOk(hashtable[..], contents, a.name);
      RemoveChanges(hashtable[..], contents, a.name);
      var i, j := Probe(hashtable, a.name, hash);
      if j > 0 && hashtable[i].Live? {
        hashtable[i] := Tomb;
        count := count - 1;
        contents := contents - {Fold(a.name)};
      }
    }

    /** intarrayMapFind */
    method Find(zName: Name) returns (r: Option<Handle>)
      requires Valid()
      ensures r == Lookup(contents, zName)
      ensures r.Some? <==> HasName(contents, zName)
      ensures r.Some? ==> r.value in contents.Values && SameName(r.value.name, zName)
    {
      hide TableOk, HashOf, SameName, HasName;
      HasNameIff(hashtable[..], contents, zName);
      var hash := StrHash(zName);
      var t := hashtable;
      var size := t.Length;
      var i := hash % size;
      var j := size;
      ghost var s := Home(zName, size);
      FindExact(t[..], contents, zName);
      while j > 0 && !t[i].Free?
        invariant 0 <= j <= size && 0 <= i < size
        invariant j > 0 ==> i == Slot(s, size - j, size)
        invariant Search(t[..], zName, size - j) == Search(t[..], zName, 0)
      {
        if t[i].Live? && hash == t[i].hash && Fold(t[i].key) == Fold(zName) {
          return Some(t[i].value);
        }
        Wrap(s, size - j, size);
        i := (i + 1) % size;
        j := j - 1;
      }
      return None;
    }
  }

  lemma {:induction false} EmptyOk(t: seq<Entry>, none: seq<Entry>)
    requires (forall i :: 0 <= i < |t| ==> t[i].Free?) && none == []
    ensures TableOk(t, map[]) && Represents(none, map[])
  {
  }

  /** Moving one more cell. */
  lemma {:induction false} NextMoved(t: seq<Entry>, i: nat, moved: map<Name, Handle>, m: map<Name, Handle>)
    returns (moved': map<Name, Handle>)
    requires TableOk(t, m) && i < |t| && Represents(t[..i], moved)
    ensures Represents(t[..i + 1], moved')
    ensures t[i].Live? ==>
              && t[i].hash == HashOf(t[i].value.name) && Fold(t[i].value.name) !in moved
              && moved' == moved[Fold(t[i].value.name) := t[i].value]
    ensures !t[i].Live? ==> moved' == moved
  {
    assert Placed(t, i);
    moved' := if t[i].Live? then moved[Fold(t[i].key) := t[i].value] else moved;
    forall k | k in moved
      ensures HasKey(t[..i + 1], k) && (t[i].Live? ==> k != Fold(t[i].key))
    {
      var j := KeyAt(t[..i], k, moved);
      assert t[..i][j] == t[j] && Different(t[j], t[i]);
      InFront(t, i + 1, j);
    }
    MoreRepresents(t, i, moved, moved');
  }

  lemma {:induction false} MoreRepresents(t: seq<Entry>, n: nat, moved: map<Name, Handle>, moved': map<Name, Handle>)
    requires n < |t| && Distinct(t) && Represents(t[..n], moved)
    requires moved' == if t[n].Live? then moved[Fold(t[n].key) := t[n].value] else moved
    requires forall k :: k in moved ==> HasKey(t[..n + 1], k) && (t[n].Live? ==> k != Fold(t[n].key))
    ensures Represents(t[..n + 1], moved')
  {
    hide Fold;
    var t' := t[..n + 1];
    forall i | 0 <= i <= n
      ensures Recorded(t'[i], moved')
    {
      assert i < n ==> t[..n][i] == t[i] && Recorded(t[..n][i], moved);
    }
    forall i, j | 0 <= i < j <= n
      ensures Different(t'[i], t'[j])
    {
      assert Different(t[i], t[j]);
    }
    if t[n].Live? {
      InFront(t, n + 1, n);
    }
  }

  lemma {:induction false} NoTombInserted(t: seq<Entry>, a: Handle)
    requires t != [] && Tomb !in t && Stop(t, a.name, 0) < |t|
    ensures Tomb !in Inserted(t, a)
  {
  }

  // ---- the name that cannot be removed ----

  const A: Handle := Handle([97], 0)
  const R: Handle := Handle([114], 1)

  /** "a" and "r" have the same home cell. */
  lemma {:induction false} Collide()
    ensures HashOf(A.name) == 97 && HashOf(R.name) == 114
    ensures Home(A.name, INITIAL_COUNT) == Home(R.name, INITIAL_COUNT) == 12
    ensures Fold(A.name) == A.name && Fold(R.name) == R.name
  {
    assert A.name[..0] == [] && R.name[..0] == [];
    assert Mix(A.name) == 97 && Mix(R.name) == 114;
    assert Fold([]) == [];
  }

  lemma {:induction false} CollideProbes(t: seq<Entry>)
    requires |t| == INITIAL_COUNT
    ensures t[12].Free? ==> Stop(t, A.name, 0) == 0
    ensures t[12] == Live(A.name, 97, A) && t[13].Free? ==> Stop(t, R.name, 0) == 1 && Stop(t, A.name, 0) == 0
    ensures t[12] == Live(A.name, 97, A) && !t[13].Free? ==> Stop(t, A.name, 0) == 0
    ensures t[12].Tomb? ==> Stop(t, R.name, 0) == 0
  {
    Collide();
    hide HashOf, Fold, Home;
    assert Slot(12, 0, INITIAL_COUNT) == 12 && Slot(12, 1, INITIAL_COUNT) == 13;
    assert Cell(t, 12, 0) == t[12] && Cell(t, 12, 1) == t[13];
  }

  /** After "a" is removed, "r" cannot be: it is still found, and its name stays taken. */
  method RemoveLeavesName() returns (found: Option<Handle>, rc: Status)
    ensures found == Some(R) && rc == DuplicateName
  {
    Collide();
    hide HashOf, Fold, Home, Stop, TableOk, Removable, Removed;
    var names := new IntArrayMap();
    CollideProbes(names.hashtable[..]);
    rc := names.Put(A);
    assert rc == OK && names.hashtable[..] == seq(INITIAL_COUNT, _ => Free)[12 := Live(A.name, 97, A)];
    CollideProbes(names.hashtable[..]);
    rc := names.Put(R);
    assert rc == OK && names.hashtable[..][13] == Live(R.name, 114, R);
    CollideProbes(names.hashtable[..]);
    TombAt(names.hashtable[..]);
    names.Remove(A);
    assert names.hashtable[..][12] == Tomb;
    CollideProbes(names.hashtable[..]);
    assert R.name in names.contents;
    RemoveChanges(names.hashtable[..], names.contents, R.name);
    assert Cell(names.hashtable[..], 12, 0) == Tomb;
    names.Remove(R);
    found := names.Find(R.name);
    rc := names.Put(R);
  }

  lemma {:induction false} TombAt(t: seq<Entry>)
    requires |t| == INITIAL_COUNT && t[12] == Live(A.name, 97, A) && Stop(t, A.name, 0) == 0
    ensures Removed(t, A.name) == t[12 := Tomb]
  {
    Collide();
    assert Slot(12, 0, INITIAL_COUNT) == 12;
  }

  /** The name "A" is found as "a", and "a" is refused as a second name. */
  method CaseIgnored() returns (rc: Status, found: Option<Handle>, again: Status)
    ensures rc == OK && found == Some(Handle([65], 7)) && again == DuplicateName
  {
    hide TableOk, HashOf, Fold, Stop, Inserted, Lookup;
    var names := new IntArrayMap();
    var upper := Handle([65], 7);
    rc := names.Put(upper);
    assert names.contents.Values == {upper} && SameName(upper.name, [97]);
    found := names.Find([97]);
    again := names.Put(A);
  }
}

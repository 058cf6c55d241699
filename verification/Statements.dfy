/** Who holds the compiled statements of a connection: the cache or one registered SQLiteStatement each. */
module Statements {
  import opened Common

  type Handle = nat
  type Sql = string

  /** A compiled statement as SQLite has it: `stepped` since the last reset, `bound` if a parameter may be bound. */
  datatype Vm = Vm(stepped: bool, bound: bool)

  const FRESH: Vm := Vm(false, false)

  /** The SQLite functions the two classes call. Each demands that the handle has not been finalized. */
  class Native {
    var live: map<Handle, Vm>
    var finalized: set<Handle>

    constructor ()
      ensures live == map[] && finalized == {}
    {
      live, finalized := map[], {};
    }

    method Prepare(h: Handle)
      requires h !in live && h !in finalized
      modifies this`live
      ensures live == old(live)[h := FRESH]
    {
      live := live[h := FRESH];
    }

    method Step(h: Handle)
      requires h in live
      modifies this`live
      ensures live == old(live)[h := Vm(true, old(live)[h].bound)]
    {
      live := live[h := live[h].(stepped := true)];
    }

    method Reset(h: Handle)
      requires h in live
      modifies this`live
      ensures live == old(live)[h := Vm(false, old(live)[h].bound)]
    {
      live := live[h := live[h].(stepped := false)];
    }

    method Bind(h: Handle, ok: bool)
      requires h in live
      modifies this`live
      ensures live == if ok then old(live)[h := Vm(old(live)[h].stepped, true)] else old(live)
    {
      if ok {
        live := live[h := live[h].(bound := true)];
      }
    }

    method ClearBindings(h: Handle, ok: bool)
      requires h in live
      modifies this`live
      ensures live == if ok then old(live)[h := Vm(old(live)[h].stepped, false)] else old(live)
    {
      if ok {
        live := live[h := live[h].(bound := false)];
      }
    }

    method Finalize(h: Handle)
      requires h in live
      modifies this`live, this`finalized
      ensures live == old(live) - {h} && finalized == old(finalized) + {h}
    {
      live := live - {h};
      finalized := finalized + {h};
    }
  }

  datatype Controller = Cached(connection: SQLiteConnection) | Uncached(connection: SQLiteConnection) | Disposed

  /** What a call on a statement comes to. */
  datatype Outcome = Ok | Error

  class SQLiteStatement {
    const mySqlParts: Sql
    var myController: Controller
    var myHandle: Option<Handle>
    var myHasRow: bool
    var myHasBindings: bool
    var myStepped: bool
    /** The streams that are open, by parameter. */
    var myBindStreams: seq<nat>

    constructor (controller: Controller, handle: Handle, sqlParts: Sql)
      ensures mySqlParts == sqlParts && myController == controller && myHandle == Some(handle)
      ensures !myHasRow && !myHasBindings && !myStepped && myBindStreams == []
    {
      mySqlParts, myController, myHandle := sqlParts, controller, Some(handle);
      myHasRow, myHasBindings, myStepped, myBindStreams := false, false, false, [];
    }

    /** Disposed, or registered with its connection. */
    ghost predicate Valid()
      reads this
    {
      && (myHandle.None? <==> myController.Disposed?)
      && (myHandle.None? ==> myBindStreams == [])
    }

    /** The flags tell no less than the state of the compiled statement. */
    predicate FlagsCover(vm: Vm)
      reads this
    {
      && (vm.stepped ==> myStepped)
      && (vm.bound || myBindStreams != [] ==> myHasBindings)
      && (myHasRow ==> myStepped)
    }

    method Clear()
      modifies this
      ensures Valid() && myHandle.None? && !myHasRow && !myHasBindings && !myStepped
    {
      myBindStreams := [];
      myHandle := None;
      myHasRow, myHasBindings, myStepped := false, false, false;
      myController := Disposed;
    }

    /** Disposed, or registered with the connection `c`. */
    ghost predicate Alive(c: SQLiteConnection)
      reads this, c, c.db, c.myStatements
    {
      Valid() && c.Valid() && (myHandle.Some? ==> this in c.myStatements)
    }

    /** The compiled statement behind this one. */
    ghost function VmOf(c: SQLiteConnection): Vm
      reads this, c, c.db
    {
      if myHandle.Some? && myHandle.value in c.db.live then c.db.live[myHandle.value] else FRESH
    }

    /** What a call on a statement leaves as it is: its handle, the registry, the cache and the other handles. */
    twostate predicate OnlyThis(c: SQLiteConnection)
      reads this, c, c.db
    {
      && myHandle == old(myHandle)
      && c.myStatements == old(c.myStatements) && c.myStatementCache == old(c.myStatementCache)
      && c.db.finalized == old(c.db.finalized) && c.db.live.Keys == old(c.db.live.Keys)
      && forall g :: g in c.db.live && Some(g) != myHandle ==> c.db.live[g] == old(c.db.live)[g]
    }

    /** A connection stays valid when only one of its statements changes, together with its compiled statement. */
    twostate lemma StaysValid(c: SQLiteConnection)
      requires old(c.Valid()) && this in old(c.myStatements) && OnlyThis(c)
      requires c.owner == old(c.owner) && c.myOpen == old(c.myOpen) && c.myDisposed == old(c.myDisposed)
      requires myController == old(myController)
      requires forall s :: s in c.myStatements && s != this ==> unchanged(s)
      requires myHandle.Some? && myHandle.value in c.db.live && FlagsCover(c.db.live[myHandle.value])
      ensures c.Valid()
    {
      forall s | s in c.myStatements
        ensures c.Registered(s)
      {
        assert old(c.Registered(s));
      }
      forall g | g in c.owner
        ensures c.OwnerOk(g, c.owner[g])
      {
        assert old(c.OwnerOk(g, c.owner[g]));
      }
      forall sql | sql in c.myStatementCache && c.myStatementCache[sql].Some?
        ensures c.CachedOk(sql, c.myStatementCache[sql].value)
      {
        assert old(c.Registered(this));
        assert old(c.CachedOk(sql, c.myStatementCache[sql].value));
      }
    }

    lemma {:induction false} IsRegistered(c: SQLiteConnection)
      requires Alive(c) && myHandle.Some?
      ensures myHandle.value in c.db.live && FlagsCover(c.db.live[myHandle.value])
      ensures !myController.Disposed? && myController.connection == c
    {
      assert c.Registered(this);
    }

    /** A bind call other than bindNull. */
    method Bind(ghost c: SQLiteConnection, ok: bool) returns (r: Outcome)
      requires Alive(c)
      modifies this`myHasBindings, c.db`live
      ensures Alive(c) && OnlyThis(c)
      ensures r.Ok? <==> myHandle.Some? && ok
      ensures VmOf(c) == if r.Ok? then old(VmOf(c)).(bound := true) else old(VmOf(c))
      ensures myHasBindings == (old(myHasBindings) || r.Ok?)
    {
      if myHandle.None? {
        return Error;
      }
      IsRegistered(c);
      hide SQLiteConnection.Holding;
      myController.connection.db.Bind(myHandle.value, ok);
      myHasBindings := myHasBindings || ok;
      StaysValid(c);
      return if ok then Ok else Error;
    }

    /** bindStream: the flag is set although nothing is bound before the stream is closed. */
    method BindStream(ghost c: SQLiteConnection, stream: nat, hasBuffer: bool) returns (r: Outcome)
      requires Alive(c) && stream !in myBindStreams
      modifies this`myHasBindings, this`myBindStreams
      ensures Alive(c) && OnlyThis(c)
      ensures r.Ok? <==> myHandle.Some? && hasBuffer
      ensures myHasBindings == (old(myHasBindings) || r.Ok?)
      ensures myBindStreams == if r.Ok? then old(myBindStreams) + [stream] else old(myBindStreams)
    {
      if myHandle.None? || !hasBuffer {
        return Error;
      }
      IsRegistered(c);
      hide SQLiteConnection.Holding;
      myBindStreams := myBindStreams + [stream];
      myHasBindings := true;
      StaysValid(c);
      return Ok;
    }

    /** BindStream.close: binds what was written, if the stream is still open; after the statement's disposal it
        fails. */
    method CloseStream(ghost c: SQLiteConnection, stream: nat, ok: bool) returns (r: Outcome)
      requires Alive(c)
      modifies this`myBindStreams, c.db`live
      ensures Alive(c) && OnlyThis(c)
      ensures myBindStreams == Without(old(myBindStreams), stream)
      ensures r.Ok? <==> myHandle.Some? && (stream !in old(myBindStreams) || ok)
      ensures VmOf(c) == if stream in old(myBindStreams) && ok then old(VmOf(c)).(bound := true) else old(VmOf(c))
    {
      if stream !in myBindStreams {
        WithoutAbsent(myBindStreams, stream);
        return if myHandle.Some? then Ok else Error;
      }
      IsRegistered(c);
      hide SQLiteConnection.Holding;
      myController.connection.db.Bind(myHandle.value, ok);
      myBindStreams := Without(myBindStreams, stream);
      StaysValid(c);
      return if ok then Ok else Error;
    }

    /** clearBindStreams: closes the open streams or discards what was written. */
    method ClearBindStreams(ghost c: SQLiteConnection, bind: bool, ok: nat -> bool)
      requires Alive(c)
      modifies this`myBindStreams, c.db`live
      ensures Alive(c) && OnlyThis(c) && myBindStreams == []
      ensures VmOf(c) == old(VmOf(c)).(bound := old(VmOf(c)).bound || (bind && AnyBinds(old(myBindStreams), ok)))
    {
      hide SQLiteConnection.Holding;
      if bind {
        while myBindStreams != []
          invariant Alive(c) && OnlyThis(c)
          invariant VmOf(c).stepped == old(VmOf(c)).stepped
          invariant (VmOf(c).bound || AnyBinds(myBindStreams, ok))
                 == (old(VmOf(c)).bound || AnyBinds(old(myBindStreams), ok))
          decreases |myBindStreams|
        {
          var _ := CloseStream(c, myBindStreams[0], ok(myBindStreams[0]));
        }
      }
      if myHandle.Some? {
        label L:
        IsRegistered(c);
        myBindStreams := [];
        StaysValid@L(c);
      }
    }

    /** step: open streams are bound first; a statement that has been cancelled does not step. */
    method Step(ghost c: SQLiteConnection, cancelled: bool, ok: nat -> bool, result: StepResult) returns (r: Outcome)
      requires Alive(c)
      modifies this`myBindStreams, this`myStepped, this`myHasRow, c.db`live
      ensures Alive(c) && OnlyThis(c)
      ensures r.Ok? <==> myHandle.Some? && !cancelled && !result.Failed?
      ensures VmOf(c) == Vm(old(VmOf(c)).stepped || (myHandle.Some? && !cancelled),
                            old(VmOf(c)).bound || AnyBinds(old(myBindStreams), ok))
      ensures myStepped == (old(myStepped) || (myHandle.Some? && !cancelled))
      ensures myHasRow == (if r.Ok? then result.Row? else old(myHasRow)) && myBindStreams == []
    {
      if myHandle.None? {
        return Error;
      }
      ClearBindStreams(c, true, ok);
      if cancelled {
        return Error;
      }
      IsRegistered(c);
      hide SQLiteConnection.Holding;
      label L:
      myController.connection.db.Step(myHandle.value);
      myStepped := true;
      if result.Failed? {
        StaysValid@L(c);
        return Error;
      }
      myHasRow := result.Row?;
      StaysValid@L(c);
      return Ok;
    }

    /** reset */
    method Reset(ghost c: SQLiteConnection, clearBindings: bool, ok: bool) returns (r: Outcome)
      requires Alive(c)
      modifies this, c.db`live
      ensures Alive(c) && OnlyThis(c)
      ensures r.Ok? <==> myHandle.Some? && (!clearBindings || !old(myHasBindings) || ok)
      ensures VmOf(c) == Vm(false, old(VmOf(c)).bound && !(r.Ok? && clearBindings))
      ensures myHandle.Some? ==> !myStepped && !myHasRow
      ensures myBindStreams == if r.Ok? && clearBindings then [] else old(myBindStreams)
      ensures myHasBindings == (old(myHasBindings) && !(r.Ok? && clearBindings))
    {
      if myHandle.None? {
        return Error;
      }
      ResetSteps(c);
      if clearBindings && myHasBindings {
        r := ClearBindings(c, ok);
        return;
      }
      IsRegistered(c);
      return Ok;
    }

    method ResetSteps(ghost c: SQLiteConnection)
      requires Alive(c) && myHandle.Some?
      modifies this`myStepped, this`myHasRow, c.db`live
      ensures Alive(c) && OnlyThis(c) && !myStepped && !myHasRow
      ensures VmOf(c) == Vm(false, old(VmOf(c)).bound)
    {
      IsRegistered(c);
      hide SQLiteConnection.Holding;
      if myStepped {
        myController.connection.db.Reset(myHandle.value);
      }
      myHasRow := false;
      myStepped := false;
      StaysValid(c);
    }

    /** clearBindings */
    method ClearBindings(ghost c: SQLiteConnection, ok: bool) returns (r: Outcome)
      requires Alive(c)
      modifies this`myHasBindings, this`myBindStreams, c.db`live
      ensures Alive(c) && OnlyThis(c)
      ensures r.Ok? <==> myHandle.Some? && (!old(myHasBindings) || ok)
      ensures VmOf(c) == if r.Ok? then old(VmOf(c)).(bound := false) else old(VmOf(c))
      ensures myBindStreams == if r.Ok? then [] else old(myBindStreams)
      ensures myHasBindings == (old(myHasBindings) && !r.Ok?)
    {
      if myHandle.None? {
        return Error;
      }
      IsRegistered(c);
      hide SQLiteConnection.Holding;
      if myHasBindings {
        myController.connection.db.ClearBindings(myHandle.value, ok);
        if !ok {
          StaysValid(c);
          return Error;
        }
        myBindStreams := [];
      }
      myHasBindings := false;
      StaysValid(c);
      return Ok;
    }

    /** dispose: a cached statement gives its handle back, another one is finalized. */
    method Dispose(ghost c: SQLiteConnection, resetOk: bool, clearOk: bool)
      requires Alive(c)
      modifies this, c`myStatementCache, c`myStatements, c`owner, c.db
      ensures c.Valid() && Valid() && myHandle.None? && this !in c.myStatements
      ensures c.myStatements == Without(old(c.myStatements), this)
      ensures old(myHandle).None? ==> c.db.live == old(c.db.live) && c.db.finalized == old(c.db.finalized)
      ensures old(myHandle).Some? && old(myController.Cached? && c.Keeps(this, resetOk, clearOk)) ==>
                && c.myStatementCache == old(c.myStatementCache)[mySqlParts := old(myHandle)]
                && c.db.live == old(c.db.live)[old(myHandle).value := FRESH] && c.db.finalized == old(c.db.finalized)
      ensures old(myHandle).Some? && !old(myController.Cached? && c.Keeps(this, resetOk, clearOk)) ==>
                && c.db.live == old(c.db.live) - {old(myHandle).value}
                && c.db.finalized == old(c.db.finalized) + {old(myHandle).value}
    {
      if myHandle.None? {
        NotAmong(c);
        return;
      }
      assert c.Registered(this);
      match myController {
        case Cached(connection) => connection.CacheStatementHandle(this, resetOk, clearOk);
        case Uncached(connection) => connection.FinalizeStatement(this);
        case Disposed =>
      }
      Clear();
    }

    lemma {:induction false} NotAmong(c: SQLiteConnection)
      requires Alive(c) && myHandle.None?
      ensures this !in c.myStatements && Without(c.myStatements, this) == c.myStatements
    {
      assert this in c.myStatements ==> c.Registered(this);
      WithoutAbsent(c.myStatements, this);
    }
  }

  datatype StepResult = Row | Done | Failed

  /** Some stream's binding succeeds when it is closed. */
  predicate AnyBinds(streams: seq<nat>, ok: nat -> bool) {
    streams != [] && (ok(streams[0]) || AnyBinds(streams[1..], ok))
  }

  /** Who holds a handle. */
  datatype Owner = InCache(sql: Sql) | By(statement: SQLiteStatement)

  function Without<T(==)>(s: seq<T>, x: T): seq<T> {
    if s == [] then [] else if s[0] == x then s[1..] else [s[0]] + Without(s[1..], x)
  }

  lemma {:induction false} WithoutAbsent<T>(s: seq<T>, x: T)
    requires x !in s
    ensures Without(s, x) == s
  {
    if s != [] {
      WithoutAbsent(s[1..], x);
    }
  }

  /** Nothing is left of the SQL when it is trimmed. */
  predicate Blank(sql: Sql) {
    forall i :: 0 <= i < |sql| ==> sql[i] <= ' '
  }

  lemma {:induction false} BlankMeans(sql: Sql)
    ensures Blank(sql) <==> forall c :: c in sql ==> c as int <= 32
  {
    assert forall i :: 0 <= i < |sql| ==> sql[i] in sql;
  }

  class SQLiteConnection {
    const db: Native
    var myOpen: bool
    var myDisposed: bool
    var myStatementCache: map<Sql, Option<Handle>>
    var myStatements: seq<SQLiteStatement>
    ghost var owner: map<Handle, Owner>

    /** Each handle not finalized has one owner, which is the cache or a registered statement, but for those in
        `hand`; a cached handle is reset and has no bindings. */
    ghost predicate Holding(hand: set<Handle>)
      reads this, db, myStatements
    {
      && owner.Keys == db.live.Keys - hand && hand <= db.live.Keys && db.live.Keys !! db.finalized
      && (forall sql :: sql in myStatementCache && myStatementCache[sql].Some? ==>
            CachedOk(sql, myStatementCache[sql].value))
      && (forall st :: st in myStatements ==> Registered(st))
      && (forall h :: h in owner ==> OwnerOk(h, owner[h]))
      && NoneTwice(myStatements)
      && (!myOpen ==> db.live == map[] && myStatements == [] && myStatementCache == map[])
      && (myDisposed ==> !myOpen)
    }

    ghost predicate Valid()
      reads this, db, myStatements
    {
      Holding({})
    }

    ghost predicate CachedOk(sql: Sql, h: Handle)
      reads this, db
    {
      h in db.live && db.live[h] == FRESH && h in owner && owner[h] == InCache(sql)
    }

    ghost predicate Registered(st: SQLiteStatement)
      reads this, db, st
    {
      && st.myHandle.Some? && st.myHandle.value in db.live && st.FlagsCover(db.live[st.myHandle.value])
      && st.myHandle.value in owner && owner[st.myHandle.value] == By(st)
      && (st.myController == Cached(this) || st.myController == Uncached(this))
    }

    ghost predicate OwnerKnown(h: Handle)
      reads this, myStatements
    {
      h in owner ==> OwnerOk(h, owner[h])
    }

    ghost predicate OwnerOk(h: Handle, o: Owner)
      reads this, myStatements
    {
      match o
      case InCache(sql) => sql in myStatementCache && myStatementCache[sql] == Some(h)
      case By(st) => st in myStatements && st.myHandle == Some(h)
    }

    constructor (db: Native)
      requires db.live == map[]
      ensures Valid() && this.db == db && !myOpen && !myDisposed && myStatements == []
    {
      this.db := db;
      myOpen, myDisposed := false, false;
      myStatementCache, myStatements, owner := map[], [], map[];
    }

    method Open() returns (r: Outcome)
      requires Valid()
      modifies this
      ensures Valid() && myStatements == old(myStatements)
      ensures r == if old(myDisposed) || old(myOpen) then Error else Ok
      ensures myOpen <==> old(myOpen) || r.Ok?
    {
      if myDisposed || myOpen {
        return Error;
      }
      myOpen := true;
      return Ok;
    }

    predicate CacheHas(sql: Sql)
      reads this
    {
      sql in myStatementCache && myStatementCache[sql].Some?
    }

    /** prepare: the handle comes from the cache, where its entry stays without a handle, or is newly compiled, as
        `compiled` if SQLite can. */
    method Prepare(sql: Sql, cached: bool, compiled: Option<Handle>) returns (st: SQLiteStatement?)
      requires Valid()
      requires compiled.Some? ==> compiled.value !in db.live && compiled.value !in db.finalized
      modifies this`myStatementCache, this`myStatements, this`owner, db
      ensures Valid() && db.finalized == old(db.finalized)
      ensures st == null <==> !old(myOpen) || (!(cached && old(CacheHas(sql))) && (Blank(sql) || compiled.None?))
      ensures st == null ==> db.live == old(db.live) && myStatements == old(myStatements)
      ensures (forall c :: c in sql ==> c as int <= 32) ==> st == null || (cached && old(CacheHas(sql)))
      ensures st != null ==> fresh(st) && myStatements == old(myStatements) + [st] && st.mySqlParts == sql
      ensures st != null ==> st.myController == if cached then Cached(this) else Uncached(this)
      ensures myStatementCache == if cached && old(myOpen && CacheHas(sql)) then old(myStatementCache)[sql := None]
                                  else old(myStatementCache)
      ensures st != null ==> st.myHandle.Some? && st.myHandle.value in db.live && db.live[st.myHandle.value] == FRESH
      ensures st != null && cached && old(CacheHas(sql)) ==>
                st.myHandle == old(myStatementCache[sql]) && db.live == old(db.live)
      ensures st != null && !(cached && old(CacheHas(sql))) ==>
                compiled.Some? && st.myHandle == compiled && db.live == old(db.live)[compiled.value := FRESH]
    {
      st := null;
      BlankMeans(sql);
      if !myOpen {
        return;
      }
      var stmt: Option<Handle> := None;
      if cached && CacheHas(sql) {
        stmt := TakeCached(sql);
      }
      if stmt.None? {
        if Blank(sql) || compiled.None? {
          return;
        }
        CompileNew(compiled.value);
        stmt := compiled;
      }
      st := Register(stmt.value, cached, sql);
    }

    method TakeCached(sql: Sql) returns (stmt: Option<Handle>)
      requires Valid() && CacheHas(sql)
      modifies this`myStatementCache, this`owner
      ensures stmt == old(myStatementCache[sql])
      ensures myStatementCache == old(myStatementCache)[sql := None]
      ensures stmt.Some? && stmt.value in db.live && db.live[stmt.value] == FRESH && Holding({stmt.value})
    {
      stmt := myStatementCache[sql];
      assert CachedOk(sql, stmt.value);
      assert forall h :: h in owner && h != stmt.value ==> OwnerOk(h, owner[h]) && owner[h] != InCache(sql);
      myStatementCache := myStatementCache[sql := None];
      owner := owner - {stmt.value};
    }

    method CompileNew(h: Handle)
      requires Valid() && myOpen && h !in db.live && h !in db.finalized
      modifies db
      ensures Holding({h}) && db.live == old(db.live)[h := FRESH] && db.finalized == old(db.finalized)
    {
      assert forall g :: g in owner ==> OwnerOk(g, owner[g]);
      assert forall st :: st in myStatements ==> Registered(st);
      db.Prepare(h);
    }

    method Register(h: Handle, cached: bool, sql: Sql) returns (st: SQLiteStatement)
      requires Holding({h}) && myOpen && db.live[h] == FRESH
      modifies this`myStatements, this`owner
      ensures Valid() && fresh(st) && myStatements == old(myStatements) + [st]
      ensures st.mySqlParts == sql && st.myHandle == Some(h)
      ensures st.myController == if cached then Cached(this) else Uncached(this)
    {
      st := new SQLiteStatement(if cached then Cached(this) else Uncached(this), h, sql);
      assert forall s :: s in myStatements ==> Registered(s);
      assert forall g :: g in owner ==> OwnerOk(g, owner[g]);
      myStatements := myStatements + [st];
      owner := owner[h := By(st)];
    }

    method ForgetStatement(st: SQLiteStatement)
      requires Valid() && st in myStatements
      modifies this`myStatements, this`owner
      ensures st.myHandle.Some? && st.myHandle.value in db.live && st.myHandle.value !in owner
      ensures Holding({st.myHandle.value})
      ensures myStatements == Without(old(myStatements), st) && st !in myStatements
    {
      assert Registered(st);
      WithoutOne(myStatements, st);
      assert forall s :: s in myStatements ==> Registered(s);
      assert forall g :: g in owner ==> OwnerOk(g, owner[g]);
      myStatements := Without(myStatements, st);
      owner := owner - {st.myHandle.value};
    }

    /** finalizeStatement of a handle: one in hand, the handle of a cache entry, or none. All steps run on the confining
        thread, so their order is free: the cache forgets the handle first. */
    method FinalizeHandle(handle: Option<Handle>, sql: Sql)
      requires Holding(InHand(handle))
      requires handle.Some? && handle.value in owner ==> CacheHas(sql) && myStatementCache[sql] == handle
      modifies this`myStatementCache, this`owner, db
      ensures Valid() && db.finalized + db.live.Keys == old(db.finalized) + old(db.live.Keys)
      ensures handle.Some? ==>
                db.live == old(db.live) - {handle.value} && db.finalized == old(db.finalized) + {handle.value}
      ensures handle.None? ==> db.live == old(db.live) && db.finalized == old(db.finalized)
      ensures myStatementCache == if Forgets(old(myStatementCache), handle, sql) then old(myStatementCache) - {sql}
                                  else old(myStatementCache)
    {
      hide Holding, Forgets;
      ForgetCachedHandle(handle, sql);
      if handle.Some? {
        SoftFinalize(handle.value);
      }
    }

    ghost function InHand(handle: Option<Handle>): set<Handle>
      reads this
    {
      if handle.Some? && handle.value !in owner then {handle.value} else {}
    }

    static predicate Forgets(cache: map<Sql, Option<Handle>>, handle: Option<Handle>, sql: Sql) {
      sql in cache && (cache[sql].None? || cache[sql] == handle)
    }

    /** forgetCachedHandle: an entry without a handle goes, and so does the handle's own; another handle that was
        removed is put back. */
    method ForgetCachedHandle(handle: Option<Handle>, sql: Sql)
      requires Holding(InHand(handle))
      requires handle.Some? && handle.value in owner ==> CacheHas(sql) && myStatementCache[sql] == handle
      modifies this`myStatementCache, this`owner
      ensures Holding(if handle.Some? then {handle.value} else {})
      ensures handle.Some? ==> handle.value in db.live
      ensures myStatementCache == if Forgets(old(myStatementCache), handle, sql) then old(myStatementCache) - {sql}
                                  else old(myStatementCache)
    {
      if handle.Some? {
        HandleLives(handle.value, sql);
      }
      hide Holding;
      if sql in myStatementCache {
        var removedHandle := myStatementCache[sql];
        if removedHandle.None? {
          RemoveEmpty(sql, InHand(handle));
        } else if removedHandle == handle {
          RemoveCached(sql);
        }
      }
    }

    lemma {:induction false} HandleLives(h: Handle, sql: Sql)
      requires Holding(InHand(Some(h)))
      requires h in owner ==> CacheHas(sql) && myStatementCache[sql] == Some(h)
      ensures h in db.live
      ensures h !in owner ==> forall q :: q in myStatementCache ==> myStatementCache[q] != Some(h)
    {
      assert forall q :: CacheHas(q) ==> CachedOk(q, myStatementCache[q].value);
    }

    method RemoveEmpty(sql: Sql, ghost hand: set<Handle>)
      requires Holding(hand) && sql in myStatementCache && myStatementCache[sql].None?
      modifies this`myStatementCache
      ensures Holding(hand) && myStatementCache == old(myStatementCache) - {sql}
    {
      assert forall s :: s in myStatements ==> Registered(s);
      assert forall g :: g in owner ==> OwnerOk(g, owner[g]);
      myStatementCache := myStatementCache - {sql};
    }

    method RemoveCached(sql: Sql)
      requires Holding({}) && CacheHas(sql)
      modifies this`myStatementCache, this`owner
      ensures Holding({old(myStatementCache[sql].value)}) && myStatementCache == old(myStatementCache) - {sql}
    {
      var h := myStatementCache[sql].value;
      assert CachedOk(sql, h);
      assert forall s :: s in myStatements ==> Registered(s);
      assert forall g :: g in owner ==> OwnerOk(g, owner[g]);
      myStatementCache := myStatementCache - {sql};
      owner := owner - {h};
    }

    method SoftFinalize(h: Handle)
      requires h in db.live && Holding({h})
      modifies db
      ensures Valid() && db.live == old(db.live) - {h} && db.finalized == old(db.finalized) + {h}
      ensures db.finalized + db.live.Keys == old(db.finalized) + old(db.live.Keys)
    {
      assert forall s :: s in myStatements ==> Registered(s);
      assert forall g :: g in owner ==> OwnerOk(g, owner[g]);
      db.Finalize(h);
    }

    /** finalizeStatement of a statement; here the registry forgets the statement first. */
    method FinalizeStatement(st: SQLiteStatement)
      requires Valid() && st in myStatements
      modifies this`myStatementCache, this`myStatements, this`owner, db, st
      ensures Valid() && st.Valid() && st.myHandle.None?
      ensures myStatements == Without(old(myStatements), st) && st !in myStatements
      ensures old(st.myHandle).Some?
      ensures db.live == old(db.live) - {old(st.myHandle).value}
      ensures db.finalized == old(db.finalized) + {old(st.myHandle).value}
      ensures myStatementCache == if Forgets(old(myStatementCache), old(st.myHandle), st.mySqlParts)
                                  then old(myStatementCache) - {st.mySqlParts} else old(myStatementCache)
    {
      var handle := st.myHandle;
      ForgetStatement(st);
      st.Clear();
      FinalizeHandle(handle, st.mySqlParts);
    }

    /** The handle of the statement can be cleaned, and the cache has no other one for the same SQL. */
    predicate Keeps(st: SQLiteStatement, resetOk: bool, clearOk: bool)
      reads this, st
    {
      (!st.myStepped || resetOk) && (!st.myHasBindings || clearOk) && !CacheHas(st.mySqlParts)
    }

    /** cacheStatementHandle: the handle is reset and cleared and goes to the cache, unless that failed or the cache has
        another one for the same SQL; then it is finalized. The return codes of SQLite are the parameters. */
    method CacheStatementHandle(st: SQLiteStatement, resetOk: bool, clearOk: bool)
      requires Valid() && st in myStatements
      modifies this`myStatementCache, this`myStatements, this`owner, db
      ensures Valid() && st.myHandle.Some?
      ensures myStatements == Without(old(myStatements), st) && st !in myStatements
      ensures st.myHandle.value in db.live <==>
                && (st.myStepped ==> resetOk) && (st.myHasBindings ==> clearOk)
                && (st.mySqlParts in old(myStatementCache) ==> old(myStatementCache)[st.mySqlParts] == None)
      ensures st.myHandle.value in db.live ==>
                myStatementCache == old(myStatementCache)[st.mySqlParts := st.myHandle]
                && db.live[st.myHandle.value] == Vm(false, false)
      ensures forall q :: q in old(myStatementCache) && q != st.mySqlParts ==>
                q in myStatementCache && myStatementCache[q] == old(myStatementCache)[q]
      ensures var h := st.myHandle.value;
              if old(Keeps(st, resetOk, clearOk))
              then && myStatementCache == old(myStatementCache)[st.mySqlParts := Some(h)]
                   && db.live == old(db.live)[h := FRESH] && db.finalized == old(db.finalized)
              else && db.live == old(db.live) - {h} && db.finalized == old(db.finalized) + {h}
                   && myStatementCache == if Forgets(old(myStatementCache), Some(h), st.mySqlParts)
                                          then old(myStatementCache) - {st.mySqlParts} else old(myStatementCache)
    {
      hide Holding;
      var finalize := CleanUp(st, resetOk, clearOk);
      ForgetStatement(st);
      var handle, sql := st.myHandle.value, st.mySqlParts;
      HandleLives(handle, sql);
      if !finalize && CacheHas(sql) {
        // the copy in the cache prevails
        finalize := true;
      }
      if finalize {
        FinalizeHandle(Some(handle), sql);
      } else {
        PutInCache(handle, sql);
      }
    }

    method CleanUp(st: SQLiteStatement, resetOk: bool, clearOk: bool) returns (failed: bool)
      requires Valid() && st in myStatements
      modifies db
      ensures Valid() && st.myHandle.Some? && st.myHandle.value in old(db.live) && db.finalized == old(db.finalized)
      ensures failed <==> (st.myStepped && !resetOk) || (st.myHasBindings && !clearOk)
      ensures db.live.Keys == old(db.live.Keys)
      ensures forall h :: h in db.live && h != st.myHandle.value ==> db.live[h] == old(db.live)[h]
      ensures !failed ==> db.live == old(db.live)[st.myHandle.value := FRESH]
    {
      st.IsRegistered(this);
      hide Holding;
      var handle := st.myHandle.value;
      if st.myStepped {
        db.Reset(handle);
        if !resetOk {
          st.StaysValid(this);
          return true;
        }
      }
      if st.myHasBindings {
        db.ClearBindings(handle, clearOk);
      }
      st.StaysValid(this);
      return st.myHasBindings && !clearOk;
    }

    method PutInCache(h: Handle, sql: Sql)
      requires h in db.live && Holding({h}) && db.live[h] == FRESH && !CacheHas(sql)
      modifies this`myStatementCache, this`owner
      ensures Valid() && myStatementCache == old(myStatementCache)[sql := Some(h)]
    {
      assert forall s :: s in myStatements ==> Registered(s);
      assert forall g :: g in owner ==> OwnerOk(g, owner[g]);
      myStatementCache := myStatementCache[sql := Some(h)];
      owner := owner[h := InCache(sql)];
    }

    /** finalizeStatements on the confining thread: first the registered statements, then the cache. */
    method FinalizeStatements()
      requires Valid()
      modifies this`myStatementCache, this`myStatements, this`owner, db, myStatements
      ensures Valid() && myStatements == [] && myStatementCache == map[]
      ensures db.live == map[] && db.finalized == old(db.finalized) + old(db.live.Keys)
      ensures forall st :: st in old(myStatements) ==> st.Valid() && st.myHandle.None?
    {
      FinalizeRegistered();
      FinalizeCache();
    }

    /** The loop over the cache, whose entries may have no handle. */
    method FinalizeCache()
      requires Valid() && myStatements == []
      modifies this`myStatementCache, this`owner, db
      ensures Valid() && myStatementCache == map[] && db.live == map[]
      ensures db.finalized == old(db.finalized) + old(db.live.Keys)
    {
      hide Holding;
      while myStatementCache != map[]
        invariant Valid() && myStatements == []
        invariant db.finalized + db.live.Keys == old(db.finalized) + old(db.live.Keys)
        decreases |myStatementCache|
      {
        assert myStatementCache.Keys != {};
        var sql :| sql in myStatementCache;
        if CacheHas(sql) {
          EntryOk(sql);
        }
        ghost var before := myStatementCache;
        FinalizeHandle(myStatementCache[sql], sql);
        SmallerCache(before, sql);
      }
      NothingOwned();
    }

    lemma {:induction false} EntryOk(sql: Sql)
      requires Valid() && CacheHas(sql)
      ensures myStatementCache[sql].value in owner && myStatementCache[sql].value in db.live
    {
      assert CachedOk(sql, myStatementCache[sql].value);
    }

    lemma {:induction false} Known(h: Handle)
      requires Valid()
      ensures OwnerKnown(h)
    {
    }

    lemma {:induction false} NothingOwned()
      requires Valid() && myStatements == [] && myStatementCache == map[]
      ensures db.live == map[]
    {
      forall h: Handle
        ensures h !in owner
      {
        Known(h);
      }
      assert db.live.Keys == owner.Keys == {};
    }

    /** The loops over copies of the registry. */
    method FinalizeRegistered()
      requires Valid()
      modifies this`myStatementCache, this`myStatements, this`owner, db, myStatements
      ensures Valid() && myStatements == []
      ensures db.finalized + db.live.Keys == old(db.finalized) + old(db.live.Keys)
      ensures forall st :: st in old(myStatements) ==> st.Valid() && st.myHandle.None?
    {
      hide Holding;
      ghost var all := myStatements;
      while myStatements != []
        invariant Valid() && (myStatements == all || myStatements == [])
        invariant db.finalized + db.live.Keys == old(db.finalized) + old(db.live.Keys)
        invariant forall st :: st in all && st !in myStatements ==> st.Valid() && st.myHandle.None?
        decreases |myStatements|
      {
        FinalizeCopy(myStatements);
      }
    }

    method FinalizeCopy(statements: seq<SQLiteStatement>)
      requires Valid() && statements == myStatements
      modifies this`myStatementCache, this`myStatements, this`owner, db, statements
      ensures Valid() && myStatements == []
      ensures db.finalized + db.live.Keys == old(db.finalized) + old(db.live.Keys)
      ensures forall st :: st in statements ==> st.Valid() && st.myHandle.None?
    {
      hide Holding;
      assert statements[0..] == statements;
      for i := 0 to |statements|
        invariant Valid() && myStatements == statements[i..]
        invariant db.finalized + db.live.Keys == old(db.finalized) + old(db.live.Keys)
        invariant forall st :: st in statements && st !in myStatements ==> st.Valid() && st.myHandle.None?
      {
        assert statements[i..][0] == statements[i] && statements[i..][1..] == statements[i + 1..];
        Finalizes(statements[i]);
        FinalizeStatement(statements[i]);
      }
    }

    lemma {:induction false} OthersRegistered(st: SQLiteStatement)
      requires Valid()
      ensures st !in Without(myStatements, st)
      ensures forall i :: 0 <= i < |Without(myStatements, st)| ==> Without(myStatements, st)[i] in myStatements
      ensures forall i :: 0 <= i < |myStatements| && myStatements[i] != st ==>
                myStatements[i] in Without(myStatements, st)
    {
      WithoutOne(myStatements, st);
    }

    lemma {:induction false} Finalizes(st: SQLiteStatement)
      requires Valid() && st in myStatements
      ensures st.myHandle.Some? && st.myHandle.value in db.live
    {
      assert Registered(st);
    }

    /** dispose: from any thread but the confining one it does nothing. */
    method Dispose(confining: bool)
      requires Valid()
      modifies this, db, myStatements
      ensures Valid()
      ensures confining ==>
                && myDisposed && !myOpen && myStatements == [] && myStatementCache == map[]
                && db.live == map[] && db.finalized == old(db.finalized) + old(db.live.Keys)
                && forall st :: st in old(myStatements) ==> st.Valid() && st.myHandle.None?
      ensures !confining ==> myDisposed == old(myDisposed) && myOpen == old(myOpen) && db.live == old(db.live)
                             && myStatements == old(myStatements) && myStatementCache == old(myStatementCache)
    {
      if myDisposed || !confining {
        return;
      }
      if myOpen {
        FinalizeStatements();
      }
      myDisposed, myOpen := true, false;
    }
  }

  /** A cached statement that is disposed of clean, or can be cleaned, gives its handle to the next statement for the
      same SQL; nothing is compiled and nothing is finalized. */
  method DisposeThenPrepare(c: SQLiteConnection, st: SQLiteStatement, compiled: Option<Handle>)
    returns (again: SQLiteStatement?)
    requires st.Alive(c) && st.myHandle.Some? && st.myController == Cached(c) && c.myOpen
    requires st.mySqlParts in c.myStatementCache ==> c.myStatementCache[st.mySqlParts] == None
    requires compiled.Some? ==> compiled.value !in c.db.live && compiled.value !in c.db.finalized
    modifies st, c`myStatementCache, c`myStatements, c`owner, c.db
    ensures c.Valid() && again != null && again.myHandle == old(st.myHandle) && again.mySqlParts == st.mySqlParts
    ensures c.db.live.Keys == old(c.db.live.Keys) && c.db.finalized == old(c.db.finalized)
    ensures c.db.live[again.myHandle.value] == Vm(false, false)
  {
    st.IsRegistered(c);
    hide SQLiteConnection.Holding;
    st.Dispose(c, true, true);
    again := c.Prepare(st.mySqlParts, true, compiled);
  }

  lemma {:induction false} SmallerCache(cache: map<Sql, Option<Handle>>, sql: Sql)
    requires sql in cache
    ensures |cache - {sql}| < |cache|
  {
    assert cache == (cache - {sql})[sql := cache[sql]];
  }

  lemma {:induction false} WithoutOne(s: seq<SQLiteStatement>, x: SQLiteStatement)
    requires NoneTwice(s)
    ensures NoneTwice(Without(s, x)) && x !in Without(s, x)
    ensures forall i :: 0 <= i < |Without(s, x)| ==> Without(s, x)[i] in s
    ensures forall i :: 0 <= i < |s| && s[i] != x ==> s[i] in Without(s, x)
    ensures |Without(s, x)| == |s| - if x in s then 1 else 0
  {
    if s != [] {
      var rest := Without(s[1..], x);
      WithoutOne(s[1..], x);
      assert s[0] !in rest;
      StillNoneTwice(s[0], rest);
    }
  }

  lemma {:induction false} StillNoneTwice(x: SQLiteStatement, rest: seq<SQLiteStatement>)
    requires NoneTwice(rest) && x !in rest
    ensures NoneTwice([x] + rest)
  {
    var s := [x] + rest;
    assert forall j :: 0 < j < |s| ==> s[j] == rest[j - 1] && rest[j - 1] in rest;
  }

  // ---- whole runs ----

  /** A call on the connection, or on the `i`-th statement it has prepared, with SQLite's answers. */
  datatype Call =
    | CallPrepare(sql: Sql, cached: bool, compiles: bool)
    | CallBind(i: nat, ok: bool)
    | CallBindStream(i: nat, stream: nat, hasBuffer: bool)
    | CallClose(i: nat, stream: nat, ok: bool)
    | CallStep(i: nat, cancelled: bool, oks: nat -> bool, result: StepResult)
    | CallReset(i: nat, clearBindings: bool, ok: bool)
    | CallClear(i: nat, ok: bool)
    | CallDispose(i: nat, resetOk: bool, clearOk: bool)

  /** The statements prepared so far are disposed or registered, and no other is registered. */
  ghost predicate Tracks(c: SQLiteConnection, all: seq<SQLiteStatement>)
    reads c, c.db, c.myStatements, all
  {
    && c.Valid()
    && (forall st :: st in all ==> st.Valid() && (st.myHandle.Some? ==> st in c.myStatements))
    && (forall st :: st in c.myStatements ==> st in all)
  }

  ghost function Upto(n: nat): (s: set<Handle>)
    ensures forall h: Handle :: h in s <==> h < n
  {
    if n == 0 then {} else Upto(n - 1) + {n - 1}
  }

  /** A prepare that SQLite compiles, unless the cache has the handle. */
  predicate MayCompile(call: Call) {
    call.CallPrepare? && call.compiles && !Blank(call.sql)
  }

  /** The calls that may compile, and those of them that do not ask the cache. */
  function Compiling(calls: seq<Call>): (n: nat)
    ensures n <= |calls|
  {
    if calls == [] then 0
    else Compiling(calls[..|calls| - 1]) + if MayCompile(calls[|calls| - 1]) then 1 else 0
  }

  function Uncaching(calls: seq<Call>): (n: nat)
    ensures n <= Compiling(calls)
  {
    if calls == [] then 0
    else
      var last := calls[|calls| - 1];
      Uncaching(calls[..|calls| - 1]) + if MayCompile(last) && !last.cached then 1 else 0
  }

  /** Any calls in any order, ended by the disposal of the connection: every handle ever compiled has been finalized,
      each once, and every statement is disposed. Each prepare that does not ask the cache compiled one, if SQLite
      could; of the others only some did. */
  method Run(c: SQLiteConnection, calls: seq<Call>) returns (compiled: nat, all: seq<SQLiteStatement>)
    requires c.Valid() && !c.myDisposed && c.myStatements == [] && c.db.live == map[] && c.db.finalized == {}
    modifies c, c.db
    ensures c.db.live == map[] && c.db.finalized == Upto(compiled)
    ensures Uncaching(calls) <= compiled <= Compiling(calls)
    ensures forall st :: st in all ==> st.myHandle.None?
    ensures c.myDisposed && c.myStatements == [] && c.myStatementCache == map[]
  {
    var _ := c.Open();
    compiled, all := 0, [];
    for k := 0 to |calls|
      invariant Tracks(c, all) && forall i :: 0 <= i < |all| ==> fresh(all[i])
      invariant c.myOpen && c.db.live.Keys + c.db.finalized == Upto(compiled)
      invariant Uncaching(calls[..k]) <= compiled <= Compiling(calls[..k])
    {
      assert calls[..k + 1][..k] == calls[..k];
      compiled, all := Perform(c, all, compiled, calls[k]);
    }
    assert forall i :: 0 <= i < |c.myStatements| ==> c.myStatements[i] in all;
    assert calls[..|calls|] == calls;
    c.Dispose(true);
  }

  /** The call compiles a handle. */
  predicate Compiles(c: SQLiteConnection, call: Call)
    reads c
  {
    c.myOpen && MayCompile(call) && !(call.cached && c.CacheHas(call.sql))
  }

  method Perform(c: SQLiteConnection, all0: seq<SQLiteStatement>, compiled0: nat, call: Call)
    returns (compiled: nat, all: seq<SQLiteStatement>)
    requires Tracks(c, all0) && c.db.live.Keys + c.db.finalized == Upto(compiled0)
    modifies c, c.db, all0
    ensures Tracks(c, all) && c.db.live.Keys + c.db.finalized == Upto(compiled) && c.myOpen == old(c.myOpen)
    ensures compiled == compiled0 + if old(Compiles(c, call)) then 1 else 0
    ensures all0 <= all && forall i :: |all0| <= i < |all| ==> fresh(all[i])
    ensures !call.CallPrepare? && call.i < |all0| && old(all0[call.i].myHandle).Some? ==>
              var st := all0[call.i];
              TakesEffect(call, old(st.myBindStreams), old(st.VmOf(c)), st.VmOf(c), st.myHandle.None?, st.myBindStreams)
  {
    hide SQLiteConnection.Holding, TakesEffect;
    compiled, all := compiled0, all0;
    if call.CallPrepare? {
      compiled, all := PrepareNext(c, all, compiled, call.sql, call.cached, call.compiles);
    } else if call.i < |all| {
      OnStatement(c, all, all[call.i], call);
    }
  }

  /** What a call on a statement that is not disposed makes of the compiled statement behind it. */
  ghost predicate TakesEffect(call: Call, streams: seq<nat>, was: Vm, now: Vm, disposed: bool, held: seq<nat>) {
    match call
    case CallPrepare(_, _, _) => true
    case CallBind(_, ok) => !disposed && now == Vm(was.stepped, was.bound || ok)
    case CallBindStream(_, stream, hasBuffer) =>
      !disposed && now == was && (hasBuffer ==> stream in held) && (!hasBuffer ==> held == streams)
    case CallClose(_, stream, ok) =>
      !disposed && now == Vm(was.stepped, was.bound || (stream in streams && ok)) && held == Without(streams, stream)
    case CallStep(_, cancelled, oks, _) =>
      !disposed && now == Vm(was.stepped || !cancelled, was.bound || AnyBinds(streams, oks)) && held == []
    case CallReset(_, clearBindings, ok) =>
      !disposed && !now.stepped && (clearBindings && ok ==> !now.bound && held == [])
      && (!clearBindings ==> now.bound == was.bound && held == streams)
    case CallClear(_, ok) => !disposed && now.stepped == was.stepped && (ok ==> !now.bound && held == [])
    case CallDispose(_, _, _) => disposed
  }

  method OnStatement(c: SQLiteConnection, all: seq<SQLiteStatement>, st: SQLiteStatement, call: Call)
    requires Tracks(c, all) && st in all && !call.CallPrepare?
    modifies c`myStatementCache, c`myStatements, c`owner, c.db, st
    ensures Tracks(c, all) && c.db.live.Keys + c.db.finalized == old(c.db.live.Keys + c.db.finalized)
    ensures old(st.myHandle).Some? ==>
              TakesEffect(call, old(st.myBindStreams), old(st.VmOf(c)), st.VmOf(c), st.myHandle.None?, st.myBindStreams)
  {
    hide SQLiteConnection.Holding;
    match call {
      case CallBind(_, ok) => var _ := st.Bind(c, ok);
      case CallBindStream(_, stream, hasBuffer) =>
        if stream !in st.myBindStreams {
          var _ := st.BindStream(c, stream, hasBuffer);
        }
      case CallClose(_, stream, ok) => var _ := st.CloseStream(c, stream, ok);
      case CallStep(_, cancelled, oks, result) => var _ := st.Step(c, cancelled, oks, result);
      case CallReset(_, clearBindings, ok) => var _ := st.Reset(c, clearBindings, ok);
      case CallClear(_, ok) => var _ := st.ClearBindings(c, ok);
      case CallDispose(_, resetOk, clearOk) => DisposeTracked(c, all, st, resetOk, clearOk);
    }
  }

  method PrepareNext(c: SQLiteConnection, all0: seq<SQLiteStatement>, compiled0: nat, sql: Sql, cached: bool,
                     compiles: bool)
    returns (compiled: nat, all: seq<SQLiteStatement>)
    requires Tracks(c, all0) && c.db.live.Keys + c.db.finalized == Upto(compiled0)
    modifies c, c.db
    ensures Tracks(c, all) && c.db.live.Keys + c.db.finalized == Upto(compiled) && c.myOpen == old(c.myOpen)
    ensures compiled == compiled0 + if old(Compiles(c, CallPrepare(sql, cached, compiles))) then 1 else 0
    ensures all0 <= all && forall i :: |all0| <= i < |all| ==> fresh(all[i])
  {
    hide SQLiteConnection.Holding;
    compiled, all := compiled0, all0;
    assert compiled !in c.db.live.Keys + c.db.finalized;
    ghost var before := c.db.live.Keys;
    var st := c.Prepare(sql, cached, if compiles then Some(compiled) else None);
    if st != null {
      all := all + [st];
      if st.myHandle == Some(compiled) {
        assert compiled !in before;
        assert c.db.live.Keys == before + {compiled};
        compiled := compiled + 1;
      } else {
        assert c.db.live.Keys == before;
      }
    }
  }

  method DisposeTracked(c: SQLiteConnection, all: seq<SQLiteStatement>, st: SQLiteStatement, resetOk: bool,
                        clearOk: bool)
    requires Tracks(c, all) && st in all
    modifies c`myStatementCache, c`myStatements, c`owner, c.db, st
    ensures Tracks(c, all) && c.db.live.Keys + c.db.finalized == old(c.db.live.Keys + c.db.finalized)
    ensures st.myHandle.None?
  {
    if st.myHandle.Some? {
      st.IsRegistered(c);
    }
    c.OthersRegistered(st);
    hide SQLiteConnection.Holding;
    st.Dispose(c, resetOk, clearOk);
  }
}

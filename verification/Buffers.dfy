/** The pool of direct buffers, their use counts shared with native code, and the streams that write into them. */
module Buffers {
  import opened Common

  type byte = bv8

  const CONTROL_BYTES: nat := 2
  const SMALLEST_SIZE: nat := 1024
  const LARGEST_SIZE: nat := 0x4000_0000
  const MAX_POOLED: nat := 0x10_0000

  /** A DirectBuffer together with its native block: the control bytes `busy` and `dispose`, and the data. */
  class DirectBuffer {
    const size: nat
    var attached: bool
    var busy: nat
    var dispose: int
    var data: seq<byte>
    var position: nat
    ghost var freed: bool

    /** wrapper_alloc */
    constructor (size: nat)
      requires size >= CONTROL_BYTES
      ensures this.size == size && attached && busy == 0 && dispose == 0 && !freed
      ensures |data| == size - CONTROL_BYTES && position == 0
    {
      this.size := size;
      attached, busy, dispose, freed := true, 0, 0, false;
      data, position := seq(size - CONTROL_BYTES, _ => 0), 0;
    }

    function Capacity(): int {
      size - CONTROL_BYTES
    }

    predicate IsValid()
      reads this
    {
      attached && dispose == 0
    }

    predicate IsUsed()
      reads this
    {
      attached && busy != 0
    }
  }

  function TotalCapacity(bs: seq<DirectBuffer>): int {
    if bs == [] then 0 else TotalCapacity(bs[..|bs| - 1]) + bs[|bs| - 1].Capacity()
  }

  predicate Ascending(bs: seq<DirectBuffer>) {
    forall i, j :: 0 <= i < j < |bs| ==> bs[i].Capacity() <= bs[j].Capacity()
  }

  function Inserted(bs: seq<DirectBuffer>, i: nat, b: DirectBuffer): seq<DirectBuffer>
    requires i <= |bs|
  {
    bs[..i] + [b] + bs[i..]
  }

  lemma {:induction false} InsertedTotal(bs: seq<DirectBuffer>, i: nat, b: DirectBuffer)
    requires i <= |bs|
    ensures TotalCapacity(Inserted(bs, i, b)) == TotalCapacity(bs) + b.Capacity()
  {
    var s := Inserted(bs, i, b);
    var n := |bs|;
    if i == n {
      assert s[..n] == bs;
    } else {
      InsertedTotal(bs[..n - 1], i, b);
      assert s[..n] == Inserted(bs[..n - 1], i, b);
    }
  }

  lemma {:induction false} PartOfTotal(bs: seq<DirectBuffer>, b: DirectBuffer)
    requires b in bs && forall i :: 0 <= i < |bs| ==> bs[i].Capacity() >= 0
    ensures 0 <= b.Capacity() <= TotalCapacity(bs)
  {
    var n := |bs| - 1;
    if b in bs[..n] {
      PartOfTotal(bs[..n], b);
    } else {
      TotalNotNegative(bs[..n]);
    }
  }

  lemma {:induction false} TotalNotNegative(bs: seq<DirectBuffer>)
    requires forall i :: 0 <= i < |bs| ==> bs[i].Capacity() >= 0
    ensures TotalCapacity(bs) >= 0
  {
    if bs != [] {
      TotalNotNegative(bs[..|bs| - 1]);
    }
  }

  lemma {:induction false} InsertedInOrder(bs: seq<DirectBuffer>, i: nat, b: DirectBuffer)
    requires Ascending(bs) && NoneTwice(bs) && i <= |bs| && b !in bs
    requires forall j :: 0 <= j < i ==> bs[j].Capacity() <= b.Capacity()
    requires i < |bs| ==> b.Capacity() < bs[i].Capacity()
    ensures Ascending(Inserted(bs, i, b)) && NoneTwice(Inserted(bs, i, b))
    ensures forall c :: c in Inserted(bs, i, b) <==> c in bs || c == b
  {
    var s := Inserted(bs, i, b);
    assert s[i] == b;
    forall j, k | 0 <= j < k < |s|
      ensures s[j].Capacity() <= s[k].Capacity() && s[j] != s[k]
    {
      InsertedPair(bs, i, b, j, k);
    }
    forall c | c in bs
      ensures c in s
    {
      var j :| 0 <= j < |bs| && bs[j] == c;
      assert s[if j < i then j else j + 1] == c;
    }
  }

  lemma {:induction false} InsertedPair(bs: seq<DirectBuffer>, i: nat, b: DirectBuffer, j: nat, k: nat)
    requires Ascending(bs) && NoneTwice(bs) && i <= |bs| && b !in bs && j < k <= |bs|
    requires forall q :: 0 <= q < i ==> bs[q].Capacity() <= b.Capacity()
    requires i < |bs| ==> b.Capacity() < bs[i].Capacity()
    ensures Inserted(bs, i, b)[j].Capacity() <= Inserted(bs, i, b)[k].Capacity()
    ensures Inserted(bs, i, b)[j] != Inserted(bs, i, b)[k]
  {
    if i < k {
      assert bs[i].Capacity() <= bs[k - 1].Capacity();
    }
  }

  /** The pool: what SQLiteConnection keeps of the buffers. `all` are the buffers ever allocated, `held` those an open
      stream writes into, `bound` those SQLite has been given, with the bytes it was given; `log` is all it was ever
      given. */
  class BufferPool {
    var myBuffers: seq<DirectBuffer>
    var myBuffersTotalSize: int
    ghost var all: set<DirectBuffer>
    ghost var held: set<DirectBuffer>
    ghost var bound: map<DirectBuffer, seq<byte>>
    ghost var log: seq<seq<byte>>

    ghost predicate Valid()
      reads this, all
    {
      && Ascending(myBuffers) && NoneTwice(myBuffers)
      && myBuffersTotalSize == TotalCapacity(myBuffers) < MAX_POOLED
      && (forall b :: b in myBuffers ==> b in all)
      && held <= all && bound.Keys <= all
      && (forall b :: b in all ==> BufferOk(b))
    }

    ghost function Uses(b: DirectBuffer): nat
      reads this
    {
      (if b in held then 1 else 0) + (if b in bound then 1 else 0)
    }

    /** The use count is the number of holders, so at most 2; memory is freed when, and only when, neither a holder nor
        the pool has the buffer; what SQLite was given stays as it was given. */
    ghost predicate BufferOk(b: DirectBuffer)
      reads this, b
    {
      && b.size >= SMALLEST_SIZE && |b.data| == b.Capacity() && b.position <= |b.data|
      && (b.freed ==> Uses(b) == 0 && b !in myBuffers)
      && (!b.freed ==> b.busy == Uses(b))
      && (b in held || b in myBuffers ==> b.IsValid())
      && (b !in held && b !in myBuffers && !b.freed ==> b in bound && b.dispose == 1)
      && (b in bound ==> bound[b] <= b.data)
    }

    constructor ()
      ensures Valid() && all == {} && held == {} && bound == map[] && log == [] && myBuffers == []
    {
      myBuffers, myBuffersTotalSize := [], 0;
      all, held, bound, log := {}, {}, map[], [];
    }

    /** wrapper_free on a buffer whose holder is gone */
    method WrapperFree(b: DirectBuffer)
      requires !b.freed
      modifies b
      ensures !b.attached && b.busy == old(b.busy) && b.data == old(b.data) && b.position == old(b.position)
      ensures b.freed <==> b.busy == 0
      ensures b.busy > 0 ==> b.dispose == 1
    {
      b.attached := false;
      if b.busy == 0 {
        b.dispose := -1;
        b.freed := true;
      } else {
        b.dispose := 1;
      }
    }

    method FreeBuffer(b: DirectBuffer)
      requires Valid() && b in held
      modifies this`held, b
      ensures Valid() && held == old(held) - {b}
      ensures b in bound ==> !b.freed
      ensures b.data == old(b.data) && b.position == old(b.position)
      ensures b !in bound ==> (b.freed <==> b !in myBuffers)
    {
      hide Ascending, NoneTwice, TotalCapacity;
      assert BufferOk(b);
      assert forall c :: c in all ==> BufferOk(c);
      if b.busy > 0 {
        b.busy := b.busy - 1;
      }
      held := held - {b};
      if b !in myBuffers {
        WrapperFree(b);
      }
    }

    /** The least power of two from 1024 on that has room for the request and the control bytes. */
    static ghost predicate IsSizeFor(size: nat, minimumSize: int) {
      && (exists e: nat :: e <= 30 && size == Pow2(e))
      && size >= minimumSize + CONTROL_BYTES
      && (size == SMALLEST_SIZE || size < 2 * (minimumSize + CONTROL_BYTES))
    }

    /** The most a request can be given: a buffer from the pool is smaller than the pool may be, a new one less than
        twice the request. */
    static function MaxCapacity(minimumSize: int): nat {
      if 2 * (minimumSize + CONTROL_BYTES) > MAX_POOLED then 2 * (minimumSize + CONTROL_BYTES) else MAX_POOLED
    }

    /** A pooled buffer that can serve a request of that size. */
    predicate Suits(b: DirectBuffer, size: int)
      reads b
    {
      !b.IsUsed() && b.Capacity() >= size - CONTROL_BYTES
    }

    /** The size asked of wrapper_alloc. */
    method SizeFor(minimumSize: int) returns (size: nat)
      requires minimumSize + CONTROL_BYTES <= LARGEST_SIZE
      ensures SMALLEST_SIZE <= size <= LARGEST_SIZE && IsSizeFor(size, minimumSize)
      ensures 1024 <= size <= 0x4000_0000 && minimumSize + 2 <= size && (size == 1024 || size < 2 * (minimumSize + 2))
    {
      size := SMALLEST_SIZE;
      ghost var e := 10;
      Powers();
      while size < minimumSize + CONTROL_BYTES
        invariant 10 <= e <= 30 && size == Pow2(e)
        invariant size == SMALLEST_SIZE || size < 2 * (minimumSize + CONTROL_BYTES)
        decreases 30 - e
      {
        Ascends(e, 30);
        size := size * 2;
        e := e + 1;
      }
      Ascends(10, e);
      Ascends(e, 30);
    }

    /** allocateBuffer: the smallest pooled buffer that is large enough and not in use, or a new one, which joins the
        pool if that stays small. `canAllocate` says whether the allocation succeeds, should one be needed. */
    method AllocateBuffer(minimumSize: int, canAllocate: bool) returns (buffer: DirectBuffer?, ghost size: nat)
      requires Valid() && minimumSize + CONTROL_BYTES <= LARGEST_SIZE
      modifies this, all
      ensures Valid() && old(all) <= all && bound == old(bound) && log == old(log) && fresh(all - old(all))
      ensures buffer == null ==> held == old(held) && !canAllocate
      ensures buffer != null ==>
                && buffer in held && held == old(held) + {buffer} && all == old(all) + {buffer}
                && buffer !in old(held) && buffer !in bound
                && buffer.Capacity() >= minimumSize && buffer.position == 0 && |buffer.data| == buffer.Capacity()
      ensures forall b :: b in old(all) && b != buffer ==> unchanged(b)
      ensures IsSizeFor(size, minimumSize)
      ensures buffer != null ==> buffer.Capacity() <= MaxCapacity(minimumSize)
      ensures minimumSize + 2 <= size && (size == 1024 || size < 2 * (minimumSize + 2))
      ensures forall b :: b in old(myBuffers) && old(b.busy) == 0 && b.size >= size ==>
                buffer != null && buffer in old(myBuffers) && old(buffer.busy) == 0 && buffer.size <= b.size
      ensures forall b :: b in old(myBuffers) && old(Suits(b, size)) ==>
                && buffer != null && buffer in old(myBuffers) && old(Suits(buffer, size))
                && buffer.Capacity() <= b.Capacity()
      ensures buffer == null || buffer in old(all) ==> myBuffers == old(myBuffers)
      ensures buffer != null && buffer in old(all) ==> buffer in old(myBuffers) && old(Suits(buffer, size))
      ensures buffer != null && buffer !in old(all) ==>
                && fresh(buffer) && buffer.size == size
                && if old(myBuffersTotalSize) + size < 0x10_0000
                   then exists i :: 0 <= i <= |old(myBuffers)| && myBuffers == Inserted(old(myBuffers), i, buffer)
                   else myBuffers == old(myBuffers)
    {
      hide Ascending, NoneTwice, TotalCapacity, BufferOk;
      var newSize := SizeFor(minimumSize);
      size := newSize;
      buffer := Pooled(newSize - CONTROL_BYTES);
      if buffer != null {
        return;
      }
      if !canAllocate {
        return;
      }
      buffer := new DirectBuffer(newSize);
      buffer.busy := buffer.busy + 1;
      Adopt(buffer);
      if myBuffersTotalSize + newSize < MAX_POOLED {
        Pool(buffer);
      }
    }

    ghost method Adopt(buffer: DirectBuffer)
      requires Valid() && buffer !in all && IsNew(buffer)
      modifies this`all, this`held
      ensures Valid() && held == old(held) + {buffer} && all == old(all) + {buffer}
    {
      assert forall b :: b in all ==> BufferOk(b);
      all, held := all + {buffer}, held + {buffer};
    }

    ghost predicate IsNew(b: DirectBuffer)
      reads b
    {
      && b.size >= SMALLEST_SIZE && b.IsValid() && b.busy == 1 && !b.freed
      && |b.data| == b.Capacity() && b.position == 0
    }

    /** The search of the pool, from the largest buffer down. No pooled buffer is ever invalid, so none is removed. */
    method Pooled(payloadSize: nat) returns (buffer: DirectBuffer?)
      requires Valid()
      modifies this`held, all
      ensures Valid()
      ensures buffer == null ==> held == old(held)
      ensures buffer != null ==>
                && buffer in all && buffer in held && held == old(held) + {buffer}
                && buffer !in old(held) && buffer !in bound
                && MAX_POOLED > buffer.Capacity() >= payloadSize
                && buffer.position == 0 && |buffer.data| == buffer.Capacity()
      ensures forall b :: b in all && b != buffer ==> unchanged(b)
      ensures forall b :: b in myBuffers && old(Suits(b, payloadSize + CONTROL_BYTES)) ==>
                buffer != null && buffer.Capacity() <= b.Capacity()
      ensures buffer != null ==>
                buffer in myBuffers && old(Suits(buffer, payloadSize + CONTROL_BYTES)) && old(buffer.busy) == 0
    {
      hide TotalCapacity, NoneTwice;
      buffer := null;
      var i := |myBuffers| - 1;
      while i >= 0
        invariant -1 <= i < |myBuffers|
        invariant buffer != null ==> buffer in myBuffers && buffer.Capacity() >= payloadSize && !buffer.IsUsed()
        invariant forall j :: i < j < |myBuffers| && !myBuffers[j].IsUsed() ==>
                    buffer != null && buffer.Capacity() <= myBuffers[j].Capacity()
      {
        var b := myBuffers[i];
        assert BufferOk(b) && b.IsValid();
        if b.Capacity() < payloadSize {
          break;
        }
        if !b.IsUsed() {
          buffer := b;
        }
        i := i - 1;
      }
      if buffer != null {
        PooledIsSmall(buffer);
        assert BufferOk(buffer);
        Take(buffer);
      }
    }

    lemma {:induction false} PooledIsSmall(b: DirectBuffer)
      requires Valid() && b in myBuffers
      ensures b.Capacity() < MAX_POOLED
    {
      assert forall i :: 0 <= i < |myBuffers| ==> BufferOk(myBuffers[i]);
      PartOfTotal(myBuffers, b);
    }

    method Take(buffer: DirectBuffer)
      requires Valid() && buffer in myBuffers && !buffer.IsUsed()
      modifies this`held, buffer`busy, buffer`position
      ensures Valid() && buffer in all && held == old(held) + {buffer} && buffer !in old(held) && buffer !in bound
      ensures buffer.position == 0 && |buffer.data| == buffer.Capacity()
    {
      hide Ascending, NoneTwice, TotalCapacity;
      assert BufferOk(buffer);
      assert forall b :: b in all ==> BufferOk(b);
      buffer.busy := buffer.busy + 1;
      buffer.position := 0;
      held := held + {buffer};
    }

    /** A new buffer joins the pool behind those that are not larger. */
    method Pool(buffer: DirectBuffer)
      requires Valid() && buffer in held && buffer !in myBuffers && buffer.IsValid()
      requires myBuffersTotalSize + buffer.size < MAX_POOLED
      modifies this`myBuffers, this`myBuffersTotalSize
      ensures Valid()
      ensures exists i :: 0 <= i <= |old(myBuffers)| && myBuffers == Inserted(old(myBuffers), i, buffer)
    {
      hide Ascending, NoneTwice, Inserted, TotalCapacity;
      var i := 0;
      while i < |myBuffers| && myBuffers[i].Capacity() <= buffer.Capacity()
        invariant i <= |myBuffers|
        invariant forall j :: 0 <= j < i ==> myBuffers[j].Capacity() <= buffer.Capacity()
      {
        i := i + 1;
      }
      InsertedTotal(myBuffers, i, buffer);
      InsertedInOrder(myBuffers, i, buffer);
      assert forall b :: b in all ==> BufferOk(b);
      myBuffers := Inserted(myBuffers, i, buffer);
      myBuffersTotalSize := myBuffersTotalSize + buffer.Capacity();
    }

    /** wrapper_bind_buffer: SQLite keeps the memory until it releases it. */
    method WrapperBindBuffer(b: DirectBuffer, ok: bool)
      requires Valid() && b in held && b !in bound
      modifies this`bound, this`log, b
      ensures Valid() && b.data == old(b.data) && b.position == old(b.position)
      ensures bound == if ok then old(bound)[b := b.data[..b.position]] else old(bound)
      ensures log == if ok then old(log) + [b.data[..b.position]] else old(log)
    {
      hide Ascending, NoneTwice, TotalCapacity;
      assert forall c :: c in all ==> BufferOk(c);
      b.busy := b.busy + 1;
      if ok {
        bound, log := bound[b := b.data[..b.position]], log + [b.data[..b.position]];
      } else {
        b.busy := b.busy - 1;
      }
    }

    /** bind_release: SQLite does not need the value any more. */
    method BindRelease(b: DirectBuffer)
      requires Valid() && b in bound
      modifies this`bound, b
      ensures Valid() && bound == old(bound) - {b}
      ensures b in held || b in myBuffers || b.freed
    {
      hide Ascending, NoneTwice, TotalCapacity;
      assert BufferOk(b);
      assert forall c :: c in all ==> BufferOk(c);
      if b.busy > 0 {
        b.busy := b.busy - 1;
      }
      if b.dispose == 1 {
        b.freed := true;
      }
      bound := bound - {b};
    }

    /** finalizeBuffers on the confining thread, when every stream has been closed. Memory that SQLite still uses is
        freed when SQLite releases it. */
    method FinalizeBuffers()
      requires Valid() && held == {}
      modifies this`myBuffers, this`myBuffersTotalSize, all
      ensures Valid() && myBuffers == []
      ensures forall b :: b in all ==> b.freed || (b in bound && b.dispose == 1)
    {
      var buffers := myBuffers;
      assert forall b :: b in all ==> BufferOk(b);
      myBuffers, myBuffersTotalSize := [], 0;
      assert forall b :: b in buffers ==> Leftover(b);
      FreeAll(buffers);
      Leftovers();
    }

    method FreeAll(buffers: seq<DirectBuffer>)
      requires myBuffers == [] && held == {} && NoneTwice(buffers)
      requires forall b :: b in buffers ==> b in all && Leftover(b)
      requires forall b :: b in all && b !in buffers ==> BufferOk(b)
      modifies all
      ensures forall b :: b in all ==> BufferOk(b)
    {
      hide BufferOk, Leftover;
      assert buffers[0..] == buffers;
      for i := 0 to |buffers|
        invariant forall b :: b in all && b !in buffers[i..] ==> BufferOk(b)
        invariant forall b :: b in buffers[i..] ==> Leftover(b)
      {
        assert buffers[i..] == [buffers[i]] + buffers[i + 1..];
        assert buffers[i] !in buffers[i + 1..];
        FreePooled(buffers[i]);
      }
    }

    /** A buffer that has left the pool and is about to be freed. */
    ghost predicate Leftover(b: DirectBuffer)
      reads this, b
    {
      && !b.freed && b.busy == Uses(b) && b.size >= SMALLEST_SIZE && |b.data| == b.Capacity() && b.position <= |b.data|
      && (b in bound ==> bound[b] <= b.data)
    }

    method FreePooled(b: DirectBuffer)
      requires Leftover(b) && b !in held && b !in myBuffers
      modifies b
      ensures BufferOk(b)
    {
      WrapperFree(b);
    }

    lemma {:induction false} Leftovers()
      requires myBuffers == [] && held == {} && forall b :: b in all ==> BufferOk(b)
      ensures forall b :: b in all ==> b.freed || (b in bound && b.dispose == 1)
    {
      assert forall b :: b in all ==> BufferOk(b);
    }
  }

  /** SQLite has been given no more, and has released nothing. */
  twostate predicate SameGiven(p: BufferPool)
    reads p
  {
    p.bound == old(p.bound) && p.log == old(p.log)
  }

  /** A bound on the buffer of a stream that was opened for `asked` bytes and has been written `n`: a stream moves to a
      larger one only when what it holds is full. */
  function MostRoom(asked: int, n: nat): nat {
    BufferPool.MaxCapacity(if asked > 2 * n then asked else 2 * n)
  }

  /** SQLiteStatement.BindStream. `asked` is the size it was opened for, `written` all that has been written to it. */
  class BindStream {
    var myBuffer: DirectBuffer?
    ghost const asked: int
    ghost var written: seq<byte>

    ghost predicate Holds(p: BufferPool)
      reads this, p, myBuffer
    {
      myBuffer != null ==>
        && myBuffer in p.held && myBuffer !in p.bound
        && myBuffer.position <= |myBuffer.data| && myBuffer.data[..myBuffer.position] == written
    }

    ghost predicate InRoom()
      reads this, myBuffer
    {
      myBuffer != null ==> |myBuffer.data| <= MostRoom(asked, |written|)
    }

    constructor (p: BufferPool, buffer: DirectBuffer, ghost asked: int)
      requires p.Valid() && buffer in p.held && buffer !in p.bound
      requires |buffer.data| <= BufferPool.MaxCapacity(asked)
      modifies buffer`position
      ensures p.Valid() && Holds(p) && myBuffer == buffer && written == [] && buffer.position == 0
      ensures this.asked == asked && InRoom()
    {
      assert p.BufferOk(buffer);
      assert forall b :: b in p.all ==> p.BufferOk(b);
      this.asked := asked;
      myBuffer := buffer;
      written := [];
      new;
      buffer.position := 0;
    }

    /** The buffers of other streams are neither touched nor taken. */
    twostate predicate OthersKept(p: BufferPool, mine: DirectBuffer?)
      reads p, p.held
    {
      forall b :: b in old(p.held) && b != mine ==> b in p.held && unchanged(b)
    }

    method Dispose(p: BufferPool)
      requires p.Valid() && (myBuffer != null ==> myBuffer in p.held)
      modifies this`myBuffer, p`held, p.all
      ensures p.Valid() && myBuffer == null && p.bound == old(p.bound) && OthersKept(p, old(myBuffer))
    {
      var buffer := myBuffer;
      if buffer != null {
        myBuffer := null;
        p.FreeBuffer(buffer);
      }
    }

    /** write: what does not fit makes the stream move to a larger buffer. It fails only if the stream is closed or a
        larger buffer cannot be had; then the stream is closed. */
    method Write(p: BufferPool, bytes: seq<byte>, canAllocate: bool) returns (ok: bool)
      requires p.Valid() && Holds(p) && InRoom()
      requires myBuffer != null ==> |myBuffer.data| + |bytes| + CONTROL_BYTES <= LARGEST_SIZE
      modifies this, p, p.all
      ensures p.Valid() && Holds(p) && SameGiven(p) && OthersKept(p, old(myBuffer))
      ensures old(p.all) <= p.all && fresh(p.all - old(p.all))
      ensures InRoom() && (ok <==> myBuffer != null)
      ensures ok ==> written == old(written) + bytes
      ensures ok ==> myBuffer == old(myBuffer) || myBuffer !in old(p.held)
      ensures old(myBuffer) != null && canAllocate ==> ok
      ensures old(myBuffer) == null ==> !ok
    {
      if myBuffer == null {
        return false;
      }
      ok := Room(p, |bytes|, canAllocate);
      if ok {
        Put(p, myBuffer, bytes);
        written := written + bytes;
      }
    }

    /** put */
    method Put(ghost p: BufferPool, buffer: DirectBuffer, bytes: seq<byte>)
      requires p.Valid() && buffer in p.held && buffer !in p.bound && buffer.position + |bytes| <= |buffer.data|
      modifies buffer`data, buffer`position
      ensures p.Valid() && buffer.position == old(buffer.position) + |bytes| <= |buffer.data|
      ensures buffer.data[..buffer.position] == old(buffer.data[..buffer.position]) + bytes
    {
      assert p.BufferOk(buffer);
      assert forall b :: b in p.all ==> p.BufferOk(b);
      var data, n := buffer.data, buffer.position;
      buffer.data := data[..n] + bytes + data[n + |bytes|..];
      buffer.position := n + |bytes|;
      assert buffer.data[..n + |bytes|] == data[..n] + bytes;
    }

    /** The method `buffer`: makes room for `len` more bytes. */
    method Room(p: BufferPool, len: nat, canAllocate: bool) returns (ok: bool)
      requires p.Valid() && Holds(p) && InRoom() && myBuffer != null
      requires |myBuffer.data| + len + CONTROL_BYTES <= LARGEST_SIZE
      modifies this`myBuffer, p, p.all
      ensures p.Valid() && Holds(p) && SameGiven(p) && OthersKept(p, old(myBuffer))
      ensures old(p.all) <= p.all && fresh(p.all - old(p.all))
      ensures ok <==> myBuffer != null
      ensures ok ==> myBuffer.position + len <= |myBuffer.data|
      ensures ok ==>
                myBuffer == old(myBuffer) || (myBuffer !in old(p.held) && (myBuffer in old(p.all) || fresh(myBuffer)))
      ensures canAllocate ==> ok
      ensures ok ==> |myBuffer.data| <= MostRoom(asked, |written| + len)
    {
      hide Ascending, NoneTwice, TotalCapacity, BufferPool.IsSizeFor;
      var buffer := myBuffer;
      assert p.BufferOk(buffer);
      if |buffer.data| - buffer.position >= len {
        return true;
      }
      var newBuffer, _ := p.AllocateBuffer(buffer.Capacity() + len, canAllocate);
      if newBuffer == null {
        Dispose(p);
        return false;
      }
      Copy(p, buffer, newBuffer);
      p.FreeBuffer(buffer);
      myBuffer := newBuffer;
      return true;
    }

    /** flip and put */
    method Copy(p: BufferPool, buffer: DirectBuffer, newBuffer: DirectBuffer)
      requires p.Valid() && newBuffer in p.held && newBuffer !in p.bound && newBuffer != buffer
      requires buffer.position <= |buffer.data| <= |newBuffer.data|
      modifies newBuffer`data, newBuffer`position
      ensures p.Valid() && newBuffer.position == buffer.position && |newBuffer.data| == old(|newBuffer.data|)
      ensures newBuffer.data[..newBuffer.position] == buffer.data[..buffer.position]
    {
      assert p.BufferOk(newBuffer);
      assert forall b :: b in p.all ==> p.BufferOk(b);
      var n := buffer.position;
      newBuffer.data := buffer.data[..n] + newBuffer.data[n..];
      newBuffer.position := n;
    }

    /** close: SQLite is given what has been written, and the stream leaves the buffer. */
    method Close(p: BufferPool, ok: bool) returns (bound: DirectBuffer?)
      requires p.Valid() && Holds(p)
      modifies this`myBuffer, p`held, p`bound, p`log, p.all
      ensures p.Valid() && myBuffer == null && OthersKept(p, old(myBuffer))
      ensures bound != null <==> old(myBuffer) != null && ok
      ensures bound != null ==> bound == old(myBuffer) && p.bound == old(p.bound)[bound := written]
      ensures bound == null ==> p.bound == old(p.bound)
      ensures p.log == if bound != null then old(p.log) + [written] else old(p.log)
    {
      bound := null;
      var buffer := myBuffer;
      if buffer == null {
        return;
      }
      p.WrapperBindBuffer(buffer, ok);
      if ok {
        bound := buffer;
      }
      Dispose(p);
    }
  }

  // ---- whole runs ----

  /** A call on the pool or on the `i`-th stream opened, or SQLite's release of the `k`-th buffer it was given. */
  datatype Call =
    | CallOpen(size: int, canAllocate: bool)
    | CallWrite(i: nat, bytes: seq<byte>, canAllocate: bool)
    | CallClose(i: nat, bindOk: bool)
    | CallDiscard(i: nat)
    | CallRelease(k: nat)

  datatype Answer = Done | Failed | NotMade

  /** What the calls amount to: the size each stream was opened for and what it was told to write, which are open, and
      what SQLite was given. */
  datatype Session = Session(asked: seq<int>, written: seq<seq<byte>>, open: seq<bool>, given: seq<seq<byte>>)

  predicate IsOpen(s: Session, i: nat) {
    i < |s.open| && i < |s.written| && i < |s.asked| && s.open[i]
  }

  function Effect(s: Session, call: Call, answer: Answer): Session {
    match call
    case CallOpen(size, _) =>
      if !answer.Done? then s
      else s.(asked := s.asked + [size], written := s.written + [[]], open := s.open + [true])
    case CallWrite(i, bytes, _) =>
      if !IsOpen(s, i) || answer.NotMade? then s
      else if answer.Done? then s.(written := s.written[i := s.written[i] + bytes])
      else s.(open := s.open[i := false])
    case CallClose(i, _) =>
      if !IsOpen(s, i) then s
      else s.(open := s.open[i := false], given := s.given + if answer.Done? then [s.written[i]] else [])
    case CallDiscard(i) => if IsOpen(s, i) then s.(open := s.open[i := false]) else s
    case CallRelease(_) => s
  }

  function Replay(calls: seq<Call>, answers: seq<Answer>): Session
    requires |answers| == |calls|
  {
    if calls == [] then Session([], [], [], [])
    else
      var n := |calls| - 1;
      Effect(Replay(calls[..n], answers[..n]), calls[n], answers[n])
  }

  /** What is answered. A call on a stream that is not open is not made, nor is one for more than 2^30 bytes. An open or
      a write is done if memory can be had, a close if SQLite accepts the buffer. */
  predicate Answered(s: Session, call: Call, answer: Answer) {
    match call
    case CallOpen(size, canAllocate) =>
      && (answer.NotMade? <==> size + CONTROL_BYTES > LARGEST_SIZE)
      && (answer.Failed? ==> !canAllocate)
    case CallWrite(i, bytes, canAllocate) =>
      && (!IsOpen(s, i) ==> answer.NotMade?)
      && (IsOpen(s, i) && answer.NotMade? ==>
            MostRoom(s.asked[i], |s.written[i]|) + |bytes| + CONTROL_BYTES > LARGEST_SIZE)
      && (answer.Failed? ==> !canAllocate)
    case CallClose(i, bindOk) => answer == if !IsOpen(s, i) then NotMade else if bindOk then Done else Failed
    case CallDiscard(i) => answer == if IsOpen(s, i) then Done else NotMade
    case CallRelease(k) => answer.Done? ==> k < |s.given|
  }

  /** The streams stand as the session says, and no two open ones share a buffer. */
  ghost predicate Tracks(p: BufferPool, streams: seq<BindStream>, s: Session)
    reads p, p.all, streams
  {
    && p.Valid() && |streams| == |s.asked| == |s.written| == |s.open|
    && NoneTwice(streams)
    && (forall i :: 0 <= i < |streams| ==> StreamOk(p, streams[i], s.asked[i], s.written[i], s.open[i]))
    && (forall i, j :: 0 <= i < j < |streams| ==> Apart(streams[i], streams[j]))
  }

  ghost predicate StreamOk(p: BufferPool, stream: BindStream, asked: int, written: seq<byte>, open: bool)
    reads p, p.all, stream
  {
    && stream.asked == asked && (open <==> stream.myBuffer != null)
    && (open ==> stream.myBuffer in p.all && stream.Holds(p) && stream.InRoom() && stream.written == written)
  }

  predicate Apart(a: BindStream, b: BindStream)
    reads a, b
  {
    a.myBuffer != null ==> a.myBuffer != b.myBuffer
  }

  method Open(p: BufferPool, streams0: seq<BindStream>, ghost s: Session, size: int, canAllocate: bool)
    returns (streams: seq<BindStream>, answer: Answer)
    requires Tracks(p, streams0, s)
    modifies p, p.all
    ensures Tracks(p, streams, Effect(s, CallOpen(size, canAllocate), answer)) && SameGiven(p)
    ensures Answered(s, CallOpen(size, canAllocate), answer)
    ensures streams0 <= streams && forall i :: |streams0| <= i < |streams| ==> fresh(streams[i])
    ensures old(p.all) <= p.all && fresh(p.all - old(p.all))
  {
    hide BufferPool.BufferOk, Ascending, TotalCapacity, BufferPool.IsSizeFor;
    streams := streams0;
    if size + CONTROL_BYTES > LARGEST_SIZE {
      return streams, NotMade;
    }
    var buffer, _ := p.AllocateBuffer(size, canAllocate);
    if buffer == null {
      return streams, Failed;
    }
    var stream := new BindStream(p, buffer, size);
    AddStream(p, streams, s, stream, size);
    streams := streams + [stream];
    answer := Done;
  }

  lemma {:induction false} AddStream(p: BufferPool, streams: seq<BindStream>, s: Session, stream: BindStream,
                                     asked: int)
    requires Tracks(p, streams, s) && stream !in streams && StreamOk(p, stream, asked, [], true)
    requires forall i :: 0 <= i < |streams| ==> Apart(streams[i], stream)
    ensures Tracks(p, streams + [stream], Session(s.asked + [asked], s.written + [[]], s.open + [true], s.given))
  {
    hide BufferPool.BufferOk, BufferPool.Valid, StreamOk, Apart;
  }

  method WriteTo(p: BufferPool, streams: seq<BindStream>, ghost s: Session, i: nat, bytes: seq<byte>, canAllocate: bool)
    returns (answer: Answer)
    requires Tracks(p, streams, s) && IsOpen(s, i)
    modifies p, p.all, streams[i]
    ensures Tracks(p, streams, Effect(s, CallWrite(i, bytes, canAllocate), answer)) && SameGiven(p)
    ensures Answered(s, CallWrite(i, bytes, canAllocate), answer)
    ensures old(p.all) <= p.all && fresh(p.all - old(p.all))
  {
    hide BufferPool.BufferOk, Ascending, TotalCapacity, BufferPool.IsSizeFor;
    var stream := streams[i];
    if |stream.myBuffer.data| + |bytes| + CONTROL_BYTES > LARGEST_SIZE {
      return NotMade;
    }
    var ok := stream.Write(p, bytes, canAllocate);
    answer := if ok then Done else Failed;
  }

  method CloseIt(p: BufferPool, streams: seq<BindStream>, ghost s: Session, i: nat, bindOk: bool)
    returns (answer: Answer, buffer: DirectBuffer?)
    requires Tracks(p, streams, s) && IsOpen(s, i)
    modifies p`held, p`bound, p`log, p.all, streams[i]
    ensures Tracks(p, streams, Effect(s, CallClose(i, bindOk), answer)) && Answered(s, CallClose(i, bindOk), answer)
    ensures (answer.Done? <==> buffer != null) && streams[i].myBuffer == null
    ensures p.log == old(p.log) + if buffer != null then [s.written[i]] else []
    ensures p.bound == if buffer != null then old(p.bound)[buffer := s.written[i]] else old(p.bound)
  {
    hide BufferPool.BufferOk, Ascending, TotalCapacity;
    buffer := streams[i].Close(p, bindOk);
    answer := if buffer != null then Done else Failed;
  }

  method Discard(p: BufferPool, streams: seq<BindStream>, ghost s: Session, i: nat)
    requires Tracks(p, streams, s) && IsOpen(s, i)
    modifies p`held, p.all, streams[i]
    ensures Tracks(p, streams, Effect(s, CallDiscard(i), Done)) && SameGiven(p) && streams[i].myBuffer == null
  {
    hide BufferPool.BufferOk, Ascending, TotalCapacity;
    streams[i].Dispose(p);
  }

  method Release(p: BufferPool, streams: seq<BindStream>, ghost s: Session, buffer: DirectBuffer)
    requires Tracks(p, streams, s) && buffer in p.bound
    modifies p`bound, p.all
    ensures Tracks(p, streams, s) && p.bound == old(p.bound) - {buffer} && p.log == old(p.log)
  {
    hide BufferPool.BufferOk, Ascending, TotalCapacity;
    p.BindRelease(buffer);
  }

  lemma {:induction false} OpenIff(p: BufferPool, streams: seq<BindStream>, s: Session, i: nat)
    requires Tracks(p, streams, s) && i < |streams|
    ensures IsOpen(s, i) <==> streams[i].myBuffer != null
  {
    assert StreamOk(p, streams[i], s.asked[i], s.written[i], s.open[i]);
  }

  /** The streams opened, the buffers SQLite was given, in order, and those it has not released. */
  datatype Play = Play(streams: seq<BindStream>, handed: seq<DirectBuffer>, outstanding: set<DirectBuffer>)

  ghost predicate Plays(p: BufferPool, play: Play, s: Session)
    reads p, p.all, play.streams
  {
    && Tracks(p, play.streams, s) && play.outstanding == p.bound.Keys
    && p.log == s.given && |play.handed| == |s.given|
    && AllGiven(play.handed, s.given, p.bound)
  }

  /** Each buffer was given to SQLite with the bytes that the pool's book of bindings says. */
  ghost predicate AllGiven(handed: seq<DirectBuffer>, given: seq<seq<byte>>, bound: map<DirectBuffer, seq<byte>>)
    requires |handed| == |given|
  {
    forall b :: b in bound ==> exists k :: 0 <= k < |handed| && handed[k] == b && given[k] == bound[b]
  }

  lemma {:induction false} OneMoreGiven(handed: seq<DirectBuffer>, given: seq<seq<byte>>,
                                        bound: map<DirectBuffer, seq<byte>>, b: DirectBuffer, bytes: seq<byte>)
    requires |handed| == |given| && AllGiven(handed, given, bound)
    ensures AllGiven(handed + [b], given + [bytes], bound[b := bytes])
  {
    var bound' := bound[b := bytes];
    forall c: DirectBuffer | c in bound'
      ensures exists k :: 0 <= k <= |handed| && (handed + [b])[k] == c && (given + [bytes])[k] == bound'[c]
    {
      var k := |handed|;
      if c == b {
        assert (handed + [b])[k] == c;
      } else {
        k :| 0 <= k < |handed| && handed[k] == c && given[k] == bound[c];
        assert (handed + [b])[k] == c;
      }
    }
  }

  /** One call is answered, and has the effect, that the session says; when a close succeeds, SQLite is given what the
      stream was told to write. */
  method Perform(p: BufferPool, was: Play, ghost s: Session, call: Call) returns (play: Play, answer: Answer)
    requires Plays(p, was, s)
    modifies p, p.all, was.streams
    ensures Plays(p, play, Effect(s, call, answer)) && Answered(s, call, answer)
    ensures (call.CallClose? || call.CallDiscard?) && call.i < |was.streams| ==> was.streams[call.i].myBuffer == null
    ensures call.CallRelease? && call.k < |was.handed| ==> was.handed[call.k] !in p.bound
    ensures was.streams <= play.streams && forall i :: |was.streams| <= i < |play.streams| ==> fresh(play.streams[i])
    ensures old(p.all) <= p.all && fresh(p.all - old(p.all))
  {
    hide Tracks;
    play, answer := was, NotMade;
    match call {
      case CallOpen(size, canAllocate) =>
        var streams;
        streams, answer := Open(p, was.streams, s, size, canAllocate);
        play := play.(streams := streams);
      case CallWrite(i, bytes, canAllocate) =>
        if IsOpenStream(was.streams, i) {
          OpenIff(p, was.streams, s, i);
          answer := WriteTo(p, was.streams, s, i, bytes, canAllocate);
        } else {
          NotOpen(p, was.streams, s, i);
        }
      case CallClose(i, bindOk) =>
        if IsOpenStream(was.streams, i) {
          OpenIff(p, was.streams, s, i);
          var buffer;
          answer, buffer := CloseIt(p, was.streams, s, i, bindOk);
          if buffer != null {
            OneMoreGiven(was.handed, s.given, old(p.bound), buffer, s.written[i]);
            play := play.(handed := was.handed + [buffer], outstanding := was.outstanding + {buffer});
          }
        } else {
          NotOpen(p, was.streams, s, i);
        }
      case CallDiscard(i) =>
        if IsOpenStream(was.streams, i) {
          OpenIff(p, was.streams, s, i);
          Discard(p, was.streams, s, i);
          answer := Done;
        } else {
          NotOpen(p, was.streams, s, i);
        }
      case CallRelease(k) =>
        if k < |was.handed| && was.handed[k] in was.outstanding {
          Release(p, was.streams, s, was.handed[k]);
          play := play.(outstanding := was.outstanding - {was.handed[k]});
          answer := Done;
        }
    }
  }

  predicate IsOpenStream(streams: seq<BindStream>, i: nat)
    reads streams
  {
    i < |streams| && streams[i].myBuffer != null
  }

  lemma {:induction false} NotOpen(p: BufferPool, streams: seq<BindStream>, s: Session, i: nat)
    requires Tracks(p, streams, s) && !IsOpenStream(streams, i)
    ensures !IsOpen(s, i)
  {
    if i < |streams| {
      OpenIff(p, streams, s, i);
    }
  }

  /** Any calls on any streams in any order. SQLite is given, close by close, exactly what the closed stream was told to
      write, each stream's own bytes, and what it has not released is still what it was given. Each call is answered as
      it should be, and no two open streams ever share a buffer. */
  method Run(p: BufferPool, calls: seq<Call>) returns (play: Play, answers: seq<Answer>)
    requires p.Valid() && p.all == {} && p.bound == map[] && p.log == []
    modifies p
    ensures |answers| == |calls| && p.log == Replay(calls, answers).given
    ensures forall k :: 0 <= k < |calls| ==> Answered(Replay(calls[..k], answers[..k]), calls[k], answers[k])
    ensures Plays(p, play, Replay(calls, answers))
  {
    hide Tracks, BufferPool.BufferOk, Effect, Replay, Answered, AllGiven;
    play, answers := Play([], [], {}), [];
    Starts(p, calls);
    for n := 0 to |calls|
      invariant |answers| == n && Plays(p, play, Replay(calls[..n], answers))
      invariant forall k :: 0 <= k < n ==> Answered(Replay(calls[..k], answers[..k]), calls[k], answers[k])
      invariant fresh(p.all) && forall i :: 0 <= i < |play.streams| ==> fresh(play.streams[i])
    {
      ghost var s := Replay(calls[..n], answers);
      var answer;
      play, answer := Perform(p, play, s, calls[n]);
      ReplayOne(calls, answers, answer);
      EarlierAnswers(answers, answer);
      answers := answers + [answer];
    }
    assert calls[..|calls|] == calls;
  }

  lemma {:induction false} EarlierAnswers(answers: seq<Answer>, answer: Answer)
    ensures forall k :: 0 <= k <= |answers| ==> (answers + [answer])[..k] == answers[..k]
  {
  }

  lemma {:induction false} Starts(p: BufferPool, calls: seq<Call>)
    requires p.Valid() && p.bound == map[] && p.log == []
    ensures Plays(p, Play([], [], {}), Replay(calls[..0], []))
  {
  }

  lemma {:induction false} ReplayOne(calls: seq<Call>, answers: seq<Answer>, answer: Answer)
    requires |answers| < |calls|
    ensures var k := |answers|;
            Replay(calls[..k + 1], answers + [answer]) == Effect(Replay(calls[..k], answers), calls[k], answer)
  {
    hide Effect;
    var k := |answers|;
    assert calls[..k + 1][..k] == calls[..k] && (answers + [answer])[..k] == answers;
  }

  /** A stream is opened, written to and closed, and memory can be had: SQLite is given what was written. */
  method OneStream(bytes: seq<byte>) returns (p: BufferPool)
    requires |bytes| <= MAX_POOLED
    ensures p.log == [bytes]
  {
    p := new BufferPool();
    var calls := [CallOpen(10, true), CallWrite(0, bytes, true), CallClose(0, true)];
    var _, answers := Run(p, calls);
    OneStreamReplay(calls, answers, bytes);
  }

  lemma {:induction false} OneStreamReplay(calls: seq<Call>, answers: seq<Answer>, bytes: seq<byte>)
    requires |bytes| <= MAX_POOLED && |answers| == 3
    requires calls == [CallOpen(10, true), CallWrite(0, bytes, true), CallClose(0, true)]
    requires forall k :: 0 <= k < 3 ==> Answered(Replay(calls[..k], answers[..k]), calls[k], answers[k])
    ensures Replay(calls, answers).given == [bytes]
  {
    assert calls[..3] == calls && answers[..3] == answers;
    ReplayAll(calls, answers, 0);
    ReplayAll(calls, answers, 1);
    ReplayAll(calls, answers, 2);
    hide Replay;
    var started := Session([10], [[]], [true], []);
    assert Replay(calls[..1], answers[..1]) == started by {
      assert Answered(Replay(calls[..0], answers[..0]), calls[0], answers[0]);
    }
    assert Replay(calls[..2], answers[..2]) == started.(written := [bytes]) by {
      assert [] + bytes == bytes;
    }
    assert IsOpen(started.(written := [bytes]), 0);
  }

  lemma {:induction false} ReplayAll(calls: seq<Call>, answers: seq<Answer>, k: nat)
    requires k < |calls| == |answers|
    ensures Replay(calls[..k + 1], answers[..k + 1]) == Effect(Replay(calls[..k], answers[..k]), calls[k], answers[k])
    ensures Replay(calls[..0], answers[..0]) == Session([], [], [], [])
  {
    hide Effect;
    assert calls[..k + 1][..k] == calls[..k] && answers[..k + 1][..k] == answers[..k];
  }

  function Pow2(k: nat): (p: nat)
    ensures p > 0
  {
    if k == 0 then 1 else 2 * Pow2(k - 1)
  }

  lemma {:induction false} Powers()
    ensures Pow2(10) == SMALLEST_SIZE == 1024 && Pow2(30) == LARGEST_SIZE == 0x4000_0000
  {
    assert Pow2(5) == 32 && Pow2(10) == 1024;
    assert Pow2(15) == 32768 && Pow2(20) == 0x10_0000 && Pow2(25) == 0x200_0000;
  }

  lemma {:induction false} Ascends(d: nat, e: nat)
    requires d <= e
    ensures Pow2(d) <= Pow2(e) && (d < e ==> Pow2(d) < Pow2(e))
    decreases e - d
  {
    if d < e {
      Ascends(d, e - 1);
    }
  }
}

/** The growable byte buffer of src/buffer.cpp: inline storage for up to 4096 bytes, then heap blocks that
    double. Its meaning is a byte sequence (Contents) and a read position. */
module Buffers {
  import opened Bytes

  const INLINE_SIZE: nat := 4096
  const SIZE_MAX: nat := 0xFFFF_FFFF_FFFF_FFFF
  const MAX_CAPACITY: nat := SIZE_MAX / 2

  /** When appending n bytes is accepted: the new size must not wrap, and growing past MAX_CAPACITY is refused. */
  predicate WriteFits(size: nat, capacity: nat, n: nat) {
    size + n <= SIZE_MAX && (size + n <= capacity || size + n <= MAX_CAPACITY)
  }

  class Buffer {
    const inlineStore: array<byte>
    var data: array<byte>
    var size: nat
    var capacity: nat
    var readPos: nat

    // What growth has cost so far, the largest size ever held, and whether a move has touched this buffer.
    ghost var copied: nat
    ghost var peak: nat
    ghost var moved: bool

    ghost predicate Valid()
      reads this
    {
      && inlineStore.Length == INLINE_SIZE
      && data.Length == capacity
      && (data == inlineStore <==> capacity == INLINE_SIZE)
      && INLINE_SIZE <= capacity <= SIZE_MAX
      && readPos <= size <= capacity
      && size <= peak
      && (!moved ==> copied + INLINE_SIZE <= capacity)
      && (!moved && capacity > INLINE_SIZE ==> capacity < 2 * peak)
    }

    ghost function Contents(): (s: bytes)
      reads this, data
      requires Valid()
    {
      data[..size]
    }

    /** On a buffer that was never moved, growth has copied less than twice the largest size ever held. */
    lemma GrowthIsLinear()
      requires Valid() && !moved
      ensures copied <= capacity - INLINE_SIZE
      ensures copied > 0 ==> copied < 2 * peak
    {
    }

    constructor ()
      ensures Valid() && fresh(data) && fresh(inlineStore) && data == inlineStore
      ensures Contents() == [] && readPos == 0 && !moved && copied == 0
    {
      inlineStore := new byte[INLINE_SIZE];
      data := inlineStore;
      size, capacity, readPos := 0, INLINE_SIZE, 0;
      copied, peak, moved := 0, 0, false;
    }

    /** Makes room for `required` bytes, doubling the capacity; false is the overflow exception. */
    method EnsureCapacity(required: nat) returns (ok: bool)
      requires Valid() && size <= required
      modifies this`data, this`capacity, this`copied, this`peak
      ensures Valid() && (data == old(data) || fresh(data))
      ensures ok == (required <= old(capacity) || required <= MAX_CAPACITY)
      ensures ok ==> required <= capacity && peak >= required
      ensures Contents() == old(Contents())
    {
      if required <= capacity {
        peak := if peak < required then required else peak;
        return true;
      }
      if required > MAX_CAPACITY {
        return false;
      }
      var newCapacity := capacity;
      while newCapacity < required
        invariant newCapacity >= capacity
        invariant newCapacity == capacity || (newCapacity >= 2 * capacity && newCapacity < 2 * required)
      {
        assert newCapacity * 2 <= SIZE_MAX; // doubling never wraps
        newCapacity := newCapacity * 2;
      }
      var newData := new byte[newCapacity];
      forall i | 0 <= i < size {
        newData[i] := data[i];
      }
      copied := copied + size;
      peak := if peak < required then required else peak;
      data, capacity := newData, newCapacity;
      return true;
    }

    method Write(b: bytes) returns (ok: bool)
      requires Valid()
      modifies this, data
      ensures Valid() && (data == old(data) || fresh(data))
      ensures ok == WriteFits(old(size), old(capacity), |b|)
      ensures Contents() == if ok then old(Contents()) + b else old(Contents())
      ensures readPos == old(readPos) && moved == old(moved)
    {
      if |b| > 0 && size + |b| > SIZE_MAX {
        return false;
      }
      ok := EnsureCapacity(size + |b|);
      if ok {
        forall i | 0 <= i < |b| {
          data[size + i] := b[i];
        }
        size := size + |b|;
      }
    }

    /** Takes the next n bytes, or reports underflow and takes nothing. */
    method Read(n: nat) returns (r: Option<bytes>)
      requires Valid()
      modifies this`readPos
      ensures Valid()
      ensures r.Some? <==> old(readPos) + n <= size
      ensures readPos == old(readPos) + if r.Some? then n else 0
      ensures r.Some? ==> r.value == Contents()[old(readPos)..readPos]
    {
      if n > size || readPos > size - n {
        return None;
      }
      assert data[readPos..readPos + n] == Contents()[readPos..readPos + n];
      r := Some(data[readPos..readPos + n]);
      readPos := readPos + n;
    }

    method Reset()
      requires Valid()
      modifies this`size, this`readPos
      ensures Valid() && Contents() == [] && readPos == 0
    {
      size, readPos := 0, 0;
    }

    method ResetRead()
      requires Valid()
      modifies this`readPos
      ensures Valid() && readPos == 0
    {
      readPos := 0;
    }

    /** Move assignment: takes over the other buffer's bytes and read position and leaves it empty. A heap block
        changes owner; inline bytes are copied. */
    method MoveFrom(other: Buffer)
      requires Valid() && other.Valid() && Apart(this, other)
      modifies this, other, this.inlineStore
      ensures Valid() && other.Valid() && Apart(this, other)
      ensures this == other ==> unchanged(this) && unchanged(inlineStore)
      ensures this != other ==> Contents() == old(other.Contents()) && readPos == old(other.readPos)
      ensures this != other ==> other.Contents() == [] && other.readPos == 0 && other.data == other.inlineStore
      ensures data in {old(data), old(other.data), inlineStore} && other.data in {old(other.data), other.inlineStore}
    {
      if this != other {
        size, capacity, readPos := other.size, other.capacity, other.readPos;
        peak, copied, moved, other.moved := other.peak, other.copied, true, true;
        if other.data == other.inlineStore {
          forall i | 0 <= i < other.size {
            inlineStore[i] := other.inlineStore[i];
          }
          data := inlineStore;
        } else {
          data := other.data;
          other.data := other.inlineStore;
          other.capacity := INLINE_SIZE;
        }
        other.size, other.readPos := 0, 0;
      }
    }
  }

  predicate NoneShared(a: Buffer, b: Buffer)
    reads a, b
  {
    && a.data != b.data && a.inlineStore != b.inlineStore
    && a.data != b.inlineStore && b.data != a.inlineStore
  }

  /** Two different buffers share no storage. */
  ghost predicate Apart(a: Buffer, b: Buffer)
    reads a, b
  {
    a != b ==> NoneShared(a, b)
  }

  /** No storage block belongs to two buffers of the pool. */
  ghost predicate Separate(pool: set<Buffer>)
    reads pool
  {
    && (forall b :: b in pool ==> b.Valid())
    && (forall a, b :: a in pool && b in pool ==> Apart(a, b))
  }

  // ---------------------------------------------------------------- whole runs over a pool of buffers

  datatype PoolOp = WriteTo(i: nat, b: bytes) | ReadFrom(i: nat, n: nat) | ResetAt(i: nat) | Move(to: nat, from: nat)

  predicate OpFits(op: PoolOp, n: nat) { if op.Move? then op.to < n && op.from < n else op.i < n }

  /** What a buffer means: its bytes and its read position. */
  type Cell = (bytes, nat)

  /** What an operation does to the pool's meaning; writes and reads may be refused. */
  function After(cells: seq<Cell>, op: PoolOp, ok: bool): (r: seq<Cell>)
    requires OpFits(op, |cells|)
    ensures |r| == |cells|
  {
    match op
    case WriteTo(i, b) => if ok then cells[i := (cells[i].0 + b, cells[i].1)] else cells
    case ReadFrom(i, n) => if ok then cells[i := (cells[i].0, cells[i].1 + n)] else cells
    case ResetAt(i) => cells[i := ([], 0)]
    case Move(to, from) => if to == from then cells else cells[to := cells[from]][from := ([], 0)]
  }

  function AfterAll(cells: seq<Cell>, ops: seq<PoolOp>, oks: seq<bool>): (r: seq<Cell>)
    requires |oks| == |ops| && forall k :: 0 <= k < |ops| ==> OpFits(ops[k], |cells|)
    ensures |r| == |cells|
  {
    if ops == [] then cells
    else
      var n := |ops| - 1;
      After(AfterAll(cells, ops[..n], oks[..n]), ops[n], oks[n])
  }

  function Members(pool: seq<Buffer>): set<Buffer> { set b | b in pool }

  function Stores(pool: seq<Buffer>): set<array<byte>>
    reads pool
  {
    (set b | b in pool :: b.data) + (set b | b in pool :: b.inlineStore)
  }

  predicate Distinct(pool: seq<Buffer>) { forall i, j :: 0 <= i < j < |pool| ==> pool[i] != pool[j] }

  ghost predicate Pool(pool: seq<Buffer>)
    reads pool
  {
    Distinct(pool) && Separate(Members(pool))
  }

  ghost function Meaning(b: Buffer): Cell
    requires b.Valid()
    reads b, b.data
  {
    (b.Contents(), b.readPos)
  }

  ghost function Cells(pool: seq<Buffer>): (r: seq<Cell>)
    requires Pool(pool)
    reads pool, set b | b in pool :: b.data
    ensures |r| == |pool| && forall k :: 0 <= k < |pool| ==> r[k] == Meaning(pool[k])
  {
    seq(|pool|, k requires 0 <= k < |pool| && pool[k].Valid() reads pool, set b | b in pool :: b.data => Meaning(pool[k]))
  }

  lemma OthersApart(pool: seq<Buffer>, i: nat)
    requires i < |pool| && Pool(pool)
    ensures pool[i].Valid() && pool[i].data in Stores(pool) && pool[i].inlineStore in Stores(pool)
    ensures forall a :: a in pool && a != pool[i] ==> NoneShared(a, pool[i])
  {
    assert pool[i] in Members(pool);
    forall a | a in pool && a != pool[i]
      ensures NoneShared(a, pool[i])
    {
      assert a in Members(pool) && Apart(a, pool[i]);
    }
  }

  method WriteInPool(pool: seq<Buffer>, i: nat, b: bytes) returns (ok: bool)
    requires i < |pool| && Pool(pool)
    modifies pool, Stores(pool)
    ensures Pool(pool) && Cells(pool) == After(old(Cells(pool)), WriteTo(i, b), ok)
    ensures fresh(Stores(pool) - old(Stores(pool)))
  {
    OthersApart(pool, i);
    ok := pool[i].Write(b);
    assert Separate(Members(pool));
    hide Separate, Apart, WriteFits, Cells;
    forall k | 0 <= k < |pool| && k != i
      ensures Meaning(pool[k]) == old(Meaning(pool[k]))
    {
      assert pool[k] in pool && pool[k] != pool[i];
    }
  }

  method ReadInPool(pool: seq<Buffer>, i: nat, n: nat) returns (ok: bool)
    requires i < |pool| && Pool(pool)
    modifies pool, Stores(pool)
    ensures Pool(pool) && Cells(pool) == After(old(Cells(pool)), ReadFrom(i, n), ok)
    ensures fresh(Stores(pool) - old(Stores(pool)))
  {
    OthersApart(pool, i);
    var r := pool[i].Read(n);
    ok := r.Some?;
    forall k | 0 <= k < |pool| && k != i
      ensures Meaning(pool[k]) == old(Meaning(pool[k]))
    {
      assert pool[k] in pool && pool[k] != pool[i];
    }
  }

  method ResetInPool(pool: seq<Buffer>, i: nat)
    requires i < |pool| && Pool(pool)
    modifies pool, Stores(pool)
    ensures Pool(pool) && Cells(pool) == After(old(Cells(pool)), ResetAt(i), true)
    ensures fresh(Stores(pool) - old(Stores(pool)))
  {
    OthersApart(pool, i);
    pool[i].Reset();
    forall k | 0 <= k < |pool| && k != i
      ensures Meaning(pool[k]) == old(Meaning(pool[k]))
    {
      assert pool[k] in pool && pool[k] != pool[i];
    }
  }

  /** Moving between two buffers of a pool leaves every block of the pool singly owned. */
  method MoveApart(pool: seq<Buffer>, to: Buffer, from: Buffer)
    requires Pool(pool) && to in pool && from in pool && to != from
    modifies to, from, to.inlineStore
    ensures Separate(Members(pool))
    ensures Meaning(to) == old(Meaning(from)) && Meaning(from) == ([], 0)
    ensures to.data in {old(to.data), old(from.data), to.inlineStore} && from.data in {old(from.data), from.inlineStore}
  {
    assert to in Members(pool) && from in Members(pool) && Apart(to, from);
    to.MoveFrom(from);
    forall a, b | a in Members(pool) && b in Members(pool)
      ensures Apart(a, b)
    {
      assert old(Apart(a, b)) && old(Apart(a, to)) && old(Apart(a, from)) && old(Apart(b, to)) && old(Apart(b, from));
    }
  }

  method MoveInPool(pool: seq<Buffer>, to: nat, from: nat)
    requires to < |pool| && from < |pool| && Pool(pool)
    modifies pool, Stores(pool)
    ensures Pool(pool) && Cells(pool) == After(old(Cells(pool)), Move(to, from), true)
    ensures fresh(Stores(pool) - old(Stores(pool)))
  {
    if to == from {
      return;
    }
    OthersApart(pool, to);
    OthersApart(pool, from);
    MoveApart(pool, pool[to], pool[from]);
    hide Separate, Apart, Cells;
    forall k | 0 <= k < |pool| && k != to && k != from
      ensures Meaning(pool[k]) == old(Meaning(pool[k]))
    {
      assert pool[k] in pool && pool[k] != pool[to] && pool[k] != pool[from];
    }
  }

  /** One operation: it changes the meaning of the buffers it names and of no other, and shares no storage. */
  method Perform(pool: seq<Buffer>, op: PoolOp) returns (ok: bool)
    requires Pool(pool) && OpFits(op, |pool|)
    modifies pool, Stores(pool)
    ensures Pool(pool) && Cells(pool) == After(old(Cells(pool)), op, ok)
    ensures fresh(Stores(pool) - old(Stores(pool)))
  {
    hide Pool, After;
    ok := true;
    match op {
      case WriteTo(i, b) => ok := WriteInPool(pool, i, b);
      case ReadFrom(i, n) => ok := ReadInPool(pool, i, n);
      case ResetAt(i) => ResetInPool(pool, i);
      case Move(to, from) => MoveInPool(pool, to, from);
    }
  }

  lemma OneMore(cells: seq<Cell>, ops: seq<PoolOp>, oks: seq<bool>, k: nat, ok: bool)
    requires k < |ops| && |oks| == k && forall i :: 0 <= i < |ops| ==> OpFits(ops[i], |cells|)
    ensures AfterAll(cells, ops[..k + 1], oks + [ok]) == After(AfterAll(cells, ops[..k], oks), ops[k], ok)
  {
    hide After, OpFits;
    assert ops[..k + 1][..k] == ops[..k] && (oks + [ok])[..k] == oks;
  }

  /** Any list of operations: at no point is a block shared, and the pool means what the operations say. */
  method RunPool(pool: seq<Buffer>, ops: seq<PoolOp>) returns (oks: seq<bool>)
    requires Pool(pool) && forall k :: 0 <= k < |ops| ==> OpFits(ops[k], |pool|)
    modifies pool, Stores(pool)
    ensures |oks| == |ops| && Pool(pool) && Cells(pool) == AfterAll(old(Cells(pool)), ops, oks)
  {
    hide Pool, After, OpFits;
    oks := [];
    ghost var start := Cells(pool);
    for k := 0 to |ops|
      invariant |oks| == k && Pool(pool)
      invariant fresh(Stores(pool) - old(Stores(pool)))
      invariant Cells(pool) == AfterAll(start, ops[..k], oks)
    {
      var ok := Perform(pool, ops[k]);
      OneMore(start, ops, oks, k, ok);
      oks := oks + [ok];
    }
    assert ops[..|ops|] == ops;
  }
}

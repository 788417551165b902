/**
 * `WideStringPool`: a bounded cache of empty UTF-16 vectors, and the
 * `PooledWideString` it lends out.  A pooled vector is represented by its
 * capacity alone, since `put` clears it before keeping it.
 */
module WidePool {
  import opened Ints
  import opened Errors
  import opened Utf16
  import opened WideCodec
  import opened WideStrings

  /** A string built in a borrowed vector: its units and the vector's capacity. */
  datatype PooledWideString = PooledWideString(buffer: seq<U16>, capacity: nat)
  {
    /** `len`: units without the terminator, never below zero. */
    function Len(): (n: nat)
      ensures |buffer| >= 1 ==> n + 1 == |buffer|
      ensures |buffer| == 0 ==> n == 0
    {
      if |buffer| >= 1 then |buffer| - 1 else 0
    }

    /** `is_empty`. */
    predicate IsEmpty()
    {
      Len() == 0
    }

    /** `as_slice` / `as_ptr`. */
    function AsSlice(): seq<U16>
    {
      buffer
    }

    /** `to_string_lossy`. */
    function ToStringLossy(): (r: string)
      ensures FromWide(buffer).Ok? ==> r == FromWide(buffer).value
      ensures FromWide(buffer).Err? ==> r == Replacement
    {
      match FromWide(buffer)
      case Ok(s) => s
      case Err(_) => Replacement
    }

    /** `into_vec`. */
    function IntoVec(): seq<U16>
    {
      buffer
    }

    /** `into_wide_string`: the units move into a `WideString` via `from_vec`. */
    function IntoWideString(): (w: WideString)
      ensures w.Valid() && w.AsSlice() == buffer
      ensures w.IsInline() <==> |buffer| <= InlineCap
      ensures w.ToStringLossy() == ToStringLossy()
    {
      FromVec(buffer)
    }
  }

  /** `iter().position(|b| b.capacity() >= required)`, or |caps| for none. */
  function FirstFit(caps: seq<nat>, required: nat): (k: nat)
    ensures k <= |caps|
    ensures k < |caps| ==> caps[k] >= required
    ensures forall j | 0 <= j < k :: caps[j] < required
  {
    if caps == [] then 0
    else if caps[0] >= required then 0
    else 1 + FirstFit(caps[1..], required)
  }

  /** `Vec::swap_remove`: the last element takes the place of the removed one. */
  function SwapRemove(s: seq<nat>, i: nat): (r: seq<nat>)
    requires i < |s|
    ensures |r| == |s| - 1
    ensures multiset(r) + multiset{s[i]} == multiset(s)
    ensures i < |r| ==> r[i] == s[|s| - 1]
    ensures forall j | 0 <= j < |r| && j != i :: r[j] == s[j]
  {
    if i == |s| - 1 then
      SwapRemoveLast(s);
      s[..i]
    else
      SwapRemoveInner(s, i);
      s[..i] + [s[|s| - 1]] + s[i + 1..|s| - 1]
  }

  lemma SwapRemoveLast(s: seq<nat>)
    requires |s| >= 1
    ensures multiset(s[..|s| - 1]) + multiset{s[|s| - 1]} == multiset(s)
  {
    assert s == s[..|s| - 1] + [s[|s| - 1]];
  }

  lemma SwapRemoveInner(s: seq<nat>, i: nat)
    requires i < |s| - 1
    ensures multiset(s[..i] + [s[|s| - 1]] + s[i + 1..|s| - 1]) + multiset{s[i]} == multiset(s)
  {
    assert s == s[..i] + [s[i]] + s[i + 1..|s| - 1] + [s[|s| - 1]];
  }

  class WideStringPool {
    /** Capacities of the pooled (empty) vectors, in pool order. */
    var pool: seq<nat>
    var maxSize: nat
    var maxCapacity: nat

    /** The pool's invariant: at most `maxSize` vectors, none above `maxCapacity`. */
    ghost predicate Valid()
      reads this
    {
      |pool| <= maxSize && forall i | 0 <= i < |pool| :: pool[i] <= maxCapacity
    }

    /** `new`: empty, at most 16 vectors of at most 4096 units. */
    constructor ()
      ensures Valid() && pool == [] && maxSize == 16 && maxCapacity == 4096
    {
      pool := [];
      maxSize := 16;
      maxCapacity := 4096;
    }

    /** `with_limits`. */
    constructor WithLimits(maxSize: nat, maxCapacity: nat)
      ensures Valid() && pool == []
      ensures this.maxSize == maxSize && this.maxCapacity == maxCapacity
    {
      pool := [];
      this.maxSize := maxSize;
      this.maxCapacity := maxCapacity;
    }

    /** `with_preallocated`: `count` vectors of `capacity`, limits `count` and
        `max(capacity, 4096)`. */
    constructor WithPreallocated(count: nat, capacity: nat)
      ensures Valid()
      ensures |pool| == count && forall i | 0 <= i < count :: pool[i] == capacity
      ensures maxSize == count && maxCapacity == if capacity > 4096 then capacity else 4096
    {
      pool := [];
      maxSize := count;
      maxCapacity := if capacity > 4096 then capacity else 4096;
      new;
      var n := 0;
      while n < count
        invariant 0 <= n <= count && |pool| == n
        invariant forall i | 0 <= i < n :: pool[i] == capacity
        invariant maxSize == count && maxCapacity == if capacity > 4096 then capacity else 4096
      {
        pool := pool + [capacity];
        n := n + 1;
      }
    }

    /** `len`. */
    function Len(): nat
      reads this
    {
      |pool|
    }

    /** `is_empty`. */
    predicate IsEmpty()
      reads this
    {
      |pool| == 0
    }

    /**
     * `get`: takes the first pooled vector whose capacity suffices for the
     * encoding and its terminator, removing it with `swap_remove`; otherwise a
     * new vector of exactly that capacity is allocated.  The vector is refilled
     * with `to_wide(s)`.
     */
    method Get(s: string) returns (pooled: PooledWideString)
      requires Valid()
      modifies this
      ensures Valid() && maxSize == old(maxSize) && maxCapacity == old(maxCapacity)
      ensures pooled.buffer == ToWide(s) && pooled.capacity >= |pooled.buffer|
      ensures var required := Utf16Len(s) + 1;
        var k := FirstFit(old(pool), required);
        if k < |old(pool)| then
          pool == SwapRemove(old(pool), k) && pooled.capacity == old(pool)[k]
        else
          pool == old(pool) && pooled.capacity == required
    {
      var required := Utf16Len(s) + 1;
      var idx := 0;
      while idx < |pool| && pool[idx] < required
        invariant 0 <= idx <= |pool|
        invariant forall j | 0 <= j < idx :: pool[j] < required
      {
        idx := idx + 1;
      }
      assert idx == FirstFit(pool, required) by { FirstFitUnique(pool, required, idx); }
      var capacity;
      if idx < |pool| {
        capacity := pool[idx];
        pool := SwapRemove(pool, idx);
      } else {
        capacity := required;
      }
      pooled := PooledWideString(ToWide(s), capacity);
    }

    /** `put`: keeps the vector, cleared, only while the pool has room and the
        vector is not oversized; otherwise it is dropped. */
    method Put(pooled: PooledWideString)
      requires Valid()
      modifies this
      ensures Valid() && maxSize == old(maxSize) && maxCapacity == old(maxCapacity)
      ensures if |old(pool)| < maxSize && pooled.capacity <= maxCapacity
        then pool == old(pool) + [pooled.capacity]
        else pool == old(pool)
    {
      if |pool| < maxSize && pooled.capacity <= maxCapacity {
        pool := pool + [pooled.capacity];
      }
    }

    /** `clear`. */
    method Clear()
      requires Valid()
      modifies this
      ensures Valid() && pool == [] && maxSize == old(maxSize) && maxCapacity == old(maxCapacity)
    {
      pool := [];
    }

    /** `shrink_to`: `truncate(size)` keeps the first `size` vectors. */
    method ShrinkTo(size: nat)
      requires Valid()
      modifies this
      ensures Valid() && maxSize == old(maxSize) && maxCapacity == old(maxCapacity)
      ensures pool == if size < |old(pool)| then old(pool)[..size] else old(pool)
    {
      if size < |pool| {
        pool := pool[..size];
      }
    }
  }

  /** The first fit is the only index with its two defining properties. */
  lemma {:induction false} FirstFitUnique(caps: seq<nat>, required: nat, k: nat)
    requires k <= |caps|
    requires k < |caps| ==> caps[k] >= required
    requires forall j | 0 <= j < k :: caps[j] < required
    ensures FirstFit(caps, required) == k
  {
    if caps != [] && caps[0] < required {
      FirstFitUnique(caps[1..], required, k - 1);
    }
  }

  /** `swap_remove` does not keep capacities sorted, although the pool's field
      comment says they are. */
  lemma SwapRemoveUnsorts()
    ensures SwapRemove([8, 16, 32], 0) == [32, 16]
  {
  }

  /** `get` followed by `put` of the same string leaves a pool of the same size
      when the borrowed vector came from the pool. */
  method GetPutKeepsSize(pool: WideStringPool, s: string)
    requires pool.Valid()
    requires FirstFit(pool.pool, Utf16Len(s) + 1) < |pool.pool|
    modifies pool
    ensures pool.Valid() && |pool.pool| == |old(pool.pool)|
    ensures multiset(pool.pool) == multiset(old(pool.pool))
  {
    var pooled := pool.Get(s);
    pool.Put(pooled);
  }

  /** A returned vector is reused by a later `get` that fits in it. */
  method ReuseScenario(s: string, t: string) returns (afterPut: nat, afterReuse: nat)
    requires Utf16Len(t) <= Utf16Len(s) < 4096
    ensures afterPut == 1 && afterReuse == 0
  {
    var pool := new WideStringPool();
    var first := pool.Get(s);
    pool.Put(first);
    afterPut := pool.Len();
    var second := pool.Get(t);
    afterReuse := pool.Len();
  }

  /** With room for two vectors, a third `put` is dropped. */
  method SizeCapScenario(a: string, b: string, c: string) returns (kept: nat)
    requires Utf16Len(a) < 1024 && Utf16Len(b) < 1024 && Utf16Len(c) < 1024
    ensures kept == 2
  {
    var pool := new WideStringPool.WithLimits(2, 1024);
    var x := pool.Get(a);
    assert pool.pool == [];
    var y := pool.Get(b);
    assert pool.pool == [];
    var z := pool.Get(c);
    assert pool.pool == [];
    pool.Put(x);
    assert pool.pool == [x.capacity];
    pool.Put(y);
    assert |pool.pool| == 2;
    pool.Put(z);
    kept := pool.Len();
  }
}

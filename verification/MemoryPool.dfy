// The memory pool: blocks are cut from the front of a reserved range that is made usable
// step by step.  Addresses and sizes are 64-bit words; 0 is the null pointer.
module MemoryPool {
  import opened Arithmetic
  import opened Options
  import opened Orbits

  // Whole pages are added to a size until it reaches `bound`.
  function Rounded(size: nat, bound: nat, page: nat): (r: nat)
    requires page > 0
    ensures r >= size && r >= bound && (r == size || r < bound + page)
    decreases bound - size
  {
    if size >= bound then size else Rounded(size + page, bound, page)
  }

  // The size the pool should grow to: at least one increment more, and whole pages on top until
  // the block fits.
  function Target(size: nat, increment: nat, page: nat, length: nat): nat
    requires page > 0
  {
    Rounded(size + increment, size + length, page)
  }

  // The size that the program finds with sums that wrap round; None if its loop does not end.
  function Wanted(size: nat, increment: nat, page: nat, length: nat): Option<nat>
    requires page > 0
  {
    var t := Rounded((size + increment) % TWO64, (size + length) % TWO64, page);
    if t < TWO64 then Some(t) else None
  }

  // The pool as it is before and after growing; `granted` is the answer of the system.
  function Grown(size: nat, limit: nat, target: nat, granted: bool): nat {
    if size >= limit || !granted then size else if target > limit || target < size then limit else target
  }

  class GOMemoryPool {
    // reserved range, the part of it in use, the part of it that is usable
    var poolStart: nat
    var poolPtr: nat
    var poolEnd: nat
    var poolSize: nat
    const poolLimit: nat
    const poolIncrement: nat
    const pageSize: nat
    var poolAllocs: set<nat>
    var allocError: nat
    // every block cut so far, freed or not
    ghost var blocks: map<nat, nat>

    ghost predicate Valid()
      reads this
    {
      && pageSize > 0 && TWO64 % pageSize == 0 && poolIncrement == 1000 * pageSize
      && poolSize <= poolLimit && poolStart + poolLimit < TWO64 && (poolStart == 0 ==> poolLimit == 0)
      && poolStart <= poolPtr <= poolEnd == poolStart + poolSize
      && (poolPtr == poolEnd ==> poolSize == 0)
      && poolAllocs <= blocks.Keys
      && Inside() && Disjoint()
    }

    // Every block lies between the start of the pool and the pool pointer.
    ghost predicate Inside()
      reads this`blocks, this`poolStart, this`poolPtr
    {
      forall p :: p in blocks ==> poolStart <= p < p + blocks[p] <= poolPtr
    }

    ghost predicate Disjoint()
      reads this`blocks
    {
      forall p, q :: p in blocks && q in blocks && p != q ==> p + blocks[p] <= q || q + blocks[q] <= p
    }

    // A range of `limit` bytes has been reserved at `start`, or none.  Page sizes are powers of
    // two.
    constructor (start: nat, limit: nat, page: nat)
      requires page > 0 && TWO64 % page == 0 && start + limit < TWO64 && (start == 0 ==> limit == 0)
      ensures Valid() && poolSize == 0 && poolAllocs == {} && blocks == map[]
      ensures poolStart == start && poolLimit == limit && pageSize == page
    {
      poolStart, poolPtr, poolEnd, poolSize := start, start, start, 0;
      poolLimit, poolIncrement, pageSize := limit, 1000 * page, page;
      poolAllocs, allocError, blocks := {}, 0, map[];
    }

    // `ends` is false if the loop goes on for ever.
    method GrowPool(length: nat, granted: bool) returns (ends: bool)
      requires Valid() && length < TWO64
      modifies this`poolSize, this`poolEnd
      ensures Valid() && ends == Wanted(old(poolSize), poolIncrement, pageSize, length).Some?
      ensures poolSize == if ends then Grown(old(poolSize), poolLimit,
              Wanted(old(poolSize), poolIncrement, pageSize, length).value, granted)
                          else old(poolSize)
    {
      hide Inside, Disjoint;
      var newSize := (poolSize + poolIncrement) % TWO64;
      var bound := (poolSize + length) % TWO64;
      ghost var first := newSize;
      while newSize < bound
        invariant newSize < TWO64 && Rounded(newSize, bound, pageSize) == Rounded(first, bound, pageSize)
        decreases bound - newSize
      {
        if newSize + pageSize >= TWO64 {
          // from here on it never gets to the bound: see RoundingEnds
          return false;
        }
        newSize := newSize + pageSize;
      }
      if newSize > poolLimit || newSize < poolSize {
        newSize := poolLimit;
      }
      if poolSize >= poolLimit {
        return true;
      }
      if !granted {
        return true;
      }
      poolSize := newSize;
      poolEnd := poolStart + poolSize;
      return true;
    }

    // The block is cut if the pointer stays strictly below the end.
    method TakeBlock(length: nat) returns (data: nat)
      requires Valid() && 0 < length < TWO64
      modifies this`poolPtr, this`allocError, this`blocks
      ensures Valid()
      ensures if old(poolPtr) + length < poolEnd then
                data == old(poolPtr) && blocks == old(blocks)[data := length] && allocError == 0 && data !in old(blocks)
              else data == 0 && blocks == old(blocks) && poolPtr == old(poolPtr) && allocError == old(allocError)
    {
      var newPtr := (poolPtr + length) % TWO64;
      WrapsBelow(poolPtr, length);
      if poolPtr <= newPtr && newPtr < poolEnd {
        data := poolPtr;
        poolPtr := newPtr;
        allocError := 0;
        blocks := blocks[data := length];
        return;
      }
      return 0;
    }

    // `granted` tells whether the system would let the pool grow.  A block of no bytes takes
    // one byte.
    method PoolAlloc(length: nat, granted: bool) returns (ends: bool, data: nat)
      requires Valid() && length < TWO64
      modifies this`poolPtr, this`poolEnd, this`poolSize, this`allocError, this`blocks
      ensures Valid() && Kept(old(blocks)) && poolSize >= old(poolSize)
      ensures ends <==>
                || poolStart == 0
                || old(poolPtr) + Size(length) < old(poolEnd)
                || Wanted(old(poolSize), poolIncrement, pageSize, Size(length)).Some?
      ensures poolSize == if !ends || poolStart == 0 || old(poolPtr) + Size(length) < old(poolEnd) then old(poolSize)
                          else Grown(old(poolSize), poolLimit,
                            Wanted(old(poolSize), poolIncrement, pageSize, Size(length)).value, granted)
      ensures data != 0 <==> Fits(old(poolPtr), old(poolSize), Size(length), granted)
      ensures data != 0 ==> data !in old(blocks) && blocks == old(blocks)[data := Size(length)]
      ensures data == 0 ==> blocks == old(blocks)
      ensures ends && poolStart != 0 ==> (data == 0 <==> allocError > 0)
    {
      hide Wanted, Inside, Disjoint;
      if poolStart == 0 {
        return true, 0;
      }
      var size := if length == 0 then 1 else length;
      data := TakeBlock(size);
      if data != 0 {
        return true, data;
      }
      ends := GrowPool(size, granted);
      if !ends {
        return;
      }
      data := TakeBlock(size);
      if data == 0 {
        allocError := allocError + 1;
      }
    }

    // Blocks are never given up or moved.
    ghost predicate Kept(before: map<nat, nat>)
      reads this
    {
      forall p :: p in before ==> p in blocks && blocks[p] == before[p]
    }

    // There is a pool, and the block ends strictly before the end, at once or after growing.
    ghost predicate Fits(ptr: nat, size: nat, length: nat, granted: bool)
      requires pageSize > 0
      reads this`poolStart
    {
      var wanted := Wanted(size, poolIncrement, pageSize, length);
      poolStart != 0 && (ptr + length < poolStart + size
        || (wanted.Some? && ptr + length < poolStart + Grown(size, poolLimit, wanted.value, granted)))
    }

    // `limited` stands for the test of the memory limit, `other` is what malloc returns.
    method Alloc(length: nat, final: bool, limited: bool, granted: bool, other: nat) returns (ends: bool, data: nat)
      requires Valid() && length < TWO64
      requires other == 0 || other < poolStart || other > poolStart + poolLimit
      modifies this`poolPtr, this`poolEnd, this`poolSize, this`allocError, this`blocks, this`poolAllocs
      ensures Valid() && Kept(old(blocks)) && poolSize >= old(poolSize)
      ensures !ends ==> !limited && final && poolStart != 0 && old(poolPtr) + Size(length) >= old(poolEnd)
                        && Wanted(old(poolSize), poolIncrement, pageSize, Size(length)) == None
      ensures if !limited && final && Fits(old(poolPtr), old(poolSize), Size(length), granted) then
                && data !in old(blocks)
                && blocks == old(blocks)[data := Size(length)]
                && poolAllocs == old(poolAllocs) + {data}
              else
                && (ends ==> data == if limited then 0 else other)
                && blocks == old(blocks)
                && poolAllocs == old(poolAllocs)
    {
      hide Wanted, Grown, Inside, Disjoint;
      if limited {
        return true, 0;
      }
      if !final {
        return true, other;
      }
      ends, data := PoolAlloc(length, granted);
      if !ends {
        return;
      }
      if data != 0 {
        poolAllocs := poolAllocs + {data};
        return;
      }
      data := other;
    }

    predicate InMemoryPool(data: nat)
      reads this
    {
      poolStart <= data <= poolEnd
    }

    // The memory of a block in the pool is not used again.
    method Free(data: nat)
      requires Valid()
      modifies this`poolAllocs
      ensures Valid() && poolAllocs == old(poolAllocs) - {data}
    {
      if data == 0 {
        assert 0 !in poolAllocs by { NullIsNoBlock(); }
        return;
      }
      if InMemoryPool(data) {
        if data in poolAllocs {
          poolAllocs := poolAllocs - {data};
        }
        return;
      }
      assert data !in blocks;
    }

    lemma NullIsNoBlock()
      requires Valid()
      ensures 0 !in blocks
    {
      assert poolStart == 0 ==> poolEnd == 0;
    }
  }

  function Size(length: nat): nat {
    if length == 0 then 1 else length
  }

  // Once the pool may grow as far as it wants, the only block that does not fit is one that
  // would fill it exactly while nothing is free before.
  lemma GrowingMakesRoom(start: nat, ptr: nat, size: nat, limit: nat, increment: nat, page: nat, length: nat)
    requires page > 0 && start <= ptr <= start + size && size < limit < TWO64
             && Target(size, increment, page, length) <= limit
    ensures Wanted(size, increment, page, length) == Some(Target(size, increment, page, length))
    ensures ptr + length < start + Grown(size, limit, Wanted(size, increment, page, length).value, true)
       <==> !(ptr == start + size && Target(size, increment, page, length) == size + length)
  {
  }

  // If part of the pool is free, an allocation fails only if the system refuses to grow the
  // pool or the limit is reached.
  lemma FailsOnlyAtLimit(start: nat, ptr: nat, size: nat, limit: nat, increment: nat, page: nat, length: nat,
      granted: bool)
    requires page > 0 && start <= ptr < start + size && size <= limit < TWO64
    requires var wanted := Wanted(size, increment, page, length);
             wanted == None || ptr + length >= start + Grown(size, limit, wanted.value, granted)
    ensures !granted || size == limit || Target(size, increment, page, length) > limit
  {
    if granted && size < limit && Target(size, increment, page, length) <= limit {
      GrowingMakesRoom(start, ptr, size, limit, increment, page, length);
    }
  }

  // How far the pool grows: not at all if the system refuses or the limit is reached, else as far
  // as wanted, or to the limit if that is less or the wanted size has wrapped round.
  lemma GrowsAsWanted(size: nat, limit: nat, target: nat, granted: bool)
    ensures !granted || size >= limit ==> Grown(size, limit, target, granted) == size
    ensures granted && size <= target <= limit && size < limit ==> Grown(size, limit, target, granted) == target
    ensures granted && size < limit < target ==> Grown(size, limit, target, granted) == limit
    ensures granted && target < size < limit ==> Grown(size, limit, target, granted) == limit
  {
  }

  // The wanted size, without a wrap: an increment more and the fewest whole pages on top that make
  // room for the block.
  lemma {:induction false} FewestPages(n: nat, bound: nat, page: nat, k: nat)
    requires page > 0 && n + k * page >= bound && (k > 0 ==> n + (k - 1) * page < bound)
    ensures Rounded(n, bound, page) == n + k * page
    decreases k
  {
    if k > 0 {
      assert n + k * page == (n + page) + (k - 1) * page;
      assert n + (k - 1) * page == if k > 1 then (n + page) + (k - 2) * page else n;
      assert (k - 1) * page >= 0;
      FewestPages(n + page, bound, page, k - 1);
    }
  }

  // ---------- the loop that adds pages ----------

  function AddPage(bound: nat, page: nat): nat -> Option<nat> {
    n => if n >= bound then None else Some((n + page) % TWO64)
  }

  // With pages that divide 2^64 the loop ends if and only if the bound is not beyond the last
  // size that it can come to before it wraps round.
  lemma RoundingEnds(n: nat, bound: nat, page: nat)
    requires page > 0 && TWO64 % page == 0 && n < TWO64 && bound < TWO64
    ensures Ends(AddPage(bound, page), n) <==> Rounded(n, bound, page) < TWO64
    ensures Rounded(n, bound, page) < TWO64 <==> bound <= TWO64 - page + n % page || n >= bound
  {
    Highest(n, bound, page);
    if Rounded(n, bound, page) < TWO64 {
      ReachesBound(n, bound, page);
    } else {
      forall k: nat ensures After(AddPage(bound, page), n, k) != None {
        NeverReaches(n, bound, page, k);
      }
    }
  }

  lemma {:induction false} ReachesBound(n: nat, bound: nat, page: nat)
    requires page > 0 && n < TWO64 && Rounded(n, bound, page) < TWO64
    ensures Ends(AddPage(bound, page), n)
    decreases bound - n
  {
    if n >= bound {
      assert After(AddPage(bound, page), n, 1) == None;
    } else {
      ReachesBound(n + page, bound, page);
      EndsBefore(AddPage(bound, page), n);
    }
  }

  lemma {:induction false} NeverReaches(n: nat, bound: nat, page: nat, k: nat)
    requires page > 0 && TWO64 % page == 0 && n < bound < TWO64 && bound > TWO64 - page + n % page
    ensures After(AddPage(bound, page), n, k) != None
    decreases k
  {
    if k > 0 {
      var next := (n + page) % TWO64;
      SameRest(n, page);
      LastOfPage(next, page);
      NeverReaches(next, bound, page, k - 1);
    }
  }

  // The words that differ from `n` by whole pages.
  lemma SameRest(n: nat, page: nat)
    requires page > 0 && TWO64 % page == 0 && n < TWO64
    ensures (n + page) % TWO64 % page == n % page
  {
    var next := (n + page) % TWO64;
    var m := TWO64 / page;
    assert m * page == TWO64 && page <= TWO64 by { WholePages(page); }
    MorePages(n, 1, page);
    if n + page >= TWO64 {
      MorePages(next, m, page);
    }
  }

  lemma WholePages(page: nat)
    requires page > 0 && TWO64 % page == 0
    ensures TWO64 / page * page == TWO64 && page <= TWO64
  {
  }

  lemma LastOfPage(n: nat, page: nat)
    requires page > 0 && TWO64 % page == 0
    ensures n < TWO64 ==> n <= TWO64 - page + n % page
    ensures n >= TWO64 - page ==> n >= TWO64 - page + n % page
  {
    var q, m := n / page, TWO64 / page;
    assert n - n % page == q * page && TWO64 == m * page;
    if q > m - 1 {
      Multiple(q - (m - 1), page);
      assert (q - (m - 1)) * page == q * page - m * page + page;
    } else if q < m - 1 {
      Multiple(m - 1 - q, page);
      assert (m - 1 - q) * page == m * page - page - q * page;
    }
  }

  lemma {:induction false} RoundedRest(n: nat, bound: nat, page: nat)
    requires page > 0
    ensures Rounded(n, bound, page) % page == n % page
    decreases bound - n
  {
    if n < bound {
      RoundedRest(n + page, bound, page);
      MorePages(n, 1, page);
    }
  }

  lemma Highest(n: nat, bound: nat, page: nat)
    requires page > 0 && TWO64 % page == 0 && n < TWO64 && bound < TWO64
    ensures Rounded(n, bound, page) < TWO64 <==> bound <= TWO64 - page + n % page || n >= bound
  {
    if n < bound {
      var r := Rounded(n, bound, page);
      RoundedRest(n, bound, page);
      LastOfPage(r, page);
      MorePages(r - page, 1, page);
      LastOfPage(r - page, page);
    }
  }

  lemma MorePages(n: int, q: nat, page: nat)
    requires page > 0
    ensures (n + q * page) % page == n % page
  {
    var d, r := n / page, n % page;
    assert n + q * page == (d + q) * page + r by { assert (d + q) * page == d * page + q * page; }
    Remainder(n + q * page, d + q, page, r);
  }

  lemma WrapsBelow(p: nat, length: nat)
    requires p < TWO64
    ensures length < TWO64 ==> (p <= (p + length) % TWO64 <==> p + length < TWO64)
    ensures p + length < TWO64 ==> (p + length) % TWO64 == p + length
  {
    if TWO64 <= p + length && length < TWO64 {
      assert (p + length) % TWO64 == p + length - TWO64;
    }
  }
}

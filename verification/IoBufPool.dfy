/** The pool of reusable byte buffers (snova/io/io.cc). */
module IoBufPool {
  import opened Wire

  /** A byte vector, of which only the size and the capacity matter here. */
  class IOBuf {
    var size: nat
    var capacity: nat

    constructor ()
      ensures size == capacity == 0
    {
      size, capacity := 0, 0;
    }

    /** `std::vector::resize`; `spare` is what the library allocates beyond need. */
    method Resize(n: nat, spare: nat)
      modifies this
      ensures size == n && capacity == if n <= old(capacity) then old(capacity) else n + spare
    {
      size := n;
      if n > capacity {
        capacity := n + spare;
      }
    }
  }

  ghost function Capacities(s: seq<IOBuf>): nat
    reads s
  {
    if s == [] then 0 else Capacities(s[..|s| - 1]) + s[|s| - 1].capacity
  }

  /** The stack of free buffers and the totals. `lent` are the buffers that are out. */
  class Pool {
    const limit: nat
    var bufs: seq<IOBuf>
    var poolBytes: nat
    var activeNum: nat
    ghost var lent: set<IOBuf>

    /** No buffer is free twice, or free and lent; the totals are exact; the pool is within its limit. */
    ghost predicate Valid()
      reads this, bufs
    {
      && (forall i, j :: 0 <= i < j < |bufs| ==> bufs[i] != bufs[j])
      && (forall i :: 0 <= i < |bufs| ==> bufs[i] !in lent)
      && poolBytes == Capacities(bufs)
      && |bufs| <= limit
      && activeNum == |lent|
    }

    constructor (limit: nat)
      ensures Valid() && bufs == [] && lent == {} && this.limit == limit
    {
      this.limit := limit;
      bufs, poolBytes, activeNum, lent := [], 0, 0, {};
    }

    /** `get_raw_iobuf`: the top of the stack or a new buffer, never one that is out, and large enough. */
    method Get(n: nat, spare: nat) returns (p: IOBuf)
      requires Valid()
      modifies this, bufs
      ensures Valid()
      ensures p !in old(lent) && lent == old(lent) + {p} && p !in bufs
      ensures p.size >= n && p.size >= 8448
      ensures if old(bufs) == [] then fresh(p) && bufs == []
              else p == old(bufs[|bufs| - 1]) && bufs == old(bufs[..|bufs| - 1])
                   && p.size >= old(bufs[|bufs| - 1].size)
      ensures forall b :: b in bufs ==> b.size == old(b.size) && b.capacity == old(b.capacity)
    {
      if bufs == [] {
        p := new IOBuf();
      } else {
        p := bufs[|bufs| - 1];
        bufs := bufs[..|bufs| - 1];
        poolBytes := poolBytes - p.capacity;
      }
      var need := if n < MAX_CHUNK + RESERVED_BUFFER then MAX_CHUNK + RESERVED_BUFFER else n;
      if p.size < need {
        p.Resize(need, spare);
      }
      activeNum := activeNum + 1;
      lent := lent + {p};
    }

    /** `IOBufDeleter`: a buffer that comes back is kept while the pool is below its limit. */
    method Release(v: IOBuf)
      requires Valid() && v in lent
      modifies this
      ensures Valid() && lent == old(lent) - {v}
      ensures bufs == if old(|bufs|) < limit then old(bufs) + [v] else old(bufs)
    {
      activeNum := activeNum - 1;
      if |bufs| < limit {
        poolBytes := poolBytes + v.capacity;
        ghost var before := bufs;
        bufs := bufs + [v];
        assert bufs[..|bufs| - 1] == before;
      }
      lent := lent - {v};
    }

    /** A borrower may grow what it holds; the pool's totals stay exact. */
    method Grow(v: IOBuf, n: nat, spare: nat)
      requires Valid() && v in lent
      modifies v
      ensures Valid() && v.size == n
    {
      v.Resize(n, spare);
    }
  }
}

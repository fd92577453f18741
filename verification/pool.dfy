/**
 * Pool: a bounded LIFO free-list of reusable objects. When the list is empty
 * a request is served by the pool's factory instead.
 */
module Pools {

  class Pool<T> {
    var freeObjects: seq<T>
    const maxSize: nat

    ghost predicate Valid()
      reads this
    {
      |freeObjects| <= maxSize
    }

    constructor (maxSize: nat)
      ensures Valid() && this.maxSize == maxSize && freeObjects == []
    {
      this.maxSize := maxSize;
      freeObjects := [];
    }

    /**
     * Takes the most recently recycled object, or, when none is left, the
     * object `made` that the factory's createObject() produces.
     */
    method GetRecycledObject(made: T) returns (o: T)
      requires Valid()
      modifies this
      ensures Valid()
      ensures old(freeObjects) == [] ==> o == made && freeObjects == []
      ensures old(freeObjects) != [] ==>
        o == old(freeObjects)[|old(freeObjects)| - 1] && freeObjects == old(freeObjects)[..|old(freeObjects)| - 1]
    {
      if |freeObjects| <= 0 {
        return made;
      }
      o := freeObjects[|freeObjects| - 1];
      freeObjects := freeObjects[..|freeObjects| - 1];
    }

    /** Keeps `o` for reuse while there is room; a full pool drops it. */
    method RecycleObject(o: T)
      requires Valid()
      modifies this
      ensures Valid()
      ensures freeObjects == if |old(freeObjects)| < maxSize then old(freeObjects) + [o] else old(freeObjects)
    {
      if |freeObjects| < maxSize {
        freeObjects := freeObjects + [o];
      }
    }
  }

  /** What recycling every object of `objs` in order does to a free-list with room for `max`. */
  function BoundedAppend<T>(free: seq<T>, objs: seq<T>, max: nat): (r: seq<T>)
    requires |free| <= max
    ensures |r| <= max
    ensures free <= r && r <= free + objs
    ensures |r| == if |free| + |objs| <= max then |free| + |objs| else max
  {
    if |free| + |objs| <= max then free + objs else free + objs[..max - |free|]
  }

  /** Recycling two lists one after the other is recycling their concatenation. */
  lemma BoundedAppendTwice<T>(free: seq<T>, a: seq<T>, b: seq<T>, max: nat)
    requires |free| <= max
    ensures BoundedAppend(BoundedAppend(free, a, max), b, max) == BoundedAppend(free, a + b, max)
  {
    var fa := BoundedAppend(free, a, max);
    var whole := BoundedAppend(free, a + b, max);
    assert |BoundedAppend(fa, b, max)| == |whole|;
    forall i | 0 <= i < |whole| ensures BoundedAppend(fa, b, max)[i] == whole[i] {
      assert whole[i] == (free + a + b)[i];
    }
  }

  /**
   * What `n` requests do to a free-list: each takes the most recently
   * recycled object while one is left, and the factory serves the rest.
   */
  function Drained<T>(free: seq<T>, n: nat): (r: seq<T>)
    ensures r <= free
    ensures |r| == if n <= |free| then |free| - n else 0
  {
    if n <= |free| then free[..|free| - n] else []
  }

  /** Serving a requests and then b more is serving a + b requests. */
  lemma DrainedTwice<T>(free: seq<T>, a: nat, b: nat)
    ensures Drained(Drained(free, a), b) == Drained(free, a + b)
  {
  }

  /** Recycles every object of `objs`, in order, as a loop of recycleObject calls does. */
  method RecycleAll<T>(pool: Pool<T>, objs: seq<T>)
    requires pool.Valid()
    modifies pool
    ensures pool.Valid() && pool.freeObjects == BoundedAppend(old(pool.freeObjects), objs, pool.maxSize)
  {
    var i := 0;
    while i < |objs|
      invariant 0 <= i <= |objs| && pool.Valid()
      invariant pool.freeObjects == BoundedAppend(old(pool.freeObjects), objs[..i], pool.maxSize)
    {
      BoundedAppendTwice(old(pool.freeObjects), objs[..i], [objs[i]], pool.maxSize);
      assert objs[..i] + [objs[i]] == objs[..i + 1];
      pool.RecycleObject(objs[i]);
      i := i + 1;
    }
    assert objs[..i] == objs;
  }

  /** Below capacity, an object recycled and then requested again is the same object. */
  method RecycleThenGet<T>(pool: Pool<T>, o: T, made: T) returns (r: T)
    requires pool.Valid() && |pool.freeObjects| < pool.maxSize
    modifies pool
    ensures r == o && pool.freeObjects == old(pool.freeObjects) && pool.Valid()
  {
    pool.RecycleObject(o);
    r := pool.GetRecycledObject(made);
  }

  /** At capacity, a recycled object is dropped and the free-list is unchanged. */
  method RecycleWhenFull<T>(pool: Pool<T>, o: T)
    requires pool.Valid() && |pool.freeObjects| == pool.maxSize
    modifies pool
    ensures pool.freeObjects == old(pool.freeObjects) && pool.Valid()
  {
    pool.RecycleObject(o);
  }
}

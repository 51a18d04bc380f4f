/**
 The local cache (cache.go): a plain or segmented LRU store behind one interface, created by the first
 write. The store is the class of Lru.dfy or Slru.dfy; what it holds is read as a value of Stores.dfy.
 */
module Caches {
  import opened Entries
  import opened Stores
  import opened LruCaches
  import opened SlruCaches
  import opened Counter
  import opened CounterLaws
  import opened Decimal
  import L = LruModel
  import S = SlruModel

  /** What the first write creates. */
  function EmptyStore(cacheBytes: int, useSLRU: bool, ratio: real): Store {
    if useSLRU then Segmented(S.Init(cacheBytes, S.ProtectedMax(cacheBytes, Ratio(ratio))))
    else Plain(L.Init(cacheBytes))
  }

  class Cache {
    const cacheBytes: int
    const useSLRU: bool
    const slruProtectedRatio: real
    var lru: LruCache?
    var slru: SlruCache?

    ghost function Repr(): set<object>
      reads this
    {
      {this} + (if lru == null then {} else {lru}) + (if slru == null then {} else {slru})
    }

    ghost predicate Valid()
      reads Repr()
    {
      Stocked() && Model().Inv()
    }

    /** The store, if any, is of the configured kind and size. */
    ghost predicate Stocked()
      reads Repr()
    {
      if useSLRU then
        lru == null && (slru != null ==>
          slru.Valid() && slru.maxBytes == cacheBytes && slru.protectedRatio == Ratio(slruProtectedRatio))
      else
        cacheBytes >= 0 && slru == null && (lru != null ==> lru.Valid() && lru.maxBytes == cacheBytes)
    }

    ghost function Empty(): Store { EmptyStore(cacheBytes, useSLRU, slruProtectedRatio) }

    ghost function Model(): LocalCache
      reads Repr()
    {
      LocalCache(Empty(), if slru != null then Some(Segmented(slru.Model()))
                          else if lru != null then Some(Plain(lru.Model())) else None)
    }

    /** A plain LRU store needs a capacity that is not negative (LruModel.LoopEnds). */
    constructor (cacheBytes: int, useSLRU: bool, slruProtectedRatio: real)
      requires useSLRU || cacheBytes >= 0
      ensures Valid() && fresh(Repr()) && Model() == LocalCache(Empty(), None)
      ensures this.cacheBytes == cacheBytes && this.useSLRU == useSLRU && this.slruProtectedRatio == slruProtectedRatio
    {
      this.cacheBytes, this.useSLRU, this.slruProtectedRatio := cacheBytes, useSLRU, slruProtectedRatio;
      lru, slru := null, null;
      new;
      StockedInv();
    }

    /** What the stores keep is what Stores asks for. */
    lemma StockedInv()
      requires Stocked()
      ensures Valid()
    {
      if useSLRU && cacheBytes > 0 { S.ProtectedMaxBounds(cacheBytes, Ratio(slruProtectedRatio)); }
    }

    method EnsureStore()
      requires Valid()
      modifies Repr()
      ensures Valid() && fresh(Repr() - old(Repr()))
      ensures lru != null || slru != null
      ensures Model() == LocalCache(Empty(), Some(old(Model()).Seen()))
    {
      if lru != null || slru != null { return; }
      if useSLRU {
        slru := new SlruCache(cacheBytes, slruProtectedRatio);
      } else {
        lru := new LruCache(cacheBytes);
      }
    }

    /** An operation of the store that is there. */
    method Forward(op: Op) returns (r: Option<View>)
      requires Valid() && (lru != null || slru != null)
      modifies Repr()
      ensures Valid() && Repr() == old(Repr())
      ensures Model().store.Some? && (Model().Seen(), r) == Step(old(Model()).Seen(), op)
    {
      if slru != null {
        r := slru.Apply(op);
      } else {
        r := lru.Apply(op);
      }
    }

    /** Any operation; only a write creates the store. */
    method Do(op: Op) returns (r: Option<View>)
      requires Valid()
      modifies Repr()
      ensures Valid() && fresh(Repr() - old(Repr()))
      ensures (Model(), r) == LazyStep(old(Model()), op)
    {
      if op.Add? {
        EnsureStore();
      } else if lru == null && slru == null {
        return None;
      }
      r := Forward(op);
    }

    /** The new store and answer are those of Counter.Increment on what the cache held. */
    method Increment(k: Key, delta: int, ttl: int, now: int, wrote: int) returns (r: Outcome)
      requires Valid()
      modifies Repr()
      ensures Valid() && fresh(Repr() - old(Repr()))
      ensures (Model().Seen(), r) == Counter.Increment(DECIMAL, old(Model()).Seen(), k, delta, ttl, now, wrote)
      ensures AnswerOk(Step(old(Model()).Seen(), Get(k, now)).1, delta, r,
                       old(Model()).Seen().Items(), Model().Seen().Items())
    {
      IncrementAnswers(Model().Seen(), k, delta, ttl, now, wrote);
      EnsureStore();
      StepInv(Model().Seen(), Get(k, now));
      var v := Forward(Get(k, now));
      r := WriteNext(v, k, delta, ttl, wrote);
    }

    /** The rest of an increment, after the lookup answered `v`. */
    method WriteNext(v: Option<View>, k: Key, delta: int, ttl: int, wrote: int) returns (r: Outcome)
      requires Valid() && (lru != null || slru != null)
      modifies Repr()
      ensures Valid() && Repr() == old(Repr())
      ensures (Model().Seen(), r) == WriteBack(DECIMAL, old(Model()).Seen(), v, k, delta, ttl, wrote)
    {
      var current := ReadCurrent(v);
      if current.None? { return NonNumeric; }
      var next := DECIMAL.wrap(current.value + delta);
      var _ := Forward(Rewritten(DECIMAL, k, next, ttl, wrote));
      return Counted(next);
    }
  }

  /** What a valid local cache of the given size holds. */
  ghost function Held(c: Cache, perShard: int): Option<Store>
    reads c.Repr()
  {
    if c.Valid() && c.Model().Seen().Inv() && c.Model().Seen().MaxBytes() == perShard
    then Some(c.Model().Seen()) else None
  }

  method NewCache(cacheBytes: int, useSLRU: bool, ratio: real) returns (c: Cache)
    requires useSLRU || cacheBytes >= 0
    ensures fresh(c.Repr()) && c.cacheBytes == cacheBytes
    ensures Held(c, cacheBytes) == Some(EmptyStore(cacheBytes, useSLRU, ratio))
    ensures EmptyStore(cacheBytes, useSLRU, ratio).Inv()
  {
    c := new Cache(cacheBytes, useSLRU, ratio);
  }

  /** One operation, told by what the cache holds before and after. */
  method Ask(c: Cache, op: Op, ghost st: Store, ghost perShard: int) returns (r: Option<View>, ghost next: Store)
    requires Held(c, perShard) == Some(st)
    modifies c.Repr()
    ensures fresh(c.Repr() - old(c.Repr()))
    ensures Held(c, perShard) == Some(next) && (next, r) == Step(st, op)
  {
    LazyIsEager(c.Model(), op);
    StepInv(st, op);
    next := Step(st, op).0;
    r := c.Do(op);
  }

  method AskIncrement(
      c: Cache, k: Key, delta: int, ttl: int, now: int, wrote: int, ghost st: Store, ghost perShard: int)
      returns (r: Outcome, ghost next: Store)
    requires Held(c, perShard) == Some(st)
    modifies c.Repr()
    ensures fresh(c.Repr() - old(c.Repr()))
    ensures Held(c, perShard) == Some(next) && (next, r) == Counter.Increment(DECIMAL, st, k, delta, ttl, now, wrote)
  {
    next := Counter.Increment(DECIMAL, st, k, delta, ttl, now, wrote).0;
    r := c.Increment(k, delta, ttl, now, wrote);
  }

  /** The number an increment starts from. */
  method ReadCurrent(v: Option<View>) returns (n: Option<int>)
    ensures n == Current(DECIMAL, v)
  {
    n := Some(0);
    if v.Some? && !v.value.notFound && |v.value.bytes| > 0 {
      n := ParseNumericValue(v.value.bytes);
    }
  }
}

/**
 A group's storage (cache.go `Cache`, groupcache_config.go `newConfiguredCache`): one local cache, or a
 sharded one. Either is seen as a list of stores; an unsharded cache is a list of one.
 */
module Storages {
  import opened Entries
  import opened Stores
  import C = Caches
  import opened Counter
  import S = Sharding
  import ShardedCaches

  datatype Options = Options(cacheBytes: int, useShards: bool, shards: nat, useSLRU: bool, ratio: real)
  {
    function Shards(): (m: nat)
      ensures m > 0
    {
      if useShards then S.ShardCount(shards) else 1
    }

    function PerShard(): int { if useShards then S.PerShardBytes(cacheBytes, Shards()) else cacheBytes }

    /** An unsharded plain LRU store needs a capacity that is not negative (LruModel.LoopEnds). */
    predicate Usable() { useShards || useSLRU || cacheBytes >= 0 }

    /** The stores of a new cache. */
    function Start(): seq<Store> { seq(Shards(), _ => C.EmptyStore(PerShard(), useSLRU, ratio)) }
  }

  class Storage {
    const one: C.Cache?
    const many: ShardedCaches.ShardedCache?
    const perShard: int
    ghost var shown: seq<Store>
    ghost var Repr: set<object>

    ghost predicate Valid()
      reads this, Repr
    {
      && this in Repr && (one == null <==> many != null)
      && (one != null ==>
            && one in Repr && one.Repr() <= Repr && this !in one.Repr()
            && |shown| == 1 && C.Held(one, perShard) == Some(shown[0]))
      && (many != null ==>
            && many in Repr && many.Repr <= Repr && this !in many.Repr
            && many.Valid() && many.seed == S.SEED && many.shown == shown)
    }

    constructor (o: Options)
      requires o.Usable()
      ensures Valid() && fresh(Repr) && shown == o.Start()
      ensures |shown| == if !o.useShards then 1 else if o.shards == 0 then 256 else o.shards
      ensures forall i :: 0 <= i < |shown| ==> shown[i].Items() == [] && (shown[i].Segmented? <==> o.useSLRU)
      ensures forall i :: 0 <= i < |shown| ==> shown[i].MaxBytes() == o.PerShard()
    {
      perShard := o.PerShard();
      if o.useShards {
        S.PartsFit(o.cacheBytes, o.Shards());
        var c := new ShardedCaches.ShardedCache(S.SEED, o.Shards(), o.PerShard(), o.useSLRU, o.ratio);
        one, many := null, c;
        shown, Repr := c.shown, {this} + c.Repr;
      } else {
        var c := C.NewCache(o.cacheBytes, o.useSLRU, o.ratio);
        one, many := c, null;
        shown, Repr := o.Start(), {this} + c.Repr();
      }
    }

    lemma Stocked()
      requires Valid()
      ensures S.Stocked(shown)
    {
    }

    /** A lookup, write or removal. */
    method Do(op: Op) returns (r: Option<View>)
      requires Valid() && S.Suits(S.One(op), |shown|)
      modifies Repr
      ensures Valid() && fresh(Repr - old(Repr)) && |shown| == |old(shown)|
      ensures S.Stocked(old(shown)) && (shown, r) == S.Dispatch(old(shown), S.SEED, S.One(op))
    {
      if many != null {
        r := AskMany(op);
      } else {
        assert shown == [shown[0]];
        S.LoneShard(shown[0], S.SEED, op);
        r := AskOne(op);
      }
    }

    method AskMany(op: Op) returns (r: Option<View>)
      requires Valid() && many != null && S.Suits(S.One(op), |shown|)
      modifies Repr
      ensures Valid() && fresh(Repr - old(Repr)) && |shown| == |old(shown)|
      ensures S.Stocked(old(shown)) && (shown, r) == S.Dispatch(old(shown), S.SEED, S.One(op))
    {
      r := many.Do(op);
      shown, Repr := many.shown, Repr + many.Repr;
    }

    /** An operation of the unsharded cache. */
    method AskOne(op: Op) returns (r: Option<View>)
      requires Valid() && one != null
      modifies Repr
      ensures Valid() && fresh(Repr - old(Repr))
      ensures shown == [Step(old(shown)[0], op).0] && r == Step(old(shown)[0], op).1
    {
      ghost var st;
      r, st := C.Ask(one, op, shown[0], perShard);
      shown, Repr := [st], Repr + one.Repr();
    }

    method Increment(k: Key, delta: int, ttl: int, now: int, wrote: int) returns (r: Outcome)
      requires Valid()
      modifies Repr
      ensures Valid() && fresh(Repr - old(Repr)) && |shown| == |old(shown)|
      ensures S.Stocked(old(shown)) && (shown, r) == S.Increment(DECIMAL, old(shown), S.SEED, k, delta, ttl, now, wrote)
    {
      if many != null {
        r := IncrementMany(k, delta, ttl, now, wrote);
      } else {
        ghost var u := DECIMAL;
        assert shown == [shown[0]];
        S.LoneIncrement(u, shown[0], S.SEED, k, delta, ttl, now, wrote);
        r := IncrementOne(k, delta, ttl, now, wrote);
        assert shown == [shown[0]];
      }
    }

    method IncrementMany(k: Key, delta: int, ttl: int, now: int, wrote: int) returns (r: Outcome)
      requires Valid() && many != null
      modifies Repr
      ensures Valid() && fresh(Repr - old(Repr)) && |shown| == |old(shown)|
      ensures S.Stocked(old(shown)) && (shown, r) == S.Increment(DECIMAL, old(shown), S.SEED, k, delta, ttl, now, wrote)
    {
      r := many.Increment(k, delta, ttl, now, wrote);
      shown, Repr := many.shown, Repr + many.Repr;
    }

    method IncrementOne(k: Key, delta: int, ttl: int, now: int, wrote: int) returns (r: Outcome)
      requires Valid() && one != null
      modifies Repr
      ensures Valid() && fresh(Repr - old(Repr)) && |shown| == 1
      ensures (shown[0], r) == Counter.Increment(DECIMAL, old(shown)[0], k, delta, ttl, now, wrote)
    {
      ghost var st;
      r, st := C.AskIncrement(one, k, delta, ttl, now, wrote, shown[0], perShard);
      shown, Repr := [st], Repr + one.Repr();
    }

    /** Every store is swept, with clock readings of its own. */
    method ClearupExpired(clocks: seq<Clock>)
      requires Valid() && |clocks| == |shown|
      modifies Repr
      ensures Valid() && fresh(Repr - old(Repr)) && |shown| == |old(shown)|
      ensures S.Stocked(old(shown)) && shown == S.Dispatch(old(shown), S.SEED, S.SweepAll(clocks)).0
    {
      if many != null {
        many.ClearupExpired(clocks);
        shown, Repr := many.shown, Repr + many.Repr;
      } else {
        assert clocks == [clocks[0]] && shown == [shown[0]];
        S.LoneSweep(shown[0], S.SEED, clocks[0]);
        var _ := AskOne(Sweep(clocks[0]));
      }
    }
  }
  /** What a storage shows when it is in order. */
  ghost function Contents(s: Storage): Option<seq<Store>>
    reads s, s.Repr
  {
    if s.Valid() then Some(s.shown) else None
  }
  method NewStorage(o: Options) returns (s: Storage)
    requires o.Usable()
    ensures fresh(s.Repr) && s in s.Repr && Contents(s) == Some(o.Start()) && S.Unused(o.Start())
  {
    s := new Storage(o);
    s.Stocked();
  }

  // ----- for a caller that knows a storage by its contents `cs`

  method Ask(s: Storage, a: S.Act, ghost cs: seq<Store>) returns (r: Option<View>)
    requires Contents(s) == Some(cs) && S.Suits(a, |cs|)
    modifies s.Repr
    ensures fresh(s.Repr - old(s.Repr)) && s in s.Repr
    ensures S.Stocked(cs)
    ensures Contents(s) == Some(S.Dispatch(cs, S.SEED, a).0) && r == S.Dispatch(cs, S.SEED, a).1
  {
    match a
    case One(op) => r := s.Do(op);
    case SweepAll(clocks) =>
      s.ClearupExpired(clocks);
      r := None;
  }
}

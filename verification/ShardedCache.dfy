/**
 The sharded cache as the program keeps it (sharded.go): a list of local caches that share nothing.
 `shown` is what each of them holds, and changes as Sharding.Dispatch says.
 */
module ShardedCaches {
  import opened Entries
  import opened Stores
  import opened Caches
  import opened Counter
  import opened Sharding

  /** A list of new local caches that share nothing. */
  ghost predicate Fresh(cs: seq<Cache>, objs: set<object>, st: Store, perShard: int)
    reads objs
  {
    && (forall i :: 0 <= i < |cs| ==> cs[i] in objs && cs[i].Repr() <= objs)
    && (forall i, j :: 0 <= i < j < |cs| ==> cs[i].Repr() !! cs[j].Repr())
    && (forall i :: 0 <= i < |cs| ==> Held(cs[i], perShard) == Some(st))
  }

  method MakeShards(m: nat, perShard: int, useSLRU: bool, ratio: real) returns (cs: seq<Cache>, ghost objs: set<object>)
    requires perShard >= 1
    ensures |cs| == m && fresh(objs) && Fresh(cs, objs, EmptyStore(perShard, useSLRU, ratio), perShard)
  {
    cs, objs := [], {};
    while |cs| < m
      invariant |cs| <= m && fresh(objs) && Fresh(cs, objs, EmptyStore(perShard, useSLRU, ratio), perShard)
    {
      var c := NewCache(perShard, useSLRU, ratio);
      cs := cs + [c];
      objs := objs + c.Repr();
    }
  }

  class ShardedCache {
    const seed: bv32
    const perShard: int
    const cs: seq<Cache>
    ghost var shown: seq<Store>
    ghost var Repr: set<object>

    ghost predicate Valid()
      reads this, Repr
    {
      && this in Repr && |cs| == |shown| > 0 && perShard >= 1
      && (forall i :: 0 <= i < |cs| ==> cs[i] in Repr && cs[i].Repr() <= Repr && this !in cs[i].Repr())
      && (forall i, j :: 0 <= i < j < |cs| ==> cs[i].Repr() !! cs[j].Repr())
      && (forall i :: 0 <= i < |cs| ==> Held(cs[i], perShard) == Some(shown[i]))
    }

    constructor (seed: bv32, m: nat, perShard: int, useSLRU: bool, ratio: real)
      requires m > 0 && perShard >= 1
      ensures Valid() && fresh(Repr) && this.seed == seed && this.perShard == perShard && |cs| == m
      ensures forall i :: 0 <= i < m ==> shown[i] == EmptyStore(perShard, useSLRU, ratio)
    {
      var made, objs := MakeShards(m, perShard, useSLRU, ratio);
      this.seed, this.perShard, cs := seed, perShard, made;
      shown := seq(m, _ => EmptyStore(perShard, useSLRU, ratio));
      Repr := {this} + objs;
    }

    method Do(op: Op) returns (r: Option<View>)
      requires Valid() && Suits(One(op), |cs|)
      modifies Repr
      ensures Valid() && fresh(Repr - old(Repr))
      ensures (shown, r) == Dispatch(old(shown), seed, One(op))
    {
      var h := Djb33(seed, op.key);
      var i := h as nat % |cs|;
      r := AskShard(i, op);
    }

    /** An increment changes the key's own shard only. */
    method Increment(k: Key, delta: int, ttl: int, now: int, wrote: int) returns (r: Outcome)
      requires Valid()
      modifies Repr
      ensures Valid() && fresh(Repr - old(Repr))
      ensures Stocked(old(shown))
      ensures (shown, r) == Sharding.Increment(DECIMAL, old(shown), seed, k, delta, ttl, now, wrote)
    {
      ghost var u := DECIMAL;
      IncrementsOwnShard(u, shown, seed, k, delta, ttl, now, wrote);
      var h := Djb33(seed, k);
      var i := h as nat % |cs|;
      r := IncrementShard(i, k, delta, ttl, now, wrote);
    }

    method IncrementShard(i: nat, k: Key, delta: int, ttl: int, now: int, wrote: int) returns (r: Outcome)
      requires Valid() && i < |cs|
      modifies Repr
      ensures Valid() && fresh(Repr - old(Repr))
      ensures (shown[i], r) == Counter.Increment(DECIMAL, old(shown)[i], k, delta, ttl, now, wrote)
      ensures shown == old(shown)[i := shown[i]]
    {
      ghost var st;
      r, st := AskIncrement(cs[i], k, delta, ttl, now, wrote, shown[i], perShard);
      shown, Repr := shown[i := st], Repr + cs[i].Repr();
      Revalidated(i);
    }

    /** Any run of calls is a run of Sharding.RunCalls. */
    method Replay(calls: seq<Call>)
      requires Valid() && forall l :: l in calls ==> Fits(l, |cs|)
      modifies Repr
      ensures Valid() && fresh(Repr - old(Repr))
      ensures Sound(old(shown), perShard) && shown == RunCalls(DECIMAL, old(shown), seed, calls, perShard)
    {
      var i := 0;
      ghost var u := DECIMAL;
      assert calls[0..] == calls;
      while i < |calls|
        invariant 0 <= i <= |calls| && Valid() && fresh(Repr - old(Repr)) && Sound(shown, perShard)
        invariant RunCalls(u, shown, seed, calls[i..], perShard) == RunCalls(u, old(shown), seed, calls, perShard)
      {
        RunCallsStep(u, shown, seed, calls, i, perShard);
        Perform(calls[i]);
        i := i + 1;
      }
    }

    method Perform(l: Call)
      requires Valid() && Fits(l, |cs|)
      modifies Repr
      ensures Valid() && fresh(Repr - old(Repr))
      ensures Stocked(old(shown)) && shown == Sharding.Perform(DECIMAL, old(shown), seed, l)
    {
      match l
      case Plain(One(op)) => var _ := Do(op);
      case Plain(SweepAll(clocks)) => ClearupExpired(clocks);
      case Inc(k, d, ttl, now, wrote) => var _ := Increment(k, d, ttl, now, wrote);
    }

    /** Every shard is swept, with clock readings of its own. */
    method ClearupExpired(clocks: seq<Clock>)
      requires Valid() && |clocks| == |cs|
      modifies Repr
      ensures Valid() && fresh(Repr - old(Repr))
      ensures shown == Dispatch(old(shown), seed, SweepAll(clocks)).0
    {
      ghost var all := Dispatch(shown, seed, SweepAll(clocks)).0;
      for i := 0 to |cs|
        invariant Valid() && fresh(Repr - old(Repr))
        invariant forall j :: 0 <= j < i ==> shown[j] == all[j]
        invariant forall j :: i <= j < |cs| ==> shown[j] == old(shown)[j]
      {
        var _ := AskShard(i, Sweep(clocks[i]));
      }
      assert shown == all;
    }

    /** When only shard `i` has changed, and grew only by new objects, the whole is valid again. */
    twostate lemma Revalidated(i: nat)
      requires old(Valid()) && i < |cs| && unchanged(old(Repr - cs[i].Repr()) - {this})
      requires fresh(cs[i].Repr() - old(cs[i].Repr())) && Repr == old(Repr) + cs[i].Repr()
      requires |shown| == |cs| && shown == old(shown)[i := shown[i]] && Held(cs[i], perShard) == Some(shown[i])
      ensures Valid()
    {
      OthersKept(i);
    }

    twostate lemma OthersKept(i: nat)
      requires old(Valid()) && i < |cs| && unchanged(old(Repr - cs[i].Repr()) - {this})
      ensures forall j :: 0 <= j < |cs| && j != i ==> cs[j].Repr() == old(cs[j].Repr())
      ensures forall j :: 0 <= j < |cs| && j != i ==> Held(cs[j], perShard) == Some(old(shown)[j])
    {
    }

    method AskShard(i: nat, op: Op) returns (r: Option<View>)
      requires Valid() && i < |cs|
      modifies Repr
      ensures Valid() && fresh(Repr - old(Repr))
      ensures (shown[i], r) == Step(old(shown)[i], op) && shown == old(shown)[i := shown[i]]
    {
      ghost var st;
      r, st := Ask(cs[i], op, shown[i], perShard);
      shown, Repr := shown[i := st], Repr + cs[i].Repr();
      Revalidated(i);
    }
  }
}

/**
 The plain LRU cache as the program keeps it (internal/lru/lru.go): a list, a key map and a byte
 counter. Every method is proved to do what LruModel does.

 The map's pointer to a list element is modelled as membership: the element is the entry with that
 key in the list. `evicted` records the calls made to the eviction callback. A negative capacity is
 accepted, but nothing may be added then, because the capacity loop would not end (LruModel.LoopEnds).
 */
module LruCaches {
  import opened Entries
  import M = LruModel

  class LruCache {
    const maxBytes: int
    var curbytes: int
    var ll: seq<Entry>
    var cache: set<Key>
    ghost var evicted: seq<(Key, View)>

    ghost function Model(): M.Lru reads this { M.Lru(maxBytes, ll, evicted) }

    /** The map holds exactly the listed keys and the counter is the sum of the costs. */
    ghost predicate Linked()
      reads this
    {
      && Distinct(ll)
      && (forall k :: k in cache <==> HasKey(ll, k))
      && curbytes == Bytes(ll)
    }

    ghost predicate Valid()
      reads this
    {
      Linked() && Model().Inv()
    }

    constructor (maxBytes: int)
      ensures Valid() && Model() == M.Init(maxBytes)
    {
      this.maxBytes := maxBytes;
      curbytes, ll, cache, evicted := 0, [], {}, [];
    }

    method Unlink(k: Key)
      requires Linked() && k in cache
      modifies this
      ensures Linked() && Model() == M.Delete(old(Model()), k)
      ensures ll == Without(old(ll), k)
      ensures evicted == old(evicted) + [(k, EntryFor(old(ll), k).value)]
    {
      var kv := EntryFor(ll, k);
      WithoutPresent(ll, k);
      KeysAfterRemoval(ll, k);
      CallsPushFront(kv, []);
      assert [kv] + [] == [kv];
      ll := Without(ll, k);
      cache := cache - {k};
      curbytes := curbytes - kv.Cost();
      evicted := evicted + [(kv.key, kv.value)];
    }

    /** The entry replaces its key's entry, if any, at the front of the list. */
    method PushFront(kv: Entry)
      requires Linked()
      modifies this
      ensures Linked() && evicted == old(evicted)
      ensures ll == [kv] + Without(old(ll), kv.key)
    {
      KeysAfterRemoval(ll, kv.key);
      KeysAfterPush(kv, Without(ll, kv.key));
      DistinctPushFront(kv, Without(ll, kv.key));
      BytesPushFront(kv, Without(ll, kv.key));
      if kv.key in cache {
        var prev := EntryFor(ll, kv.key);
        WithoutPresent(ll, kv.key);
        curbytes := curbytes + |kv.value.bytes| - |prev.value.bytes|;
      } else {
        WithoutAbsent(ll, kv.key);
        cache := cache + {kv.key};
        curbytes := curbytes + |kv.key| + |kv.value.bytes|;
      }
      ll := [kv] + Without(ll, kv.key);
    }

    method Get(k: Key, now: int) returns (r: Option<View>)
      requires Valid()
      modifies this
      ensures Valid() && (Model(), r) == M.Lookup(old(Model()), k, now)
    {
      if k !in cache { return None; }
      var kv := EntryFor(ll, k);
      M.DeleteInv(Model(), k);
      if kv.Expired(now) {
        Unlink(k);
        return None;
      }
      PushFront(kv);
      return Some(kv.value);
    }

    method RemoveOldest()
      requires Linked()
      modifies this
      ensures Linked() && Model() == M.DropOldest(old(Model()))
      ensures old(Valid()) ==> Valid()
    {
      if old(Valid()) { M.DropOldestInv(Model()); }
      if |ll| > 0 {
        M.DeleteLast(Model());
        Unlink(ll[|ll| - 1].key);
      }
    }

    method AddWithTTL(k: Key, value: View, ttl: int, now: int)
      requires Valid() && maxBytes >= 0
      modifies this
      ensures Valid()
      ensures Model() == M.Put(old(Model()), Entry(k, value, ExpiryOf(ttl, now)))
      ensures HasKey(Model().items, k) ==> Written(EntryFor(Model().items, k), value, ttl, now)
    {
      M.PutFinds(Model(), Entry(k, value, ExpiryOf(ttl, now)));
      var kv := Entry(k, value, if ttl > 0 then Some(now + ttl) else None);
      M.PutInv(Model(), kv);
      PushFront(kv);
      EnforceLimit();
    }

    /** The capacity loop. */
    method EnforceLimit()
      requires Linked() && maxBytes >= 0
      modifies this
      ensures Linked() && Model() == M.Evict(old(Model()))
    {
      M.CutStart(Model());
      while maxBytes != 0 && curbytes > maxBytes
        invariant Linked() && M.CutOf(Model(), old(Model()))
        invariant maxBytes == 0 ==> Model() == old(Model())
        decreases |ll|
      {
        M.CutStep(Model(), old(Model()));
        RemoveOldest();
      }
      M.CutDone(Model(), old(Model()));
    }

    method Remove(k: Key)
      requires Valid()
      modifies this
      ensures Valid() && Model() == M.Delete(old(Model()), k)
    {
      M.DeleteInv(Model(), k);
      if k in cache { Unlink(k); }
    }

    /** The sweep: from back to front, with a clock reading per entry. */
    method RemoveExpired(c: Clock)
      requires Valid()
      modifies this
      ensures Valid() && Model() == M.Purge(old(Model()), c)
    {
      ghost var s, log := ll, evicted;
      SurvivorsDistinct(ll, c);
      SweepEnds(s, log, c);
      var n, i := |ll|, |ll|;
      while i > 0
        invariant 0 <= i <= n == |s| && Linked()
        invariant (ll, evicted) == Swept(s, log, i, c)
      {
        Judge(s, log, i, c, n - i);
        i := i - 1;
      }
    }

    method Judge(ghost s: seq<Entry>, ghost log: seq<(Key, View)>, i: nat, c: Clock, j: nat)
      requires Linked() && 0 < i <= |s| && j == |s| - i && (ll, evicted) == Swept(s, log, i, c)
      modifies this
      ensures Linked() && (ll, evicted) == Swept(s, log, i - 1, c)
    {
      SweepJudged(s, log, i, c);
      var kv := ll[i - 1];
      if kv.Expired(At(c, j)) {
        Unlink(kv.key);
      }
    }

    method Apply(op: Op) returns (r: Option<View>)
      requires Valid() && (op.Add? ==> maxBytes >= 0)
      modifies this
      ensures Valid() && (Model(), r) == M.Step(old(Model()), op)
    {
      r := None;
      match op
      case Get(k, now) => r := Get(k, now);
      case Add(k, v, ttl, now) => AddWithTTL(k, v, ttl, now);
      case Remove(k) => Remove(k);
      case RemoveOldest => RemoveOldest();
      case Sweep(c) => RemoveExpired(c);
    }

    /** Any run of operations is a run of the model. */
    method Replay(ops: seq<Op>)
      requires Valid() && (maxBytes < 0 ==> forall op :: op in ops ==> !op.Add?)
      modifies this
      ensures Valid() && Model() == M.Run(old(Model()), ops)
    {
      var i := 0;
      assert ops[0..] == ops;
      while i < |ops|
        invariant 0 <= i <= |ops| && Valid()
        invariant M.Run(Model(), ops[i..]) == M.Run(old(Model()), ops)
      {
        assert ops[i..][1..] == ops[i + 1..];
        var _ := Apply(ops[i]);
        i := i + 1;
      }
    }
  }
}

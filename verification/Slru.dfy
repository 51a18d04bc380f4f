/**
 The segmented LRU cache as the program keeps it (internal/lru/slru.go): two lists, a key map with
 segment tags and three byte counters, all updated by hand. Every method is proved to do to the two
 lists what SlruModel does to one list with a split.

 The map's pointer to a list element is modelled as the segment tag: the element is the entry with
 that key in the list the tag names. `evicted` records the calls made to the eviction callback.
 */
module SlruCaches {
  import opened Entries
  import M = SlruModel

  datatype Segment = Probation | Protected

  /** A ratio outside (0, 1) is replaced by the default. */
  function Ratio(r: real): (p: real)
    ensures 0.0 < p < 1.0
  {
    if r <= 0.0 || r >= 1.0 then 0.8 else r
  }

  /** The map is exactly the disjoint union of the lists, and its tags name the lists. */
  ghost predicate TaggedBy(hot: seq<Entry>, cold: seq<Entry>, cache: map<Key, Segment>) {
    && Distinct(hot + cold)
    && (forall k :: k in cache && cache[k] == Protected <==> HasKey(hot, k))
    && (forall k :: k in cache && cache[k] == Probation <==> HasKey(cold, k))
  }

  lemma TaggedRemove(hot: seq<Entry>, cold: seq<Entry>, cache: map<Key, Segment>, k: Key)
    requires TaggedBy(hot, cold, cache)
    ensures TaggedBy(Without(hot, k), Without(cold, k), cache - {k})
  {
    DistinctAppend(hot, cold);
    KeysAfterRemoval(hot, k);
    KeysAfterRemoval(cold, k);
    WithoutAppend(hot, cold, k);
    WithoutDistinct(hot + cold, k);
    if HasKey(hot, k) {
      ApartKey(hot, cold, k);
      WithoutAbsent(cold, k);
    } else {
      WithoutAbsent(hot, k);
    }
  }

  /** An absent key's entry put at the front of either list, under that list's tag. */
  lemma TaggedPushHot(hot: seq<Entry>, cold: seq<Entry>, cache: map<Key, Segment>, e: Entry)
    requires TaggedBy(hot, cold, cache) && e.key !in cache
    ensures TaggedBy([e] + hot, cold, cache[e.key := Protected])
  {
    KeysAfterPush(e, hot);
    HasKeyAppend(hot, cold, e.key);
    DistinctPushFront(e, hot + cold);
    ConsAssoc(e, hot, cold);
  }

  lemma TaggedPushCold(hot: seq<Entry>, cold: seq<Entry>, cache: map<Key, Segment>, e: Entry)
    requires TaggedBy(hot, cold, cache) && e.key !in cache
    ensures TaggedBy(hot, [e] + cold, cache[e.key := Probation])
  {
    KeysAfterPush(e, cold);
    HasKeyAppend(hot, cold, e.key);
    DistinctInsert(hot, e, cold);
    assert hot + [e] + cold == hot + ([e] + cold);
  }

  /** The entry of a present key taken out and put at the front of either list. */
  lemma TaggedMove(hot: seq<Entry>, cold: seq<Entry>, cache: map<Key, Segment>, e: Entry)
    requires TaggedBy(hot, cold, cache) && e.key in cache
    ensures TaggedBy([e] + Without(hot, e.key), Without(cold, e.key), cache[e.key := Protected])
    ensures TaggedBy(Without(hot, e.key), [e] + Without(cold, e.key), cache[e.key := Probation])
  {
    TaggedRemove(hot, cold, cache, e.key);
    TaggedPushHot(Without(hot, e.key), Without(cold, e.key), cache - {e.key}, e);
    TaggedPushCold(Without(hot, e.key), Without(cold, e.key), cache - {e.key}, e);
    assert (cache - {e.key})[e.key := Protected] == cache[e.key := Protected];
    assert (cache - {e.key})[e.key := Probation] == cache[e.key := Probation];
  }

  class SlruCache {
    const maxBytes: int
    const protectedRatio: real
    var curbytes: int
    var probationBytes: int
    var protectedBytes: int
    var probation: seq<Entry>
    var protected: seq<Entry>
    var cache: map<Key, Segment>
    ghost var evicted: seq<(Key, View)>

    /** The one-list reading of the two lists. */
    ghost function Model(): (m: M.Slru)
      reads this
      ensures m.Shape() && m.Hot() == protected && m.Cold() == probation
    {
      M.Slru(maxBytes, ProtectedMaxBytes(), protected + probation, |protected|, evicted)
    }

    function ProtectedMaxBytes(): int { M.ProtectedMax(maxBytes, protectedRatio) }

    ghost predicate Tagged()
      reads this
    {
      TaggedBy(protected, probation, cache)
    }

    /** The counters are the sums of the costs. */
    ghost predicate Counted()
      reads this
    {
      && protectedBytes == Bytes(protected)
      && probationBytes == Bytes(probation)
      && curbytes == protectedBytes + probationBytes
    }

    /** What also holds in the middle of an operation. */
    ghost predicate Linked()
      reads this
    {
      0.0 < protectedRatio < 1.0 && Tagged() && Counted()
    }

    ghost predicate Valid()
      reads this
    {
      Linked() && Model().Inv()
    }

    constructor (maxBytes: int, protectedRatio: real)
      ensures Valid()
      ensures this.maxBytes == maxBytes
      ensures this.protectedRatio == if 0.0 < protectedRatio < 1.0 then protectedRatio else 0.8
      ensures Model() == M.Init(maxBytes, M.ProtectedMax(maxBytes, this.protectedRatio))
    {
      this.maxBytes := maxBytes;
      this.protectedRatio := Ratio(protectedRatio);
      curbytes, probationBytes, protectedBytes := 0, 0, 0;
      probation, protected, cache, evicted := [], [], map[], [];
      new;
      if maxBytes > 0 { M.ProtectedMaxBounds(maxBytes, this.protectedRatio); }
    }

    /** The map finds what the one-list reading finds. */
    lemma Located(k: Key)
      requires Linked()
      ensures k in cache <==> HasKey(Model().items, k)
      ensures k in cache && cache[k] == Protected ==> EntryFor(Model().items, k) == EntryFor(protected, k)
      ensures k in cache && cache[k] == Probation ==> EntryFor(Model().items, k) == EntryFor(probation, k)
      ensures k in cache && cache[k] == Probation ==> !HasKey(Model().Hot(), k)
    {
      HasKeyAppend(protected, probation, k);
    }

    // ----- list surgery and its bookkeeping

    method RemoveElement(k: Key)
      requires Linked() && k in cache
      modifies this
      ensures Linked()
      ensures Model() == M.Delete(old(Model()), k)
      ensures protected == Without(old(protected), k) && probation == Without(old(probation), k)
    {
      Located(k);
      M.DeleteParts(Model(), k);
      if cache[k] == Protected {
        UnlinkProtected(k);
      } else {
        UnlinkProbation(k);
      }
    }

    /** `RemoveElement` for an element of the protected list. */
    method UnlinkProtected(k: Key)
      requires Linked() && HasKey(protected, k)
      modifies this
      ensures Linked()
      ensures protected == Without(old(protected), k) && probation == Without(old(probation), k)
      ensures evicted == old(evicted) + [(k, EntryFor(old(protected), k).value)]
    {
      var kv := EntryFor(protected, k);
      TaggedRemove(protected, probation, cache, k);
      WithoutPresent(protected, k);
      WithoutAbsent(probation, k);
      protected := Without(protected, k);
      protectedBytes := protectedBytes - kv.Cost();
      cache := cache - {k};
      curbytes := curbytes - kv.Cost();
      evicted := evicted + [(kv.key, kv.value)];
    }

    /** `RemoveElement` for an element of the probation list. */
    method UnlinkProbation(k: Key)
      requires Linked() && HasKey(probation, k)
      modifies this
      ensures Linked()
      ensures protected == Without(old(protected), k) && probation == Without(old(probation), k)
      ensures evicted == old(evicted) + [(k, EntryFor(old(probation), k).value)]
    {
      var kv := EntryFor(probation, k);
      TaggedRemove(protected, probation, cache, k);
      WithoutPresent(probation, k);
      WithoutAbsent(protected, k);
      probation := Without(probation, k);
      probationBytes := probationBytes - kv.Cost();
      cache := cache - {k};
      curbytes := curbytes - kv.Cost();
      evicted := evicted + [(kv.key, kv.value)];
    }

    method EnforceProtectedLimit()
      requires Linked()
      modifies this
      ensures Linked()
      ensures Model() == M.Demote(old(Model()))
      ensures protected + probation == old(protected + probation) && evicted == old(evicted)
      ensures maxBytes <= 0 ==> protected == old(protected)
      ensures maxBytes > 0 ==> LongestFit(old(protected), |protected|, ProtectedMaxBytes())
    {
      if maxBytes <= 0 { return; }
      M.ProtectedMaxBounds(maxBytes, protectedRatio);
      FitLenLongest(protected, ProtectedMaxBytes());
      var protectedMax := ProtectedMaxBytes();
      while protectedBytes > protectedMax && |protected| > 0
        invariant Linked() && evicted == old(evicted)
        invariant protected + probation == old(protected + probation)
        invariant FitLen(protected, protectedMax) == FitLen(old(protected), protectedMax)
        decreases |protected|
      {
        DemoteLast();
      }
    }

    /** One turn of the demotion loop. */
    method DemoteLast()
      requires Linked() && |protected| > 0
      modifies this
      ensures Linked() && evicted == old(evicted)
      ensures protected == old(protected)[..|old(protected)| - 1]
      ensures probation == [old(protected)[|old(protected)| - 1]] + old(probation)
    {
      var n := |protected| - 1;
      var kv := protected[n];
      ghost var rest := protected[..n];
      assert protected == rest + [kv] && protected + probation == rest + ([kv] + probation);
      BytesAppend(rest, [kv]);
      BytesPushFront(kv, probation);
      DistinctAppend(protected, probation);
      KeysAfterPush(kv, probation);
      KeysAfterPop(rest, kv);
      HasKeyAppend(rest, [kv], kv.key);
      protected := protected[..n];
      protectedBytes := protectedBytes - kv.Cost();
      probation := [kv] + probation;
      cache := cache[kv.key := Probation];
      probationBytes := probationBytes + kv.Cost();
    }

    /** The capacity loop. It terminates for every `maxBytes`, negative ones included, and while the
        protected list is within its limit the branch that evicts from it is not taken. */
    method EnforceTotalLimit()
      requires Linked()
      modifies this
      ensures Linked()
      ensures Model() == M.Evict(old(Model()))
      ensures maxBytes > 0 && old(protectedBytes) <= ProtectedMaxBytes() ==> protected == old(protected)
    {
      M.CutStart(Model());
      while maxBytes != 0 && curbytes > maxBytes
        invariant Linked()
        invariant M.CutOf(Model(), old(Model()))
        invariant maxBytes == 0 ==> Model() == old(Model())
        invariant maxBytes > 0 && old(protectedBytes) <= ProtectedMaxBytes() ==> protected == old(protected)
        decreases |protected| + |probation|
      {
        BytesAppend(protected, probation);
        if |protected| + |probation| > 0 { M.CutStep(Model(), old(Model())); }
        if |probation| > 0 {
          EvictBack();
          continue;
        }
        if |protected| > 0 {
          if maxBytes > 0 { M.ProtectedMaxBounds(maxBytes, protectedRatio); }
          EvictBack();
          continue;
        }
        M.CutDone(Model(), old(Model()));
        return;
      }
      BytesAppend(protected, probation);
      M.CutDone(Model(), old(Model()));
    }

    /** The oldest entry is found through the map, and removing its key drops it. */
    lemma BackFound(last: Entry)
      requires Linked() && Model().items != [] && last == Model().items[|Model().items| - 1]
      ensures last.key in cache && M.Delete(Model(), last.key) == M.DropOldest(Model())
      ensures |probation| > 0 ==> Without(protected, last.key) == protected
    {
      M.DeleteLast(Model());
      M.LastInHot(Model());
      Located(last.key);
      if |probation| > 0 { WithoutAbsent(protected, last.key); }
    }

    /** Removal of the back element of the probation list, or of the protected one if that is empty. */
    method EvictBack()
      requires Linked() && |protected| + |probation| > 0
      modifies this
      ensures Linked() && Model() == M.DropOldest(old(Model()))
      ensures |probation| + |protected| == old(|probation| + |protected|) - 1
      ensures old(|probation|) > 0 ==> protected == old(protected)
    {
      var last := if |probation| > 0 then probation[|probation| - 1] else protected[|protected| - 1];
      BackFound(last);
      RemoveElement(last.key);
      assert |Model().items| == |old(Model()).items| - 1;
    }

    // ----- the public operations

    method Promote(k: Key)
      requires Valid() && k in cache && cache[k] == Probation && HasKey(Model().items, k)
      modifies this
      ensures Valid() && Model() == M.Touch(old(Model()), k)
    {
      M.TouchParts(Model(), k);
      M.TouchInv(Model(), k);
      LinkToFront(k);
      EnforceProtectedLimit();
      M.EvictIdle(Model());
      EnforceTotalLimit();
    }

    /** The list surgery of a promotion. */
    method LinkToFront(k: Key)
      requires Linked() && k in cache && cache[k] == Probation && HasKey(probation, k)
      modifies this
      ensures Linked() && evicted == old(evicted)
      ensures protected == [EntryFor(old(probation), k)] + old(protected)
      ensures probation == Without(old(probation), k)
    {
      var kv := EntryFor(probation, k);
      TaggedMove(protected, probation, cache, kv);
      WithoutAbsent(protected, k);
      WithoutPresent(probation, k);
      BytesPushFront(kv, protected);
      probation := Without(probation, k);
      probationBytes := probationBytes - kv.Cost();
      protected := [kv] + protected;
      cache := cache[k := Protected];
      protectedBytes := protectedBytes + kv.Cost();
    }

    method Get(k: Key, now: int) returns (r: Option<View>)
      requires Valid()
      modifies this
      ensures Valid()
      ensures (Model(), r) == M.Lookup(old(Model()), k, now)
      ensures M.LiveAt(old(Model()), k, now) ==>
                var kv := EntryFor(old(Model()).items, k);
                && r == Some(kv.value)
                && M.CutTo(Model(), [kv] + Without(old(protected), k), Without(old(probation), k))
    {
      Located(k);
      if M.LiveAt(Model(), k, now) { M.HitCuts(Model(), k, now); }
      if k !in cache { return None; }
      var kv := EntryFor(if cache[k] == Protected then protected else probation, k);
      if kv.Expired(now) {
        M.DeleteInv(Model(), k);
        RemoveElement(k);
        return None;
      }
      M.TouchInv(Model(), k);
      if cache[k] == Protected {
        MoveToFront(kv);
      } else {
        Promote(k);
      }
      return Some(kv.value);
    }

    /** A protected hit: only the order of the protected list changes, and nothing is demoted. */
    method MoveToFront(kv: Entry)
      requires Valid() && HasKey(protected, kv.key) && kv == EntryFor(protected, kv.key)
      requires HasKey(Model().items, kv.key)
      modifies this
      ensures Linked() && Model() == M.Touch(old(Model()), kv.key)
    {
      M.TouchHot(Model(), kv.key);
      RelinkProtected(kv);
    }

    /** The front element of the protected list is replaced or moved there. */
    method RelinkProtected(kv: Entry)
      requires Linked() && HasKey(protected, kv.key)
      modifies this
      ensures Linked() && evicted == old(evicted)
      ensures protected == [kv] + Without(old(protected), kv.key) && |protected| == old(|protected|)
      ensures probation == Without(old(probation), kv.key)
    {
      var delta := kv.Cost() - EntryFor(protected, kv.key).Cost();
      TaggedMove(protected, probation, cache, kv);
      WithoutPresent(protected, kv.key);
      WithoutAbsent(probation, kv.key);
      BytesPushFront(kv, Without(protected, kv.key));
      assert cache == cache[kv.key := Protected];
      curbytes := curbytes + delta;
      protectedBytes := protectedBytes + delta;
      protected := [kv] + Without(protected, kv.key);
    }

    method RelinkProbation(kv: Entry)
      requires Linked() && HasKey(probation, kv.key)
      modifies this
      ensures Linked() && evicted == old(evicted)
      ensures probation == [kv] + Without(old(probation), kv.key)
      ensures protected == Without(old(protected), kv.key) && |protected| == old(|protected|)
    {
      var delta := kv.Cost() - EntryFor(probation, kv.key).Cost();
      TaggedMove(protected, probation, cache, kv);
      WithoutPresent(probation, kv.key);
      WithoutAbsent(protected, kv.key);
      BytesPushFront(kv, Without(probation, kv.key));
      assert cache == cache[kv.key := Probation];
      curbytes := curbytes + delta;
      probationBytes := probationBytes + delta;
      probation := [kv] + Without(probation, kv.key);
    }

    method AddWithTTL(k: Key, value: View, ttl: int, now: int)
      requires Valid()
      modifies this
      ensures Valid()
      ensures Model() == M.Put(old(Model()), Entry(k, value, ExpiryOf(ttl, now)))
      ensures HasKey(Model().items, k) ==> Written(EntryFor(Model().items, k), value, ttl, now)
    {
      var kv := Entry(k, value, if ttl > 0 then Some(now + ttl) else None);
      M.PutFinds(Model(), kv);
      Put(kv);
    }

    method Put(kv: Entry)
      requires Valid()
      modifies this
      ensures Valid() && Model() == M.Put(old(Model()), kv)
    {
      Located(kv.key);
      M.PutInv(Model(), kv);
      if kv.key in cache {
        M.RewriteParts(Model(), kv);
        M.HotFound(Model(), kv.key);
        if cache[kv.key] == Protected {
          RelinkProtected(kv);
        } else {
          RelinkProbation(kv);
        }
        EnforceProtectedLimit();
        EnforceTotalLimit();
      } else {
        PushNew(kv);
        EnforceTotalLimit();
      }
    }

    /** A new key enters at the front of the probation list, which is the split. */
    method PushNew(kv: Entry)
      requires Linked() && kv.key !in cache
      modifies this
      ensures Linked()
      ensures Model() == old(Model()).(items := old(protected) + [kv] + old(probation))
    {
      TaggedPushCold(protected, probation, cache, kv);
      BytesPushFront(kv, probation);
      assert protected + [kv] + probation == protected + ([kv] + probation);
      probation := [kv] + probation;
      cache := cache[kv.key := Probation];
      curbytes := curbytes + kv.Cost();
      probationBytes := probationBytes + kv.Cost();
    }

    method Remove(k: Key)
      requires Valid()
      modifies this
      ensures Valid() && Model() == M.Delete(old(Model()), k)
    {
      Located(k);
      if k in cache {
        M.DeleteInv(Model(), k);
        RemoveElement(k);
      }
    }

    method RemoveOldest()
      requires Valid()
      modifies this
      ensures Valid() && Model() == M.DropOldest(old(Model()))
    {
      M.DropOldestInv(Model());
      if |probation| > 0 {
        EvictBack();
      } else if |protected| > 0 {
        EvictBack();
      }
    }

    /** The sweep: one clock reading, probation list first, each list from back to front. */
    method RemoveExpired(now: int)
      requires Valid()
      modifies this
      ensures Valid() && Model() == M.Purge(old(Model()), now)
    {
      M.PurgeInv(Model(), now);
      SweepProbation(now);
      SweepProtected(now);
      M.SweptParts(old(protected), old(probation), old(evicted), now);
    }

    method SweepProbation(now: int)
      requires Linked()
      modifies this
      ensures Linked() && protected == old(protected)
      ensures probation == Live(old(probation), now)
      ensures evicted == old(evicted) + Calls(Dead(old(probation), now))
    {
      ghost var q, log := probation, evicted;
      var i := |probation|;
      SweepEnds(q, log, [now]);
      while i > 0
        invariant 0 <= i <= |q| && Linked() && protected == old(protected)
        invariant (probation, evicted) == Swept(q, log, i, [now])
      {
        JudgeProbation(q, log, i, now);
        i := i - 1;
      }
    }

    method JudgeProbation(ghost q: seq<Entry>, ghost log: seq<(Key, View)>, i: nat, now: int)
      requires Linked() && 0 < i <= |q| && (probation, evicted) == Swept(q, log, i, [now])
      modifies this
      ensures Linked() && protected == old(protected)
      ensures (probation, evicted) == Swept(q, log, i - 1, [now])
    {
      DistinctAppend(protected, probation);
      SweepJudged(q, log, i, [now]);
      var kv := probation[i - 1];
      if kv.Expired(now) {
        WithoutAbsent(protected, kv.key);
        UnlinkProbation(kv.key);
      }
    }

    method SweepProtected(now: int)
      requires Linked()
      modifies this
      ensures Linked() && probation == old(probation)
      ensures protected == Live(old(protected), now)
      ensures evicted == old(evicted) + Calls(Dead(old(protected), now))
    {
      ghost var p, log := protected, evicted;
      var i := |protected|;
      SweepEnds(p, log, [now]);
      while i > 0
        invariant 0 <= i <= |p| && Linked() && probation == old(probation)
        invariant (protected, evicted) == Swept(p, log, i, [now])
      {
        JudgeProtected(p, log, i, now);
        i := i - 1;
      }
    }

    method JudgeProtected(ghost p: seq<Entry>, ghost log: seq<(Key, View)>, i: nat, now: int)
      requires Linked() && 0 < i <= |p| && (protected, evicted) == Swept(p, log, i, [now])
      modifies this
      ensures Linked() && probation == old(probation)
      ensures (protected, evicted) == Swept(p, log, i - 1, [now])
    {
      DistinctAppend(protected, probation);
      SweepJudged(p, log, i, [now]);
      var kv := protected[i - 1];
      if kv.Expired(now) {
        WithoutAbsent(probation, kv.key);
        UnlinkProtected(kv.key);
      }
    }

    /** One operation of a run. */
    method Apply(op: Op) returns (r: Option<View>)
      requires Valid()
      modifies this
      ensures Valid() && (Model(), r) == M.Step(old(Model()), op)
    {
      r := None;
      match op
      case Get(k, now) => r := Get(k, now);
      case Add(k, v, ttl, now) => AddWithTTL(k, v, ttl, now);
      case Remove(k) => Remove(k);
      case RemoveOldest => RemoveOldest();
      case Sweep(c) => RemoveExpired(At(c, 0));
    }

    /** Any run of operations does to the two lists what it does to the one list with a split. */
    method Replay(ops: seq<Op>)
      requires Valid()
      modifies this
      ensures Valid() && Model() == M.Run(old(Model()), ops)
    {
      var i := 0;
      assert ops[0..] == ops;
      while i < |ops|
        invariant 0 <= i <= |ops| && Valid()
        invariant M.Run(Model(), ops[i..]) == M.Run(old(Model()), ops)
      {
        assert ops[i..][1..] == ops[i + 1..];
        var _ := Apply(ops[i]);
        i := i + 1;
      }
    }
  }
}

/**
 The segmented LRU policy as ONE recency list with a movable split.

 `items` is the protected list followed by the probation list, and `split` is
 the length of the protected part. A hit moves an entry to the very front, a new
 key enters at the split, demotion only moves the split, and eviction drops a
 suffix. The class in Slru.dfy keeps two lists, a key map, segment tags and three
 counters, and is proved to behave as this model.
 */
module SlruModel {
  import opened Entries

  datatype Slru = Slru(maxBytes: int, protectedMax: int, items: seq<Entry>, split: nat, log: seq<(Key, View)>)
  {
    predicate Shape() { split <= |items| }

    function Hot(): seq<Entry> requires Shape() { items[..split] }

    function Cold(): seq<Entry> requires Shape() { items[split..] }

    predicate Config() { maxBytes > 0 ==> 1 <= protectedMax <= maxBytes }

    predicate HotFits() requires Shape() { maxBytes > 0 ==> Bytes(Hot()) <= protectedMax }

    /** What holds between public operations. */
    predicate Inv() {
      && Config()
      && Shape()
      && Distinct(items)
      && HotFits()
      && (maxBytes > 0 ==> Bytes(items) <= maxBytes)
      && (maxBytes < 0 ==> items == [])
    }
  }

  function Init(maxBytes: int, protectedMax: int): Slru { Slru(maxBytes, protectedMax, [], 0, []) }

  /** floor(maxBytes * ratio), at least 1. */
  function ProtectedMax(maxBytes: int, ratio: real): int {
    var p := (maxBytes as real * ratio).Floor;
    if p <= 0 then 1 else p
  }

  lemma ProtectedMaxBounds(maxBytes: int, ratio: real)
    requires 0.0 < ratio < 1.0 && maxBytes > 0
    ensures 1 <= ProtectedMax(maxBytes, ratio) <= maxBytes
  {
    assert maxBytes as real * ratio <= maxBytes as real * 1.0;
  }

  /** It is the whole part of the product, and 1 where that is less. */
  lemma ProtectedMaxExact(maxBytes: int, ratio: real)
    ensures var (p, x) := (ProtectedMax(maxBytes, ratio), maxBytes as real * ratio);
      if x < 1.0 then p == 1 else p as real <= x < p as real + 1.0
  {
  }

  // ----- the moves

  /** Demotion: the split becomes the longest protected prefix within the limit. */
  function Demote(m: Slru): (r: Slru)
    requires m.Shape()
    ensures r.Shape()
  {
    if m.maxBytes <= 0 then m else m.(split := FitLen(m.Hot(), m.protectedMax))
  }

  function Kept(m: Slru): (n: nat)
    ensures n <= |m.items|
  {
    if m.maxBytes == 0 then |m.items| else FitLen(m.items, m.maxBytes)
  }

  /** Eviction: the shortest suffix that brings the total within the capacity is dropped. */
  function Evict(m: Slru): (r: Slru)
    ensures r.Shape()
  {
    var n := Kept(m);
    m.(items := m.items[..n], split := Min(m.split, n), log := m.log + Calls(m.items[n..]))
  }

  /** A live hit: the entry goes to the very front, into the protected part. */
  function Touch(m: Slru, k: Key): (r: Slru)
    requires m.Shape() && HasKey(m.items, k)
    ensures r.Shape()
  {
    WithoutPresent(m.items, k);
    HotFound(m, k);
    Demote(m.(items := [EntryFor(m.items, k)] + Without(m.items, k),
              split := if HasKey(m.Hot(), k) then m.split else m.split + 1))
  }

  function Delete(m: Slru, k: Key): (r: Slru)
    requires m.Shape()
    ensures r.Shape()
  {
    if HasKey(m.items, k) then
      WithoutPresent(m.items, k);
      HotFound(m, k);
      m.(items := Without(m.items, k),
         split := if HasKey(m.Hot(), k) then m.split - 1 else m.split,
         log := m.log + Calls([EntryFor(m.items, k)]))
    else m
  }

  /** A write to a present key: the entry goes to the front of its own segment. */
  function Rewrite(m: Slru, e: Entry): (r: Slru)
    requires m.Shape() && HasKey(m.items, e.key)
    ensures r.Shape()
  {
    WithoutPresent(m.items, e.key);
    HotFound(m, e.key);
    var rest := Without(m.items, e.key);
    if HasKey(m.Hot(), e.key) then m.(items := [e] + rest)
    else m.(items := rest[..m.split] + [e] + rest[m.split..])
  }

  function Put(m: Slru, e: Entry): (r: Slru)
    requires m.Shape()
    ensures r.Shape()
  {
    if HasKey(m.items, e.key) then Evict(Demote(Rewrite(m, e)))
    else Evict(m.(items := m.Hot() + [e] + m.Cold()))
  }

  function Lookup(m: Slru, k: Key, now: int): (r: (Slru, Option<View>))
    requires m.Shape()
    ensures r.0.Shape()
  {
    if !HasKey(m.items, k) then (m, None)
    else if EntryFor(m.items, k).Expired(now) then (Delete(m, k), None)
    else (Touch(m, k), Some(EntryFor(m.items, k).value))
  }

  function DropOldest(m: Slru): (r: Slru)
    requires m.Shape()
    ensures r.Shape()
  {
    var n := |m.items| - 1;
    if n < 0 then m
    else m.(items := m.items[..n], split := Min(m.split, n), log := m.log + Calls(m.items[n..]))
  }

  /** The sweep: every entry expired at `now` goes, the others keep their order. */
  function Purge(m: Slru, now: int): (r: Slru)
    requires m.Shape()
    ensures r.Shape()
  {
    LiveAppend(m.Hot(), m.Cold(), now);
    assert m.items == m.Hot() + m.Cold();
    m.(items := Live(m.items, now),
       split := |Live(m.Hot(), now)|,
       log := m.log + Calls(Dead(m.items, now)))
  }

  function Step(m: Slru, op: Op): (r: (Slru, Option<View>))
    requires m.Shape()
    ensures r.0.Shape()
  {
    match op
    case Get(k, now) => Lookup(m, k, now)
    case Add(k, v, ttl, now) => (Put(m, Entry(k, v, ExpiryOf(ttl, now))), None)
    case Remove(k) => (Delete(m, k), None)
    case RemoveOldest => (DropOldest(m), None)
    case Sweep(c) => (Purge(m, At(c, 0)), None)
  }

  function Run(m: Slru, ops: seq<Op>): (r: Slru)
    requires m.Shape()
    ensures r.Shape()
    decreases |ops|
  {
    if ops == [] then m else Run(Step(m, ops[0]).0, ops[1..])
  }

  // ----- the two parts of the list

  lemma HotFound(m: Slru, k: Key)
    requires m.Shape()
    ensures HasKey(m.items, k) <==> HasKey(m.Hot(), k) || HasKey(m.Cold(), k)
    ensures HasKey(m.Hot(), k) ==> EntryFor(m.items, k) == EntryFor(m.Hot(), k) && m.split > 0
    ensures HasKey(m.Hot(), k) ==> Without(m.items, k) == Without(m.Hot(), k) + m.Cold()
    ensures !HasKey(m.Hot(), k) ==> Without(m.items, k) == m.Hot() + Without(m.Cold(), k)
    ensures !HasKey(m.Hot(), k) && HasKey(m.Cold(), k) ==> EntryFor(m.items, k) == EntryFor(m.Cold(), k)
  {
    assert m.items == m.Hot() + m.Cold();
    HasKeyAppend(m.Hot(), m.Cold(), k);
    WithoutAppend(m.Hot(), m.Cold(), k);
  }

  /** `r` is `m` after its protected part `hot` was cut to the longest prefix that fits; the entries cut off
      lead the probation part. */
  ghost predicate CutTo(r: Slru, hot: seq<Entry>, cold: seq<Entry>) {
    && r.Shape() && r.items == hot + cold
    && (if r.maxBytes > 0 then LongestFit(hot, r.split, r.protectedMax) else r.split == |hot|)
  }

  lemma DemoteCuts(m: Slru)
    requires m.Shape() && m.Config()
    ensures CutTo(Demote(m), m.Hot(), m.Cold()) && Demote(m).log == m.log
  {
    assert m.items == m.Hot() + m.Cold();
    if m.maxBytes > 0 { FitLenLongest(m.Hot(), m.protectedMax); }
  }

  /** After demotion the protected part is within its limit. */
  lemma DemoteFits(m: Slru)
    requires m.Shape() && m.Config()
    ensures Demote(m).HotFits()
  {
    if m.maxBytes > 0 {
      FitLenFits(m.Hot(), m.protectedMax);
      assert Demote(m).Hot() == m.Hot()[..Demote(m).split];
    }
  }

  lemma DemoteIdle(m: Slru)
    requires m.Shape() && m.HotFits()
    ensures Demote(m) == m
  {
  }

  /** Eviction never reaches into a protected part that is within its limit. */
  lemma EvictSparesHot(m: Slru)
    requires m.Config() && m.Shape() && m.HotFits() && m.maxBytes >= 0
    ensures Kept(m) >= m.split && Evict(m).split == m.split && Evict(m).Hot() == m.Hot()
  {
    if m.maxBytes > 0 { FitLenMax(m.items, m.maxBytes, m.split); }
  }

  lemma EvictIdle(m: Slru)
    requires m.Inv()
    ensures Evict(m) == m
  {
    assert m.items[..|m.items|] == m.items && m.log + Calls([]) == m.log;
  }

  /** The last entry is in the protected part exactly when everything is. */
  lemma LastInHot(m: Slru)
    requires m.Shape() && Distinct(m.items) && m.items != []
    ensures HasKey(m.Hot(), m.items[|m.items| - 1].key) <==> m.split == |m.items|
  {
    var n := |m.items| - 1;
    LastFound(m.items);
    if m.split <= n {
      HasKeyAppend(m.Hot(), m.items[m.split..n], m.items[n].key);
      assert m.items[..n] == m.Hot() + m.items[m.split..n];
    } else {
      assert m.Hot() == m.items;
    }
  }

  /** Removing the key of the last entry is dropping the oldest entry. */
  lemma DeleteLast(m: Slru)
    requires m.Shape() && Distinct(m.items) && m.items != []
    ensures HasKey(m.items, m.items[|m.items| - 1].key)
    ensures Delete(m, m.items[|m.items| - 1].key) == DropOldest(m)
  {
    var n := |m.items| - 1;
    LastFound(m.items);
    LastInHot(m);
    assert m.items[n..] == [m.items[n]];
  }

  /** Removal, list by list. */
  lemma DeleteParts(m: Slru, k: Key)
    requires m.Shape() && Distinct(m.items) && HasKey(m.items, k)
    ensures Delete(m, k) == m.(items := Without(m.Hot(), k) + Without(m.Cold(), k),
                               split := |Without(m.Hot(), k)|,
                               log := m.log + [(k, EntryFor(m.items, k).value)])
  {
    var e := EntryFor(m.items, k);
    HotFound(m, k);
    CallsPushFront(e, []);
    assert [e] + [] == [e];
    if HasKey(m.Hot(), k) {
      HotOnly(m, k);
      WithoutPresent(m.Hot(), k);
      WithoutAbsent(m.Cold(), k);
    } else {
      WithoutAbsent(m.Hot(), k);
    }
  }

  lemma HotOnly(m: Slru, k: Key)
    requires m.Shape() && Distinct(m.items) && HasKey(m.Hot(), k)
    ensures !HasKey(m.Cold(), k)
  {
    assert m.items == m.Hot() + m.Cold();
    DistinctAppend(m.Hot(), m.Cold());
    ApartKey(m.Hot(), m.Cold(), k);
  }

  /** A hit in the probation part, list by list. */
  lemma TouchParts(m: Slru, k: Key)
    requires m.Shape() && HasKey(m.Cold(), k) && !HasKey(m.Hot(), k)
    ensures HasKey(m.items, k)
    ensures Touch(m, k) == Demote(m.(items := ([EntryFor(m.Cold(), k)] + m.Hot()) + Without(m.Cold(), k),
                                     split := m.split + 1))
  {
    HotFound(m, k);
    ConsAssoc(EntryFor(m.Cold(), k), m.Hot(), Without(m.Cold(), k));
  }

  lemma TouchHotItems(m: Slru, k: Key)
    requires m.Shape() && Distinct(m.items) && HasKey(m.Hot(), k) && HasKey(m.items, k)
    ensures [EntryFor(m.items, k)] + Without(m.items, k) ==
            ([EntryFor(m.Hot(), k)] + Without(m.Hot(), k)) + Without(m.Cold(), k)
  {
    HotFound(m, k);
    HotOnly(m, k);
    WithoutAbsent(m.Cold(), k);
    ConsAssoc(EntryFor(m.Hot(), k), Without(m.Hot(), k), m.Cold());
  }

  /** A hit in the protected part, list by list: nothing is demoted. */
  lemma TouchHot(m: Slru, k: Key)
    requires m.Inv() && HasKey(m.Hot(), k) && HasKey(m.items, k)
    ensures Touch(m, k) == m.(items := ([EntryFor(m.Hot(), k)] + Without(m.Hot(), k)) + Without(m.Cold(), k))
  {
    var e, rest := EntryFor(m.Hot(), k), Without(m.Hot(), k);
    TouchHotItems(m, k);
    WithoutPresent(m.Hot(), k);
    BytesPushFront(e, rest);
    SplitAfter(m, [e] + rest, Without(m.Cold(), k));
  }

  /** Demotion does nothing to a list whose protected part fits. */
  lemma SplitAfter(m: Slru, hot: seq<Entry>, cold: seq<Entry>)
    requires m.split == |hot| && (m.maxBytes > 0 ==> Bytes(hot) <= m.protectedMax)
    ensures Demote(m.(items := hot + cold)) == m.(items := hot + cold)
  {
    assert (hot + cold)[..|hot|] == hot;
  }

  /** A write to a present key, list by list. */
  lemma RewriteParts(m: Slru, e: Entry)
    requires m.Shape() && Distinct(m.items) && HasKey(m.items, e.key)
    ensures Rewrite(m, e).items ==
            if HasKey(m.Hot(), e.key) then ([e] + Without(m.Hot(), e.key)) + Without(m.Cold(), e.key)
            else Without(m.Hot(), e.key) + ([e] + Without(m.Cold(), e.key))
  {
    HotFound(m, e.key);
    WithoutPresent(m.items, e.key);
    var rest := Without(m.items, e.key);
    if HasKey(m.Hot(), e.key) {
      HotOnly(m, e.key);
      WithoutAbsent(m.Cold(), e.key);
    } else {
      WithoutAbsent(m.Hot(), e.key);
      assert rest[..m.split] == m.Hot() && rest[m.split..] == Without(m.Cold(), e.key);
      assert m.Hot() + [e] + Without(m.Cold(), e.key) == m.Hot() + ([e] + Without(m.Cold(), e.key));
    }
  }

  /** The list a write produces before anything is evicted: the other entries keep their order, and the
      written one is at the front of its segment. */
  function Spread(m: Slru, e: Entry): seq<Entry>
    requires m.Shape()
  {
    var rest := Without(m.items, e.key);
    var p := if HasKey(m.Hot(), e.key) then 0 else Min(m.split, |rest|);
    rest[..p] + [e] + rest[p..]
  }

  lemma RewriteSpread(m: Slru, e: Entry)
    requires m.Shape() && HasKey(m.items, e.key)
    ensures Rewrite(m, e).items == Spread(m, e)
  {
    HotFound(m, e.key);
    WithoutPresent(m.items, e.key);
    var rest := Without(m.items, e.key);
    if HasKey(m.Hot(), e.key) { assert rest[..0] + [e] + rest[0..] == [e] + rest; }
  }

  lemma InsertSpread(m: Slru, e: Entry)
    requires m.Shape() && !HasKey(m.items, e.key)
    ensures m.Hot() + [e] + m.Cold() == Spread(m, e)
  {
    HotFound(m, e.key);
    WithoutAbsent(m.items, e.key);
  }

  lemma PutForm(m: Slru, e: Entry)
    requires m.Shape()
    ensures var s := Spread(m, e);
      Put(m, e).items == s[..if m.maxBytes == 0 then |s| else FitLen(s, m.maxBytes)]
  {
    if HasKey(m.items, e.key) { RewriteSpread(m, e); } else { InsertSpread(m, e); }
  }

  /** What is found under the key of a write is the entry written. */
  lemma PutFinds(m: Slru, e: Entry)
    requires m.Shape() && Distinct(m.items)
    ensures HasKey(Put(m, e).items, e.key) ==> EntryFor(Put(m, e).items, e.key) == e
  {
    var s := Spread(m, e);
    var n := if m.maxBytes == 0 then |s| else FitLen(s, m.maxBytes);
    var rest := Without(m.items, e.key);
    var p := if HasKey(m.Hot(), e.key) then 0 else Min(m.split, |rest|);
    PutForm(m, e);
    WithoutDistinct(m.items, e.key);
    assert rest == rest[..p] + rest[p..];
    HasKeyAppend(rest[..p], rest[p..], e.key);
    MiddleFound(rest[..p], e, rest[p..], n);
  }

  /** `m` is `m0` part-way through the capacity loop. */
  ghost predicate CutOf(m: Slru, m0: Slru) {
    && |m.items| <= |m0.items|
    && m == m0.(items := m0.items[..|m.items|], split := Min(m0.split, |m.items|),
                log := m0.log + Calls(m0.items[|m.items|..]))
    && FitLen(m.items, m.maxBytes) == FitLen(m0.items, m0.maxBytes)
  }

  lemma CutStart(m: Slru)
    requires m.Shape()
    ensures CutOf(m, m)
  {
    assert m.items[..|m.items|] == m.items && m.log + Calls([]) == m.log;
  }

  lemma CutStep(m: Slru, m0: Slru)
    requires m.Shape() && CutOf(m, m0) && m.items != [] && Bytes(m.items) > m.maxBytes
    ensures CutOf(DropOldest(m), m0)
  {
    var n := |m.items| - 1;
    CallsFrom(m0.items, n);
    CallsFrom(m.items, n);
    assert m.items[..n] == m0.items[..n] && m.items[n] == m0.items[n];
    assert m.items[n + 1..] == [];
  }

  lemma CutDone(m: Slru, m0: Slru)
    requires CutOf(m, m0) && m0.Shape()
    requires m.maxBytes == 0 ==> m == m0
    requires m.maxBytes != 0 ==> m.items == [] || Bytes(m.items) <= m.maxBytes
    ensures m == Evict(m0)
  {
    if m.maxBytes == 0 { CutStart(m0); }
  }

  // ----- the structural invariant over every run

  lemma EvictInv(m: Slru)
    requires m.Config() && m.Shape() && Distinct(m.items) && m.HotFits()
    ensures Evict(m).Inv()
  {
    PrefixDistinct(m.items, Kept(m));
    if m.maxBytes > 0 {
      EvictSparesHot(m);
      FitLenFits(m.items, m.maxBytes);
    } else if m.maxBytes < 0 && Kept(m) > 0 {
      FitLenFits(m.items, m.maxBytes);
    }
  }

  lemma DeleteInv(m: Slru, k: Key)
    requires m.Inv()
    ensures Delete(m, k).Inv()
  {
    if HasKey(m.items, k) {
      WithoutPresent(m.items, k);
      WithoutDistinct(m.items, k);
      HotFound(m, k);
      var r := Delete(m, k);
      if HasKey(m.Hot(), k) {
        WithoutPresent(m.Hot(), k);
        assert r.Hot() == Without(m.Hot(), k);
      } else {
        assert r.Hot() == m.Hot();
      }
    }
  }

  lemma TouchInv(m: Slru, k: Key)
    requires m.Inv() && HasKey(m.items, k)
    ensures Touch(m, k).Inv()
  {
    var e, rest := EntryFor(m.items, k), Without(m.items, k);
    WithoutPresent(m.items, k);
    WithoutDistinct(m.items, k);
    DistinctPushFront(e, rest);
    BytesPushFront(e, rest);
    HotFound(m, k);
    DemoteFits(m.(items := [e] + rest, split := if HasKey(m.Hot(), k) then m.split else m.split + 1));
  }

  lemma RewriteDistinct(m: Slru, e: Entry)
    requires m.Inv() && HasKey(m.items, e.key)
    ensures Distinct(Rewrite(m, e).items)
  {
    var rest := Without(m.items, e.key);
    WithoutDistinct(m.items, e.key);
    WithoutPresent(m.items, e.key);
    HotFound(m, e.key);
    if HasKey(m.Hot(), e.key) {
      DistinctPushFront(e, rest);
    } else {
      assert rest[..m.split] + rest[m.split..] == rest;
      DistinctInsert(rest[..m.split], e, rest[m.split..]);
    }
  }

  lemma PutInv(m: Slru, e: Entry)
    requires m.Inv()
    ensures Put(m, e).Inv()
  {
    if HasKey(m.items, e.key) {
      RewriteDistinct(m, e);
      DemoteFits(Rewrite(m, e));
      EvictInv(Demote(Rewrite(m, e)));
    } else {
      assert m.items == m.Hot() + m.Cold();
      DistinctInsert(m.Hot(), e, m.Cold());
      var w := m.(items := m.Hot() + [e] + m.Cold());
      assert w.Hot() == m.Hot();
      EvictInv(w);
    }
  }

  lemma DropOldestInv(m: Slru)
    requires m.Inv()
    ensures DropOldest(m).Inv()
  {
    var n := |m.items| - 1;
    if n >= 0 {
      PrefixDistinct(m.items, n);
      BytesSplit(m.items, n);
      var r := DropOldest(m);
      BytesSplit(m.Hot(), r.split);
      assert r.Hot() == m.Hot()[..r.split];
    }
  }

  /** The probation part is swept first. */
  lemma SweptParts(hot: seq<Entry>, cold: seq<Entry>, log: seq<(Key, View)>, now: int)
    ensures Live(hot + cold, now) == Live(hot, now) + Live(cold, now)
    ensures log + Calls(Dead(hot + cold, now)) == log + Calls(Dead(cold, now)) + Calls(Dead(hot, now))
  {
    LiveAppend(hot, cold, now);
    CallsAppend(Dead(hot, now), Dead(cold, now));
    var first, second := Calls(Dead(cold, now)), Calls(Dead(hot, now));
    assert log + (first + second) == log + first + second;
  }

  lemma PurgeInv(m: Slru, now: int)
    requires m.Inv()
    ensures Purge(m, now).Inv()
  {
    assert m.items == m.Hot() + m.Cold();
    LiveAppend(m.Hot(), m.Cold(), now);
    SurvivorsDistinct(m.items, [now]);
    PrefixDistinct(m.items, m.split);
    SurvivorsDistinct(m.Hot(), [now]);
    assert Purge(m, now).Hot() == Live(m.Hot(), now);
  }

  lemma StepInv(m: Slru, op: Op)
    requires m.Inv()
    ensures Step(m, op).0.Inv()
  {
    match op
    case Get(k, now) =>
      DeleteInv(m, k);
      if HasKey(m.items, k) { TouchInv(m, k); }
    case Add(k, v, ttl, now) => PutInv(m, Entry(k, v, ExpiryOf(ttl, now)));
    case Remove(k) => DeleteInv(m, k);
    case RemoveOldest => DropOldestInv(m);
    case Sweep(c) => PurgeInv(m, At(c, 0));
  }

  /** Distinct keys, the total bound and the protected bound hold in every reachable state. */
  lemma {:induction false} RunInv(m: Slru, ops: seq<Op>)
    requires m.Inv()
    ensures Run(m, ops).Inv()
    decreases |ops|
  {
    if ops != [] {
      StepInv(m, ops[0]);
      RunInv(Step(m, ops[0]).0, ops[1..]);
    }
  }

  // ----- what a hit does

  predicate LiveAt(m: Slru, k: Key, now: int) {
    HasKey(m.items, k) && !EntryFor(m.items, k).Expired(now)
  }

  /** A live hit returns the stored value, calls nothing back and keeps every resident key; the hit
      entry goes before all the others, whose order is unchanged. */
  lemma LiveHit(m: Slru, k: Key, now: int)
    requires m.Inv() && LiveAt(m, k, now)
    ensures var (r, v) := Lookup(m, k, now);
      && v == Some(EntryFor(m.items, k).value)
      && r.log == m.log
      && r.items == [EntryFor(m.items, k)] + Without(m.items, k)
      && (forall x :: Count(r.items, x) == Count(m.items, x))
  {
    WithoutPresent(m.items, k);
    assert ([EntryFor(m.items, k)] + Without(m.items, k))[1..] == Without(m.items, k);
  }

  /** The longest fitting prefix of a list is empty exactly when its first entry does not fit. */
  lemma FitFirst(e: Entry, s: seq<Entry>, limit: int)
    ensures FitLen([e] + s, limit) > 0 <==> e.Cost() <= limit
  {
    var front := [e] + s;
    var n := FitLen(front, limit);
    assert front[..1] == [e] && Bytes([e]) == e.Cost();
    if e.Cost() <= limit { FitLenMax(front, limit, 1); }
    if n > 0 {
      FitLenFits(front, limit);
      BytesSplit(front[..n], 1);
      assert front[..n][..1] == [e];
    }
  }

  /** The hit entry ends at the front of the protected part exactly when it fits there (or the cache
      is unlimited); otherwise it leads the probation part with nothing protected before it. A hit in
      the protected part leaves the split where it was. */
  lemma HitSegment(m: Slru, k: Key, now: int)
    requires m.Inv() && LiveAt(m, k, now)
    ensures var r := Lookup(m, k, now).0;
      && (r.split > 0 <==> m.maxBytes == 0 || EntryFor(m.items, k).Cost() <= m.protectedMax)
      && (HasKey(m.Hot(), k) ==> r.split == m.split)
  {
    var e := EntryFor(m.items, k);
    HotFound(m, k);
    if HasKey(m.Hot(), k) {
      WithoutPresent(m.Hot(), k);
      BytesPushFront(e, Without(m.Hot(), k));
      assert ([e] + Without(m.items, k))[..m.split] == [e] + Without(m.Hot(), k);
      FitFirst(e, Without(m.Hot(), k), m.protectedMax);
    } else {
      assert ([e] + Without(m.items, k))[..m.split + 1] == [e] + m.Hot();
      FitFirst(e, m.Hot(), m.protectedMax);
    }
  }

  /** A hit puts its entry in front of the protected ones and demotes as few of them, from the back, as the
      limit asks for. */
  lemma HitCuts(m: Slru, k: Key, now: int)
    requires m.Inv() && LiveAt(m, k, now)
    ensures CutTo(Lookup(m, k, now).0, [EntryFor(m.items, k)] + Without(m.Hot(), k), Without(m.Cold(), k))
  {
    var e := EntryFor(m.items, k);
    HotFound(m, k);
    if HasKey(m.Hot(), k) {
      TouchHotItems(m, k);
      WithoutPresent(m.Hot(), k);
    } else {
      WithoutAbsent(m.Hot(), k);
      TouchParts(m, k);
    }
    var hot, cold := [e] + Without(m.Hot(), k), Without(m.Cold(), k);
    var w := m.(items := hot + cold, split := |hot|);
    assert w.Hot() == hot && w.Cold() == cold;
    DemoteCuts(w);
  }

  lemma RewriteHot(m: Slru, e: Entry)
    requires m.Inv() && HasKey(m.Hot(), e.key)
    ensures HasKey(m.items, e.key) && Rewrite(m, e).Hot() == [e] + Without(m.Hot(), e.key)
  {
    HotFound(m, e.key);
    RewriteParts(m, e);
    WithoutPresent(m.Hot(), e.key);
  }

  /** `r` is `m` with the protected part `hot` cut to the longest prefix that fits. */
  ghost predicate HotCutTo(r: Slru, hot: seq<Entry>) {
    && r.Shape() && r.split <= |hot| && r.Hot() == hot[..r.split]
    && (if r.maxBytes > 0 then LongestFit(hot, r.split, r.protectedMax) else r.split == |hot|)
  }

  lemma EvictKeepsCut(m: Slru, hot: seq<Entry>)
    requires m.Config() && m.Shape() && m.maxBytes >= 0 && m.HotFits() && HotCutTo(m, hot)
    ensures HotCutTo(Evict(m), hot)
  {
    EvictSparesHot(m);
  }

  /** A write to a protected key does the same with the new entry; any other write leaves the protected part as
      it is. */
  lemma WriteCuts(m: Slru, e: Entry)
    requires m.Inv() && m.maxBytes >= 0
    ensures if HasKey(m.Hot(), e.key) then HotCutTo(Put(m, e), [e] + Without(m.Hot(), e.key))
            else Put(m, e).Hot() == m.Hot()
  {
    if HasKey(m.Hot(), e.key) {
      RewriteHot(m, e);
      DemoteCuts(Rewrite(m, e));
      DemoteFits(Rewrite(m, e));
      EvictKeepsCut(Demote(Rewrite(m, e)), [e] + Without(m.Hot(), e.key));
    } else {
      ScanPut(m, e);
    }
  }

  // ----- scan resistance

  /** Judged at the state it meets: an operation on an unprotected key, other than a hit, which would promote
      it; the removal of the oldest entry while that is not protected; a sweep with no protected entry
      expired. */
  predicate ScanOp(m: Slru, op: Op)
    requires m.Shape()
  {
    match op
    case Get(k, now) => !HasKey(m.Hot(), k) && Lookup(m, k, now).1.None?
    case RemoveOldest => m.Cold() != [] || m.items == []
    case Sweep(c) => Live(m.Hot(), At(c, 0)) == m.Hot()
    case _ => !HasKey(m.Hot(), op.key)
  }

  /** Every operation of the run is such a one. */
  predicate Scan(m: Slru, ops: seq<Op>)
    requires m.Shape()
    decreases |ops|
  {
    ops == [] || (ScanOp(m, ops[0]) && Scan(Step(m, ops[0]).0, ops[1..]))
  }

  lemma ScanPut(m: Slru, e: Entry)
    requires m.Inv() && !HasKey(m.Hot(), e.key) && m.maxBytes >= 0
    ensures Put(m, e).Hot() == m.Hot()
  {
    HotFound(m, e.key);
    if HasKey(m.items, e.key) {
      WithoutPresent(m.items, e.key);
      var w := Rewrite(m, e);
      assert w.Hot() == m.Hot();
      DemoteIdle(w);
      EvictSparesHot(w);
    } else {
      var w := m.(items := m.Hot() + [e] + m.Cold());
      assert w.Hot() == m.Hot();
      EvictSparesHot(w);
    }
  }

  lemma ScanPurge(m: Slru, now: int)
    requires m.Inv() && Live(m.Hot(), now) == m.Hot()
    ensures Purge(m, now).Hot() == m.Hot()
  {
    LiveAppend(m.Hot(), m.Cold(), now);
    assert m.items == m.Hot() + m.Cold();
  }

  lemma ScanDelete(m: Slru, k: Key)
    requires m.Inv() && !HasKey(m.Hot(), k)
    ensures Delete(m, k).Hot() == m.Hot()
  {
    HotFound(m, k);
  }

  lemma ScanStep(m: Slru, op: Op)
    requires m.Inv() && ScanOp(m, op)
    ensures var r := Step(m, op).0; r.Inv() && r.Hot() == m.Hot()
  {
    StepInv(m, op);
    match op
    case Get(k, now) => if HasKey(m.items, k) { ScanDelete(m, k); }
    case Add(k, v, ttl, now) => if m.maxBytes >= 0 { ScanPut(m, Entry(k, v, ExpiryOf(ttl, now))); }
    case Remove(k) => ScanDelete(m, k);
    case RemoveOldest =>
    case Sweep(c) => ScanPurge(m, At(c, 0));
  }

  /** No scan, however long, changes the protected part: neither its entries nor their order. A scan reads
      keys it does not find or finds expired, writes and removes unprotected keys, and removes the oldest
      entries and what has expired as long as that is not protected. */
  lemma {:induction false} ScanResistance(m: Slru, ops: seq<Op>)
    requires m.Inv() && Scan(m, ops)
    ensures var r := Run(m, ops); r.Inv() && r.Hot() == m.Hot()
    decreases |ops|
  {
    if ops != [] {
      ScanStep(m, ops[0]);
      ScanResistance(Step(m, ops[0]).0, ops[1..]);
    }
  }

  // ----- conservation of keys

  /** How often key `x` is inserted afresh (not overwritten) along a run. */
  function Births(m: Slru, ops: seq<Op>, x: Key): nat
    requires m.Shape()
    decreases |ops|
  {
    if ops == [] then 0
    else One(Born(m, ops[0], x)) + Births(Step(m, ops[0]).0, ops[1..], x)
  }

  predicate Born(m: Slru, op: Op, x: Key) { op.Add? && op.key == x && !HasKey(m.items, x) }

  /** Occurrences of `x` among the residents and among the callback's calls. */
  function Accounted(m: Slru, x: Key): nat { Count(m.items, x) + CallCount(m.log, x) }

  lemma CutAccounted(m: Slru, n: nat, x: Key)
    requires n <= |m.items|
    ensures Accounted(m.(items := m.items[..n], log := m.log + Calls(m.items[n..])), x) == Accounted(m, x)
  {
    assert m.items == m.items[..n] + m.items[n..];
    CountAppend(m.items[..n], m.items[n..], x);
    CallCountAppend(m.log, m.items[n..], x);
  }

  lemma DeleteAccounted(m: Slru, k: Key, x: Key)
    requires m.Shape()
    ensures Accounted(Delete(m, k), x) == Accounted(m, x)
  {
    if HasKey(m.items, k) {
      WithoutPresent(m.items, k);
      CallCountAppend(m.log, [EntryFor(m.items, k)], x);
    }
  }

  lemma InsertCount(a: seq<Entry>, e: Entry, b: seq<Entry>, x: Key)
    ensures Count(a + [e] + b, x) == Count(a + b, x) + One(e.key == x)
  {
    CountAppend(a + [e], b, x);
    CountAppend(a, [e], x);
    CountAppend(a, b, x);
  }

  lemma RewriteAccounted(m: Slru, e: Entry, x: Key)
    requires m.Shape() && HasKey(m.items, e.key)
    ensures Count(Rewrite(m, e).items, x) == Count(m.items, x)
  {
    var rest := Without(m.items, e.key);
    WithoutPresent(m.items, e.key);
    HotFound(m, e.key);
    if HasKey(m.Hot(), e.key) {
      assert ([e] + rest)[1..] == rest;
    } else {
      InsertCount(rest[..m.split], e, rest[m.split..], x);
      assert rest[..m.split] + rest[m.split..] == rest;
    }
  }

  lemma PutAccounted(m: Slru, e: Entry, x: Key)
    requires m.Shape()
    ensures Accounted(Put(m, e), x) == Accounted(m, x) + One(e.key == x && !HasKey(m.items, x))
  {
    if HasKey(m.items, e.key) {
      RewriteAccounted(m, e, x);
      var w := Demote(Rewrite(m, e));
      CutAccounted(w, Kept(w), x);
    } else {
      assert m.items == m.Hot() + m.Cold();
      InsertCount(m.Hot(), e, m.Cold(), x);
      var w := m.(items := m.Hot() + [e] + m.Cold());
      CutAccounted(w, Kept(w), x);
    }
  }

  lemma StepAccounted(m: Slru, op: Op, x: Key)
    requires m.Shape()
    ensures Accounted(Step(m, op).0, x) == Accounted(m, x) + One(Born(m, op, x))
  {
    match op
    case Get(k, now) =>
      DeleteAccounted(m, k, x);
      if HasKey(m.items, k) {
        WithoutPresent(m.items, k);
        assert ([EntryFor(m.items, k)] + Without(m.items, k))[1..] == Without(m.items, k);
      }
    case Add(k, v, ttl, now) => PutAccounted(m, Entry(k, v, ExpiryOf(ttl, now)), x);
    case Remove(k) => DeleteAccounted(m, k, x);
    case RemoveOldest =>
      if m.items != [] { CutAccounted(m, |m.items| - 1, x); }
    case Sweep(c) =>
      SurvivorCount(m.items, [At(c, 0)], x);
      CallCountAppend(m.log, Dead(m.items, At(c, 0)), x);
  }

  /** Over every run and for every key, each fresh insertion is accounted for once: the key is
      resident or was given to the eviction callback. Hits, rewrites and demotions call nothing back. */
  lemma {:induction false} Conservation(m: Slru, ops: seq<Op>, x: Key)
    requires m.Shape()
    ensures Accounted(Run(m, ops), x) == Accounted(m, x) + Births(m, ops, x)
    decreases |ops|
  {
    if ops != [] {
      StepAccounted(m, ops[0], x);
      Conservation(Step(m, ops[0]).0, ops[1..], x);
    }
  }
}

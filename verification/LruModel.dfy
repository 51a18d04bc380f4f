/**
 The plain LRU policy as one recency list (internal/lru/lru.go), and its inclusion property: a
 smaller cache always holds a prefix of what a larger one holds.
 */
module LruModel {
  import opened Entries

  datatype Lru = Lru(maxBytes: int, items: seq<Entry>, log: seq<(Key, View)>)
  {
    /** What holds between public operations. */
    predicate Inv() {
      && Distinct(items)
      && (maxBytes > 0 ==> Bytes(items) <= maxBytes)
      && (maxBytes < 0 ==> items == [])
    }
  }

  function Init(maxBytes: int): Lru { Lru(maxBytes, [], []) }

  function Kept(m: Lru): (n: nat)
    ensures n <= |m.items|
  {
    if m.maxBytes == 0 then |m.items| else FitLen(m.items, m.maxBytes)
  }

  /** The first `n` entries stay, the others go to the callback. */
  function Cut(m: Lru, n: nat): Lru
    requires n <= |m.items|
  {
    m.(items := m.items[..n], log := m.log + Calls(m.items[n..]))
  }

  function Evict(m: Lru): Lru { Cut(m, Kept(m)) }

  function Put(m: Lru, e: Entry): Lru { Evict(m.(items := [e] + Without(m.items, e.key))) }

  function Delete(m: Lru, k: Key): Lru {
    if HasKey(m.items, k) then
      m.(items := Without(m.items, k), log := m.log + Calls([EntryFor(m.items, k)]))
    else m
  }

  function Touch(m: Lru, k: Key): Lru
    requires HasKey(m.items, k)
  {
    m.(items := [EntryFor(m.items, k)] + Without(m.items, k))
  }

  function Lookup(m: Lru, k: Key, now: int): (Lru, Option<View>) {
    if !HasKey(m.items, k) then (m, None)
    else if EntryFor(m.items, k).Expired(now) then (Delete(m, k), None)
    else (Touch(m, k), Some(EntryFor(m.items, k).value))
  }

  function DropOldest(m: Lru): Lru {
    if m.items == [] then m else Cut(m, |m.items| - 1)
  }

  function Purge(m: Lru, c: Clock): Lru {
    m.(items := Survivors(m.items, c), log := m.log + Calls(Casualties(m.items, c)))
  }

  function Step(m: Lru, op: Op): (Lru, Option<View>) {
    match op
    case Get(k, now) => Lookup(m, k, now)
    case Add(k, v, ttl, now) => (Put(m, Entry(k, v, ExpiryOf(ttl, now))), None)
    case Remove(k) => (Delete(m, k), None)
    case RemoveOldest => (DropOldest(m), None)
    case Sweep(c) => (Purge(m, c), None)
  }

  function Run(m: Lru, ops: seq<Op>): Lru
    decreases |ops|
  {
    if ops == [] then m else Run(Step(m, ops[0]).0, ops[1..])
  }

  /** Removing the key of the last entry is dropping the oldest entry. */
  lemma DeleteLast(m: Lru)
    requires Distinct(m.items) && m.items != []
    ensures HasKey(m.items, m.items[|m.items| - 1].key)
    ensures Delete(m, m.items[|m.items| - 1].key) == DropOldest(m)
  {
    var n := |m.items| - 1;
    LastFound(m.items);
    assert m.items[n..] == [m.items[n]];
  }

  /** What is found under the key of a write is the entry written. */
  lemma PutFinds(m: Lru, e: Entry)
    requires Distinct(m.items)
    ensures HasKey(Put(m, e).items, e.key) ==> EntryFor(Put(m, e).items, e.key) == e
  {
    var w := m.(items := [e] + Without(m.items, e.key));
    WithoutDistinct(m.items, e.key);
    assert [] + [e] + Without(m.items, e.key) == w.items;
    MiddleFound([], e, Without(m.items, e.key), Kept(w));
  }

  // ----- the capacity loop, turn by turn

  /** `m` is `m0` part-way through the capacity loop. */
  ghost predicate CutOf(m: Lru, m0: Lru) {
    && |m.items| <= |m0.items|
    && m == Cut(m0, |m.items|)
    && FitLen(m.items, m.maxBytes) == FitLen(m0.items, m0.maxBytes)
  }

  lemma CutStart(m: Lru)
    ensures CutOf(m, m)
  {
    assert m.items[..|m.items|] == m.items && m.log + Calls([]) == m.log;
  }

  lemma CutStep(m: Lru, m0: Lru)
    requires CutOf(m, m0) && m.items != [] && Bytes(m.items) > m.maxBytes
    ensures CutOf(DropOldest(m), m0)
  {
    var n := |m.items| - 1;
    CallsFrom(m0.items, n);
    CallsFrom(m.items, n);
    assert m.items[..n] == m0.items[..n] && m.items[n] == m0.items[n];
    assert m.items[n + 1..] == [];
  }

  lemma CutDone(m: Lru, m0: Lru)
    requires CutOf(m, m0)
    requires m.maxBytes == 0 ==> m == m0
    requires m.maxBytes != 0 ==> Bytes(m.items) <= m.maxBytes
    ensures m == Evict(m0)
  {
    if m.maxBytes == 0 { CutStart(m0); }
  }

  // ----- the invariant over every run

  lemma EvictInv(m: Lru)
    requires Distinct(m.items)
    ensures Evict(m).Inv()
  {
    PrefixDistinct(m.items, Kept(m));
    if m.maxBytes > 0 || (m.maxBytes < 0 && Kept(m) > 0) { FitLenFits(m.items, m.maxBytes); }
  }

  lemma DeleteInv(m: Lru, k: Key)
    requires m.Inv()
    ensures Delete(m, k).Inv()
    ensures HasKey(m.items, k) ==> Touch(m, k).Inv()
  {
    if HasKey(m.items, k) {
      WithoutPresent(m.items, k);
      WithoutDistinct(m.items, k);
      DistinctPushFront(EntryFor(m.items, k), Without(m.items, k));
      BytesPushFront(EntryFor(m.items, k), Without(m.items, k));
    }
  }

  lemma PutInv(m: Lru, e: Entry)
    requires m.Inv()
    ensures Put(m, e).Inv()
  {
    WithoutDistinct(m.items, e.key);
    DistinctPushFront(e, Without(m.items, e.key));
    EvictInv(m.(items := [e] + Without(m.items, e.key)));
  }

  lemma DropOldestInv(m: Lru)
    requires m.Inv()
    ensures DropOldest(m).Inv()
  {
    if m.items != [] {
      PrefixDistinct(m.items, |m.items| - 1);
      BytesSplit(m.items, |m.items| - 1);
    }
  }

  lemma StepInv(m: Lru, op: Op)
    requires m.Inv()
    ensures Step(m, op).0.Inv()
  {
    match op
    case Get(k, now) => DeleteInv(m, k);
    case Add(k, v, ttl, now) => PutInv(m, Entry(k, v, ExpiryOf(ttl, now)));
    case Remove(k) => DeleteInv(m, k);
    case RemoveOldest => DropOldestInv(m);
    case Sweep(c) => SurvivorsDistinct(m.items, c);
  }

  /** Distinct keys and the byte bound hold in every reachable state. */
  lemma {:induction false} RunInv(m: Lru, ops: seq<Op>)
    requires m.Inv()
    ensures Run(m, ops).Inv()
    decreases |ops|
  {
    if ops != [] {
      StepInv(m, ops[0]);
      RunInv(Step(m, ops[0]).0, ops[1..]);
    }
  }

  // ----- the sweep

  predicate Rising(c: Clock) { forall i, j :: 0 <= i <= j < |c| ==> c[i] <= c[j] }

  /** The sweep leaves nothing that had expired when it began (filtering at the first reading changes
      nothing), removes only what has expired when it ends, and keeps the order (filtering at the last
      reading gives the same list before and after). */
  lemma {:induction false} SweepBounds(s: seq<Entry>, c: Clock)
    requires Rising(c)
    ensures Live(Survivors(s, c), c[0]) == Survivors(s, c)
    ensures Live(Survivors(s, c), c[|c| - 1]) == Live(s, c[|c| - 1])
  {
    if s != [] {
      SweepBounds(s[1..], c);
      var now := At(c, |s| - 1);
      assert c[0] <= now <= c[|c| - 1];
      if !s[0].Expired(now) { assert Survivors(s, c)[1..] == Survivors(s[1..], c); }
    }
  }

  // ----- inclusion

  /** Read-through use of a store: a read fills on a miss; keys may be rewritten or invalidated. */
  datatype Access =
    | Read(key: Key, value: View)     // `value` is what a miss loads
    | Write(key: Key, value: View)
    | Invalidate(key: Key)
    | DropLast

  /** What is written for a key has the key's size. */
  predicate OfSize(a: Access, size: Key -> int) {
    a.Read? || a.Write? ==> |a.key| + |a.value.bytes| == size(a.key)
  }

  /** Every entry has its key's size, and none expires. */
  predicate Sized(s: seq<Entry>, size: Key -> int) {
    s == [] || (s[0].Cost() == size(s[0].key) && s[0].expireAt.None? && Sized(s[1..], size))
  }

  /** The keys of `s` are, in order, the first keys of `t`. */
  predicate Leads(s: seq<Entry>, t: seq<Entry>) {
    s == [] || (t != [] && s[0].key == t[0].key && Leads(s[1..], t[1..]))
  }

  function Touched(m: Lru, a: Access): Lru {
    match a
    case Read(k, v) =>
      var (r, hit) := Lookup(m, k, 0);
      if hit.Some? then r else Put(m, Entry(k, v, None))
    case Write(k, v) => Put(m, Entry(k, v, None))
    case Invalidate(k) => Delete(m, k)
    case DropLast => DropOldest(m)
  }

  function RunAccesses(m: Lru, use: seq<Access>): Lru
    decreases |use|
  {
    if use == [] then m else RunAccesses(Touched(m, use[0]), use[1..])
  }

  /** `a` holds at most what `b` may hold; 0 is no limit. */
  predicate CapacityLe(a: int, b: int) { b == 0 || 0 < a <= b }

  ghost predicate Included(small: Lru, large: Lru, size: Key -> int) {
    && CapacityLe(small.maxBytes, large.maxBytes) && small.maxBytes >= 0
    && Leads(small.items, large.items)
    && Sized(small.items, size) && Sized(large.items, size)
  }

  lemma {:induction false} SizedPrefix(s: seq<Entry>, n: nat, size: Key -> int)
    requires Sized(s, size) && n <= |s|
    ensures Sized(s[..n], size)
  {
    if n > 0 {
      SizedPrefix(s[1..], n - 1, size);
      assert s[..n][1..] == s[1..][..n - 1];
    }
  }

  lemma {:induction false} SizedKey(s: seq<Entry>, size: Key -> int, k: Key)
    requires Sized(s, size)
    ensures HasKey(s, k) ==> EntryFor(s, k).Cost() == size(k) && EntryFor(s, k).expireAt.None?
    ensures Sized(Without(s, k), size)
  {
    if s != [] {
      SizedKey(s[1..], size, k);
      if s[0].key != k { assert Without(s, k)[1..] == Without(s[1..], k); }
    }
  }

  lemma {:induction false} LeadsHas(s: seq<Entry>, t: seq<Entry>, k: Key)
    requires Leads(s, t)
    ensures |s| <= |t| && (HasKey(s, k) ==> HasKey(t, k))
  {
    if s != [] { LeadsHas(s[1..], t[1..], k); }
  }

  lemma {:induction false} LeadsWithout(s: seq<Entry>, t: seq<Entry>, k: Key)
    requires Leads(s, t)
    ensures Leads(Without(s, k), Without(t, k))
  {
    if s != [] && s[0].key != k {
      LeadsWithout(s[1..], t[1..], k);
      assert Without(s, k)[1..] == Without(s[1..], k) && Without(t, k)[1..] == Without(t[1..], k);
    }
  }

  lemma {:induction false} LeadsCut(s: seq<Entry>, t: seq<Entry>, i: nat, j: nat)
    requires Leads(s, t) && i <= |s| && i <= j <= |t|
    ensures Leads(s[..i], t[..j])
  {
    if i > 0 {
      LeadsCut(s[1..], t[1..], i - 1, j - 1);
      assert s[..i][1..] == s[1..][..i - 1] && t[..j][1..] == t[1..][..j - 1];
    }
  }

  lemma {:induction false} LeadsBytes(s: seq<Entry>, t: seq<Entry>, size: Key -> int, n: nat)
    requires Leads(s, t) && Sized(s, size) && Sized(t, size) && n <= |s|
    ensures n <= |t| && Bytes(s[..n]) == Bytes(t[..n])
  {
    if n > 0 {
      LeadsBytes(s[1..], t[1..], size, n - 1);
      assert s[..n][1..] == s[1..][..n - 1] && t[..n][1..] == t[1..][..n - 1];
    }
  }

  /** Cutting a list and one it leads, the first to a smaller capacity, keeps the lead. */
  lemma CutInclusion(small: Lru, large: Lru, size: Key -> int)
    requires Included(small, large, size)
    ensures Included(Evict(small), large, size) && Included(Evict(small), Evict(large), size)
  {
    var n, j := Kept(small), Kept(large);
    LeadsHas(small.items, large.items, "");
    if large.maxBytes != 0 {
      FitLenFits(small.items, small.maxBytes);
      LeadsBytes(small.items, large.items, size, n);
      FitLenMax(large.items, large.maxBytes, n);
    }
    LeadsCut(small.items, large.items, n, j);
    LeadsCut(small.items, large.items, n, |large.items|);
    assert large.items[..|large.items|] == large.items;
    SizedPrefix(small.items, n, size);
    SizedPrefix(large.items, j, size);
  }

  lemma DeleteInclusion(small: Lru, large: Lru, size: Key -> int, k: Key)
    requires Included(small, large, size)
    ensures Included(Delete(small, k), Delete(large, k), size)
    ensures Included(small.(items := Without(small.items, k)), large.(items := Without(large.items, k)), size)
  {
    LeadsWithout(small.items, large.items, k);
    SizedKey(small.items, size, k);
    SizedKey(large.items, size, k);
    if !HasKey(small.items, k) { WithoutAbsent(small.items, k); }
    if !HasKey(large.items, k) { WithoutAbsent(large.items, k); }
  }

  /** Entries of the same key, at the front of the two lists. */
  lemma FrontInclusion(small: Lru, large: Lru, size: Key -> int, e: Entry, f: Entry)
    requires Included(small, large, size) && e.key == f.key && e.expireAt.None? && f.expireAt.None?
    requires e.Cost() == f.Cost() == size(e.key)
    ensures Included(small.(items := [e] + Without(small.items, e.key)),
                     large.(items := [f] + Without(large.items, e.key)), size)
  {
    DeleteInclusion(small, large, size, e.key);
    var a, b := [e] + Without(small.items, e.key), [f] + Without(large.items, e.key);
    assert a[1..] == Without(small.items, e.key) && b[1..] == Without(large.items, e.key);
  }

  lemma PutInclusion(small: Lru, large: Lru, size: Key -> int, e: Entry)
    requires Included(small, large, size) && e.expireAt.None? && e.Cost() == size(e.key)
    ensures Included(Put(small, e), Put(large, e), size)
  {
    FrontInclusion(small, large, size, e, e);
    CutInclusion(small.(items := [e] + Without(small.items, e.key)),
                 large.(items := [e] + Without(large.items, e.key)), size);
  }

  /** A read hits exactly the resident keys. */
  lemma ReadForm(m: Lru, size: Key -> int, k: Key, v: View)
    requires Sized(m.items, size)
    ensures Touched(m, Read(k, v)) == if HasKey(m.items, k) then Touch(m, k) else Put(m, Entry(k, v, None))
  {
    SizedKey(m.items, size, k);
  }

  /** The key is resident in the larger cache. The entry the smaller cache loads, if it misses, may differ
      from the larger one's in value, but not in size. */
  lemma HitInLarge(small: Lru, large: Lru, size: Key -> int, k: Key, e: Entry)
    requires Included(small, large, size) && HasKey(large.items, k)
    requires e.key == k && e.expireAt.None? && e.Cost() == size(k)
    ensures Included(Put(small, e), Touch(large, k), size)
    ensures HasKey(small.items, k) ==> Included(Touch(small, k), Touch(large, k), size)
  {
    SizedKey(small.items, size, k);
    SizedKey(large.items, size, k);
    var f := EntryFor(large.items, k);
    FrontInclusion(small, large, size, e, f);
    CutInclusion(small.(items := [e] + Without(small.items, k)), Touch(large, k), size);
    if HasKey(small.items, k) { FrontInclusion(small, large, size, EntryFor(small.items, k), f); }
  }

  lemma ReadInclusion(small: Lru, large: Lru, size: Key -> int, k: Key, v: View)
    requires Included(small, large, size) && |k| + |v.bytes| == size(k)
    ensures HasKey(small.items, k) ==> HasKey(large.items, k)
    ensures Included(Touched(small, Read(k, v)), Touched(large, Read(k, v)), size)
  {
    LeadsHas(small.items, large.items, k);
    ReadForm(small, size, k, v);
    ReadForm(large, size, k, v);
    if HasKey(large.items, k) {
      HitInLarge(small, large, size, k, Entry(k, v, None));
    } else {
      PutInclusion(small, large, size, Entry(k, v, None));
    }
  }

  lemma DropInclusion(small: Lru, large: Lru, size: Key -> int)
    requires Included(small, large, size)
    ensures Included(DropOldest(small), DropOldest(large), size)
  {
    LeadsHas(small.items, large.items, "");
    if large.items != [] {
      var i, j := if small.items == [] then 0 else |small.items| - 1, |large.items| - 1;
      LeadsCut(small.items, large.items, i, j);
      SizedPrefix(small.items, i, size);
      SizedPrefix(large.items, j, size);
    }
  }

  /** Over every run of read-through accesses, rewrites and invalidations in which the size of what is
      loaded for a key is fixed (its value need not be), the keys of the smaller cache are the first keys
      of the larger cache's recency list. */
  lemma {:induction false} Inclusion(small: Lru, large: Lru, use: seq<Access>, size: Key -> int)
    requires Included(small, large, size) && forall a :: a in use ==> OfSize(a, size)
    ensures Included(RunAccesses(small, use), RunAccesses(large, use), size)
    decreases |use|
  {
    if use != [] {
      assert OfSize(use[0], size);
      match use[0] {
        case Read(k, v) => ReadInclusion(small, large, size, k, v);
        case Write(k, v) => PutInclusion(small, large, size, Entry(k, v, None));
        case Invalidate(k) => DeleteInclusion(small, large, size, k);
        case DropLast => DropInclusion(small, large, size);
      }
      Inclusion(Touched(small, use[0]), Touched(large, use[0]), use[1..], size);
    }
  }

  /** So, starting empty, every hit of the smaller cache is a hit of the larger one. */
  lemma HitInclusion(a: int, b: int, use: seq<Access>, size: Key -> int, k: Key, now: int)
    requires CapacityLe(a, b) && a >= 0 && forall u :: u in use ==> OfSize(u, size)
    requires Lookup(RunAccesses(Init(a), use), k, now).1.Some?
    ensures Lookup(RunAccesses(Init(b), use), k, now).1.Some?
  {
    Inclusion(Init(a), Init(b), use, size);
    LeadsHas(RunAccesses(Init(a), use).items, RunAccesses(Init(b), use).items, k);
    SizedKey(RunAccesses(Init(b), use).items, size, k);
  }

  // ----- conservation of keys

  predicate Born(m: Lru, op: Op, x: Key) { op.Add? && op.key == x && !HasKey(m.items, x) }

  function Births(m: Lru, ops: seq<Op>, x: Key): nat
    decreases |ops|
  {
    if ops == [] then 0
    else One(Born(m, ops[0], x)) + Births(Step(m, ops[0]).0, ops[1..], x)
  }

  function Accounted(m: Lru, x: Key): nat { Count(m.items, x) + CallCount(m.log, x) }

  lemma CutAccounted(m: Lru, n: nat, x: Key)
    requires n <= |m.items|
    ensures Accounted(Cut(m, n), x) == Accounted(m, x)
  {
    assert m.items == m.items[..n] + m.items[n..];
    CountAppend(m.items[..n], m.items[n..], x);
    CallCountAppend(m.log, m.items[n..], x);
  }

  lemma DeleteAccounted(m: Lru, k: Key, x: Key)
    ensures Accounted(Delete(m, k), x) == Accounted(m, x)
    ensures HasKey(m.items, k) ==> Accounted(Touch(m, k), x) == Accounted(m, x)
  {
    if HasKey(m.items, k) {
      WithoutPresent(m.items, k);
      CallCountAppend(m.log, [EntryFor(m.items, k)], x);
      assert ([EntryFor(m.items, k)] + Without(m.items, k))[1..] == Without(m.items, k);
    }
  }

  lemma StepAccounted(m: Lru, op: Op, x: Key)
    ensures Accounted(Step(m, op).0, x) == Accounted(m, x) + One(Born(m, op, x))
  {
    match op
    case Get(k, now) => DeleteAccounted(m, k, x);
    case Add(k, v, ttl, now) =>
      var w := m.(items := [Entry(k, v, ExpiryOf(ttl, now))] + Without(m.items, k));
      assert w.items[1..] == Without(m.items, k);
      if HasKey(m.items, k) { WithoutPresent(m.items, k); } else { WithoutAbsent(m.items, k); }
      CutAccounted(w, Kept(w), x);
    case Remove(k) => DeleteAccounted(m, k, x);
    case RemoveOldest =>
      if m.items != [] { CutAccounted(m, |m.items| - 1, x); }
    case Sweep(c) =>
      SurvivorCount(m.items, c, x);
      CallCountAppend(m.log, Casualties(m.items, c), x);
  }

  /** Over every run and for every key, each fresh insertion is accounted for once: the key is
      resident or was given to the eviction callback. */
  lemma {:induction false} Conservation(m: Lru, ops: seq<Op>, x: Key)
    ensures Accounted(Run(m, ops), x) == Accounted(m, x) + Births(m, ops, x)
    decreases |ops|
  {
    if ops != [] {
      StepAccounted(m, ops[0], x);
      Conservation(Step(m, ops[0]).0, ops[1..], x);
    }
  }

  // ----- when the capacity loop ends

  /** The loop's guard. */
  predicate Over(m: Lru) { m.maxBytes != 0 && Bytes(m.items) > m.maxBytes }

  /** The cache after `n` turns of the loop, whose body removes the oldest entry. */
  function AfterTurns(m: Lru, n: nat): Lru
    decreases n
  {
    if n == 0 then m else AfterTurns(DropOldest(m), n - 1)
  }

  lemma {:induction false} TurnsEmpty(m: Lru, n: nat)
    requires n >= |m.items|
    ensures AfterTurns(m, n).items == [] && AfterTurns(m, n).maxBytes == m.maxBytes
    decreases n
  {
    if n > 0 { TurnsEmpty(DropOldest(m), n - 1); }
  }

  lemma {:induction false} TurnsKeepLimit(m: Lru, n: nat)
    ensures AfterTurns(m, n).maxBytes == m.maxBytes
    decreases n
  {
    if n > 0 { TurnsKeepLimit(DropOldest(m), n - 1); }
  }

  /** The guard becomes false after some number of turns if and only if the capacity is not negative. */
  lemma LoopEnds(m: Lru)
    ensures (exists n: nat :: !Over(AfterTurns(m, n))) <==> m.maxBytes >= 0
  {
    if m.maxBytes >= 0 {
      TurnsEmpty(m, |m.items|);
      assert !Over(AfterTurns(m, |m.items|));
    } else {
      forall n: nat ensures Over(AfterTurns(m, n)) { TurnsKeepLimit(m, n); }
    }
  }
}

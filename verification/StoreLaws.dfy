/**
 What the operations of either store do, said of their arguments alone: of keys, bytes, TTLs and clock
 readings, and not of the functions that compute it.
 */
module StoreLaws {
  import opened Entries
  import opened Stores
  import L = LruModel
  import S = SlruModel

  // ----- how long a write is served

  /** A write without TTL is served for ever; one with a TTL up to and including `now + ttl`. */
  predicate Serves(add: Op, t: int)
    requires add.Add?
  {
    add.ttl <= 0 || t <= add.now + add.ttl
  }

  /** The write of `k` that no later write or removal of it follows. */
  function LastAdd(ops: seq<Op>, k: Key): (r: Option<Op>)
    ensures r.Some? ==> r.value.Add? && r.value.key == k && r.value in ops
  {
    if ops == [] then None
    else
      var op := ops[|ops| - 1];
      if (op.Add? || op.Remove?) && op.key == k then (if op.Add? then Some(op) else None)
      else LastAdd(ops[..|ops| - 1], k)
  }

  lemma {:induction false} RefRunLast(ref: Ref, ops: seq<Op>, op: Op)
    ensures RefRun(ref, ops + [op]) == RefStep(RefRun(ref, ops), op)
    decreases |ops|
  {
    if ops == [] {
      assert ops + [op] == [op] && [op][1..] == [];
    } else {
      RefRunLast(RefStep(ref, ops[0]), ops[1..], op);
      assert (ops + [op])[1..] == ops[1..] + [op];
    }
  }

  /** The record of writes holds each key's last one, and its expiry is that. */
  lemma {:induction false} RefIsLast(ops: seq<Op>, k: Key, t: int)
    ensures var ref, add := RefRun(map[], ops), LastAdd(ops, k);
      && (k in ref <==> add.Some?)
      && (k in ref ==> ref[k].value == add.value.value && (ref[k].Expired(t) <==> !Serves(add.value, t)))
    decreases |ops|
  {
    if ops != [] {
      var front, op := ops[..|ops| - 1], ops[|ops| - 1];
      assert ops == front + [op];
      RefRunLast(map[], front, op);
      RefIsLast(front, k, t);
    }
  }

  /** Over every run of either store from empty, a hit returns the value of the key's last write, which still
      serves. */
  lemma HitIsLastAdd(st: Store, ops: seq<Op>, k: Key, now: int)
    requires st.Inv() && st.Items() == []
    ensures var v, add := Step(Run(st, ops), Get(k, now)).1, LastAdd(ops, k);
      v.Some? ==> add.Some? && v.value == add.value.value && Serves(add.value, now)
  {
    if Step(Run(st, ops), Get(k, now)).1.Some? { HitIsLastWrite(st, ops, k, now); }
    RefIsLast(ops, k, now);
  }

  /** An unlimited store answers with the key's last write exactly as long as that serves. */
  lemma UnlimitedServes(st: Store, ops: seq<Op>, t: int, k: Key, now: int)
    requires st.Inv() && st.MaxBytes() == 0 && st.Items() == []
    requires Chronicle(ops, t) && EndTime(ops, t) <= now
    ensures var add := LastAdd(ops, k);
      Step(Run(st, ops), Get(k, now)).1 ==
      if add.Some? && Serves(add.value, now) then Some(add.value.value) else None
  {
    UnlimitedIsExact(st, ops, t, k, now);
    RefIsLast(ops, k, now);
  }

  // ----- one write

  /** The bytes in front of which a new entry for `k` is put: the protected ones, unless it is one of them. */
  function Before(st: Store, k: Key): nat
    requires st.Inv()
  {
    if st.Plain? || HasKey(st.s.Hot(), k) then 0 else Bytes(st.s.Hot())
  }

  lemma CutBehind(a: seq<Entry>, e: Entry, b: seq<Entry>, n: nat)
    requires |a| < n <= |a| + 1 + |b| && !HasKey(a, e.key)
    ensures var s := (a + [e] + b)[..n];
      HasKey(s, e.key) && EntryFor(s, e.key) == e && Without(s, e.key) == (a + b)[..n - 1]
  {
    var c := b[..n - |a| - 1];
    assert (a + [e] + b)[..n] == a + [e] + c && (a + b)[..n - 1] == a + c;
    WithoutMiddle(a, e, c);
  }

  lemma CutBefore(a: seq<Entry>, e: Entry, b: seq<Entry>, n: nat)
    requires n <= |a| && !HasKey(a, e.key)
    ensures var s := (a + [e] + b)[..n];
      !HasKey(s, e.key) && Without(s, e.key) == (a + b)[..n]
  {
    assert (a + [e] + b)[..n] == a[..n] == (a + b)[..n] && a == a[..n] + a[n..];
    HasKeyAppend(a[..n], a[n..], e.key);
    WithoutAbsent(a[..n], e.key);
  }

  /** How much of `a + [e] + b` fits: `e` does exactly when `a` and `e` do. */
  lemma FitsUpTo(a: seq<Entry>, e: Entry, b: seq<Entry>, limit: int)
    requires limit >= 0
    ensures FitLen(a + [e] + b, limit) > |a| <==> Bytes(a) + e.Cost() <= limit
  {
    var s := a + [e] + b;
    assert s[..|a| + 1] == a + [e];
    BytesAppend(a, [e]);
    assert Bytes([e]) == e.Cost();
    if Bytes(a) + e.Cost() <= limit { FitLenMax(s, limit, |a| + 1); }
    var n := FitLen(s, limit);
    if n > |a| {
      FitLenFits(s, limit);
      BytesSplit(s[..n], |a| + 1);
      assert s[..n][..|a| + 1] == a + [e];
    }
  }

  /** Where the entry is kept: behind `a`; what is kept of the others: the first ones. */
  lemma CutKeeps(a: seq<Entry>, e: Entry, b: seq<Entry>, n: nat)
    requires n <= |a| + 1 + |b| && !HasKey(a, e.key)
    ensures var s := (a + [e] + b)[..n];
      && (HasKey(s, e.key) <==> n > |a|) && (n > |a| ==> EntryFor(s, e.key) == e)
      && Without(s, e.key) == (a + b)[..if n > |a| then n - 1 else n]
  {
    if n > |a| { CutBehind(a, e, b, n); } else { CutBefore(a, e, b, n); }
  }

  /** How many entries of such a list a capacity leaves. */
  function Left(a: seq<Entry>, e: Entry, b: seq<Entry>, maxBytes: int): (n: nat)
    ensures n <= |a| + 1 + |b|
  {
    if maxBytes == 0 then |a| + 1 + |b| else FitLen(a + [e] + b, maxBytes)
  }

  lemma PlainPlace(l: L.Lru, e: Entry)
    ensures var rest := Without(l.items, e.key);
      L.Put(l, e).items == ([] + [e] + rest)[..Left([], e, rest, l.maxBytes)]
  {
    assert [] + [e] + Without(l.items, e.key) == [e] + Without(l.items, e.key);
  }

  lemma SegmentedPlace(s: S.Slru, e: Entry) returns (a: seq<Entry>, b: seq<Entry>)
    requires s.Inv()
    ensures a + b == Without(s.items, e.key) && a == if HasKey(s.Hot(), e.key) then [] else s.Hot()
    ensures S.Put(s, e).items == (a + [e] + b)[..Left(a, e, b, s.maxBytes)]
  {
    var rest := Without(s.items, e.key);
    var p := if HasKey(s.Hot(), e.key) then 0 else s.split;
    S.HotFound(s, e.key);
    S.PutForm(s, e);
    a, b := rest[..p], rest[p..];
    assert S.Spread(s, e) == a + [e] + b;
  }

  /** Where a write puts its entry: between two parts of the others; then what does not fit is cut off. */
  lemma PutPlace(st: Store, op: Op) returns (a: seq<Entry>, e: Entry, b: seq<Entry>)
    requires st.Inv() && op.Add?
    ensures a + b == Without(st.Items(), op.key) && Bytes(a) == Before(st, op.key)
    ensures !HasKey(a, op.key) && e == Entry(op.key, op.value, ExpiryOf(op.ttl, op.now))
    ensures Step(st, op).0.Items() == (a + [e] + b)[..Left(a, e, b, st.MaxBytes())]
  {
    e := Entry(op.key, op.value, ExpiryOf(op.ttl, op.now));
    match st
    case Plain(l) =>
      PlainPlace(l, e);
      a, b := [], Without(l.items, op.key);
    case Segmented(s) =>
      a, b := SegmentedPlace(s, e);
  }

  lemma LeftBehind(a: seq<Entry>, e: Entry, b: seq<Entry>, maxBytes: int)
    requires maxBytes >= 0
    ensures Left(a, e, b, maxBytes) > |a| <==> maxBytes == 0 || Bytes(a) + e.Cost() <= maxBytes
  {
    FitsUpTo(a, e, b, maxBytes);
  }

  /** A write is kept if and only if it fits behind the protected entries. */
  lemma WriteStays(st: Store, op: Op)
    requires st.Inv() && st.MaxBytes() >= 0 && op.Add?
    ensures var s := Step(st, op).0.Items();
      && (HasKey(s, op.key) <==>
            st.MaxBytes() == 0 || Before(st, op.key) + |op.key| + |op.value.bytes| <= st.MaxBytes())
      && (HasKey(s, op.key) ==> EntryFor(s, op.key) == Entry(op.key, op.value, ExpiryOf(op.ttl, op.now)))
  {
    var a, e, b := PutPlace(st, op);
    LeftBehind(a, e, b, st.MaxBytes());
    CutKeeps(a, e, b, Left(a, e, b, st.MaxBytes()));
  }

  /** Then a lookup finds its value exactly as long as it serves. */
  lemma WriteFound(st: Store, k: Key, v: View, ttl: int, now: int, t: int)
    requires st.Inv() && st.MaxBytes() >= 0
    ensures var add := Add(k, v, ttl, now);
      var r := Step(st, add).0;
      && r.Inv()
      && Step(r, Get(k, t)).1 == if HasKey(r.Items(), k) && Serves(add, t) then Some(v) else None
  {
    WriteStays(st, Add(k, v, ttl, now));
    StepInv(st, Add(k, v, ttl, now));
    GetAnswer(Step(st, Add(k, v, ttl, now)).0, k, t);
  }

  /** The other entries keep their order, and only the oldest of them may go. */
  lemma WriteSpares(st: Store, op: Op) returns (m: nat)
    requires st.Inv() && op.Add?
    ensures var rest := Without(st.Items(), op.key);
      m <= |rest| && Without(Step(st, op).0.Items(), op.key) == rest[..m]
  {
    var a, e, b := PutPlace(st, op);
    var n := Left(a, e, b, st.MaxBytes());
    CutKeeps(a, e, b, n);
    m := if n > |a| then n - 1 else n;
  }

  /** A hit puts its entry in front of the others, whose order is unchanged. */
  lemma HitInFront(st: Store, k: Key, now: int)
    requires st.Inv() && Step(st, Get(k, now)).1.Some?
    ensures HasKey(st.Items(), k)
    ensures Step(st, Get(k, now)).0.Items() == [EntryFor(st.Items(), k)] + Without(st.Items(), k)
  {
  }

  // ----- removal and sweeps

  /** A removal takes out the key and nothing else. */
  lemma RemoveTakes(st: Store, k: Key)
    requires st.Inv()
    ensures var r := Step(st, Remove(k)).0;
      !HasKey(r.Items(), k) && r.Items() == Without(st.Items(), k)
  {
    WithoutDistinct(st.Items(), k);
    if !HasKey(st.Items(), k) { WithoutAbsent(st.Items(), k); }
  }

  /** A lookup changes no other key's entry, and its own only by removing it when it has expired. */
  lemma GetSpares(st: Store, k: Key, now: int, x: Key)
    requires st.Inv()
    ensures var r := Step(st, Get(k, now)).0;
      && (HasKey(r.Items(), x) <==> HasKey(st.Items(), x) && (x != k || !EntryFor(st.Items(), x).Expired(now)))
      && (HasKey(r.Items(), x) ==> EntryFor(r.Items(), x) == EntryFor(st.Items(), x))
  {
    var s := st.Items();
    if HasKey(s, k) {
      if x != k { WithoutOther(s, k, x); }
      WithoutDistinct(s, k);
      assert ([EntryFor(s, k)] + Without(s, k))[1..] == Without(s, k);
    }
  }

  /** A sweep leaves nothing that had expired at its first clock reading, removes only what has expired by its
      last one, and changes no entry that it leaves. */
  lemma SweepClears(st: Store, c: Clock, x: Key)
    requires st.Inv() && L.Rising(c)
    ensures var s, r := st.Items(), Step(st, Sweep(c)).0.Items();
      && (HasKey(r, x) ==> HasKey(s, x) && EntryFor(r, x) == EntryFor(s, x) && !EntryFor(s, x).Expired(c[0]))
      && (HasKey(s, x) && !EntryFor(s, x).Expired(c[|c| - 1]) ==> HasKey(r, x))
  {
    var s := st.Items();
    if HasKey(s, x) && !EntryFor(s, x).Expired(c[|c| - 1]) { SweepKeys(st, c, x); }
    if st.Plain? {
      SurvivorKey(s, c, x);
      SurvivorsDistinct(s, c);
      L.SweepBounds(s, c);
      LiveKey(Survivors(s, c), c[0], x);
    } else {
      LiveKey(s, c[0], x);
    }
  }

  // ----- eviction callbacks

  /** Entries that go together are called back from the last to the first. */
  lemma {:induction false} CallsBackwards(s: seq<Entry>, i: nat)
    requires i < |s|
    ensures |Calls(s)| == |s| && Calls(s)[i] == (s[|s| - 1 - i].key, s[|s| - 1 - i].value)
  {
    var front, e := s[1..], s[0];
    if i < |front| {
      CallsBackwards(front, i);
    } else if front != [] {
      CallsBackwards(front, 0);
    }
  }

  // ----- bytes

  /** The bytes of the keys and values themselves. */
  function TextBytes(s: seq<Entry>): nat {
    if s == [] then 0 else TextBytes(s[..|s| - 1]) + |s[|s| - 1].key| + |s[|s| - 1].value.bytes|
  }

  lemma {:induction false} BytesAreText(s: seq<Entry>)
    ensures Bytes(s) == TextBytes(s)
  {
    if s != [] {
      var front, e := s[..|s| - 1], s[|s| - 1];
      assert s == front + [e];
      BytesAppend(front, [e]);
      assert Bytes([e]) == |e.key| + |e.value.bytes|;
      BytesAreText(front);
    }
  }

  /** Over every run of a limited store the resident keys and values together are within its capacity. */
  lemma TextFits(st: Store, ops: seq<Op>)
    requires st.Inv() && st.MaxBytes() > 0
    ensures TextBytes(Run(st, ops).Items()) <= st.MaxBytes()
  {
    BytesAreText(Run(st, ops).Items());
  }
}

/**
 Either store behind one interface (cache.go), and its agreement with a simple TTL map.

 The reference is a map from each key to its last write. Whatever is evicted, promoted or demoted, a
 hit returns exactly that last write, unexpired; an unlimited store also never misses a live one.
 */
module Stores {
  import opened Entries
  import L = LruModel
  import S = SlruModel

  datatype Store = Plain(l: L.Lru) | Segmented(s: S.Slru)
  {
    predicate Inv() { if Plain? then l.Inv() else s.Inv() }

    function Items(): seq<Entry> { if Plain? then l.items else s.items }

    function MaxBytes(): int { if Plain? then l.maxBytes else s.maxBytes }
  }

  function Step(st: Store, op: Op): (Store, Option<View>)
    requires st.Inv()
  {
    match st
    case Plain(l) => var (r, v) := L.Step(l, op); (Plain(r), v)
    case Segmented(s) => var (r, v) := S.Step(s, op); (Segmented(r), v)
  }

  lemma StepInv(st: Store, op: Op)
    requires st.Inv()
    ensures Step(st, op).0.Inv() && Step(st, op).0.MaxBytes() == st.MaxBytes()
  {
    if st.Plain? { L.StepInv(st.l, op); } else { S.StepInv(st.s, op); }
  }

  function Run(st: Store, ops: seq<Op>): (r: Store)
    requires st.Inv()
    ensures r.Inv() && r.MaxBytes() == st.MaxBytes()
    decreases |ops|
  {
    if ops == [] then st
    else
      StepInv(st, ops[0]);
      Run(Step(st, ops[0]).0, ops[1..])
  }

  // ----- the reference

  datatype Cell = Cell(value: View, expireAt: Option<int>)
  {
    predicate Expired(now: int) { expireAt.Some? && now > expireAt.value }
  }

  type Ref = map<Key, Cell>

  function RefStep(ref: Ref, op: Op): Ref {
    match op
    case Add(k, v, ttl, now) => ref[k := Cell(v, ExpiryOf(ttl, now))]
    case Remove(k) => ref - {k}
    case _ => ref
  }

  function RefRun(ref: Ref, ops: seq<Op>): Ref
    decreases |ops|
  {
    if ops == [] then ref else RefRun(RefStep(ref, ops[0]), ops[1..])
  }

  predicate Backed(e: Entry, ref: Ref) { e.key in ref && ref[e.key] == Cell(e.value, e.expireAt) }

  /** Every resident entry is its key's last write. */
  predicate Agrees(s: seq<Entry>, ref: Ref) {
    s == [] || (Backed(s[0], ref) && Agrees(s[1..], ref))
  }

  lemma {:induction false} AgreesAppend(a: seq<Entry>, b: seq<Entry>, ref: Ref)
    ensures Agrees(a + b, ref) <==> Agrees(a, ref) && Agrees(b, ref)
  {
    if a == [] {
      assert a + b == b;
    } else {
      AgreesAppend(a[1..], b, ref);
      assert (a + b)[1..] == a[1..] + b && (a + b)[0] == a[0];
    }
  }

  lemma {:induction false} AgreesKey(s: seq<Entry>, ref: Ref, k: Key)
    requires Agrees(s, ref)
    ensures HasKey(s, k) ==> Backed(EntryFor(s, k), ref)
    ensures Agrees(Without(s, k), ref)
  {
    if s != [] {
      AgreesKey(s[1..], ref, k);
      if s[0].key != k { assert Without(s, k)[1..] == Without(s[1..], k); }
    }
  }

  lemma AgreesPrefix(s: seq<Entry>, ref: Ref, n: nat)
    requires Agrees(s, ref) && n <= |s|
    ensures Agrees(s[..n], ref)
  {
    assert s == s[..n] + s[n..];
    AgreesAppend(s[..n], s[n..], ref);
  }

  /** Entries of other keys do not notice a write to, or a removal of, `k`. */
  lemma {:induction false} AgreesFrame(s: seq<Entry>, ref: Ref, k: Key, c: Cell)
    requires Agrees(s, ref) && !HasKey(s, k)
    ensures Agrees(s, ref[k := c]) && Agrees(s, ref - {k})
  {
    if s != [] { AgreesFrame(s[1..], ref, k, c); }
  }

  lemma {:induction false} AgreesSurvivors(s: seq<Entry>, ref: Ref, c: Clock)
    requires Agrees(s, ref)
    ensures Agrees(Survivors(s, c), ref)
  {
    if s != [] {
      AgreesSurvivors(s[1..], ref, c);
      if !s[0].Expired(At(c, |s| - 1)) { assert Survivors(s, c)[1..] == Survivors(s[1..], c); }
    }
  }

  /** An entry just written, placed among the entries of the other keys. */
  lemma AgreesWritten(a: seq<Entry>, e: Entry, b: seq<Entry>, rest: seq<Entry>, ref: Ref)
    requires a + b == rest && Agrees(rest, ref) && !HasKey(rest, e.key)
    ensures Agrees(a + [e] + b, ref[e.key := Cell(e.value, e.expireAt)])
  {
    var ref' := ref[e.key := Cell(e.value, e.expireAt)];
    AgreesFrame(rest, ref, e.key, Cell(e.value, e.expireAt));
    AgreesAppend(a, b, ref');
    AgreesAppend(a, [e], ref');
    AgreesAppend(a + [e], b, ref');
  }

  /** The other entries, after the entry of `k` is taken out. */
  lemma RestAgrees(s: seq<Entry>, ref: Ref, k: Key)
    requires Distinct(s) && Agrees(s, ref)
    ensures Agrees(Without(s, k), ref) && !HasKey(Without(s, k), k)
    ensures Agrees(Without(s, k), ref - {k})
    ensures !HasKey(s, k) ==> Agrees(s, ref - {k})
  {
    AgreesKey(s, ref, k);
    WithoutDistinct(s, k);
    AgreesFrame(Without(s, k), ref, k, Cell(View("", false), None));
    if !HasKey(s, k) { WithoutAbsent(s, k); }
  }

  lemma FrontAgrees(s: seq<Entry>, ref: Ref, k: Key)
    requires Agrees(s, ref) && HasKey(s, k)
    ensures Agrees([EntryFor(s, k)] + Without(s, k), ref)
  {
    AgreesKey(s, ref, k);
    assert ([EntryFor(s, k)] + Without(s, k))[1..] == Without(s, k);
  }

  lemma LruPutAgrees(m: L.Lru, e: Entry, ref: Ref)
    requires m.Inv() && Agrees(m.items, ref)
    ensures Agrees(L.Put(m, e).items, ref[e.key := Cell(e.value, e.expireAt)])
  {
    var rest := Without(m.items, e.key);
    RestAgrees(m.items, ref, e.key);
    assert [] + rest == rest && [] + [e] + rest == [e] + rest;
    AgreesWritten([], e, rest, rest, ref);
    var w := m.(items := [e] + rest);
    AgreesPrefix(w.items, ref[e.key := Cell(e.value, e.expireAt)], L.Kept(w));
  }

  lemma SlruPutAgrees(m: S.Slru, e: Entry, ref: Ref)
    requires m.Inv() && Agrees(m.items, ref)
    ensures Agrees(S.Put(m, e).items, ref[e.key := Cell(e.value, e.expireAt)])
  {
    var rest := Without(m.items, e.key);
    RestAgrees(m.items, ref, e.key);
    var p := if HasKey(m.Hot(), e.key) then 0 else Min(m.split, |rest|);
    assert rest[..p] + rest[p..] == rest;
    AgreesWritten(rest[..p], e, rest[p..], rest, ref);
    S.PutForm(m, e);
    var s := S.Spread(m, e);
    AgreesPrefix(s, ref[e.key := Cell(e.value, e.expireAt)],
                 if m.maxBytes == 0 then |s| else FitLen(s, m.maxBytes));
  }

  lemma StepAgrees(st: Store, op: Op, ref: Ref)
    requires st.Inv() && Agrees(st.Items(), ref)
    ensures Agrees(Step(st, op).0.Items(), RefStep(ref, op))
  {
    var s := st.Items();
    match op
    case Get(k, now) =>
      AgreesKey(s, ref, k);
      if HasKey(s, k) { FrontAgrees(s, ref, k); }
    case Add(k, v, ttl, now) =>
      var e := Entry(k, v, ExpiryOf(ttl, now));
      if st.Plain? { LruPutAgrees(st.l, e, ref); } else { SlruPutAgrees(st.s, e, ref); }
    case Remove(k) => RestAgrees(s, ref, k);
    case RemoveOldest =>
      if s != [] { AgreesPrefix(s, ref, |s| - 1); }
    case Sweep(c) =>
      AgreesSurvivors(s, ref, [At(c, 0)]);
      AgreesSurvivors(s, ref, c);
  }

  lemma {:induction false} RunAgrees(st: Store, ops: seq<Op>, ref: Ref)
    requires st.Inv() && Agrees(st.Items(), ref)
    ensures Agrees(Run(st, ops).Items(), RefRun(ref, ops))
    decreases |ops|
  {
    if ops != [] {
      StepInv(st, ops[0]);
      StepAgrees(st, ops[0], ref);
      RunAgrees(Step(st, ops[0]).0, ops[1..], RefStep(ref, ops[0]));
    }
  }

  /** A lookup's answer, from the resident entries alone. */
  lemma GetAnswer(st: Store, k: Key, now: int)
    requires st.Inv()
    ensures var r := Step(st, Get(k, now)).1;
      && (r.Some? <==> HasKey(st.Items(), k) && !EntryFor(st.Items(), k).Expired(now))
      && (r.Some? ==> r.value == EntryFor(st.Items(), k).value)
  {
  }

  /** For every run of either store, a hit at `now` returns exactly the value of the key's last write,
      which was not removed since and whose expiry is absent or not before `now`. */
  lemma HitIsLastWrite(st: Store, ops: seq<Op>, k: Key, now: int)
    requires st.Inv() && st.Items() == []
    requires Step(Run(st, ops), Get(k, now)).1.Some?
    ensures var ref := RefRun(map[], ops);
      && k in ref
      && ref[k].value == Step(Run(st, ops), Get(k, now)).1.value
      && !ref[k].Expired(now)
  {
    RunAgrees(st, ops, map[]);
    GetAnswer(Run(st, ops), k, now);
    AgreesKey(Run(st, ops).Items(), RefRun(map[], ops), k);
  }

  // ----- exactness of an unlimited store

  /** Every key whose last write is live at `t` is resident. */
  ghost predicate Covers(s: seq<Entry>, ref: Ref, t: int) {
    forall k :: k in ref && !ref[k].Expired(t) ==> HasKey(s, k)
  }

  /** The clock readings of `op` are not before `t` and do not run backwards. */
  predicate Timely(op: Op, t: int) {
    match op
    case Get(_, now) => t <= now
    case Add(_, _, _, now) => t <= now
    case Sweep(c) => t <= c[0] && L.Rising(c)
    case _ => true
  }

  function EndOf(op: Op, t: int): int {
    match op
    case Get(_, now) => now
    case Add(_, _, _, now) => now
    case Sweep(c) => c[|c| - 1]
    case _ => t
  }

  predicate Chronicle(ops: seq<Op>, t: int)
    decreases |ops|
  {
    ops == [] || (!ops[0].RemoveOldest? && Timely(ops[0], t) && Chronicle(ops[1..], EndOf(ops[0], t)))
  }

  function EndTime(ops: seq<Op>, t: int): int
    decreases |ops|
  {
    if ops == [] then t else EndTime(ops[1..], EndOf(ops[0], t))
  }

  lemma SlruPutKeys(m: S.Slru, e: Entry, x: Key)
    requires m.Inv() && m.maxBytes == 0
    ensures HasKey(S.Put(m, e).items, x) <==> HasKey(Without(m.items, e.key), x) || x == e.key
  {
    S.PutForm(m, e);
    var rest := Without(m.items, e.key);
    var p := if HasKey(m.Hot(), e.key) then 0 else Min(m.split, |rest|);
    InsertKey(rest[..p], e, rest[p..], x);
    assert rest[..p] + rest[p..] == rest;
    var w := S.Spread(m, e);
    assert w[..|w|] == w;
  }

  /** With no limit, a write keeps its key and every other one. */
  lemma PutKeys(st: Store, op: Op, x: Key)
    requires st.Inv() && st.MaxBytes() == 0 && op.Add?
    ensures HasKey(Step(st, op).0.Items(), x) <==> HasKey(st.Items(), x) || x == op.key
  {
    var e := Entry(op.key, op.value, ExpiryOf(op.ttl, op.now));
    var rest := Without(st.Items(), op.key);
    if x != op.key { WithoutOther(st.Items(), op.key, x); }
    match st
    case Plain(m) =>
      var w := [e] + rest;
      assert w[1..] == rest && w[..|w|] == w;
    case Segmented(m) => SlruPutKeys(m, e, x);
  }

  /** A sweep removes only what has expired by its last reading. */
  lemma SweepKeys(st: Store, c: Clock, x: Key)
    requires st.Inv() && L.Rising(c) && HasKey(st.Items(), x) && !EntryFor(st.Items(), x).Expired(c[|c| - 1])
    ensures HasKey(Step(st, Sweep(c)).0.Items(), x)
  {
    var s := st.Items();
    LiveKey(s, c[|c| - 1], x);
    if st.Plain? {
      L.SweepBounds(s, c);
      SurvivorsDistinct(s, c);
      LiveKey(Survivors(s, c), c[|c| - 1], x);
    } else {
      assert c[0] <= c[|c| - 1];
      LiveKey(s, c[0], x);
    }
  }

  /** A lookup removes only its own key, when that has expired. */
  lemma GetKeys(st: Store, k: Key, now: int, x: Key)
    requires st.Inv() && HasKey(st.Items(), x) && (x != k || !EntryFor(st.Items(), x).Expired(now))
    ensures HasKey(Step(st, Get(k, now)).0.Items(), x)
  {
    var s := st.Items();
    if HasKey(s, k) {
      if x != k { WithoutOther(s, k, x); }
      assert ([EntryFor(s, k)] + Without(s, k))[1..] == Without(s, k);
    }
  }

  lemma StepKeeps(st: Store, op: Op, ref: Ref, t: int, x: Key)
    requires st.Inv() && st.MaxBytes() == 0 && Agrees(st.Items(), ref) && Covers(st.Items(), ref, t)
    requires Timely(op, t) && !op.RemoveOldest?
    requires x in RefStep(ref, op) && !RefStep(ref, op)[x].Expired(EndOf(op, t))
    ensures HasKey(Step(st, op).0.Items(), x)
  {
    var s := st.Items();
    if op.Add? {
      PutKeys(st, op, x);
      assert x != op.key ==> HasKey(s, x);
    } else {
      assert EndOf(op, t) >= t;
      assert x in ref && !ref[x].Expired(t);
      AgreesKey(s, ref, x);
      match op
      case Get(k, now) => GetKeys(st, k, now, x);
      case Remove(k) => WithoutOther(s, k, x);
      case Sweep(c) => SweepKeys(st, c, x);
    }
  }

  /** For every chronological run of an unlimited store, the reference and the store agree exactly. */
  lemma {:induction false} RunCovers(st: Store, ops: seq<Op>, ref: Ref, t: int)
    requires st.Inv() && st.MaxBytes() == 0 && Agrees(st.Items(), ref) && Covers(st.Items(), ref, t)
    requires Chronicle(ops, t)
    ensures Agrees(Run(st, ops).Items(), RefRun(ref, ops))
    ensures Covers(Run(st, ops).Items(), RefRun(ref, ops), EndTime(ops, t))
    decreases |ops|
  {
    if ops != [] {
      StepInv(st, ops[0]);
      StepAgrees(st, ops[0], ref);
      forall x | x in RefStep(ref, ops[0]) && !RefStep(ref, ops[0])[x].Expired(EndOf(ops[0], t))
        ensures HasKey(Step(st, ops[0]).0.Items(), x)
      {
        StepKeeps(st, ops[0], ref, t, x);
      }
      RunCovers(Step(st, ops[0]).0, ops[1..], RefStep(ref, ops[0]), EndOf(ops[0], t));
    }
  }

  /** An unlimited store answers exactly as the TTL map: a lookup not before the last operation hits
      if and only if the key's last write exists and is live, and returns its value. */
  lemma UnlimitedIsExact(st: Store, ops: seq<Op>, t: int, k: Key, now: int)
    requires st.Inv() && st.MaxBytes() == 0 && st.Items() == []
    requires Chronicle(ops, t) && EndTime(ops, t) <= now
    ensures var ref := RefRun(map[], ops);
      Step(Run(st, ops), Get(k, now)).1 ==
      if k in ref && !ref[k].Expired(now) then Some(ref[k].value) else None
  {
    RunCovers(st, ops, map[], t);
    GetAnswer(Run(st, ops), k, now);
    AgreesKey(Run(st, ops).Items(), RefRun(map[], ops), k);
  }

  // ----- the store is created on the first write

  /** cache.go's wrapper: the store does not exist until something is added. */
  datatype LocalCache = LocalCache(empty: Store, store: Option<Store>)
  {
    predicate Inv() { empty.Inv() && empty.Items() == [] && (store.Some? ==> store.value.Inv()) }

    function Seen(): Store { if store.Some? then store.value else empty }
  }

  function LazyStep(c: LocalCache, op: Op): (LocalCache, Option<View>)
    requires c.Inv()
  {
    if c.store.None? && !op.Add? then (c, None)
    else var (st, v) := Step(c.Seen(), op); (c.(store := Some(st)), v)
  }

  /** Creating the store late cannot be told from creating it at once. */
  lemma LazyIsEager(c: LocalCache, op: Op)
    requires c.Inv()
    ensures LazyStep(c, op).0.Inv()
    ensures (LazyStep(c, op).0.Seen(), LazyStep(c, op).1) == Step(c.Seen(), op)
  {
    StepInv(c.Seen(), op);
    var log := if c.empty.Plain? then c.empty.l.log else c.empty.s.log;
    assert log + [] == log;
  }
}

/**
 What a group's operations leave in its caches (groupcache.go), said of the records of the last writes: of
 values, due times and the times of writing.
 */
module GroupReads {
  import opened Entries
  import opened Stores
  import opened StoreLaws
  import L = LruModel
  import C = Counter
  import S = Sharding
  import opened GroupModel

  /** The records are as they were. */
  predicate Untouched(x: Side, y: Side) { y.ref == x.ref && y.wrote == x.wrote }

  /** Key `k` was written with `v` at `t`, due when `ttl` has passed or never, and nothing else was written. */
  predicate Took(x: Side, y: Side, k: Key, v: View, t: int, ttl: int) {
    && k in y.ref && Written(Entry(k, y.ref[k].value, y.ref[k].expireAt), v, ttl, t)
    && k in y.wrote && y.wrote[k] == t
    && y.ref - {k} == x.ref - {k} && y.wrote - {k} == x.wrote - {k}
  }

  /** The TTL of a draw: the base, less the jitter, plus the draw, and at least 1. */
  function DrawnTTL(c: Settings, draw: nat): int { Max(1, c.base - c.jitter + draw) }

  /** A value was written to the active cache and, if stale values are kept, a copy that lives longer to the
      stale one; with no base TTL the value never expires and has no copy. */
  predicate TookValue(c: Settings, w: World, r: World, k: Key, bytes: string, draw: nat, now: int, later: int) {
    var v := View(bytes, false);
    if c.base <= 0 then Took(w.active, r.active, k, v, now, 0) && Untouched(w.stale, r.stale)
    else
      && Took(w.active, r.active, k, v, now, DrawnTTL(c, draw))
      && if c.staleTTL > 0 then
           Took(w.stale, r.stale, k, v, later, DrawnTTL(c, draw) + c.staleTTL)
         else Untouched(w.stale, r.stale)
  }

  /** A "not found" was written, if that is enabled, to the active cache alone. */
  predicate TookNotFound(c: Settings, w: World, r: World, k: Key, now: int) {
    && Untouched(w.stale, r.stale)
    && if c.negativeEnabled && c.negativeTTL > 0 then
         Took(w.active, r.active, k, View("", true), now, c.negativeTTL)
       else Untouched(w.active, r.active)
  }

  predicate TookNothing(w: World, r: World) { Untouched(w.active, r.active) && Untouched(w.stale, r.stale) }

  /** What a load leaves when the sources answer `a`. */
  predicate LoadOk(c: Settings, w: World, r: World, k: Key, a: Loaded, t: Times) {
    match a
    case Value(bytes) => TookValue(c, w, r, k, bytes, t.draw, t.wrote, t.later)
    case Missing => TookNotFound(c, w, r, k, t.wrote)
    case Failed => TookNothing(w, r)
  }

  /** What a Get leaves: nothing on a hit; on a miss, what the load leaves. */
  ghost predicate CachesOk(c: Settings, w: World, r: World, k: Key, src: Source, t: Times)
    requires Stocked(w)
  {
    if k == "" || GroupModel.Live(w.active, k, t.now) then TookNothing(w, r)
    else exists a :: Gives(src, a) && LoadOk(c, w, r, k, a, t)
  }

  // ----- the operations do that

  lemma TTLIsDrawn(c: Settings, draw: nat)
    requires c.jitter >= 0 && Drawn(c, draw)
    ensures NextTTL(c, draw) == if c.base <= 0 then 0 else DrawnTTL(c, draw)
  {
  }

  lemma WriteTakes(x: Side, a: S.Act)
    requires S.Stocked(x.stores) && S.Suits(a, |x.stores|) && a.One? && a.op.Add?
    ensures Took(x, After(x, a), a.op.key, a.op.value, a.op.now, a.op.ttl)
  {
  }

  lemma FilledTakes(c: Settings, w: World, k: Key, v: View, ttl: int, now: int, later: int)
    requires Stocked(w)
    ensures var r := Filled(c, w, k, v, ttl, now, later);
      && Took(w.active, r.active, k, v, now, ttl)
      && if ttl > 0 && c.StaleOn() then Took(w.stale, r.stale, k, v, later, ttl + c.staleTTL)
         else Untouched(w.stale, r.stale)
  {
    var a, copy := Storing(k, v, ttl, now), Copying(c, k, v, ttl, later);
    FilledActive(c, w, k, v, ttl, now, later, a);
    FilledStale(c, w, k, v, ttl, now, later, copy);
    WriteTakes(w.active, a);
    WriteTakes(w.stale, copy);
  }

  lemma FillTakes(c: Settings, w: World, k: Key, bytes: string, draw: nat, now: int, later: int)
    requires Good(c, w) && Drawn(c, draw) && now <= later
    ensures TookValue(c, w, Next(c, w, Fill(k, bytes, draw, now, later)), k, bytes, draw, now, later)
  {
    TTLIsDrawn(c, draw);
    FilledTakes(c, w, k, View(bytes, false), NextTTL(c, draw), now, later);
  }

  lemma NotFoundTakes(c: Settings, w: World, k: Key, now: int)
    requires Good(c, w)
    ensures TookNotFound(c, w, Next(c, w, NotFound(k, now)), k, now)
  {
    WriteTakes(w.active, Storing(k, View("", true), c.negativeTTL, now));
  }

  lemma LoadTakes(c: Settings, w: World, k: Key, a: Loaded, t: Times)
    requires Good(c, w) && Orderly(c, t)
    ensures LoadOk(c, w, Loads(c, w, k, a, t).0, k, a, t)
  {
    match a
    case Value(bytes) => FillTakes(c, w, k, bytes, t.draw, t.wrote, t.later);
    case Missing => NotFoundTakes(c, w, k, t.wrote);
    case Failed =>
  }

  lemma ReadTakes(c: Settings, w: World, k: Key, src: Source, t: Times)
    requires Good(c, w) && Orderly(c, t)
    ensures CachesOk(c, w, Read(c, w, k, src, t).0, k, src, t)
  {
    var w1 := Next(c, w, Lookup(k, t.now));
    ActiveAnswer(c, w, k, t.now);
    NextGood(c, w, Lookup(k, t.now));
    LoadTakes(c, w1, k, Answer(src), t);
    OneAnswer(src, Answer(src));
  }

  /** Lookups, the timeout path and the janitor write nothing. */
  lemma QuietTakesNothing(c: Settings, w: World, ev: Event)
    requires Good(c, w) && (ev.Lookup? || ev.Timeout? || ev.Janitor?)
    ensures TookNothing(w, Next(c, w, ev))
  {
    match ev
    case Lookup(k, now) =>
    case Timeout(k, now, later) => TimeoutForm(c, w, k, now, later);
    case Janitor(a, b) =>
  }

  /** An invalidation takes the key, and nothing else, out of both records. */
  lemma InvalidateTakes(c: Settings, w: World, k: Key)
    requires Good(c, w)
    ensures var r := Next(c, w, Invalidate(k));
      r.active.ref == w.active.ref - {k} && r.stale.ref == w.stale.ref - {k}
  {
  }

  /** An increment that counts leaves its answer's text as a value; one that is refused leaves nothing. */
  lemma IncrementTakes(
      u: C.Numeral, c: Settings, w: World, k: Key, delta: int, draw: nat, now: int, wrote: int, later: int)
    requires Good(c, w) && Drawn(c, draw) && wrote <= later
    ensures var (r, o) := Increments(u, c, w, k, delta, draw, now, wrote, later);
      if o.Counted? then TookValue(c, w, r, k, u.text(o.next), draw, wrote, later) else TookNothing(w, r)
  {
    var o := Increments(u, c, w, k, delta, draw, now, wrote, later).1;
    var w1 := Next(c, w, Lookup(k, now));
    IncrementForm(u, c, w, k, delta, draw, now, wrote, later);
    QuietTakesNothing(c, w, Lookup(k, now));
    NextGood(c, w, Lookup(k, now));
    if o.Counted? { FillTakes(c, w1, k, u.text(o.next), draw, wrote, later); }
  }

  // ----- what is written is read

  /** A resident entry is found exactly as long as its record says. */
  lemma HeldFound(c: Settings, w: World, k: Key, t: int)
    requires Good(c, w) && S.Holds(w.active.stores, S.SEED, k)
    ensures k in w.active.ref
    ensures Seen(w.active, k, t) == if w.active.ref[k].Expired(t) then None else Some(w.active.ref[k].value)
  {
    S.ShardAnswer(w.active.stores, S.SEED, w.active.ref, k, t);
  }

  /** After a Get that loaded a value, and as long as its entry is resident, a Get answers that value up to its
      due time, for ever with no base TTL, whatever the sources say by then. */
  lemma GetThenGet(c: Settings, w: World, k: Key, src: Source, t: Times, bytes: string, src2: Source, t2: Times)
    requires Good(c, w) && Orderly(c, t) && k != "" && !GroupModel.Live(w.active, k, t.now) && Gives(src, Value(bytes))
    requires var r := Read(c, w, k, src, t).0;
      Stocked(r) && S.Holds(r.active.stores, S.SEED, k)
    requires c.base <= 0 || t2.now <= t.wrote + DrawnTTL(c, t.draw)
    ensures Read(c, Read(c, w, k, src, t).0, k, src2, t2).1 == Found(View(bytes, false))
  {
    var r := Read(c, w, k, src, t).0;
    ReadGood(c, w, k, src, t);
    ReadTakes(c, w, k, src, t);
    OneAnswer(src, Value(bytes));
    var a :| Gives(src, a) && LoadOk(c, w, r, k, a, t);
    OneAnswer(src, a);
    HeldFound(c, r, k, t2.now);
  }
  /** The key's own store. */
  function OwnStore(x: Side, k: Key): Store
    requires S.Stocked(x.stores)
  {
    x.stores[S.Bucket(S.SEED, k, |x.stores|)]
  }

  /** A write stays if and only if it fits behind the protected entries of the key's own store. */
  lemma WriteHeld(x: Side, add: Op)
    requires S.Stocked(x.stores) && add.Add? && OwnStore(x, add.key).MaxBytes() >= 0
    ensures var st, y := OwnStore(x, add.key), After(x, S.One(add));
      S.Holds(y.stores, S.SEED, add.key) <==>
      st.MaxBytes() == 0 || Before(st, add.key) + |add.key| + |add.value.bytes| <= st.MaxBytes()
  {
    WriteStays(OwnStore(x, add.key), add);
  }

  lemma FillHeld(c: Settings, w: World, k: Key, bytes: string, ttl: int, now: int, later: int)
    requires Stocked(w) && OwnStore(w.active, k).MaxBytes() == 0
    ensures S.Holds(Filled(c, w, k, View(bytes, false), ttl, now, later).active.stores, S.SEED, k)
  {
    var a := Storing(k, View(bytes, false), ttl, now);
    FilledActive(c, w, k, View(bytes, false), ttl, now, later, a);
    WriteHeld(w.active, a.op);
  }

  lemma ReadHeld(c: Settings, w: World, k: Key, src: Source, t: Times, bytes: string)
    requires Good(c, w) && Orderly(c, t) && k != "" && !GroupModel.Live(w.active, k, t.now)
    requires Gives(src, Value(bytes)) && OwnStore(w.active, k).MaxBytes() == 0
    ensures var r := Read(c, w, k, src, t).0;
      Stocked(r) && S.Holds(r.active.stores, S.SEED, k)
  {
    var w1 := Next(c, w, Lookup(k, t.now));
    ActiveAnswer(c, w, k, t.now);
    OneAnswer(src, Value(bytes));
    ReadGood(c, w, k, src, t);
    StepInv(OwnStore(w.active, k), Get(k, t.now));
    FillHeld(c, w1, k, bytes, NextTTL(c, t.draw), t.wrote, t.later);
  }

  /** In an unlimited cache the entry is resident: a Get that loaded a value makes the next Get answer it. */
  lemma UnlimitedGetThenGet(
      c: Settings, w: World, k: Key, src: Source, t: Times, bytes: string, src2: Source, t2: Times)
    requires Good(c, w) && Orderly(c, t) && k != "" && !GroupModel.Live(w.active, k, t.now)
    requires Gives(src, Value(bytes)) && OwnStore(w.active, k).MaxBytes() == 0
    requires c.base <= 0 || t2.now <= t.wrote + DrawnTTL(c, t.draw)
    ensures Stocked(Read(c, w, k, src, t).0)
    ensures Read(c, Read(c, w, k, src, t).0, k, src2, t2).1 == Found(View(bytes, false))
  {
    ReadHeld(c, w, k, src, t, bytes);
    GetThenGet(c, w, k, src, t, bytes, src2, t2);
  }

  // ----- the janitor

  /** No resident key of the cache's `i`-th store had expired at the first reading of its clock. */
  ghost predicate Cleared(x: Side, clocks: seq<Clock>) {
    |clocks| == |x.stores| && forall i, k ::
      0 <= i < |x.stores| && HasKey(x.stores[i].Items(), k) ==>
        !EntryFor(x.stores[i].Items(), k).Expired(clocks[i][0])
  }

  /** What had not expired at the last reading is still there. */
  ghost predicate Spares(x: Side, y: Side, clocks: seq<Clock>) {
    |clocks| == |x.stores| == |y.stores| && forall i, k ::
      0 <= i < |x.stores| && HasKey(x.stores[i].Items(), k)
      && !EntryFor(x.stores[i].Items(), k).Expired(clocks[i][|clocks[i]| - 1]) ==>
        HasKey(y.stores[i].Items(), k)
  }

  /** No clock runs backwards. */
  predicate Rise(clocks: seq<Clock>) { forall i :: 0 <= i < |clocks| ==> L.Rising(clocks[i]) }

  lemma SweepAllClears(x: Side, clocks: seq<Clock>)
    requires S.Stocked(x.stores) && |clocks| == |x.stores|
    requires Rise(clocks)
    ensures var y := After(x, S.SweepAll(clocks)); Cleared(y, clocks) && Spares(x, y, clocks)
  {
    var y := After(x, S.SweepAll(clocks));
    forall i, k | 0 <= i < |x.stores|
      ensures HasKey(y.stores[i].Items(), k) ==> !EntryFor(y.stores[i].Items(), k).Expired(clocks[i][0])
      ensures HasKey(x.stores[i].Items(), k)
              && !EntryFor(x.stores[i].Items(), k).Expired(clocks[i][|clocks[i]| - 1]) ==>
                HasKey(y.stores[i].Items(), k)
    {
      SweepClears(x.stores[i], clocks[i], k);
    }
  }

  /** One firing of the janitor clears both caches of what has expired, and spares the rest. */
  lemma JanitorClears(c: Settings, w: World, first: seq<Clock>, second: seq<Clock>)
    requires Good(c, w) && |first| == |w.active.stores| && |second| == |w.stale.stores|
    requires Rise(first) && Rise(second)
    ensures var r := Next(c, w, Janitor(first, second));
      && Cleared(r.active, first) && Spares(w.active, r.active, first)
      && (c.StaleOn() ==> Cleared(r.stale, second) && Spares(w.stale, r.stale, second))
  {
    SweepAllClears(w.active, first);
    SweepAllClears(w.stale, second);
  }
}

/**
 A group's active and stale caches (groupcache.go, groupcache_config.go): TTLs with random jitter, stale
 copies that outlive the active ones, cached "not found" answers, invalidation, the timeout path and
 increments without a backend.

 Each cache is a list of stores, as Sharding sees it; an unsharded cache is a list of one. Operations are
 sequential; each carries the clock readings and the random draw it makes.
 */
module GroupModel {
  import opened Entries
  import opened Stores
  import opened Runs
  import C = Counter
  import S = Sharding

  datatype Settings = Settings(base: int, jitter: int, staleTTL: int, negativeEnabled: bool, negativeTTL: int)
  {
    predicate StaleOn() { staleTTL > 0 && base > 0 }
  }

  /** What `WithRandomTTL` stores. */
  function RandomTTL(base: int, jitter: int): (int, int) {
    if base <= 0 then (0, 0) else (base, if jitter < 0 then -jitter else jitter)
  }

  /** The settings that the options give. */
  function Configured(base: int, jitter: int, staleTTL: int, negativeTTL: int): (c: Settings)
    ensures c.jitter >= 0 && c.base >= 0 && (c.base == base || c.base == 0 > base)
    ensures c.base > 0 ==> c.jitter == jitter || c.jitter == -jitter
    ensures c.base == 0 ==> c.jitter == 0
    ensures c.staleTTL == staleTTL && c.negativeTTL == negativeTTL && (c.negativeEnabled <==> negativeTTL > 0)
  {
    var (b, j) := RandomTTL(base, jitter);
    Settings(b, j, staleTTL, negativeTTL > 0, negativeTTL)
  }

  /** The TTL of the next write; `draw` is the random number in [0, 2 * jitter]. */
  function NextTTL(c: Settings, draw: nat): int {
    if c.base <= 0 then 0
    else if c.jitter <= 0 then c.base
    else
      var ttl := c.base + (draw - c.jitter);
      if ttl <= 0 then 1 else ttl
  }

  predicate Drawn(c: Settings, draw: nat) { draw <= 2 * Max(c.jitter, 0) }

  lemma NextTTLBounds(c: Settings, draw: nat)
    requires c.base > 0 && c.jitter >= 0 && Drawn(c, draw)
    ensures 1 <= NextTTL(c, draw) && c.base - c.jitter <= NextTTL(c, draw) <= c.base + c.jitter
  {
  }

  // ----- the operations

  datatype Event =
    | Lookup(key: Key, now: int)
    | Fill(key: Key, bytes: string, draw: nat, now: int, later: int)   // load, peer answer or increment
    | NotFound(key: Key, now: int)
    | Timeout(key: Key, now: int, later: int)                          // a wait that timed out
    | Invalidate(key: Key)
    | Janitor(first: seq<Clock>, second: seq<Clock>)

  /** A cache, with the last write of every key and the time of that write. */
  datatype Side = Side(stores: seq<Store>, ref: Ref, wrote: map<Key, int>)

  datatype World = World(active: Side, stale: Side)

  predicate Stocked(w: World) { S.Stocked(w.active.stores) && S.Stocked(w.stale.stores) }

  function Stamped(wrote: map<Key, int>, a: S.Act): map<Key, int> {
    if a.One? && a.op.Add? then wrote[a.op.key := a.op.now] else wrote
  }

  /** A cache after an operation. */
  function After(x: Side, a: S.Act): Side
    requires S.Stocked(x.stores) && S.Suits(a, |x.stores|)
  {
    Side(S.Dispatch(x.stores, S.SEED, a).0, S.RefAct(x.ref, a), Stamped(x.wrote, a))
  }

  /** What a lookup in a cache answers. */
  function Seen(x: Side, k: Key, now: int): Option<View>
    requires S.Stocked(x.stores)
  {
    S.Dispatch(x.stores, S.SEED, Asking(k, now)).1
  }

  predicate Live(x: Side, k: Key, now: int)
    requires S.Stocked(x.stores)
  {
    S.Live(x.stores, S.SEED, k, now)
  }

  function OnActive(w: World, a: S.Act): World
    requires S.Stocked(w.active.stores) && S.Suits(a, |w.active.stores|)
  {
    World(After(w.active, a), w.stale)
  }

  /** The stale cache exists only when stale values are configured. */
  function StaleToo(c: Settings, w: World, a: S.Act): World
    requires S.Stocked(w.stale.stores) && S.Suits(a, |w.stale.stores|)
  {
    if c.StaleOn() then World(w.active, After(w.stale, a)) else w
  }

  lemma StaysStocked(c: Settings, w: World, a: S.Act)
    requires Stocked(w)
    ensures S.Suits(a, |w.active.stores|) ==> Stocked(OnActive(w, a))
    ensures S.Suits(a, |w.stale.stores|) ==> Stocked(StaleToo(c, w, a))
  {
    if S.Suits(a, |w.active.stores|) { S.DispatchStocked(w.active.stores, S.SEED, a); }
    if S.Suits(a, |w.stale.stores|) { S.DispatchStocked(w.stale.stores, S.SEED, a); }
  }

  /** An operation on the active cache, then one on the stale cache. */
  function Both(c: Settings, w: World, a: S.Act, stale: S.Act): World
    requires Stocked(w) && S.Suits(a, |w.active.stores|) && S.Suits(stale, |w.stale.stores|)
  {
    StaleToo(c, OnActive(w, a), stale)
  }

  function Asking(k: Key, now: int): S.Act { S.One(Get(k, now)) }

  function Storing(k: Key, v: View, ttl: int, now: int): S.Act { S.One(Add(k, v, ttl, now)) }

  /** The stale copy of a value whose active TTL is `ttl`. */
  function Copying(c: Settings, k: Key, v: View, ttl: int, now: int): S.Act { Storing(k, v, ttl + c.staleTTL, now) }

  function Dropping(k: Key): S.Act { S.One(Remove(k)) }

  /** A value that does not expire in the active cache has no stale copy. */
  function Recorded(c: Settings, w: World, k: Key, v: View, ttl: int, later: int): World
    requires S.Stocked(w.stale.stores)
  {
    if ttl <= 0 then w else StaleToo(c, w, Copying(c, k, v, ttl, later))
  }

  /** A value for both caches. */
  function Filled(c: Settings, w: World, k: Key, v: View, ttl: int, now: int, later: int): World
    requires Stocked(w)
  {
    Recorded(c, OnActive(w, Storing(k, v, ttl, now)), k, v, ttl, later)
  }

  /** The janitor has a clock for every store. */
  predicate Suits(w: World, ev: Event) {
    ev.Janitor? ==> |ev.first| == |w.active.stores| && |ev.second| == |w.stale.stores|
  }

  function Next(c: Settings, w: World, ev: Event): World {
    if !Stocked(w) || !Suits(w, ev) then w
    else
      match ev
      case Lookup(k, now) => OnActive(w, Asking(k, now))
      case Fill(k, bytes, draw, now, later) => Filled(c, w, k, View(bytes, false), NextTTL(c, draw), now, later)
      case NotFound(k, now) =>
        if !c.negativeEnabled || c.negativeTTL <= 0 then w
        else OnActive(w, Storing(k, View("", true), c.negativeTTL, now))
      case Timeout(k, now, later) =>
        if Seen(w.active, k, now).Some? then OnActive(w, Asking(k, now))
        else Both(c, w, Asking(k, now), Asking(k, later))
      case Invalidate(k) => Both(c, w, Dropping(k), Dropping(k))
      case Janitor(a, b) => Both(c, w, S.SweepAll(a), S.SweepAll(b))
  }

  /** The draw is in range and the second clock reading is not before the first. */
  predicate Ready(c: Settings, ev: Event) {
    ev.Fill? ==> Drawn(c, ev.draw) && ev.now <= ev.later
  }

  /** The timeout path: the active cache first, then the stale one. */
  datatype Served = Nothing | FromActive(value: View) | FromStale(value: View)

  function Degrade(c: Settings, w: World, k: Key, now: int, later: int): Served
    requires Stocked(w)
  {
    match Seen(w.active, k, now)
    case Some(v) => FromActive(v)
    case None =>
      if !c.StaleOn() then Nothing
      else
        match Seen(w.stale, k, later)
        case Some(v) => FromStale(v)
        case None => Nothing
  }

  lemma TimeoutForm(c: Settings, w: World, k: Key, now: int, later: int)
    requires Stocked(w)
    ensures var w1 := OnActive(w, Asking(k, now));
      && Stocked(w1)
      && Next(c, w, Timeout(k, now, later)) ==
         if Seen(w.active, k, now).Some? then w1 else StaleToo(c, w1, Asking(k, later))
  {
    StaysStocked(c, w, Asking(k, now));
  }

  lemma InvalidateForm(c: Settings, w: World, k: Key)
    requires Stocked(w)
    ensures Next(c, w, Invalidate(k)) == Both(c, w, Dropping(k), Dropping(k))
  {
  }

  // ----- the invariant

  predicate ActiveCell(c: Settings, cell: Cell, wrote: int) {
    && cell.expireAt.Some?
    && cell.expireAt.value <= wrote + (if cell.value.notFound then c.negativeTTL else c.base + c.jitter)
  }

  predicate StaleCell(c: Settings, cell: Cell, wrote: int) {
    && cell.expireAt.Some? && !cell.value.notFound
    && cell.expireAt.value <= wrote + c.base + c.jitter + c.staleTTL
  }

  predicate Paired(c: Settings, a: Cell, s: Cell) {
    && a.value == s.value
    && a.expireAt.Some? && s.expireAt.Some? && a.expireAt.value + c.staleTTL <= s.expireAt.value
  }

  /** The last writes of a key in the two caches keep their expiry bounds. */
  ghost predicate KeyOk(c: Settings, a: Side, s: Side, k: Key) {
    && (k in a.ref ==> k in a.wrote && ActiveCell(c, a.ref[k], a.wrote[k]))
    && (k in s.ref ==> k in a.ref && k in s.wrote && StaleCell(c, s.ref[k], s.wrote[k]))
    && (c.StaleOn() && k in a.ref && !a.ref[k].value.notFound ==> k in s.ref && Paired(c, a.ref[k], s.ref[k]))
  }

  ghost predicate KeysOk(c: Settings, w: World) { forall k :: KeyOk(c, w.active, w.stale, k) }

  /** Every resident entry is its key's last write, in the key's own shard. */
  ghost predicate SideOk(x: Side) { S.Stocked(x.stores) && S.Together(x.stores, S.SEED, x.ref) }

  ghost predicate StoresOk(w: World) { SideOk(w.active) && SideOk(w.stale) }

  ghost predicate Good(c: Settings, w: World) {
    && c.jitter >= 0 && StoresOk(w)
    && (c.base > 0 ==> KeysOk(c, w))
    && (!c.StaleOn() ==> w.stale.ref == map[])
  }

  lemma AfterOk(x: Side, a: S.Act)
    requires SideOk(x) && S.Suits(a, |x.stores|)
    ensures SideOk(After(x, a)) && |After(x, a).stores| == |x.stores|
  {
    S.DispatchStocked(x.stores, S.SEED, a);
    S.DispatchTogether(x.stores, S.SEED, a, x.ref);
  }

  lemma BothOk(c: Settings, w: World, a: S.Act, stale: S.Act)
    requires StoresOk(w) && S.Suits(a, |w.active.stores|) && S.Suits(stale, |w.stale.stores|)
    ensures StoresOk(OnActive(w, a)) && StoresOk(Both(c, w, a, stale))
  {
    AfterOk(w.active, a);
    AfterOk(w.stale, stale);
  }

  /** A value written to the active cache and, for longer, to the stale one. */
  lemma FilledKey(c: Settings, w: World, k: Key, v: View, ttl: int, now: int, later: int, x: Key)
    requires Stocked(w) && KeyOk(c, w.active, w.stale, x)
    requires !v.notFound && 0 < ttl <= c.base + c.jitter && now <= later
    ensures var r := Filled(c, w, k, v, ttl, now, later);
      KeyOk(c, r.active, r.stale, x)
  {
  }

  lemma FilledStoresOk(c: Settings, w: World, k: Key, v: View, ttl: int, now: int, later: int)
    requires StoresOk(w)
    ensures StoresOk(Filled(c, w, k, v, ttl, now, later))
  {
    var a, stale := Storing(k, v, ttl, now), Copying(c, k, v, ttl, later);
    AfterOk(w.active, a);
    AfterOk(w.stale, stale);
    FilledActive(c, w, k, v, ttl, now, later, a);
    FilledStale(c, w, k, v, ttl, now, later, stale);
  }

  lemma FilledActive(c: Settings, w: World, k: Key, v: View, ttl: int, now: int, later: int, a: S.Act)
    requires Stocked(w) && a == Storing(k, v, ttl, now)
    ensures Filled(c, w, k, v, ttl, now, later).active == After(w.active, a)
  {
  }

  lemma FilledStale(c: Settings, w: World, k: Key, v: View, ttl: int, now: int, later: int, a: S.Act)
    requires Stocked(w) && a == Copying(c, k, v, ttl, later)
    ensures Filled(c, w, k, v, ttl, now, later).stale == if ttl > 0 && c.StaleOn() then After(w.stale, a) else w.stale
  {
  }

  lemma FillGood(c: Settings, w: World, k: Key, bytes: string, draw: nat, now: int, later: int)
    requires Good(c, w) && Drawn(c, draw) && now <= later
    ensures Good(c, Filled(c, w, k, View(bytes, false), NextTTL(c, draw), now, later))
  {
    var v, ttl := View(bytes, false), NextTTL(c, draw);
    FilledStoresOk(c, w, k, v, ttl, now, later);
    if c.base > 0 {
      NextTTLBounds(c, draw);
      var r := Filled(c, w, k, v, ttl, now, later);
      forall x ensures KeyOk(c, r.active, r.stale, x) { FilledKey(c, w, k, v, ttl, now, later, x); }
    }
  }

  lemma NotFoundGood(c: Settings, w: World, ev: Event)
    requires Good(c, w) && ev.NotFound?
    ensures Good(c, Next(c, w, ev))
  {
    AfterOk(w.active, Storing(ev.key, View("", true), c.negativeTTL, ev.now));
    if c.base > 0 {
      var r := Next(c, w, ev);
      forall x ensures KeyOk(c, r.active, r.stale, x) {
        assert KeyOk(c, w.active, w.stale, x);
      }
    }
  }

  lemma InvalidateGood(c: Settings, w: World, k: Key)
    requires Good(c, w)
    ensures Good(c, Next(c, w, Invalidate(k)))
  {
    BothOk(c, w, Dropping(k), Dropping(k));
    if c.base > 0 {
      var r := Next(c, w, Invalidate(k));
      forall x ensures KeyOk(c, r.active, r.stale, x) {
        assert KeyOk(c, w.active, w.stale, x);
      }
    }
  }

  /** Operations that write nothing change no record. */
  lemma QuietGood(c: Settings, w: World, a: S.Act, stale: S.Act)
    requires Good(c, w) && S.Suits(a, |w.active.stores|) && S.Suits(stale, |w.stale.stores|)
    requires (a.One? ==> a.op.Get?) && (stale.One? ==> stale.op.Get?)
    ensures Good(c, OnActive(w, a)) && Good(c, Both(c, w, a, stale))
  {
    BothOk(c, w, a, stale);
    if c.base > 0 {
      var one, two := OnActive(w, a), Both(c, w, a, stale);
      forall x ensures KeyOk(c, one.active, one.stale, x) && KeyOk(c, two.active, two.stale, x) {
        assert KeyOk(c, w.active, w.stale, x);
      }
    }
  }

  lemma NextGood(c: Settings, w: World, ev: Event)
    requires Good(c, w) && Ready(c, ev)
    ensures Good(c, Next(c, w, ev))
  {
    match ev
    case Lookup(k, now) => QuietGood(c, w, Asking(k, now), Asking(k, now));
    case Fill(k, bytes, draw, now, later) => FillGood(c, w, k, bytes, draw, now, later);
    case NotFound(_, _) => NotFoundGood(c, w, ev);
    case Timeout(k, now, later) => QuietGood(c, w, Asking(k, now), Asking(k, later));
    case Invalidate(k) => InvalidateGood(c, w, k);
    case Janitor(a, b) => if Suits(w, ev) { QuietGood(c, w, S.SweepAll(a), S.SweepAll(b)); }
  }

  ghost function Run(c: Settings, w: World, evs: seq<Event>): World {
    Fold((x: World, e: Event) => Next(c, x, e), w, evs)
  }

  lemma RunGood(c: Settings, w: World, evs: seq<Event>)
    requires Good(c, w) && forall e :: e in evs ==> Ready(c, e)
    ensures Good(c, Run(c, w, evs))
  {
    forall x, e | Good(c, x) && Ready(c, e) ensures Good(c, Next(c, x, e)) { NextGood(c, x, e); }
    var f := (x: World, e: Event) => Next(c, x, e);
    EachReady(c, f, w, evs);
    FoldKeeps(f, (x, e) => Ready(c, e), x => Good(c, x), w, evs);
  }

  lemma {:induction false} EachReady(c: Settings, f: (World, Event) -> World, w: World, evs: seq<Event>)
    requires forall e :: e in evs ==> Ready(c, e)
    ensures AllReady(f, (x: World, e) => Ready(c, e), w, evs)
    decreases |evs|
  {
    if evs != [] { EachReady(c, f, f(w, evs[0]), evs[1..]); }
  }

  function Init(active: seq<Store>, stale: seq<Store>): World {
    World(Side(active, map[], map[]), Side(stale, map[], map[]))
  }

  lemma InitGood(c: Settings, active: seq<Store>, stale: seq<Store>)
    requires c.jitter >= 0 && S.Unused(active) && S.Unused(stale)
    ensures Good(c, Init(active, stale))
  {
  }

  // ----- what it gives, over every run

  /** A live entry of the active cache is its key's last write; with TTLs, it is at most base TTL + jitter
      old, or the negative TTL if it is "not found". */
  ghost predicate ActiveFresh(c: Settings, w: World, k: Key, now: int) {
    && k in w.active.ref
    && (c.base > 0 ==>
          && k in w.active.wrote
          && now - w.active.wrote[k] <= if w.active.ref[k].value.notFound then c.negativeTTL else c.base + c.jitter)
  }

  /** A live entry of the stale cache is the last value written for its key, never "not found", and at most
      base TTL + jitter + stale TTL old. It is the key's last write if and only if that is a value: a "not
      found" written since is the only write that the stale cache does not see. */
  ghost predicate StaleFresh(c: Settings, w: World, k: Key, later: int) {
    && k in w.stale.ref && !w.stale.ref[k].value.notFound
    && k in w.stale.wrote && later - w.stale.wrote[k] <= c.base + c.jitter + c.staleTTL
    && k in w.active.ref && (w.stale.ref[k].value == w.active.ref[k].value <==> !w.active.ref[k].value.notFound)
  }

  /** What the timeout path may serve: the live entry of the active cache, or else of the stale cache, or
      else nothing. */
  ghost predicate ServedOk(c: Settings, w: World, k: Key, now: int, later: int, r: Served)
    requires Stocked(w)
  {
    if Live(w.active, k, now) then
      ActiveFresh(c, w, k, now) && r == FromActive(w.active.ref[k].value)
    else if c.StaleOn() && Live(w.stale, k, later) then
      StaleFresh(c, w, k, later) && r == FromStale(w.stale.ref[k].value)
    else r == Nothing
  }

  lemma ActiveAnswer(c: Settings, w: World, k: Key, now: int)
    requires Good(c, w)
    ensures var v := Seen(w.active, k, now);
      && (v.Some? <==> Live(w.active, k, now))
      && (v.Some? ==> ActiveFresh(c, w, k, now) && v.value == w.active.ref[k].value)
  {
    S.ShardAnswer(w.active.stores, S.SEED, w.active.ref, k, now);
    if c.base > 0 { assert KeyOk(c, w.active, w.stale, k); }
  }

  lemma StaleAnswer(c: Settings, w: World, k: Key, later: int)
    requires Good(c, w) && c.StaleOn()
    ensures var v := Seen(w.stale, k, later);
      && (v.Some? <==> Live(w.stale, k, later))
      && (v.Some? ==> StaleFresh(c, w, k, later) && v.value == w.stale.ref[k].value)
  {
    S.ShardAnswer(w.stale.stores, S.SEED, w.stale.ref, k, later);
    assert KeyOk(c, w.active, w.stale, k);
  }

  lemma DegradeBound(c: Settings, w: World, k: Key, now: int, later: int)
    requires Good(c, w)
    ensures ServedOk(c, w, k, now, later, Degrade(c, w, k, now, later))
  {
    ActiveAnswer(c, w, k, now);
    if c.StaleOn() { StaleAnswer(c, w, k, later); }
  }

  /** Bounded staleness, for any number of shards: after any run from empty caches, the timeout path serves
      what ServedOk allows. */
  lemma BoundedStaleness(
      c: Settings, active: seq<Store>, stale: seq<Store>, evs: seq<Event>, k: Key, now: int, later: int)
    requires c.jitter >= 0 && S.Unused(active) && S.Unused(stale)
    requires forall e :: e in evs ==> Ready(c, e)
    ensures var w := Run(c, Init(active, stale), evs);
      Stocked(w) && ServedOk(c, w, k, now, later, Degrade(c, w, k, now, later))
  {
    InitGood(c, active, stale);
    RunGood(c, Init(active, stale), evs);
    DegradeBound(c, Run(c, Init(active, stale), evs), k, now, later);
  }

  /** Where the two records differ: a value was written, and then "not found". The stale cache keeps the value,
      and the timeout path serves it whenever the active entry is not live. */
  lemma NegativeLeavesStale(c: Settings, w: World, k: Key, bytes: string, draw: nat, now: int, later: int, gone: int)
    requires Good(c, w) && c.StaleOn() && c.negativeEnabled && c.negativeTTL > 0
    requires Drawn(c, draw) && now <= later
    ensures var r := Next(c, Next(c, w, Fill(k, bytes, draw, now, later)), NotFound(k, gone));
      && Good(c, r)
      && k in r.active.ref && r.active.ref[k].value.notFound
      && (forall t, u ::
            !Live(r.active, k, t) && Live(r.stale, k, u) ==> Degrade(c, r, k, t, u) == FromStale(View(bytes, false)))
  {
    var w1 := Next(c, w, Fill(k, bytes, draw, now, later));
    var r := Next(c, w1, NotFound(k, gone));
    NextGood(c, w, Fill(k, bytes, draw, now, later));
    NextGood(c, w1, NotFound(k, gone));
    NextTTLBounds(c, draw);
    forall t, u | !Live(r.active, k, t) && Live(r.stale, k, u)
      ensures Degrade(c, r, k, t, u) == FromStale(View(bytes, false))
    {
      DegradeBound(c, r, k, t, u);
    }
  }

  /** A new cache of one unlimited store. */
  predicate Roomy(x: Side) {
    |x.stores| == 1 && x.stores[0].Inv() && x.stores[0].MaxBytes() == 0 && x.stores[0].Items() == []
  }

  lemma LoneAfter(x: Side, st: Store, op: Op)
    requires st.Inv() && x.stores == [st] && S.Suits(S.One(op), 1)
    ensures Step(st, op).0.Inv() && After(x, S.One(op)).stores == [Step(st, op).0]
  {
    StepInv(st, op);
    S.LoneShard(st, S.SEED, op);
  }

  lemma LoneSeen(x: Side, st: Store, k: Key, t: int)
    requires st.Inv() && x.stores == [st]
    ensures Seen(x, k, t) == Step(st, Get(k, t)).1
  {
    S.LoneShard(st, S.SEED, Get(k, t));
  }

  /** What is found there after some operations: the last write, until it expires. */
  lemma RoomyFinds(x: Side, st: Store, ops: seq<Op>, t: int, k: Key, now: int)
    requires st.Inv() && st.MaxBytes() == 0 && st.Items() == [] && x.stores == [Stores.Run(st, ops)]
    requires Chronicle(ops, t) && EndTime(ops, t) <= now
    ensures var ref := RefRun(map[], ops);
      Seen(x, k, now) == if k in ref && !ref[k].Expired(now) then Some(ref[k].value) else None
  {
    UnlimitedIsExact(st, ops, t, k, now);
    LoneSeen(x, Stores.Run(st, ops), k, now);
  }

  /** A "not found" is not found any more once it has expired, */
  lemma NegativeExpires(c: Settings, w: World, k: Key, gone: int, t: int)
    requires Good(c, w) && c.negativeEnabled && c.negativeTTL > 0 && gone + c.negativeTTL < t
    ensures var r := Next(c, w, NotFound(k, gone));
      && Good(c, r) && k in r.active.ref && r.active.ref[k].value.notFound && Seen(r.active, k, t).None?
      && r.stale == w.stale
  {
    var r := Next(c, w, NotFound(k, gone));
    NextGood(c, w, NotFound(k, gone));
    S.ShardAnswer(r.active.stores, S.SEED, r.active.ref, k, t);
  }

  /** and then the timeout path does serve the older value: with an unlimited stale cache, whenever the "not
      found" expires before the stale copy does. */
  lemma StaleOutlivesNegative(
      c: Settings, w: World, k: Key, bytes: string, draw: nat, now: int, later: int, gone: int, t: int)
    requires Good(c, w) && Roomy(w.stale)
    requires c.StaleOn() && c.negativeEnabled && c.negativeTTL > 0 && Drawn(c, draw) && now <= later
    requires gone + c.negativeTTL < t && later <= t <= later + NextTTL(c, draw) + c.staleTTL
    ensures var r := Next(c, Next(c, w, Fill(k, bytes, draw, now, later)), NotFound(k, gone));
      && Good(c, r) && k in r.active.ref && r.active.ref[k].value.notFound
      && Degrade(c, r, k, t, t) == FromStale(View(bytes, false))
  {
    NextTTLBounds(c, draw);
    NextGood(c, w, Fill(k, bytes, draw, now, later));
    NegativeExpires(c, Next(c, w, Fill(k, bytes, draw, now, later)), k, gone, t);
    var v, ttl, st := View(bytes, false), NextTTL(c, draw), w.stale.stores[0];
    var copy := Copying(c, k, v, ttl, later);
    FilledStale(c, w, k, v, ttl, now, later, copy);
    assert w.stale.stores == [st] && [copy.op][1..] == [];
    LoneAfter(w.stale, st, copy.op);
    RoomyFinds(After(w.stale, copy), st, [copy.op], later, k, t);
  }

  /** Whenever both caches hold an entry for a key and the active one is not "not found", they hold the
      same value and the stale one expires at least the stale TTL later. */
  lemma StaleIsACopy(c: Settings, active: seq<Store>, stale: seq<Store>, evs: seq<Event>, k: Key)
    requires c.StaleOn() && c.jitter >= 0 && S.Unused(active) && S.Unused(stale)
    requires forall e :: e in evs ==> Ready(c, e)
    ensures var w := Run(c, Init(active, stale), evs);
      && Stocked(w)
      && (S.Holds(w.active.stores, S.SEED, k) && S.Holds(w.stale.stores, S.SEED, k)
            && !S.EntryIn(w.active.stores, S.SEED, k).value.notFound ==>
          var (a, s) := (S.EntryIn(w.active.stores, S.SEED, k), S.EntryIn(w.stale.stores, S.SEED, k));
          && a.value == s.value
          && a.expireAt.Some? && s.expireAt.Some? && a.expireAt.value + c.staleTTL <= s.expireAt.value)
  {
    InitGood(c, active, stale);
    RunGood(c, Init(active, stale), evs);
    var w := Run(c, Init(active, stale), evs);
    assert KeyOk(c, w.active, w.stale, k);
    S.ShardAnswer(w.active.stores, S.SEED, w.active.ref, k, 0);
    S.ShardAnswer(w.stale.stores, S.SEED, w.stale.ref, k, 0);
  }

  /** After an invalidation, and as long as the key is not written again, neither record has it. */
  lemma {:induction false} InvalidatedStaysGone(c: Settings, w: World, evs: seq<Event>, k: Key)
    requires Good(c, w) && k !in w.active.ref && k !in w.stale.ref
    requires forall e :: e in evs ==> Ready(c, e) && ((e.Fill? || e.NotFound?) ==> e.key != k)
    ensures var r := Run(c, w, evs); Good(c, r) && k !in r.active.ref && k !in r.stale.ref
    decreases |evs|
  {
    if evs != [] {
      NextGood(c, w, evs[0]);
      UnwrittenStays(c, w, evs[0], k);
      InvalidatedStaysGone(c, Next(c, w, evs[0]), evs[1..], k);
    }
  }

  lemma UnwrittenStays(c: Settings, w: World, ev: Event, k: Key)
    requires k !in w.active.ref && k !in w.stale.ref && ((ev.Fill? || ev.NotFound?) ==> ev.key != k)
    ensures k !in Next(c, w, ev).active.ref && k !in Next(c, w, ev).stale.ref
  {
    if Stocked(w) && Suits(w, ev) {
      match ev
      case Fill(x, bytes, draw, now, later) =>
        var ttl, v := NextTTL(c, draw), View(bytes, false);
        BothStays(c, w, Storing(x, v, ttl, now), Copying(c, x, v, ttl, later), k);
      case Timeout(x, now, later) => BothStays(c, w, Asking(x, now), Asking(x, later), k);
      case Invalidate(x) => BothStays(c, w, Dropping(x), Dropping(x), k);
      case Janitor(a, b) => BothStays(c, w, S.SweepAll(a), S.SweepAll(b), k);
      case _ =>
    }
  }

  lemma BothStays(c: Settings, w: World, a: S.Act, stale: S.Act, k: Key)
    requires Stocked(w) && S.Suits(a, |w.active.stores|) && S.Suits(stale, |w.stale.stores|)
    requires k !in w.active.ref && k !in w.stale.ref
    requires (a.One? && a.op.Add? ==> a.op.key != k) && (stale.One? && stale.op.Add? ==> stale.op.key != k)
    ensures k !in OnActive(w, a).active.ref && k !in OnActive(w, a).stale.ref
    ensures k !in Both(c, w, a, stale).active.ref && k !in Both(c, w, a, stale).stale.ref
  {
  }

  /** Neither path answers the key from a cache. */
  ghost predicate Hidden(c: Settings, w: World, k: Key) {
    Stocked(w) && forall now, later :: Degrade(c, w, k, now, later) == Nothing
  }

  /** What an invalidation leaves. */
  lemma InvalidateDrops(c: Settings, w: World, k: Key)
    requires Good(c, w)
    ensures var r := Next(c, w, Invalidate(k));
      Good(c, r) && k !in r.active.ref && k !in r.stale.ref && Hidden(c, r, k)
  {
    InvalidateGood(c, w, k);
    UnrecordedHidden(c, Next(c, w, Invalidate(k)), k);
  }

  /** A key that no record has is not served. */
  lemma UnrecordedHidden(c: Settings, w: World, k: Key)
    requires Good(c, w) && k !in w.active.ref && k !in w.stale.ref
    ensures Hidden(c, w, k)
  {
    forall now, later ensures Degrade(c, w, k, now, later) == Nothing { DegradeBound(c, w, k, now, later); }
  }

  /** So, after an invalidation, neither path serves the key until it is written again. */
  lemma InvalidateHides(c: Settings, w: World, evs: seq<Event>, k: Key)
    requires Good(c, w)
    requires forall e :: e in evs ==> Ready(c, e) && ((e.Fill? || e.NotFound?) ==> e.key != k)
    ensures Hidden(c, Run(c, Next(c, w, Invalidate(k)), evs), k)
  {
    InvalidateDrops(c, w, k);
    InvalidatedStaysGone(c, Next(c, w, Invalidate(k)), evs, k);
    UnrecordedHidden(c, Run(c, Next(c, w, Invalidate(k)), evs), k);
  }

  // ----- a whole Get

  /** What a peer or the getter answers. */
  datatype Loaded = Value(bytes: string) | Missing | Failed

  /** The world outside, as one Get finds it: the picked peer's answer, if a peer is picked; whether the
      filter rejects the key; the getter's answer. */
  datatype Source = Source(peer: Option<Loaded>, rejected: bool, local: Loaded)

  datatype Reply = Found(value: View) | Absent | Error

  /** The random draw and the clock readings of one Get. */
  datatype Times = Times(draw: nat, now: int, wrote: int, later: int)

  predicate Orderly(c: Settings, t: Times) { Drawn(c, t.draw) && t.wrote <= t.later }

  /** Where the answer of a load comes from: a peer's value or "not found" is final, any other peer
      error falls back to the local load, which the filter may turn away. */
  function Answer(src: Source): Loaded {
    if src.peer.Some? && !src.peer.value.Failed? then src.peer.value
    else if src.rejected then Failed
    else src.local
  }

  /** The sources answer `a`: what the peer says is final unless it failed; otherwise the getter is asked, if the
      filter lets it be. */
  predicate Gives(src: Source, a: Loaded) {
    || (src.peer == Some(a) && a != Failed)
    || ((src.peer == None || src.peer == Some(Failed)) && a == if src.rejected then Failed else src.local)
  }

  /** A Get's reply for such an answer. */
  predicate Says(a: Loaded, r: Reply) {
    (a.Value? <==> r.Found?) && (a.Missing? <==> r.Absent?) && (a.Value? && r.Found? ==> r.value == View(a.bytes, false))
  }

  lemma OneAnswer(src: Source, a: Loaded)
    ensures Gives(src, a) <==> a == Answer(src)
  {
  }

  function Read(c: Settings, w: World, k: Key, src: Source, t: Times): (World, Reply)
    requires Stocked(w)
  {
    var hit := Seen(w.active, k, t.now);
    var w1 := Next(c, w, Lookup(k, t.now));
    if k == "" then (w, Error)
    else if hit.Some? then (w1, if hit.value.notFound then Absent else Found(hit.value))
    else Loads(c, w1, k, Answer(src), t)
  }

  /** What a miss does with the answer of a source. */
  function Loads(c: Settings, w: World, k: Key, a: Loaded, t: Times): (World, Reply) {
    match a
    case Value(bytes) => (Next(c, w, Fill(k, bytes, t.draw, t.wrote, t.later)), Found(View(bytes, false)))
    case Missing => (Next(c, w, NotFound(k, t.wrote)), Absent)
    case Failed => (w, Error)
  }

  /** What a Get may answer: an error for the empty key; on a live hit the key's last write, as fresh as
      ActiveFresh says; on a miss, and only then, what a source answers now, an error if none does. */
  ghost predicate ReplyOk(c: Settings, w: World, k: Key, src: Source, t: Times, r: Reply)
    requires Stocked(w)
  {
    if k == "" then r == Error
    else if Live(w.active, k, t.now) then
      && ActiveFresh(c, w, k, t.now)
      && r == if w.active.ref[k].value.notFound then Absent else Found(w.active.ref[k].value)
    else exists a :: Gives(src, a) && Says(a, r)
  }

  lemma ReadBound(c: Settings, w: World, k: Key, src: Source, t: Times)
    requires Good(c, w)
    ensures ReplyOk(c, w, k, src, t, Read(c, w, k, src, t).1)
  {
    ActiveAnswer(c, w, k, t.now);
    OneAnswer(src, Answer(src));
  }

  lemma ReadGood(c: Settings, w: World, k: Key, src: Source, t: Times)
    requires Good(c, w) && Orderly(c, t)
    ensures Good(c, Next(c, w, Lookup(k, t.now))) && Good(c, Read(c, w, k, src, t).0)
  {
    var w1 := Next(c, w, Lookup(k, t.now));
    NextGood(c, w, Lookup(k, t.now));
    if Answer(src).Value? { NextGood(c, w1, Fill(k, Answer(src).bytes, t.draw, t.wrote, t.later)); }
    NextGood(c, w1, NotFound(k, t.wrote));
  }

  /** After any run from empty caches, a Get answers as ReplyOk says, and the run can go on from there. */
  lemma ReadIsFresh(c: Settings, active: seq<Store>, stale: seq<Store>, evs: seq<Event>, k: Key, src: Source, t: Times)
    requires c.jitter >= 0 && Orderly(c, t) && S.Unused(active) && S.Unused(stale)
    requires forall e :: e in evs ==> Ready(c, e)
    ensures var w := Run(c, Init(active, stale), evs);
      && Good(c, w) && Good(c, Read(c, w, k, src, t).0)
      && ReplyOk(c, w, k, src, t, Read(c, w, k, src, t).1)
  {
    InitGood(c, active, stale);
    RunGood(c, Init(active, stale), evs);
    ReadGood(c, Run(c, Init(active, stale), evs), k, src, t);
    ReadBound(c, Run(c, Init(active, stale), evs), k, src, t);
  }

  // ----- an increment without a backend

  /** A cache's increment: a lookup and, if what that reads is a number, a write of the next one. */
  function Bumped(u: C.Numeral, x: Side, k: Key, delta: int, ttl: int, now: int, wrote: int): (Side, C.Outcome)
    requires S.Stocked(x.stores)
  {
    S.DispatchStocked(x.stores, S.SEED, Asking(k, now));
    Rewrites(u, After(x, Asking(k, now)), Seen(x, k, now), k, delta, ttl, wrote)
  }

  function BumpedWorld(u: C.Numeral, w: World, k: Key, delta: int, ttl: int, now: int, wrote: int): (World, C.Outcome)
    requires S.Stocked(w.active.stores)
  {
    var (x, r) := Bumped(u, w.active, k, delta, ttl, now, wrote);
    (World(x, w.stale), r)
  }

  function Rewrites(u: C.Numeral, x: Side, v: Option<View>, k: Key, delta: int, ttl: int, wrote: int): (Side, C.Outcome)
    requires S.Stocked(x.stores)
  {
    var cur := C.Current(u, v);
    if cur.None? then (x, C.NonNumeric)
    else
      var next := C.Total(u, cur.value, delta);
      (After(x, S.One(C.Rewritten(u, k, next, ttl, wrote))), C.Counted(next))
  }

  lemma RewritesStores(u: C.Numeral, x: Side, v: Option<View>, k: Key, delta: int, ttl: int, wrote: int)
    requires S.Stocked(x.stores)
    ensures var (y, r) := Rewrites(u, x, v, k, delta, ttl, wrote);
      (y.stores, r) == S.WriteBack(u, x.stores, S.SEED, v, k, delta, ttl, wrote)
  {
  }

  lemma RewritesStocked(u: C.Numeral, x: Side, v: Option<View>, k: Key, delta: int, ttl: int, wrote: int)
    requires S.Stocked(x.stores)
    ensures S.Stocked(Rewrites(u, x, v, k, delta, ttl, wrote).0.stores)
  {
    var r := Rewrites(u, x, v, k, delta, ttl, wrote).1;
    if r.Counted? { S.DispatchStocked(x.stores, S.SEED, S.One(C.Rewritten(u, k, r.next, ttl, wrote))); }
  }

  lemma BumpedStores(u: C.Numeral, x: Side, k: Key, delta: int, ttl: int, now: int, wrote: int)
    requires S.Stocked(x.stores)
    ensures var (y, r) := Bumped(u, x, k, delta, ttl, now, wrote);
      (y.stores, r) == S.Increment(u, x.stores, S.SEED, k, delta, ttl, now, wrote) && S.Stocked(y.stores)
  {
    S.DispatchStocked(x.stores, S.SEED, Asking(k, now));
    RewritesStores(u, After(x, Asking(k, now)), Seen(x, k, now), k, delta, ttl, wrote);
    RewritesStocked(u, After(x, Asking(k, now)), Seen(x, k, now), k, delta, ttl, wrote);
  }

  /** The stores change as the sharded cache's increment says. */
  lemma BumpedStocked(u: C.Numeral, w: World, k: Key, delta: int, ttl: int, now: int, wrote: int)
    requires Stocked(w)
    ensures var (w1, r) := BumpedWorld(u, w, k, delta, ttl, now, wrote);
      && (w1.active.stores, r) == S.Increment(u, w.active.stores, S.SEED, k, delta, ttl, now, wrote)
      && Stocked(w1) && w1.stale == w.stale
  {
    BumpedStores(u, w.active, k, delta, ttl, now, wrote);
  }

  /** The clock readings of an increment: at the lookup, at the write, and at the stale write. */
  function Increments(
      u: C.Numeral, c: Settings, w: World, k: Key, delta: int, draw: nat, now: int, wrote: int, later: int)
      : (World, C.Outcome)
    requires Stocked(w)
  {
    var ttl := NextTTL(c, draw);
    var (w1, r) := BumpedWorld(u, w, k, delta, ttl, now, wrote);
    (if r.NonNumeric? then w1 else Recorded(c, w1, k, View(u.text(r.next), false), ttl, later), r)
  }

  /** An increment is a lookup and, if what that reads is a number, a fill with the next one's text; so
      everything said of runs of lookups and fills holds of increments. */
  lemma IncrementForm(
      u: C.Numeral, c: Settings, w: World, k: Key, delta: int, draw: nat, now: int, wrote: int, later: int)
    requires Stocked(w)
    ensures var (w1, r) := Increments(u, c, w, k, delta, draw, now, wrote, later);
      w1 == if r.NonNumeric? then Next(c, w, Lookup(k, now))
            else Next(c, Next(c, w, Lookup(k, now)), Fill(k, u.text(r.next), draw, wrote, later))
  {
    S.DispatchStocked(w.active.stores, S.SEED, Asking(k, now));
  }

  lemma IncrementGood(
      u: C.Numeral, c: Settings, w: World, k: Key, delta: int, draw: nat, now: int, wrote: int, later: int)
    requires Good(c, w) && Drawn(c, draw) && wrote <= later
    ensures Good(c, Increments(u, c, w, k, delta, draw, now, wrote, later).0)
  {
    IncrementForm(u, c, w, k, delta, draw, now, wrote, later);
    var r := Increments(u, c, w, k, delta, draw, now, wrote, later).1;
    NextGood(c, w, Lookup(k, now));
    if r.Counted? { NextGood(c, Next(c, w, Lookup(k, now)), Fill(k, u.text(r.next), draw, wrote, later)); }
  }

  /** What an increment answers, given what it reads. */
  function Tally(u: C.Numeral, v: Option<View>, delta: int): C.Outcome {
    var cur := C.Current(u, v);
    if cur.Some? then C.Counted(C.Total(u, cur.value, delta)) else C.NonNumeric
  }

  /** A counter's answer starts from the key's last write, if that is live, and from 0 otherwise. */
  ghost predicate TallyOk(u: C.Numeral, c: Settings, w: World, k: Key, delta: int, now: int, r: C.Outcome)
    requires Stocked(w)
  {
    if Live(w.active, k, now) then
      ActiveFresh(c, w, k, now) && r == Tally(u, Some(w.active.ref[k].value), delta)
    else r == C.Counted(u.wrap(delta))
  }

  lemma IncrementReads(
      u: C.Numeral, c: Settings, w: World, k: Key, delta: int, draw: nat, now: int, wrote: int, later: int)
    requires Good(c, w)
    ensures TallyOk(u, c, w, k, delta, now, Increments(u, c, w, k, delta, draw, now, wrote, later).1)
  {
    BumpedReads(u, w.active, k, delta, NextTTL(c, draw), now, wrote);
    ActiveAnswer(c, w, k, now);
  }

  lemma BumpedReads(u: C.Numeral, x: Side, k: Key, delta: int, ttl: int, now: int, wrote: int)
    requires S.Stocked(x.stores)
    ensures Bumped(u, x, k, delta, ttl, now, wrote).1 == Tally(u, Seen(x, k, now), delta)
  {
    S.DispatchStocked(x.stores, S.SEED, Asking(k, now));
  }
}

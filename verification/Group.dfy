/**
 A group as the program keeps it (groupcache.go): an active cache and, when configured, a stale cache, each
 of them sharded or not. `w` is what the caches hold together with the record of writes; it changes as
 GroupModel says and always meets GroupModel.Good, so that every answer is as fresh as that promises.
 Peers, the getter, the filter, the clock and the random draw are parameters.
 */
module Groups {
  import opened Entries
  import opened Stores
  import opened Counter
  import opened Decimal
  import opened Storages
  import S = Sharding
  import M = GroupModel
  import R = GroupReads

  class Group {
    const c: M.Settings
    const active: Storage
    const stale: Storage?
    ghost var w: M.World
    ghost var Repr: set<object>

    /** The active cache holds `xs`, the stale one, if there is one, `ys`, and they share nothing. */
    ghost predicate Joined(xs: seq<Store>, ys: seq<Store>)
      reads this, active, active.Repr, stale, if stale == null then {} else stale.Repr
    {
      && this !in active.Repr && active in active.Repr && Contents(active) == Some(xs)
      && (stale != null ==>
            && this !in stale.Repr && stale in stale.Repr && active.Repr !! stale.Repr && Contents(stale) == Some(ys))
    }

    /** The caches hold what `w` says. */
    ghost predicate Linked()
      reads this, Repr
    {
      && this in Repr && active in Repr && active.Repr <= Repr
      && (stale == null <==> !c.StaleOn())
      && (stale != null ==> stale in Repr && stale.Repr <= Repr)
      && Joined(w.active.stores, w.stale.stores)
    }

    ghost predicate Valid()
      reads this, Repr
    {
      Linked() && M.Good(c, w)
    }

    /** The options are those of WithRandomTTL, WithStaleWhileRevalidate and WithNegativeCache (0 for an
        option not given), and those of the storage. */
    constructor (base: int, jitter: int, staleTTL: int, negativeTTL: int, o: Options)
      requires o.Usable()
      ensures Valid() && fresh(Repr) && c == M.Configured(base, jitter, staleTTL, negativeTTL)
      ensures w == M.Init(o.Start(), o.Start())
    {
      var settings := M.Configured(base, jitter, staleTTL, negativeTTL);
      var a := NewStorage(o);
      var s: Storage? := null;
      Repr := {this} + a.Repr;
      if settings.StaleOn() {
        s := NewStorage(o);
        Repr := Repr + s.Repr;
      }
      c, active, stale := settings, a, s;
      w := M.Init(o.Start(), o.Start());
      M.InitGood(settings, o.Start(), o.Start());
    }

    // ----- one cache at a time

    method AskActive(a: S.Act, ghost xs: seq<Store>, ghost ys: seq<Store>) returns (r: Option<View>)
      requires Joined(xs, ys) && S.Suits(a, |xs|)
      modifies active.Repr
      ensures fresh(active.Repr - old(active.Repr)) && S.Stocked(xs)
      ensures Joined(S.Dispatch(xs, S.SEED, a).0, ys) && r == S.Dispatch(xs, S.SEED, a).1
    {
      r := Ask(active, a, xs);
    }

    method AskStale(a: S.Act, ghost xs: seq<Store>, ghost ys: seq<Store>) returns (r: Option<View>)
      requires Joined(xs, ys) && stale != null && S.Suits(a, |ys|)
      modifies stale.Repr
      ensures fresh(stale.Repr - old(stale.Repr)) && S.Stocked(ys)
      ensures Joined(xs, S.Dispatch(ys, S.SEED, a).0) && r == S.Dispatch(ys, S.SEED, a).1
    {
      r := Ask(stale, a, ys);
    }

    /** Takes note of what the caches hold now. */
    ghost method Settle(next: M.World)
      requires this in Repr && active in Repr && (stale != null ==> stale in Repr) && (stale == null <==> !c.StaleOn())
      requires Joined(next.active.stores, next.stale.stores)
      modifies this
      ensures Linked() && w == next
      ensures Repr == old(Repr) + active.Repr + if stale == null then {} else stale.Repr
    {
      w, Repr := next, Repr + active.Repr + if stale == null then {} else stale.Repr;
    }

    method OnActive(a: S.Act) returns (r: Option<View>)
      requires Linked() && M.Stocked(w) && S.Suits(a, |w.active.stores|)
      modifies Repr
      ensures Linked() && fresh(Repr - old(Repr)) && M.Stocked(w) && |w.stale.stores| == |old(w).stale.stores|
      ensures w == M.OnActive(old(w), a) && r == S.Dispatch(old(w).active.stores, S.SEED, a).1
    {
      ghost var next := M.OnActive(w, a);
      M.StaysStocked(c, w, a);
      r := AskActive(a, w.active.stores, w.stale.stores);
      Settle(next);
    }

    method OnStale(a: S.Act) returns (r: Option<View>)
      requires Linked() && M.Stocked(w) && c.StaleOn() && S.Suits(a, |w.stale.stores|)
      modifies Repr
      ensures Linked() && fresh(Repr - old(Repr)) && M.Stocked(w)
      ensures w == M.StaleToo(c, old(w), a) && r == S.Dispatch(old(w).stale.stores, S.SEED, a).1
    {
      ghost var next := M.StaleToo(c, w, a);
      M.StaysStocked(c, w, a);
      r := AskStale(a, w.active.stores, w.stale.stores);
      Settle(next);
    }

    /** The stale cache, if there is one. */
    method StaleToo(a: S.Act)
      requires Linked() && M.Stocked(w) && S.Suits(a, |w.stale.stores|)
      modifies Repr
      ensures Linked() && fresh(Repr - old(Repr)) && M.Stocked(w)
      ensures w == M.StaleToo(c, old(w), a)
    {
      if stale != null { var _ := OnStale(a); }
    }

    /** The active cache, then the stale one. */
    method Both(a: S.Act, later: S.Act)
      requires Linked() && M.Stocked(w) && S.Suits(a, |w.active.stores|) && S.Suits(later, |w.stale.stores|)
      modifies Repr
      ensures Linked() && fresh(Repr - old(Repr)) && M.Stocked(w)
      ensures w == M.Both(c, old(w), a, later)
    {
      var _ := OnActive(a);
      StaleToo(later);
    }

    method RecordStale(k: Key, v: View, ttl: int, later: int)
      requires Linked() && M.Stocked(w)
      modifies Repr
      ensures Linked() && fresh(Repr - old(Repr)) && M.Stocked(w)
      ensures w == M.Recorded(c, old(w), k, v, ttl, later)
    {
      if ttl > 0 { StaleToo(M.Copying(c, k, v, ttl, later)); }
    }

    // ----- the operations

    /** Writes a value to both caches, as a load, a peer's answer or a durable increment does. */
    method Fill(k: Key, bytes: string, draw: nat, now: int, later: int)
      requires Valid() && M.Drawn(c, draw) && now <= later
      modifies Repr
      ensures Valid() && fresh(Repr - old(Repr))
      ensures w == M.Next(c, old(w), M.Fill(k, bytes, draw, now, later))
      ensures R.TookValue(c, old(w), w, k, bytes, draw, now, later)
    {
      R.FillTakes(c, w, k, bytes, draw, now, later);
      M.NextGood(c, w, M.Fill(k, bytes, draw, now, later));
      var ttl, v := M.NextTTL(c, draw), View(bytes, false);
      var _ := OnActive(M.Storing(k, v, ttl, now));
      RecordStale(k, v, ttl, later);
    }

    method CacheNegative(k: Key, now: int)
      requires Valid()
      modifies Repr
      ensures Valid() && fresh(Repr - old(Repr))
      ensures w == M.Next(c, old(w), M.NotFound(k, now)) && R.TookNotFound(c, old(w), w, k, now)
    {
      R.NotFoundTakes(c, w, k, now);
      M.NextGood(c, w, M.NotFound(k, now));
      if !c.negativeEnabled || c.negativeTTL <= 0 { return; }
      var _ := OnActive(M.Storing(k, View("", true), c.negativeTTL, now));
    }

    method DropBoth(k: Key)
      requires Linked() && M.Stocked(w)
      modifies Repr
      ensures Linked() && fresh(Repr - old(Repr))
      ensures w == M.Next(c, old(w), M.Invalidate(k))
    {
      M.InvalidateForm(c, w, k);
      Both(M.Dropping(k), M.Dropping(k));
    }

    /** Afterwards neither path answers the key from a cache (GroupModel.InvalidateHides: until it is written
        again). */
    method InvalidateLocal(k: Key)
      requires Valid()
      modifies Repr
      ensures Valid() && fresh(Repr - old(Repr))
      ensures w == M.Next(c, old(w), M.Invalidate(k))
      ensures M.Hidden(c, w, k)
      ensures w.active.ref == old(w).active.ref - {k} && w.stale.ref == old(w).stale.ref - {k}
    {
      R.InvalidateTakes(c, w, k);
      DropBoth(k);
      M.InvalidateDrops(c, old(w), k);
    }

    /** The janitor's work at one tick. */
    method ClearupExpired(first: seq<Clock>, second: seq<Clock>)
      requires Valid() && M.Suits(w, M.Janitor(first, second))
      modifies Repr
      ensures Valid() && fresh(Repr - old(Repr))
      ensures w == M.Next(c, old(w), M.Janitor(first, second)) && R.TookNothing(old(w), w)
      ensures R.Rise(first) && R.Rise(second) ==>
                && R.Cleared(w.active, first) && R.Spares(old(w).active, w.active, first)
                && (c.StaleOn() ==> R.Cleared(w.stale, second) && R.Spares(old(w).stale, w.stale, second))
    {
      R.QuietTakesNothing(c, w, M.Janitor(first, second));
      if R.Rise(first) && R.Rise(second) { R.JanitorClears(c, w, first, second); }
      M.NextGood(c, w, M.Janitor(first, second));
      Both(S.SweepAll(first), S.SweepAll(second));
    }

    method DegradeFromCaches(k: Key, now: int, later: int) returns (r: M.Served)
      requires Valid()
      modifies Repr
      ensures Valid() && fresh(Repr - old(Repr))
      ensures w == M.Next(c, old(w), M.Timeout(k, now, later))
      ensures r == M.Degrade(c, old(w), k, now, later) && M.ServedOk(c, old(w), k, now, later, r)
      ensures R.TookNothing(old(w), w)
    {
      R.QuietTakesNothing(c, w, M.Timeout(k, now, later));
      M.NextGood(c, w, M.Timeout(k, now, later));
      M.DegradeBound(c, w, k, now, later);
      M.TimeoutForm(c, w, k, now, later);
      var v := OnActive(M.Asking(k, now));
      if v.Some? { return M.FromActive(v.value); }
      v := GetStale(k, later);
      return if v.Some? then M.FromStale(v.value) else M.Nothing;
    }

    method GetStale(k: Key, now: int) returns (r: Option<View>)
      requires Linked() && M.Stocked(w)
      modifies Repr
      ensures Linked() && fresh(Repr - old(Repr)) && M.Stocked(w)
      ensures w == M.StaleToo(c, old(w), M.Asking(k, now))
      ensures r == if c.StaleOn() then M.Seen(old(w).stale, k, now) else None
    {
      if stale == null { return None; }
      r := OnStale(M.Asking(k, now));
    }

    /** A cached answer is as fresh as ReplyOk says; only a miss asks the sources. */
    method Get(k: Key, src: M.Source, t: M.Times) returns (r: M.Reply)
      requires Valid() && M.Orderly(c, t)
      modifies Repr
      ensures Valid() && fresh(Repr - old(Repr))
      ensures (w, r) == M.Read(c, old(w), k, src, t)
      ensures M.ReplyOk(c, old(w), k, src, t, r) && R.CachesOk(c, old(w), w, k, src, t)
    {
      R.ReadTakes(c, w, k, src, t);
      M.ReadBound(c, w, k, src, t);
      if k == "" { return M.Error; }
      M.NextGood(c, w, M.Lookup(k, t.now));
      var v := OnActive(M.Asking(k, t.now));
      if v.Some? { return if v.value.notFound then M.Absent else M.Found(v.value); }
      r := Load(k, src, t);
    }

    /** On a miss: the peer first, then the local load. */
    method Load(k: Key, src: M.Source, t: M.Times) returns (r: M.Reply)
      requires Valid() && M.Orderly(c, t)
      modifies Repr
      ensures Valid() && fresh(Repr - old(Repr))
      ensures (w, r) == M.Loads(c, old(w), k, M.Answer(src), t)
      ensures exists a :: M.Gives(src, a) && M.Says(a, r) && R.LoadOk(c, old(w), w, k, a, t)
    {
      M.OneAnswer(src, M.Answer(src));
      R.LoadTakes(c, w, k, M.Answer(src), t);
      if src.peer.Some? {
        match src.peer.value
        case Value(bytes) =>
          Fill(k, bytes, t.draw, t.wrote, t.later);
          return M.Found(View(bytes, false));
        case Missing =>
          CacheNegative(k, t.wrote);
          return M.Absent;
        case Failed =>
      }
      r := GetLocally(k, src, t);
    }

    method GetLocally(k: Key, src: M.Source, t: M.Times) returns (r: M.Reply)
      requires Valid() && M.Orderly(c, t)
      modifies Repr
      ensures Valid() && fresh(Repr - old(Repr))
      ensures (w, r) == M.Loads(c, old(w), k, if src.rejected then M.Failed else src.local, t)
      ensures R.LoadOk(c, old(w), w, k, if src.rejected then M.Failed else src.local, t)
    {
      R.LoadTakes(c, w, k, if src.rejected then M.Failed else src.local, t);
      if src.rejected { return M.Error; }
      match src.local
      case Missing =>
        CacheNegative(k, t.wrote);
        return M.Absent;
      case Failed =>
        return M.Error;
      case Value(bytes) =>
        Fill(k, bytes, t.draw, t.wrote, t.later);
        return M.Found(View(bytes, false));
    }

    // ----- increments without a backend

    method AskBump(
        ghost u: Numeral, k: Key, delta: int, ttl: int, now: int, wrote: int,
        ghost xs: seq<Store>, ghost ys: seq<Store>)
        returns (r: Outcome)
      requires Joined(xs, ys) && u == DECIMAL
      modifies active.Repr
      ensures fresh(active.Repr - old(active.Repr)) && S.Stocked(xs)
      ensures Joined(S.Increment(u, xs, S.SEED, k, delta, ttl, now, wrote).0, ys)
      ensures r == S.Increment(u, xs, S.SEED, k, delta, ttl, now, wrote).1
    {
      r := active.Increment(k, delta, ttl, now, wrote);
    }

    /** The active cache's part of an increment. */
    method Bump(ghost u: Numeral, k: Key, delta: int, ttl: int, now: int, wrote: int) returns (r: Outcome)
      requires Linked() && M.Stocked(w) && u == DECIMAL
      modifies Repr
      ensures Linked() && fresh(Repr - old(Repr)) && M.Stocked(w)
      ensures (w, r) == M.BumpedWorld(u, old(w), k, delta, ttl, now, wrote)
    {
      M.BumpedStocked(u, w, k, delta, ttl, now, wrote);
      ghost var next := M.BumpedWorld(u, w, k, delta, ttl, now, wrote).0;
      r := AskBump(u, k, delta, ttl, now, wrote, w.active.stores, w.stale.stores);
      Settle(next);
    }

    /** No counter has the empty key. */
    method IncrementLocally(
        k: Key, delta: int, draw: nat, now: int, wrote: int, later: int) returns (r: Option<Outcome>)
      requires Valid() && M.Drawn(c, draw) && wrote <= later
      modifies Repr
      ensures Valid() && fresh(Repr - old(Repr))
      ensures k == "" ==> r == None && w == old(w)
      ensures k != "" ==> r.Some? && M.TallyOk(DECIMAL, c, old(w), k, delta, now, r.value)
      ensures k != "" ==>
                if r.value.Counted? then R.TookValue(c, old(w), w, k, FormatInt(r.value.next), draw, wrote, later)
                else R.TookNothing(old(w), w)
      ensures k != "" ==> (w, r.value) == M.Increments(DECIMAL, c, old(w), k, delta, draw, now, wrote, later)
    {
      if k == "" { return None; }
      ghost var u := DECIMAL;
      M.IncrementGood(u, c, w, k, delta, draw, now, wrote, later);
      M.IncrementReads(u, c, w, k, delta, draw, now, wrote, later);
      R.IncrementTakes(u, c, w, k, delta, draw, now, wrote, later);
      var ttl := M.NextTTL(c, draw);
      var o := Bump(u, k, delta, ttl, now, wrote);
      if o.Counted? { RecordStale(k, View(DECIMAL.text(o.next), false), ttl, later); }
      r := Some(o);
    }
  }
}

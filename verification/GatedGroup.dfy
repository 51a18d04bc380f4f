/**
 A group together with its filter gate (groupcache.go, groupcache_filter.go): a local load is turned away if
 the gate rejects its key, and every value written to the caches adds its key to the gate. Warmups, ticks
 and resets of the gate happen at any time between the group's operations.
 */
module GatedGroup {
  import opened Entries
  import opened Stores
  import opened Runs
  import opened Bloom
  import C = Counter
  import S = Sharding
  import G = FilterGateModel
  import M = GroupModel

  datatype World = World(group: M.World, gate: G.Gate)

  datatype Event =
    | Ask(key: Key, peer: Option<M.Loaded>, local: M.Loaded, t: M.Times)   // a Get
    | Count(key: Key, delta: int, draw: nat, now: int, wrote: int, later: int)   // an increment
    | Store(key: Key, bytes: string, draw: nat, now: int, later: int)   // a durable increment's write
    | Cached(ev: M.Event)   // timeout, invalidation, janitor
    | Gated(step: G.Label)   // a step of the gate

  /** What a Get finds outside: the gate as it is decides whether the local load is turned away. */
  function Sources(f: Shape, x: World, ev: Event): M.Source
    requires ev.Ask?
  {
    M.Source(ev.peer, G.Rejects(f, x.gate, ev.key), ev.local)
  }

  /** The event writes a value to the caches. */
  predicate Writes(u: C.Numeral, f: Shape, x: World, ev: Event)
    requires M.Stocked(x.group)
  {
    match ev
    case Ask(k, _, _, t) => k != "" && M.Seen(x.group.active, k, t.now).None? && M.Answer(Sources(f, x, ev)).Value?
    case Count(k, delta, _, now, _, _) => k != "" && M.Tally(u, M.Seen(x.group.active, k, now), delta).Counted?
    case Store(_, _, _, _, _) => true
    case _ => false
  }

  function Caches(u: C.Numeral, f: Shape, c: M.Settings, x: World, ev: Event): M.World
    requires M.Stocked(x.group)
  {
    match ev
    case Ask(k, _, _, t) => M.Read(c, x.group, k, Sources(f, x, ev), t).0
    case Count(k, delta, draw, now, wrote, later) =>
      if k == "" then x.group else M.Increments(u, c, x.group, k, delta, draw, now, wrote, later).0
    case Store(k, bytes, draw, now, later) => M.Next(c, x.group, M.Fill(k, bytes, draw, now, later))
    case Cached(e) => if e.Fill? then x.group else M.Next(c, x.group, e)
    case Gated(_) => x.group
  }

  function Gate(u: C.Numeral, f: Shape, x: World, ev: Event): G.Gate
    requires M.Stocked(x.group)
  {
    if ev.Gated? then G.Next(f, x.gate, ev.step)
    else if Writes(u, f, x, ev) then G.AddKey(f, x.gate, ev.key)
    else x.gate
  }

  function Next(u: C.Numeral, f: Shape, c: M.Settings, x: World, ev: Event): World {
    if M.Stocked(x.group) then World(Caches(u, f, c, x, ev), Gate(u, f, x, ev)) else x
  }

  function Run(u: C.Numeral, f: Shape, c: M.Settings, x: World, evs: seq<Event>): World
    decreases |evs|
  {
    if evs == [] then x else Run(u, f, c, Next(u, f, c, x, evs[0]), evs[1..])
  }

  /** The draws and clock readings are in order, and a reset spoils no warmup. */
  ghost predicate Ready(c: M.Settings, x: World, ev: Event) {
    match ev
    case Ask(_, _, _, t) => M.Orderly(c, t)
    case Count(_, _, draw, _, wrote, later) => M.Drawn(c, draw) && wrote <= later
    case Store(_, _, draw, now, later) => M.Drawn(c, draw) && now <= later
    case Cached(e) => true
    case Gated(l) => l.Rebuild? && x.gate.refresh.Some? ==> G.AllSpared(x.gate)
  }

  ghost predicate Careful(u: C.Numeral, f: Shape, c: M.Settings, x: World, evs: seq<Event>)
    decreases |evs|
  {
    evs == [] || (Ready(c, x, evs[0]) && Careful(u, f, c, Next(u, f, c, x, evs[0]), evs[1..]))
  }

  ghost predicate Good(f: Shape, c: M.Settings, x: World) { M.Good(c, x.group) && G.Inv(f, x.gate) }

  lemma CachesGood(u: C.Numeral, f: Shape, c: M.Settings, x: World, ev: Event)
    requires Good(f, c, x) && Ready(c, x, ev)
    ensures M.Good(c, Caches(u, f, c, x, ev))
  {
    match ev
    case Ask(k, _, _, t) => M.ReadGood(c, x.group, k, Sources(f, x, ev), t);
    case Count(k, delta, draw, now, wrote, later) => M.IncrementGood(u, c, x.group, k, delta, draw, now, wrote, later);
    case Store(k, bytes, draw, now, later) => M.NextGood(c, x.group, M.Fill(k, bytes, draw, now, later));
    case Cached(e) => if !e.Fill? { M.NextGood(c, x.group, e); }
    case Gated(_) =>
  }

  lemma NextGood(u: C.Numeral, f: Shape, c: M.Settings, x: World, ev: Event)
    requires Good(f, c, x) && Ready(c, x, ev)
    ensures Good(f, c, Next(u, f, c, x, ev))
  {
    CachesGood(u, f, c, x, ev);
    if ev.Gated? {
      G.NextInv(f, x.gate, ev.step);
    } else if Writes(u, f, x, ev) {
      G.AddKeyInv(f, x.gate, ev.key);
    }
  }

  lemma {:induction false} RunGood(u: C.Numeral, f: Shape, c: M.Settings, x: World, evs: seq<Event>)
    requires Good(f, c, x) && Careful(u, f, c, x, evs)
    ensures Good(f, c, Run(u, f, c, x, evs))
    decreases |evs|
  {
    if evs != [] {
      NextGood(u, f, c, x, evs[0]);
      RunGood(u, f, c, Next(u, f, c, x, evs[0]), evs[1..]);
    }
  }

  function Init(active: seq<Store>, stale: seq<Store>): World { World(M.Init(active, stale), G.Init()) }

  // ----- what it gives

  function Reply(f: Shape, c: M.Settings, x: World, ev: Event): M.Reply
    requires M.Stocked(x.group) && ev.Ask?
  {
    M.Read(c, x.group, ev.key, Sources(f, x, ev), ev.t).1
  }

  /** A Get is answered as if there were no gate: from the caches as fresh as they promise, or, on a miss,
      with what a source answers now; only the source's own failure is an error. */
  ghost predicate Admitted(f: Shape, c: M.Settings, x: World, ev: Event)
    requires M.Stocked(x.group) && ev.Ask?
  {
    M.ReplyOk(c, x.group, ev.key, M.Source(ev.peer, false, ev.local), ev.t, Reply(f, c, x, ev))
  }

  predicate Known(g: G.Gate, k: Key) { k in g.since || k in g.warmupKeys }

  lemma KnownAdmitted(f: Shape, c: M.Settings, x: World, ev: Event)
    requires Good(f, c, x) && ev.Ask? && Known(x.gate, ev.key)
    ensures Admitted(f, c, x, ev)
  {
    M.ReadBound(c, x.group, ev.key, Sources(f, x, ev), ev.t);
  }

  /** After any careful run from an empty group, a Get of a key that was warmed up, or written since the
      last reset, is never turned away. */
  lemma NeverTurnedAway(
      u: C.Numeral, f: Shape, c: M.Settings, active: seq<Store>, stale: seq<Store>, evs: seq<Event>, ev: Event)
    requires f.m > 0 && c.jitter >= 0 && S.Unused(active) && S.Unused(stale)
    requires Careful(u, f, c, Init(active, stale), evs) && ev.Ask?
    ensures var x := Run(u, f, c, Init(active, stale), evs);
      M.Stocked(x.group) && (Known(x.gate, ev.key) ==> Admitted(f, c, x, ev))
  {
    M.InitGood(c, active, stale);
    RunGood(u, f, c, Init(active, stale), evs);
    var x := Run(u, f, c, Init(active, stale), evs);
    if Known(x.gate, ev.key) { KnownAdmitted(f, c, x, ev); }
  }

  lemma {:induction false} SinceStays(u: C.Numeral, f: Shape, c: M.Settings, x: World, evs: seq<Event>, k: Key)
    requires k in x.gate.since && forall e :: e in evs && e.Gated? ==> !e.step.Rebuild?
    ensures k in Run(u, f, c, x, evs).gate.since
    decreases |evs|
  {
    if evs != [] {
      assert evs[0] in evs;
      SinceStays(u, f, c, Next(u, f, c, x, evs[0]), evs[1..], k);
    }
  }

  /** A key whose value any operation wrote to the caches stays admitted until the next reset, even after
      its entry is evicted, expires or is invalidated. */
  lemma WrittenStaysAdmitted(u: C.Numeral, f: Shape, c: M.Settings, x: World, first: Event, evs: seq<Event>, ev: Event)
    requires Good(f, c, x) && Ready(c, x, first) && Writes(u, f, x, first)
    requires Careful(u, f, c, Next(u, f, c, x, first), evs)
    requires forall e :: e in evs && e.Gated? ==> !e.step.Rebuild?
    requires ev.Ask? && ev.key == first.key
    ensures var y := Run(u, f, c, Next(u, f, c, x, first), evs);
      M.Stocked(y.group) && Admitted(f, c, y, ev)
  {
    var x1 := Next(u, f, c, x, first);
    NextGood(u, f, c, x, first);
    RunGood(u, f, c, x1, evs);
    SinceStays(u, f, c, x1, evs, ev.key);
    KnownAdmitted(f, c, Run(u, f, c, x1, evs), ev);
  }
}

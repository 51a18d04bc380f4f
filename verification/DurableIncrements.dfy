/**
 Increments backed by a durable store (groupcache.go, `incrementLocally` with an incrementer), run by
 any number of threads under striped locks (increment_locks.go).

 A run is any list of labels; a label whose step is not enabled does nothing, so the runs are exactly
 the interleavings. The backend applies an increment atomically, or fails and applies nothing; either
 cache may lose a key at any time (eviction, expiry, invalidation). There are no loads and no other
 backend writes.
 */
module DurableIncrements {
  import opened Entries
  import opened Runs

  type Tid = nat

  /** Where a thread is in its increment; `pos` is its place in the backend's order. */
  datatype Pc =
    | Idle
    | Holding(key: Key, delta: int)              // has the stripe lock
    | Applied(key: Key, next: int, pos: nat)     // the backend has answered
    | Written(key: Key, next: int, pos: nat)     // the active cache is written
    | Recorded(key: Key, next: int, pos: nat)    // the stale cache is written

  datatype State = State(
    threads: map<Tid, Pc>,
    owner: map<nat, Tid>,
    backend: map<Key, int>,
    applied: seq<(Key, int)>,
    active: map<Key, int>,
    stale: map<Key, int>)

  datatype Label =
    | Lock(t: Tid, key: Key, delta: int)
    | Apply(t: Tid)
    | Fail(t: Tid)
    | WriteActive(t: Tid)
    | WriteStale(t: Tid)
    | Unlock(t: Tid)
    | LoseActive(key: Key)
    | LoseStale(key: Key)

  /** The program's lock does nothing when it has no stripes; its constructor makes 256 of them where none
      are asked for, so `stripes == 0` only shows what they are for. The backend starts with the values `start`
      and adds in its own way, with whatever wrap-around it has. */
  datatype Config = Config(stripes: nat, hash: Key -> nat, start: Key -> int, add: (int, int) -> int)
  {
    function Stripe(k: Key): nat requires stripes > 0 { hash(k) % stripes }
  }

  function PcOf(s: State, t: Tid): Pc { if t in s.threads then s.threads[t] else Idle }

  function BackendOf(c: Config, s: State, k: Key): int { if k in s.backend then s.backend[k] else c.start(k) }

  function Init(): State { State(map[], map[], map[], [], map[], map[]) }

  function Release(c: Config, s: State, t: Tid, k: Key): State {
    var u := s.(threads := s.threads[t := Idle]);
    if c.stripes == 0 then u else u.(owner := u.owner - {c.Stripe(k)})
  }

  function Next(c: Config, s: State, l: Label): State {
    match l
    case Lock(t, k, d) =>
      if PcOf(s, t) != Idle || (c.stripes > 0 && c.Stripe(k) in s.owner) then s
      else
        var u := s.(threads := s.threads[t := Holding(k, d)]);
        if c.stripes == 0 then u else u.(owner := u.owner[c.Stripe(k) := t])
    case Apply(t) =>
      (match PcOf(s, t)
       case Holding(k, d) =>
         var next := c.add(BackendOf(c, s, k), d);
         s.(backend := s.backend[k := next], applied := s.applied + [(k, d)],
            threads := s.threads[t := Applied(k, next, |s.applied|)])
       case _ => s)
    case Fail(t) =>
      (match PcOf(s, t)
       case Holding(k, d) => Release(c, s, t, k)
       case _ => s)
    case WriteActive(t) =>
      (match PcOf(s, t)
       case Applied(k, n, pos) => s.(active := s.active[k := n], threads := s.threads[t := Written(k, n, pos)])
       case _ => s)
    case WriteStale(t) =>
      (match PcOf(s, t)
       case Written(k, n, pos) => s.(stale := s.stale[k := n], threads := s.threads[t := Recorded(k, n, pos)])
       case _ => s)
    case Unlock(t) =>
      (match PcOf(s, t)
       case Recorded(k, n, pos) => Release(c, s, t, k)
       case _ => s)
    case LoseActive(k) => s.(active := s.active - {k})
    case LoseStale(k) => s.(stale := s.stale - {k})
  }

  function Run(c: Config, s: State, ls: seq<Label>): State {
    Fold((x: State, l: Label) => Next(c, x, l), s, ls)
  }

  /** What the backend holds for `k` after the increments `applied`, by its own way of adding. */
  function ValueFor(c: Config, applied: seq<(Key, int)>, k: Key): int {
    if applied == [] then c.start(k)
    else
      var n := |applied| - 1;
      var v := ValueFor(c, applied[..n], k);
      if applied[n].0 == k then c.add(v, applied[n].1) else v
  }

  /** Some thread has its backend answer for `k` but has not yet written the active cache. */
  ghost predicate Pending(s: State, k: Key) {
    exists t :: PcOf(s, t).Applied? && PcOf(s, t).key == k
  }

  /** The same for the stale cache. */
  ghost predicate PendingStale(s: State, k: Key) {
    exists t :: (PcOf(s, t).Applied? || PcOf(s, t).Written?) && PcOf(s, t).key == k
  }

  /** A thread inside the critical section owns its stripe, and its answer is the backend's value. */
  ghost predicate ThreadOk(c: Config, s: State, t: Tid)
    requires c.stripes > 0
  {
    var pc := PcOf(s, t);
    pc.Idle? || (
      && c.Stripe(pc.key) in s.owner && s.owner[c.Stripe(pc.key)] == t
      && (!pc.Holding? ==>
            && pc.next == BackendOf(c, s, pc.key)
            && pc.pos < |s.applied|
            && pc.next == ValueFor(c, s.applied[..pc.pos + 1], pc.key)))
  }

  ghost predicate KeyOk(c: Config, s: State, k: Key) {
    && BackendOf(c, s, k) == ValueFor(c, s.applied, k)
    && (k in s.active && !Pending(s, k) ==> s.active[k] == BackendOf(c, s, k))
    && (k in s.stale && !PendingStale(s, k) ==> s.stale[k] == BackendOf(c, s, k))
  }

  ghost predicate Inv(c: Config, s: State) {
    c.stripes > 0 && (forall t :: ThreadOk(c, s, t)) && (forall k :: KeyOk(c, s, k))
  }

  /** Two threads inside the critical section of one stripe are the same thread. */
  lemma MutualExclusion(c: Config, s: State, t: Tid, u: Tid)
    requires Inv(c, s) && !PcOf(s, t).Idle? && !PcOf(s, u).Idle?
    requires c.Stripe(PcOf(s, t).key) == c.Stripe(PcOf(s, u).key)
    ensures t == u
  {
    assert ThreadOk(c, s, t) && ThreadOk(c, s, u);
  }

  /** A thread other than the one that moves, on another key or idle, is not affected. */
  lemma Apart(c: Config, s: State, t: Tid, u: Tid)
    requires Inv(c, s) && t != u && !PcOf(s, t).Idle? && !PcOf(s, u).Idle?
    ensures PcOf(s, t).key != PcOf(s, u).key && c.Stripe(PcOf(s, t).key) != c.Stripe(PcOf(s, u).key)
  {
    assert ThreadOk(c, s, t) && ThreadOk(c, s, u);
  }

  /** The thread that applies reads the sum up to and including its own delta. */
  lemma ApplySelf(c: Config, s: State, t: Tid)
    requires Inv(c, s) && PcOf(s, t).Holding?
    ensures ThreadOk(c, Next(c, s, Apply(t)), t)
  {
    var k, d := PcOf(s, t).key, PcOf(s, t).delta;
    var a, b := s.applied, s.applied + [(k, d)];
    assert ThreadOk(c, s, t) && KeyOk(c, s, k);
    assert b[..|a| + 1] == b && b[..|a|] == a;
  }

  lemma ApplyOther(c: Config, s: State, t: Tid, u: Tid)
    requires Inv(c, s) && PcOf(s, t).Holding? && u != t
    ensures ThreadOk(c, Next(c, s, Apply(t)), u)
  {
    assert ThreadOk(c, s, u);
    var b := s.applied + [(PcOf(s, t).key, PcOf(s, t).delta)];
    if !PcOf(s, u).Idle? {
      Apart(c, s, t, u);
      if !PcOf(s, u).Holding? { assert b[..PcOf(s, u).pos + 1] == s.applied[..PcOf(s, u).pos + 1]; }
    }
  }

  lemma ApplyThreads(c: Config, s: State, t: Tid, u: Tid)
    requires Inv(c, s)
    ensures ThreadOk(c, Next(c, s, Apply(t)), u)
  {
    assert ThreadOk(c, s, u);
    if PcOf(s, t).Holding? {
      if u == t { ApplySelf(c, s, t); } else { ApplyOther(c, s, t, u); }
    }
  }

  lemma ReleaseThreads(c: Config, s: State, t: Tid, u: Tid)
    requires Inv(c, s) && !PcOf(s, t).Idle?
    ensures ThreadOk(c, Release(c, s, t, PcOf(s, t).key), u)
  {
    assert ThreadOk(c, s, u) && ThreadOk(c, s, t);
    if u != t && !PcOf(s, u).Idle? { Apart(c, s, t, u); }
  }

  lemma NextThreads(c: Config, s: State, l: Label, u: Tid)
    requires Inv(c, s)
    ensures ThreadOk(c, Next(c, s, l), u)
  {
    assert ThreadOk(c, s, u);
    match l
    case Apply(t) => ApplyThreads(c, s, t, u);
    case Fail(t) => if !PcOf(s, t).Idle? { ReleaseThreads(c, s, t, u); }
    case Unlock(t) => if !PcOf(s, t).Idle? { ReleaseThreads(c, s, t, u); }
    case Lock(t, k, d) =>
    case WriteActive(t) => assert ThreadOk(c, s, t);
    case WriteStale(t) => assert ThreadOk(c, s, t);
    case LoseActive(k) =>
    case LoseStale(k) =>
  }

  /** A step of `t` that leaves the caches and the backend alone, and `t` with nothing to write. */
  lemma QuietKey(c: Config, s: State, s': State, t: Tid, k: Key)
    requires KeyOk(c, s, k)
    requires s'.backend == s.backend && s'.applied == s.applied && s'.active == s.active && s'.stale == s.stale
    requires forall u :: u != t ==> PcOf(s', u) == PcOf(s, u)
    requires !PcOf(s, t).Applied? && !PcOf(s, t).Written?
    ensures KeyOk(c, s', k)
  {
    if Pending(s, k) {
      var u :| PcOf(s, u).Applied? && PcOf(s, u).key == k;
      assert PcOf(s', u) == PcOf(s, u);
    }
    if PendingStale(s, k) {
      var u :| (PcOf(s, u).Applied? || PcOf(s, u).Written?) && PcOf(s, u).key == k;
      assert PcOf(s', u) == PcOf(s, u);
    }
  }

  lemma ApplyKeys(c: Config, s: State, t: Tid, x: Key)
    requires Inv(c, s) && PcOf(s, t).Holding?
    ensures KeyOk(c, Next(c, s, Apply(t)), x)
  {
    var s', k, d := Next(c, s, Apply(t)), PcOf(s, t).key, PcOf(s, t).delta;
    assert KeyOk(c, s, x);
    assert s'.applied[..|s.applied|] == s.applied;
    if x == k {
      assert PcOf(s', t).Applied? && PcOf(s', t).key == k;
    } else {
      if Pending(s, x) {
        var u :| PcOf(s, u).Applied? && PcOf(s, u).key == x;
        assert PcOf(s', u) == PcOf(s, u);
      }
      if PendingStale(s, x) {
        var u :| (PcOf(s, u).Applied? || PcOf(s, u).Written?) && PcOf(s, u).key == x;
        assert PcOf(s', u) == PcOf(s, u);
      }
    }
  }

  lemma WriteActiveKeys(c: Config, s: State, t: Tid, x: Key)
    requires Inv(c, s) && PcOf(s, t).Applied?
    ensures KeyOk(c, Next(c, s, WriteActive(t)), x)
  {
    var s' := Next(c, s, WriteActive(t));
    assert KeyOk(c, s, x) && ThreadOk(c, s, t);
    if Pending(s, x) && x != PcOf(s, t).key {
      var u :| PcOf(s, u).Applied? && PcOf(s, u).key == x;
      assert PcOf(s', u) == PcOf(s, u);
    }
    if PendingStale(s, x) {
      var u :| (PcOf(s, u).Applied? || PcOf(s, u).Written?) && PcOf(s, u).key == x;
      assert u != t ==> PcOf(s', u) == PcOf(s, u);
      assert (PcOf(s', u).Applied? || PcOf(s', u).Written?) && PcOf(s', u).key == x;
    }
  }

  lemma WriteStaleKeys(c: Config, s: State, t: Tid, x: Key)
    requires Inv(c, s) && PcOf(s, t).Written?
    ensures KeyOk(c, Next(c, s, WriteStale(t)), x)
  {
    var s' := Next(c, s, WriteStale(t));
    assert KeyOk(c, s, x) && ThreadOk(c, s, t);
    if Pending(s, x) {
      var u :| PcOf(s, u).Applied? && PcOf(s, u).key == x;
      assert PcOf(s', u) == PcOf(s, u);
    }
    if PendingStale(s, x) && x != PcOf(s, t).key {
      var u :| (PcOf(s, u).Applied? || PcOf(s, u).Written?) && PcOf(s, u).key == x;
      assert PcOf(s', u) == PcOf(s, u);
    }
  }

  lemma LoseKeys(c: Config, s: State, k: Key, x: Key)
    requires KeyOk(c, s, x)
    ensures KeyOk(c, s.(active := s.active - {k}), x) && KeyOk(c, s.(stale := s.stale - {k}), x)
  {
    var a, b := s.(active := s.active - {k}), s.(stale := s.stale - {k});
    assert forall t :: PcOf(a, t) == PcOf(s, t) && PcOf(b, t) == PcOf(s, t);
  }

  lemma NextKeys(c: Config, s: State, l: Label, x: Key)
    requires Inv(c, s)
    ensures KeyOk(c, Next(c, s, l), x)
  {
    assert KeyOk(c, s, x);
    match l
    case Lock(t, k, d) =>
      if PcOf(s, t).Idle? { QuietKey(c, s, Next(c, s, l), t, x); }
    case Apply(t) =>
      if PcOf(s, t).Holding? { ApplyKeys(c, s, t, x); }
    case Fail(t) =>
      if PcOf(s, t).Holding? { QuietKey(c, s, Next(c, s, l), t, x); }
    case WriteActive(t) =>
      if PcOf(s, t).Applied? { WriteActiveKeys(c, s, t, x); }
    case WriteStale(t) =>
      if PcOf(s, t).Written? { WriteStaleKeys(c, s, t, x); }
    case Unlock(t) =>
      if PcOf(s, t).Recorded? { QuietKey(c, s, Next(c, s, l), t, x); }
    case LoseActive(k) => LoseKeys(c, s, k, x);
    case LoseStale(k) => LoseKeys(c, s, k, x);
  }

  lemma NextInv(c: Config, s: State, l: Label)
    requires Inv(c, s)
    ensures Inv(c, Next(c, s, l))
  {
    forall t ensures ThreadOk(c, Next(c, s, l), t) { NextThreads(c, s, l, t); }
    forall k ensures KeyOk(c, Next(c, s, l), k) { NextKeys(c, s, l, k); }
  }

  /** The invariant holds after every interleaving, for any number of stripes and any stripe hash. */
  lemma {:induction false} RunInv(c: Config, s: State, ls: seq<Label>)
    requires Inv(c, s)
    ensures Inv(c, Run(c, s, ls))
    decreases |ls|
  {
    if ls != [] {
      NextInv(c, s, ls[0]);
      RunInv(c, Next(c, s, ls[0]), ls[1..]);
    }
  }

  /** After every interleaving: a cached counter equals the backend's value whenever no thread is
      between the backend's answer and that cache write; and the backend holds exactly what adding the
      deltas it applied, in its order, gives. */
  lemma CacheMatchesBackend(c: Config, ls: seq<Label>, k: Key)
    requires c.stripes > 0
    ensures var s := Run(c, Init(), ls);
      && BackendOf(c, s, k) == ValueFor(c, s.applied, k)
      && (k in s.active && !Pending(s, k) ==> s.active[k] == BackendOf(c, s, k))
      && (k in s.stale && !PendingStale(s, k) ==> s.stale[k] == BackendOf(c, s, k))
  {
    assert Inv(c, Init());
    RunInv(c, Init(), ls);
    assert KeyOk(c, Run(c, Init(), ls), k);
  }

  /** Every answer is what the backend held after applying the deltas up to and including its own. */
  lemma AnswersAreOrdered(c: Config, ls: seq<Label>, t: Tid)
    requires c.stripes > 0
    ensures var s := Run(c, Init(), ls);
      var pc := PcOf(s, t);
      !pc.Idle? && !pc.Holding? ==>
        pc.pos < |s.applied| && pc.next == ValueFor(c, s.applied[..pc.pos + 1], pc.key)
  {
    assert Inv(c, Init());
    RunInv(c, Init(), ls);
    assert ThreadOk(c, Run(c, Init(), ls), t);
  }

  /** The first half of an increment that finds its stripe free: the backend's answer. */
  lemma LockAndApply(c: Config, s: State, t: Tid, k: Key, d: int)
    requires PcOf(s, t).Idle? && (c.stripes > 0 ==> c.Stripe(k) !in s.owner)
    ensures var n := c.add(BackendOf(c, s, k), d);
      Next(c, Next(c, s, Lock(t, k, d)), Apply(t)) ==
      s.(backend := s.backend[k := n], applied := s.applied + [(k, d)],
         threads := s.threads[t := Applied(k, n, |s.applied|)],
         owner := if c.stripes > 0 then s.owner[c.Stripe(k) := t] else s.owner)
  {
  }

  /** The second half: the writes to both caches. */
  lemma WriteAndUnlock(c: Config, s: State, t: Tid, k: Key, n: int, pos: nat)
    requires PcOf(s, t) == Applied(k, n, pos)
    ensures Next(c, Next(c, Next(c, s, WriteActive(t)), WriteStale(t)), Unlock(t)) ==
      s.(active := s.active[k := n], stale := s.stale[k := n], threads := s.threads[t := Idle],
         owner := if c.stripes > 0 then s.owner - {c.Stripe(k)} else s.owner)
  {
    var s1 := Next(c, s, WriteActive(t));
    assert s1.threads[t] == Written(k, n, pos);
    assert Next(c, s1, WriteStale(t)).threads[t] == Recorded(k, n, pos);
  }

  /** An increment that finds its stripe free and runs to its end leaves its answer in the backend and in both
      caches, and nothing else changed. */
  lemma OneIncrement(c: Config, s: State, t: Tid, k: Key, d: int)
    requires PcOf(s, t).Idle? && (c.stripes > 0 ==> c.Stripe(k) !in s.owner)
    ensures var s2 := Next(c, Next(c, s, Lock(t, k, d)), Apply(t));
      var r := Next(c, Next(c, Next(c, s2, WriteActive(t)), WriteStale(t)), Unlock(t));
      var n := c.add(BackendOf(c, s, k), d);
      && r.backend == s.backend[k := n] && r.active == s.active[k := n] && r.stale == s.stale[k := n]
      && r.applied == s.applied + [(k, d)] && r.owner == s.owner && r.threads == s.threads[t := Idle]
  {
    LockAndApply(c, s, t, k, d);
    var s2 := Next(c, Next(c, s, Lock(t, k, d)), Apply(t));
    WriteAndUnlock(c, s2, t, k, c.add(BackendOf(c, s, k), d), |s.applied|);
    assert c.stripes > 0 ==> s.owner[c.Stripe(k) := t] - {c.Stripe(k)} == s.owner;
  }

  /** One that the backend refuses leaves everything as it was, and its stripe free. */
  lemma FailedIncrement(c: Config, s: State, t: Tid, k: Key, d: int)
    requires PcOf(s, t).Idle? && (c.stripes > 0 ==> c.Stripe(k) !in s.owner)
    ensures var r := Next(c, Next(c, s, Lock(t, k, d)), Fail(t));
      r == s.(threads := s.threads[t := Idle])
  {
    assert c.stripes > 0 ==> s.owner[c.Stripe(k) := t] - {c.Stripe(k)} == s.owner;
  }

  /** While another thread has the stripe, an increment waits. */
  lemma LockWaits(c: Config, s: State, t: Tid, k: Key, d: int)
    requires c.stripes > 0 && c.Stripe(k) in s.owner
    ensures Next(c, s, Lock(t, k, d)) == s
  {
  }

  ghost predicate Agreed(c: Config, s: State, k: Key) {
    k in s.active && !Pending(s, k) ==> s.active[k] == BackendOf(c, s, k)
  }

  /** Without the locks two increments of one key can write the active cache in the opposite order, leaving
      it one increment behind the backend with nothing pending. */
  lemma UnlockedRace(c: Config, k: Key)
    requires c.stripes == 0
    ensures var s := Run(c, Init(), RaceTrace(k));
      var one := c.add(c.start(k), 1);
      BackendOf(c, s, k) == c.add(one, 1) && !Pending(s, k) && k in s.active && s.active[k] == one
  {
    var f := (x: State, l: Label) => Next(c, x, l);
    var s1 := Next(c, Init(), Lock(0, k, 1));
    var s2 := Next(c, s1, Apply(0));
    var s3 := Next(c, s2, Lock(1, k, 1));
    var s4 := Next(c, s3, Apply(1));
    var s5 := Next(c, s4, WriteActive(1));
    var s6 := Next(c, s5, WriteActive(0));
    var one := c.add(c.start(k), 1);
    assert s1.threads[0] == Holding(k, 1) && s2.threads[0] == Applied(k, one, 0);
    assert s4.threads[1] == Applied(k, c.add(one, 1), 1);
    FoldSix(f, Init(), RaceTrace(k));
  }

  /** The cache agrees with the backend after every interleaving if and only if there is at least one
      stripe (for a key at which adding 1 a second time changes the value). */
  lemma LocksNeeded(c: Config, k: Key)
    requires var one := c.add(c.start(k), 1); c.add(one, 1) != one
    ensures (forall ls :: Agreed(c, Run(c, Init(), ls), k)) <==> c.stripes > 0
  {
    if c.stripes > 0 {
      forall ls ensures Agreed(c, Run(c, Init(), ls), k) { CacheMatchesBackend(c, ls, k); }
    } else {
      UnlockedRace(c, k);
    }
  }

  function RaceTrace(k: Key): seq<Label> {
    [Lock(0, k, 1), Apply(0), Lock(1, k, 1), Apply(1), WriteActive(1), WriteActive(0)]
  }

  lemma FoldSix(f: (State, Label) -> State, s: State, ls: seq<Label>)
    requires |ls| == 6
    ensures Fold(f, s, ls) == f(f(f(f(f(f(s, ls[0]), ls[1]), ls[2]), ls[3]), ls[4]), ls[5])
  {
    var s1 := f(s, ls[0]);
    var s2 := f(s1, ls[1]);
    var s3 := f(s2, ls[2]);
    assert Fold(f, s, ls) == Fold(f, s1, ls[1..]);
    assert Fold(f, s1, ls[1..]) == Fold(f, s2, ls[2..]) by { assert ls[1..][1..] == ls[2..]; }
    assert Fold(f, s2, ls[2..]) == Fold(f, s3, ls[3..]) by { assert ls[2..][1..] == ls[3..]; }
    assert Fold(f, s3, ls[3..]) == Fold(f, f(s3, ls[3]), ls[4..]) by { assert ls[3..][1..] == ls[4..]; }
    assert Fold(f, f(s3, ls[3]), ls[4..]) == Fold(f, f(f(s3, ls[3]), ls[4]), ls[5..]) by {
      assert ls[4..][1..] == ls[5..];
    }
    var s5 := f(f(s3, ls[3]), ls[4]);
    assert Fold(f, s5, ls[5..]) == Fold(f, f(s5, ls[5]), []) by { assert ls[5..][1..] == []; }
  }
}

/**
 Increments without a backend (groupcache.go:157-166), run by any number of threads. The active cache adds
 under its own lock; the stale copy is written afterwards, under no common lock.

 A run is any list of labels; a label whose step is not enabled does nothing. Either cache may lose a key at
 any time (eviction, expiry, invalidation), and an increment of a key that the active cache lost starts again
 at zero. There are no loads.
 */
module LocalIncrements {
  import opened Entries

  type Tid = nat

  /** Between its two writes a thread has the value that it will write to the stale cache. */
  datatype Pc = Idle | Bumped(key: Key, next: int)

  /** `deltas` are those added to a key since the active cache last lost it. */
  datatype State = State(
    threads: map<Tid, Pc>,
    active: map<Key, int>,
    stale: map<Key, int>,
    deltas: map<Key, seq<int>>)

  datatype Label =
    | Bump(t: Tid, key: Key, delta: int)
    | WriteStale(t: Tid)
    | LoseActive(key: Key)
    | LoseStale(key: Key)

  /** The counter's way of adding, with whatever wrap-around it has. */
  type Adder = (int, int) -> int

  function PcOf(s: State, t: Tid): Pc { if t in s.threads then s.threads[t] else Idle }

  function ActiveOf(s: State, k: Key): int { if k in s.active then s.active[k] else 0 }

  function DeltasOf(s: State, k: Key): seq<int> { if k in s.deltas then s.deltas[k] else [] }

  function Init(): State { State(map[], map[], map[], map[]) }

  function Next(add: Adder, s: State, l: Label): State {
    match l
    case Bump(t, k, d) =>
      if !PcOf(s, t).Idle? then s
      else
        var next := add(ActiveOf(s, k), d);
        s.(active := s.active[k := next], deltas := s.deltas[k := DeltasOf(s, k) + [d]],
           threads := s.threads[t := Bumped(k, next)])
    case WriteStale(t) =>
      (match PcOf(s, t)
       case Bumped(k, n) => s.(stale := s.stale[k := n], threads := s.threads[t := Idle])
       case Idle => s)
    case LoseActive(k) => s.(active := s.active - {k}, deltas := s.deltas - {k})
    case LoseStale(k) => s.(stale := s.stale - {k})
  }

  function Run(add: Adder, s: State, ls: seq<Label>): State
    decreases |ls|
  {
    if ls == [] then s else Run(add, Next(add, s, ls[0]), ls[1..])
  }

  lemma RunStep(add: Adder, s: State, l: Label, rest: seq<Label>)
    ensures Run(add, s, [l] + rest) == Run(add, Next(add, s, l), rest)
  {
    assert ([l] + rest)[1..] == rest;
  }

  // ----- the active cache is exact under every interleaving

  function Total(add: Adder, ds: seq<int>): int {
    if ds == [] then 0 else add(Total(add, ds[..|ds| - 1]), ds[|ds| - 1])
  }

  ghost predicate Exact(add: Adder, s: State, k: Key) {
    (k in s.active <==> k in s.deltas) && ActiveOf(s, k) == Total(add, DeltasOf(s, k))
  }

  lemma NextExact(add: Adder, s: State, l: Label, k: Key)
    requires Exact(add, s, k)
    ensures Exact(add, Next(add, s, l), k)
  {
    if l.Bump? && l.key == k && PcOf(s, l.t).Idle? {
      var ds := DeltasOf(s, k) + [l.delta];
      assert ds[..|ds| - 1] == DeltasOf(s, k);
    }
  }

  lemma {:induction false} RunExact(add: Adder, s: State, ls: seq<Label>, k: Key)
    requires Exact(add, s, k)
    ensures Exact(add, Run(add, s, ls), k)
    decreases |ls|
  {
    if ls != [] {
      NextExact(add, s, ls[0], k);
      RunExact(add, Next(add, s, ls[0]), ls[1..], k);
    }
  }

  /** After every interleaving a counter in the active cache is the sum of all the deltas added to it since it
      was last lost. */
  lemma ActiveExact(add: Adder, ls: seq<Label>, k: Key)
    ensures var s := Run(add, Init(), ls);
      k in s.active ==> s.active[k] == Total(add, DeltasOf(s, k))
  {
    RunExact(add, Init(), ls, k);
  }

  /** An increment that nothing overlaps leaves its answer in both caches. */
  lemma OneIncrement(add: Adder, s: State, t: Tid, k: Key, d: int)
    requires PcOf(s, t).Idle?
    ensures var r := Next(add, Next(add, s, Bump(t, k, d)), WriteStale(t));
      var n := add(if k in s.active then s.active[k] else 0, d);
      r.active == s.active[k := n] && r.stale == s.stale[k := n] && r.threads == s.threads[t := Idle]
  {
  }

  // ----- the stale copy is exact only without overlap

  ghost predicate Pending(s: State, t: Tid, k: Key) { PcOf(s, t).Bumped? && PcOf(s, t).key == k }

  ghost predicate Settled(s: State, k: Key) { forall t :: !Pending(s, t, k) }

  /** With nothing pending, the two caches agree on the key, if both have it. */
  ghost predicate Copied(s: State, k: Key) {
    k in s.active && k in s.stale && Settled(s, k) ==> s.stale[k] == s.active[k]
  }

  /** What will be written to the stale cache is what the active cache holds. */
  ghost predicate Current(s: State, k: Key) {
    k in s.active ==> forall t :: Pending(s, t, k) ==> PcOf(s, t).next == s.active[k]
  }

  /** An increment of the key. */
  predicate Bumps(l: Label, k: Key) { l.Bump? && l.key == k }

  lemma NextCopied(add: Adder, s: State, l: Label, k: Key)
    requires Current(s, k) && Copied(s, k) && !Bumps(l, k)
    ensures Current(Next(add, s, l), k) && Copied(Next(add, s, l), k)
  {
    var r := Next(add, s, l);
    forall t | Pending(r, t, k) ensures Pending(s, t, k) && PcOf(r, t) == PcOf(s, t) {}
    if Settled(r, k) && !Settled(s, k) {
      var t :| Pending(s, t, k);
      assert !Pending(r, t, k);
    }
  }

  lemma {:induction false} RunCopied(add: Adder, s: State, ls: seq<Label>, k: Key)
    requires Current(s, k) && Copied(s, k) && forall l :: l in ls ==> !Bumps(l, k)
    ensures Copied(Run(add, s, ls), k)
    decreases |ls|
  {
    if ls != [] {
      NextCopied(add, s, ls[0], k);
      RunCopied(add, Next(add, s, ls[0]), ls[1..], k);
    }
  }

  /** No increment of the key starts between the two writes of another one. */
  ghost predicate Serial(add: Adder, s: State, ls: seq<Label>, k: Key)
    decreases |ls|
  {
    ls == [] || ((Bumps(ls[0], k) ==> Settled(s, k)) && Serial(add, Next(add, s, ls[0]), ls[1..], k))
  }

  lemma {:induction false} RunSerial(add: Adder, s: State, ls: seq<Label>, k: Key)
    requires Current(s, k) && Copied(s, k) && Serial(add, s, ls, k)
    ensures Copied(Run(add, s, ls), k)
    decreases |ls|
  {
    if ls != [] {
      if Bumps(ls[0], k) { BumpCurrent(add, s, ls[0], k); } else { NextCopied(add, s, ls[0], k); }
      RunSerial(add, Next(add, s, ls[0]), ls[1..], k);
    }
  }

  lemma BumpCurrent(add: Adder, s: State, l: Label, k: Key)
    requires Bumps(l, k) && Settled(s, k) && Copied(s, k)
    ensures Current(Next(add, s, l), k) && Copied(Next(add, s, l), k)
  {
    var r := Next(add, s, l);
    forall t | Pending(r, t, k) ensures r != s && t == l.t {
      assert !Pending(s, t, k);
    }
    if r != s { assert Pending(r, l.t, k); }
  }

  /** Over every run in which increments of one key do not overlap, the stale copy of a counter is exact
      whenever nothing is pending. */
  lemma SerialCopies(add: Adder, ls: seq<Label>, k: Key)
    requires Serial(add, Init(), ls, k)
    ensures Copied(Run(add, Init(), ls), k)
  {
    RunSerial(add, Init(), ls, k);
  }

  // ----- exactly which increments break it

  /** The threads other than `v` that are about to write the key's stale copy. */
  function Others(s: State, v: Tid, k: Key): set<Tid> {
    set t | t in s.threads && t != v && s.threads[t].Bumped? && s.threads[t].key == k
  }

  /** Thread `v` may be the last to write. */
  lemma WritesLast(add: Adder, s: State, v: Tid, k: Key) returns (ls: seq<Label>)
    requires Pending(s, v, k)
    ensures forall l :: l in ls ==> l.WriteStale?
    ensures var r := Run(add, s, ls);
      r.active == s.active && Settled(r, k) && k in r.stale && r.stale[k] == PcOf(s, v).next
    decreases |Others(s, v, k)|
  {
    if t :| t in Others(s, v, k) {
      var s1 := Next(add, s, WriteStale(t));
      assert Others(s1, v, k) == Others(s, v, k) - {t};
      assert Pending(s1, v, k) && PcOf(s1, v) == PcOf(s, v);
      var rest := WritesLast(add, s1, v, k);
      RunStep(add, s, WriteStale(t), rest);
      ls := [WriteStale(t)] + rest;
    } else {
      var r := Next(add, s, WriteStale(v));
      forall t ensures !Pending(r, t, k) {
        assert t != v && Pending(s, t, k) ==> t in Others(s, v, k);
      }
      RunStep(add, s, WriteStale(v), []);
      assert Run(add, r, []) == r;
      ls := [WriteStale(v)] + [];
    }
  }

  /** After an increment, whatever follows up to the next one of its key, the stale copy is exact whenever
      nothing is pending, if and only if every thread that is still to write the copy has the new value: the
      threads of earlier increments that overlap with this one do not. */
  lemma OverlapExactly(add: Adder, s: State, u: Tid, k: Key, d: int)
    requires PcOf(s, u).Idle?
    ensures var r := Next(add, s, Bump(u, k, d));
      (forall ls :: (forall l :: l in ls ==> !Bumps(l, k)) ==> Copied(Run(add, r, ls), k)) <==>
      (forall t :: Pending(s, t, k) ==> PcOf(s, t).next == add(ActiveOf(s, k), d))
  {
    var r := Next(add, s, Bump(u, k, d));
    assert Pending(r, u, k);
    assert forall t :: t != u ==> PcOf(r, t) == PcOf(s, t);
    if forall t :: Pending(s, t, k) ==> PcOf(s, t).next == add(ActiveOf(s, k), d) {
      forall t | Pending(r, t, k) ensures PcOf(r, t).next == r.active[k] {
        if t != u { assert Pending(s, t, k); }
      }
      forall ls | forall l :: l in ls ==> !Bumps(l, k) ensures Copied(Run(add, r, ls), k) {
        RunCopied(add, r, ls, k);
      }
    } else {
      var v :| Pending(s, v, k) && PcOf(s, v).next != add(ActiveOf(s, k), d);
      assert Pending(r, v, k) && PcOf(r, v) == PcOf(s, v);
      var ls := WritesLast(add, r, v, k);
      assert !Copied(Run(add, r, ls), k);
    }
  }
}

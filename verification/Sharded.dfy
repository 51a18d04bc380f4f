/**
 The sharded cache (sharded.go): keys are spread over an array of stores by a djb2-style hash, each
 store having an equal part of the configured bytes (groupcache_config.go).
 */
module Sharding {
  import opened Entries
  import opened Runs
  import opened Stores
  import C = Counter

  // ----- the hash

  function Word(n: nat): bv32 { (n % 0x1_0000_0000) as bv32 }

  function Mix(d: bv32, c: char): bv32 { Xor(d * 33, Word(c as int % 256)) }

  /** The start for a key whose length is `n` modulo 2^32. */
  function Start(seed: bv32, n: bv32): bv32 { 5381 + seed + n }

  function HashOf(seed: bv32, k: string): bv32 { Finish(Fold(Mix, Start(seed, Word(|k|)), k)) }

  function High(d: bv32): bv32 { d >> 16 }

  function Xor(a: bv32, b: bv32): bv32 { a ^ b }

  function Finish(d: bv32): bv32 { Xor(d, High(d)) }

  /** The byte loop computes the left fold of the key's bytes. */
  method FoldBytes<D>(f: (D, char) -> D, start: D, k: string) returns (d: D)
    ensures d == Fold(f, start, k)
  {
    d := start;
    var i := 0;
    assert k[0..] == k;
    while i < |k|
      invariant 0 <= i <= |k| && Fold(f, d, k[i..]) == Fold(f, start, k)
    {
      assert k[i..][1..] == k[i + 1..];
      d := f(d, k[i]);
      i := i + 1;
    }
  }

  /** djb33, with 32-bit wrap-around. */
  method Djb33(seed: bv32, k: string) returns (h: bv32)
    ensures h == HashOf(seed, k)
  {
    var d := FoldBytes(Mix, Start(seed, Word(|k|)), k);
    h := Finish(d);
  }

  function Bucket(seed: bv32, k: Key, m: nat): (i: nat)
    requires m > 0
    ensures i < m
  {
    HashOf(seed, k) as nat % m
  }

  // ----- the configuration

  /** The seed of every sharded cache of a group. */
  const SEED: bv32 := 0

  /** Go's integer division, which truncates toward zero. */
  function Quotient(a: int, b: int): int
    requires b > 0
  {
    if a >= 0 then a / b else -((-a) / b)
  }

  function ShardCount(shards: nat): nat { if shards == 0 then 256 else shards }

  function PerShardBytes(cacheBytes: int, m: nat): int
    requires m > 0
  {
    var q := Quotient(cacheBytes, m);
    if q <= 0 then 1 else q
  }

  /** Equal parts never add up to more than the whole, and fall short of it by less than one byte per
      shard; but every shard gets at least one byte, so 0 is not "unlimited" for a sharded cache. */
  lemma PartsFit(cacheBytes: int, m: nat)
    requires m > 0
    ensures m * PerShardBytes(cacheBytes, m) <= Max(cacheBytes, m)
    ensures cacheBytes >= m ==> m * PerShardBytes(cacheBytes, m) > cacheBytes - m
    ensures cacheBytes < m <==> m * PerShardBytes(cacheBytes, m) > cacheBytes
    ensures PerShardBytes(cacheBytes, m) >= 1
  {
    if cacheBytes >= m {
      assert cacheBytes == m * (cacheBytes / m) + cacheBytes % m;
    } else if cacheBytes >= 0 {
      assert cacheBytes / m == 0;
    }
  }

  // ----- the shards as values

  /** An operation on one key, or the sweep of every shard. */
  datatype Act = One(op: Op) | SweepAll(clocks: seq<Clock>)

  predicate Suits(a: Act, m: nat) {
    if a.One? then a.op.Get? || a.op.Add? || a.op.Remove? else |a.clocks| == m
  }

  predicate Stocked(cs: seq<Store>) { |cs| > 0 && forall i :: 0 <= i < |cs| ==> cs[i].Inv() }

  predicate Sound(cs: seq<Store>, perShard: int) {
    Stocked(cs) && forall i :: 0 <= i < |cs| ==> cs[i].MaxBytes() == perShard
  }

  function Dispatch(cs: seq<Store>, seed: bv32, a: Act): (r: (seq<Store>, Option<View>))
    requires Stocked(cs) && Suits(a, |cs|)
    ensures |r.0| == |cs|
  {
    match a
    case One(op) =>
      var i := Bucket(seed, op.key, |cs|);
      var (st, v) := Step(cs[i], op);
      (cs[i := st], v)
    case SweepAll(clocks) =>
      (seq(|cs|, i requires 0 <= i < |cs| => Step(cs[i], Sweep(clocks[i])).0), None)
  }

  lemma DispatchStocked(cs: seq<Store>, seed: bv32, a: Act)
    requires Stocked(cs) && Suits(a, |cs|)
    ensures Stocked(Dispatch(cs, seed, a).0)
  {
    var r := Dispatch(cs, seed, a).0;
    forall i | 0 <= i < |cs| ensures r[i].Inv() { ShardKept(cs, seed, a, i); }
  }

  lemma ShardKept(cs: seq<Store>, seed: bv32, a: Act, i: nat)
    requires Stocked(cs) && Suits(a, |cs|) && i < |cs|
    ensures var r := Dispatch(cs, seed, a).0; r[i].Inv() && r[i].MaxBytes() == cs[i].MaxBytes()
  {
    if a.SweepAll? {
      StepInv(cs[i], Sweep(a.clocks[i]));
    } else if i == Bucket(seed, a.op.key, |cs|) {
      StepInv(cs[i], a.op);
    }
  }

  lemma DispatchSound(cs: seq<Store>, seed: bv32, a: Act, perShard: int)
    requires Sound(cs, perShard) && Suits(a, |cs|)
    ensures Sound(Dispatch(cs, seed, a).0, perShard)
  {
    var r := Dispatch(cs, seed, a).0;
    forall i | 0 <= i < |cs| ensures r[i].Inv() && r[i].MaxBytes() == perShard { ShardKept(cs, seed, a, i); }
  }

  // ----- increments

  /** An increment: a lookup in the key's shard and, if that reads as a number, a write of the next one. */
  function Increment(u: C.Numeral, cs: seq<Store>, seed: bv32, k: Key, delta: int, ttl: int, now: int, wrote: int)
      : (r: (seq<Store>, C.Outcome))
    requires Stocked(cs)
    ensures |r.0| == |cs|
  {
    var (cs1, v) := Dispatch(cs, seed, One(Get(k, now)));
    DispatchStocked(cs, seed, One(Get(k, now)));
    WriteBack(u, cs1, seed, v, k, delta, ttl, wrote)
  }

  function WriteBack(
      u: C.Numeral, cs: seq<Store>, seed: bv32, v: Option<View>, k: Key, delta: int, ttl: int, wrote: int)
      : (r: (seq<Store>, C.Outcome))
    requires Stocked(cs)
    ensures |r.0| == |cs|
  {
    var cur := C.Current(u, v);
    if cur.None? then (cs, C.NonNumeric) else Put(u, cs, seed, k, C.Total(u, cur.value, delta), ttl, wrote)
  }

  function Put(
      u: C.Numeral, cs: seq<Store>, seed: bv32, k: Key, next: int, ttl: int, wrote: int): (r: (seq<Store>, C.Outcome))
    requires Stocked(cs)
    ensures |r.0| == |cs|
  {
    (Dispatch(cs, seed, One(C.Rewritten(u, k, next, ttl, wrote))).0, C.Counted(next))
  }

  /** An operation on a key whose shard is already `st`. */
  lemma DispatchHere(cs: seq<Store>, seed: bv32, op: Op, st: Store)
    requires Stocked(cs) && Suits(One(op), |cs|) && st.Inv()
    ensures var i := Bucket(seed, op.key, |cs|);
      Stocked(cs[i := st]) && Dispatch(cs[i := st], seed, One(op)) == (cs[i := Step(st, op).0], Step(st, op).1)
  {
    var i := Bucket(seed, op.key, |cs|);
    assert cs[i := st][i := Step(st, op).0] == cs[i := Step(st, op).0];
  }

  lemma WriteBackForm(
      u: C.Numeral, cs: seq<Store>, seed: bv32, v: Option<View>, next: int, k: Key, delta: int, ttl: int, wrote: int)
    requires Stocked(cs) && C.Current(u, v).Some? && next == C.Total(u, C.Current(u, v).value, delta)
    ensures WriteBack(u, cs, seed, v, k, delta, ttl, wrote) == Put(u, cs, seed, k, next, ttl, wrote)
  {
  }

  lemma PutHere(
      u: C.Numeral, cs: seq<Store>, seed: bv32, st: Store, cs1: seq<Store>, k: Key, next: int, ttl: int, wrote: int)
    requires Stocked(cs) && st.Inv() && Stocked(cs1) && cs1 == cs[Bucket(seed, k, |cs|) := st]
    ensures var (st1, r) := C.Put(u, st, k, next, ttl, wrote);
      Put(u, cs1, seed, k, next, ttl, wrote) == (cs[Bucket(seed, k, |cs|) := st1], r)
  {
    DispatchHere(cs, seed, C.Rewritten(u, k, next, ttl, wrote), st);
  }

  lemma WritesBackHere(
      u: C.Numeral, cs: seq<Store>, seed: bv32, st: Store, cs1: seq<Store>, v: Option<View>, k: Key,
      delta: int, ttl: int, wrote: int)
    requires Stocked(cs) && st.Inv() && Stocked(cs1) && cs1 == cs[Bucket(seed, k, |cs|) := st]
    ensures var (st1, r) := C.WriteBack(u, st, v, k, delta, ttl, wrote);
      WriteBack(u, cs1, seed, v, k, delta, ttl, wrote) == (cs[Bucket(seed, k, |cs|) := st1], r)
  {
    var cur := C.Current(u, v);
    if cur.Some? {
      var next := C.Total(u, cur.value, delta);
      WriteBackForm(u, cs1, seed, v, next, k, delta, ttl, wrote);
      C.WriteBackForm(u, st, v, next, k, delta, ttl, wrote);
      PutHere(u, cs, seed, st, cs1, k, next, ttl, wrote);
    }
  }

  /** It is the local cache's increment in the key's own shard. */
  lemma IncrementsOwnShard(u: C.Numeral, cs: seq<Store>, seed: bv32, k: Key, delta: int, ttl: int, now: int, wrote: int)
    requires Stocked(cs)
    ensures var i := Bucket(seed, k, |cs|);
      var (st, r) := C.Increment(u, cs[i], k, delta, ttl, now, wrote);
      Increment(u, cs, seed, k, delta, ttl, now, wrote) == (cs[i := st], r)
  {
    var i := Bucket(seed, k, |cs|);
    var (st, v) := Step(cs[i], Get(k, now));
    StepInv(cs[i], Get(k, now));
    DispatchStocked(cs, seed, One(Get(k, now)));
    WritesBackHere(u, cs, seed, st, cs[i := st], v, k, delta, ttl, wrote);
  }

  /** With one shard there is nothing to choose. */
  lemma LoneShard(st: Store, seed: bv32, op: Op)
    requires st.Inv() && Suits(One(op), 1)
    ensures Dispatch([st], seed, One(op)) == ([Step(st, op).0], Step(st, op).1)
  {
    assert [st][0 := Step(st, op).0] == [Step(st, op).0];
  }

  lemma LoneSweep(st: Store, seed: bv32, c: Clock)
    requires st.Inv()
    ensures Dispatch([st], seed, SweepAll([c])).0 == [Step(st, Sweep(c)).0]
  {
  }

  lemma LoneIncrement(u: C.Numeral, st: Store, seed: bv32, k: Key, delta: int, ttl: int, now: int, wrote: int)
    requires st.Inv()
    ensures var (next, r) := C.Increment(u, st, k, delta, ttl, now, wrote);
      Increment(u, [st], seed, k, delta, ttl, now, wrote) == ([next], r)
  {
    IncrementsOwnShard(u, [st], seed, k, delta, ttl, now, wrote);
    var next := C.Increment(u, st, k, delta, ttl, now, wrote).0;
    assert [st][0 := next] == [next];
  }

  // ----- runs

  datatype Call = Plain(act: Act) | Inc(key: Key, delta: int, ttl: int, now: int, wrote: int)

  predicate Fits(l: Call, m: nat) { l.Plain? ==> Suits(l.act, m) }

  function Perform(u: C.Numeral, cs: seq<Store>, seed: bv32, l: Call): (r: seq<Store>)
    requires Stocked(cs) && Fits(l, |cs|)
    ensures |r| == |cs|
  {
    match l
    case Plain(a) => Dispatch(cs, seed, a).0
    case Inc(k, d, ttl, now, wrote) => Increment(u, cs, seed, k, d, ttl, now, wrote).0
  }

  lemma PerformSound(u: C.Numeral, cs: seq<Store>, seed: bv32, l: Call, perShard: int)
    requires Sound(cs, perShard) && Fits(l, |cs|)
    ensures Sound(Perform(u, cs, seed, l), perShard)
  {
    if l.Plain? {
      DispatchSound(cs, seed, l.act, perShard);
    } else {
      var get := One(Get(l.key, l.now));
      DispatchSound(cs, seed, get, perShard);
      var r := Increment(u, cs, seed, l.key, l.delta, l.ttl, l.now, l.wrote).1;
      if r.Counted? {
        DispatchSound(Dispatch(cs, seed, get).0, seed, One(C.Rewritten(u, l.key, r.next, l.ttl, l.wrote)), perShard);
      }
    }
  }

  ghost function RunCalls(u: C.Numeral, cs: seq<Store>, seed: bv32, calls: seq<Call>, perShard: int): (r: seq<Store>)
    requires Sound(cs, perShard) && forall l :: l in calls ==> Fits(l, |cs|)
    ensures Sound(r, perShard) && |r| == |cs|
    decreases |calls|
  {
    if calls == [] then cs
    else
      PerformSound(u, cs, seed, calls[0], perShard);
      RunCalls(u, Perform(u, cs, seed, calls[0]), seed, calls[1..], perShard)
  }

  lemma RunCallsStep(u: C.Numeral, cs: seq<Store>, seed: bv32, calls: seq<Call>, i: nat, perShard: int)
    requires Sound(cs, perShard) && i < |calls| && forall l :: l in calls ==> Fits(l, |cs|)
    ensures Fits(calls[i], |cs|) && Sound(Perform(u, cs, seed, calls[i]), perShard)
    ensures RunCalls(u, cs, seed, calls[i..], perShard) ==
            RunCalls(u, Perform(u, cs, seed, calls[i]), seed, calls[i + 1..], perShard)
  {
    PerformSound(u, cs, seed, calls[i], perShard);
    assert calls[i..][1..] == calls[i + 1..];
  }

  // ----- the byte bound

  function TotalBytes(cs: seq<Store>): nat {
    if cs == [] then 0 else Bytes(cs[0].Items()) + TotalBytes(cs[1..])
  }

  lemma OneMore(n: nat, p: int)
    requires n > 0
    ensures n * p == p + (n - 1) * p
  {
  }

  lemma {:induction false} TotalBound(cs: seq<Store>, perShard: int)
    requires perShard >= 1 && forall i :: 0 <= i < |cs| ==> cs[i].Inv() && cs[i].MaxBytes() == perShard
    ensures TotalBytes(cs) <= |cs| * perShard
  {
    if cs != [] {
      assert forall i :: 0 <= i < |cs[1..]| ==> cs[1..][i] == cs[i + 1];
      TotalBound(cs[1..], perShard);
      OneMore(|cs|, perShard);
    }
  }

  /** In every reachable state the bytes of all the shards together are within the configured bytes,
      or within one byte per shard when less than that was configured. */
  lemma ShardedBound(u: C.Numeral, cs: seq<Store>, seed: bv32, calls: seq<Call>, cacheBytes: int)
    requires |cs| > 0 && Sound(cs, PerShardBytes(cacheBytes, |cs|))
    requires forall l :: l in calls ==> Fits(l, |cs|)
    ensures TotalBytes(RunCalls(u, cs, seed, calls, PerShardBytes(cacheBytes, |cs|))) <= Max(cacheBytes, |cs|)
  {
    var per := PerShardBytes(cacheBytes, |cs|);
    TotalBound(RunCalls(u, cs, seed, calls, per), per);
    PartsFit(cacheBytes, |cs|);
  }

  // ----- the partition, and agreement with one TTL map

  /** Every resident key is at home in shard `i`. */
  predicate Homed(s: seq<Entry>, seed: bv32, i: nat, m: nat)
    requires m > 0
  {
    s == [] || (Bucket(seed, s[0].key, m) == i && Homed(s[1..], seed, i, m))
  }

  lemma {:induction false} HomedKey(s: seq<Entry>, seed: bv32, i: nat, m: nat, k: Key)
    requires m > 0 && Homed(s, seed, i, m) && HasKey(s, k)
    ensures Bucket(seed, k, m) == i
  {
    if s[0].key != k { HomedKey(s[1..], seed, i, m, k); }
  }

  /** Each shard's residents are at home there and are the last writes of one common reference. */
  ghost predicate Together(cs: seq<Store>, seed: bv32, ref: Ref) {
    |cs| > 0 && forall i :: 0 <= i < |cs| ==> Homed(cs[i].Items(), seed, i, |cs|) && Agrees(cs[i].Items(), ref)
  }

  function RefAct(ref: Ref, a: Act): Ref { if a.One? then RefStep(ref, a.op) else ref }

  /** Where the keys of a store after an operation come from. */
  lemma {:induction false} HomedFrom(s: seq<Entry>, seed: bv32, i: nat, m: nat)
    requires m > 0 && forall k :: HasKey(s, k) ==> Bucket(seed, k, m) == i
    ensures Homed(s, seed, i, m)
  {
    if s != [] {
      assert HasKey(s, s[0].key);
      assert forall k :: HasKey(s[1..], k) ==> HasKey(s, k);
      HomedFrom(s[1..], seed, i, m);
    }
  }

  /** An operation adds no key but its own. */
  lemma StepKeys(st: Store, op: Op, x: Key)
    requires st.Inv() && HasKey(Step(st, op).0.Items(), x)
    ensures HasKey(st.Items(), x) || (op.Add? && op.key == x)
  {
    if !HasKey(st.Items(), x) {
      var all := Everything(st.Items());
      EverythingBacks(st.Items());
      StepAgrees(st, op, all);
      AgreesKey(Step(st, op).0.Items(), RefStep(all, op), x);
      EverythingKeys(st.Items(), x);
    }
  }

  /** The reference a list of entries is backed by when nothing else was written. */
  function Everything(s: seq<Entry>): Ref {
    if s == [] then map[] else Everything(s[1..])[s[0].key := Cell(s[0].value, s[0].expireAt)]
  }

  lemma {:induction false} EverythingBacks(s: seq<Entry>)
    requires Distinct(s)
    ensures Agrees(s, Everything(s))
  {
    if s != [] {
      EverythingBacks(s[1..]);
      AgreesFrame(s[1..], Everything(s[1..]), s[0].key, Cell(s[0].value, s[0].expireAt));
    }
  }

  lemma {:induction false} EverythingKeys(s: seq<Entry>, x: Key)
    ensures x in Everything(s) <==> HasKey(s, x)
  {
    if s != [] { EverythingKeys(s[1..], x); }
  }

  lemma StepHomed(st: Store, op: Op, seed: bv32, i: nat, m: nat)
    requires m > 0 && st.Inv() && Homed(st.Items(), seed, i, m)
    requires op.Add? ==> Bucket(seed, op.key, m) == i
    ensures Homed(Step(st, op).0.Items(), seed, i, m)
  {
    var s := Step(st, op).0.Items();
    forall k | HasKey(s, k) ensures Bucket(seed, k, m) == i {
      StepKeys(st, op, k);
      if HasKey(st.Items(), k) { HomedKey(st.Items(), seed, i, m, k); }
    }
    HomedFrom(s, seed, i, m);
  }

  /** A shard is untouched by a write to a key that lives elsewhere. */
  lemma ElsewhereAgrees(s: seq<Entry>, seed: bv32, i: nat, m: nat, ref: Ref, op: Op)
    requires m > 0 && Homed(s, seed, i, m) && Agrees(s, ref)
    requires (op.Get? || op.Add? || op.Remove?) && Bucket(seed, op.key, m) != i
    ensures Agrees(s, RefStep(ref, op))
  {
    if HasKey(s, op.key) {
      HomedKey(s, seed, i, m, op.key);
    } else {
      var cell := if op.Add? then Cell(op.value, ExpiryOf(op.ttl, op.now)) else Cell(View("", false), None);
      AgreesFrame(s, ref, op.key, cell);
    }
  }

  lemma DispatchTogether(cs: seq<Store>, seed: bv32, a: Act, ref: Ref)
    requires Stocked(cs) && Suits(a, |cs|) && Together(cs, seed, ref)
    ensures Together(Dispatch(cs, seed, a).0, seed, RefAct(ref, a))
  {
    var r := Dispatch(cs, seed, a).0;
    forall i | 0 <= i < |cs|
      ensures Homed(r[i].Items(), seed, i, |cs|) && Agrees(r[i].Items(), RefAct(ref, a))
    {
      if a.SweepAll? {
        StepAgrees(cs[i], Sweep(a.clocks[i]), ref);
        StepHomed(cs[i], Sweep(a.clocks[i]), seed, i, |cs|);
      } else if i == Bucket(seed, a.op.key, |cs|) {
        StepAgrees(cs[i], a.op, ref);
        StepHomed(cs[i], a.op, seed, i, |cs|);
      } else {
        ElsewhereAgrees(cs[i].Items(), seed, i, |cs|, ref, a.op);
      }
    }
  }

  /** The key is resident, in its own shard. */
  predicate Holds(cs: seq<Store>, seed: bv32, k: Key)
    requires |cs| > 0
  {
    HasKey(cs[Bucket(seed, k, |cs|)].Items(), k)
  }

  function EntryIn(cs: seq<Store>, seed: bv32, k: Key): (e: Entry)
    requires |cs| > 0 && Holds(cs, seed, k)
    ensures e.key == k
  {
    EntryFor(cs[Bucket(seed, k, |cs|)].Items(), k)
  }

  /** A list of stores that are ready and empty. */
  ghost predicate Unused(cs: seq<Store>) { Stocked(cs) && forall i :: 0 <= i < |cs| ==> cs[i].Items() == [] }

  /** The key is resident and its entry has not expired. */
  predicate Live(cs: seq<Store>, seed: bv32, k: Key, now: int)
    requires |cs| > 0
  {
    Holds(cs, seed, k) && !EntryIn(cs, seed, k).Expired(now)
  }

  /** A lookup's answer: the entry in the key's own shard, if it is live. */
  lemma ShardAnswer(cs: seq<Store>, seed: bv32, ref: Ref, k: Key, now: int)
    requires Stocked(cs) && Together(cs, seed, ref)
    ensures var v := Dispatch(cs, seed, One(Get(k, now))).1;
      && (v.Some? <==> Live(cs, seed, k, now))
      && (v.Some? ==> k in ref && v.value == ref[k].value && !ref[k].Expired(now))
    ensures Holds(cs, seed, k) ==> Backed(EntryIn(cs, seed, k), ref)
  {
    var st := cs[Bucket(seed, k, |cs|)];
    GetAnswer(st, k, now);
    AgreesKey(st.Items(), ref, k);
  }

  /** The record of last writes after a call: an increment writes the number it answers. */
  function RefCall(u: C.Numeral, cs: seq<Store>, seed: bv32, ref: Ref, l: Call): Ref
    requires Stocked(cs) && Fits(l, |cs|)
  {
    match l
    case Plain(a) => RefAct(ref, a)
    case Inc(k, d, ttl, now, wrote) =>
      (match Increment(u, cs, seed, k, d, ttl, now, wrote).1
       case Counted(next) => RefStep(ref, C.Rewritten(u, k, next, ttl, wrote))
       case NonNumeric => ref)
  }

  ghost function RefCalls(u: C.Numeral, cs: seq<Store>, seed: bv32, ref: Ref, calls: seq<Call>, perShard: int): Ref
    requires Sound(cs, perShard) && forall l :: l in calls ==> Fits(l, |cs|)
    decreases |calls|
  {
    if calls == [] then ref
    else
      PerformSound(u, cs, seed, calls[0], perShard);
      RefCalls(u, Perform(u, cs, seed, calls[0]), seed, RefCall(u, cs, seed, ref, calls[0]), calls[1..], perShard)
  }

  lemma PerformTogether(u: C.Numeral, cs: seq<Store>, seed: bv32, l: Call, ref: Ref)
    requires Stocked(cs) && Fits(l, |cs|) && Together(cs, seed, ref)
    ensures Together(Perform(u, cs, seed, l), seed, RefCall(u, cs, seed, ref, l))
  {
    if l.Plain? {
      DispatchTogether(cs, seed, l.act, ref);
    } else {
      var get := One(Get(l.key, l.now));
      DispatchStocked(cs, seed, get);
      DispatchTogether(cs, seed, get, ref);
      var r := Increment(u, cs, seed, l.key, l.delta, l.ttl, l.now, l.wrote).1;
      if r.Counted? {
        DispatchTogether(Dispatch(cs, seed, get).0, seed, One(C.Rewritten(u, l.key, r.next, l.ttl, l.wrote)), ref);
      }
    }
  }

  /** In every reachable state each key is resident only in its own bucket, and every resident entry
      is its key's last write. */
  lemma {:induction false} ShardedTogether(
      u: C.Numeral, cs: seq<Store>, seed: bv32, calls: seq<Call>, ref: Ref, perShard: int)
    requires Sound(cs, perShard) && Together(cs, seed, ref)
    requires forall l :: l in calls ==> Fits(l, |cs|)
    ensures Together(RunCalls(u, cs, seed, calls, perShard), seed, RefCalls(u, cs, seed, ref, calls, perShard))
    decreases |calls|
  {
    if calls != [] {
      PerformSound(u, cs, seed, calls[0], perShard);
      PerformTogether(u, cs, seed, calls[0], ref);
      var next, nextRef := Perform(u, cs, seed, calls[0]), RefCall(u, cs, seed, ref, calls[0]);
      ShardedTogether(u, next, seed, calls[1..], nextRef, perShard);
    }
  }

  /** A hit in the sharded cache returns the key's last write over all the shards, unexpired. */
  lemma ShardedHit(u: C.Numeral, cs: seq<Store>, seed: bv32, calls: seq<Call>, perShard: int, k: Key, now: int)
    requires Sound(cs, perShard) && Unused(cs)
    requires forall l :: l in calls ==> Fits(l, |cs|)
    ensures var hit := Dispatch(RunCalls(u, cs, seed, calls, perShard), seed, One(Get(k, now))).1;
      var ref := RefCalls(u, cs, seed, map[], calls, perShard);
      hit.Some? ==> k in ref && !ref[k].Expired(now) && hit.value == ref[k].value
  {
    ShardedTogether(u, cs, seed, calls, map[], perShard);
    ShardAnswer(RunCalls(u, cs, seed, calls, perShard), seed, RefCalls(u, cs, seed, map[], calls, perShard), k, now);
  }
}

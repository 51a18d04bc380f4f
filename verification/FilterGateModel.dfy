/**
 The filter gate (groupcache_filter.go): a Bloom filter that may turn misses away once a warmup has
 loaded every listed key, and is rebuilt by periodic refreshes.

 A run is any list of labels; a label whose step is not enabled does nothing. Ordinary adds, warmups and
 ticks happen at any time, and warmups may overlap each other and refreshes.
 */
module FilterGateModel {
  import opened Bloom
  import opened Entries

  /** A warmup in progress: the next key to load, whether all loads so far succeeded, and whether its
      keys have been kept for refreshes. */
  datatype Job = Job(keys: seq<string>, next: nat, ok: bool, kept: bool)
  {
    predicate Loaded() { next >= |keys| }
  }

  /** `refresh` is the key list the refresh loop has read and not yet acted on; `since` records the keys
      added since the last reset. */
  datatype Gate = Gate(bits: set<nat>, ready: bool, warmupKeys: seq<string>, refresh: Option<seq<string>>,
                       jobs: seq<Job>, since: set<string>)

  datatype Label =
    | Note(key: string)                // an ordinary add
    | Warmup(keys: seq<string>)        // a warmup starts
    | Tick                             // the refresh ticker fires: the kept keys are read
    | Rebuild                          // the refresh clears the gate and warms up the keys it read
    | Load(j: nat, ok: bool)           // job j loads its next key
    | Keep(j: nat)                     // job j has loaded all its keys and keeps them for refreshes
    | Arm(j: nat)                      // job j sets the gate ready
    | Quit(j: nat)                     // job j gives up because some load failed

  function Init(): Gate { Gate({}, false, [], None, [], {}) }

  function AddKey(f: Shape, g: Gate, key: string): Gate {
    g.(bits := f.Insert(g.bits, key), since := g.since + {key})
  }

  function Start(g: Gate, keys: seq<string>): Gate { g.(jobs := g.jobs + [Job(keys, 0, true, false)]) }

  function Clear(g: Gate): Gate
    requires g.refresh.Some?
  {
    Start(g.(ready := false, bits := {}, since := {}, refresh := None), g.refresh.value)
  }

  function Drop(g: Gate, j: nat): Gate
    requires j < |g.jobs|
  {
    g.(jobs := g.jobs[..j] + g.jobs[j + 1..])
  }

  /** The steps of job `j`. */
  function JobStep(f: Shape, g: Gate, j: nat, l: Label): Gate
    requires j < |g.jobs|
  {
    var job := g.jobs[j];
    match l
    case Load(_, ok) =>
      if job.Loaded() then g
      else if ok then AddKey(f, g, job.keys[job.next]).(jobs := g.jobs[j := job.(next := job.next + 1)])
      else g.(jobs := g.jobs[j := job.(next := job.next + 1, ok := false)])
    case Keep(_) =>
      if !job.Loaded() || !job.ok || job.kept then g
      else g.(jobs := g.jobs[j := job.(kept := true)], warmupKeys := job.keys)
    case Arm(_) => if job.kept then Drop(g, j).(ready := true) else g
    case Quit(_) => if job.Loaded() && !job.ok then Drop(g, j) else g
    case _ => g
  }

  function Next(f: Shape, g: Gate, l: Label): Gate {
    match l
    case Note(key) => AddKey(f, g, key)
    case Warmup(keys) => Start(g, keys)
    case Tick => if g.warmupKeys == [] || g.refresh.Some? then g else g.(refresh := Some(g.warmupKeys))
    case Rebuild => if g.refresh.Some? then Clear(g) else g
    case _ => if l.j < |g.jobs| then JobStep(f, g, l.j, l) else g
  }

  function Run(f: Shape, g: Gate, ls: seq<Label>): Gate
    decreases |ls|
  {
    if ls == [] then g else Run(f, Next(f, g, ls[0]), ls[1..])
  }

  lemma RunStep(f: Shape, g: Gate, l: Label, rest: seq<Label>)
    ensures Run(f, g, [l] + rest) == Run(f, Next(f, g, l), rest)
  {
    assert ([l] + rest)[1..] == rest;
  }

  predicate Rejects(f: Shape, g: Gate, key: string) { g.ready && !f.Contains(g.bits, key) }

  // ----- what a reset may not interrupt

  /** Job `job` will load again every key that it has loaded so far. */
  predicate Reloads(job: Job) {
    job.next <= |job.keys| && forall i :: 0 <= i < job.next ==> job.keys[i] in job.keys[job.next..]
  }

  /** A reset now does not spoil the job: it has failed; or it has kept keys but the keys kept last are
      none; or it has nothing to lose, as when it has loaded nothing yet. */
  predicate Spared(g: Gate, job: Job) {
    !job.ok || if job.kept then g.warmupKeys == [] else Reloads(job)
  }

  ghost predicate AllSpared(g: Gate) { forall j :: 0 <= j < |g.jobs| ==> Spared(g, g.jobs[j]) }

  /** Resets happen only when no job is spoiled. */
  ghost predicate Careful(f: Shape, g: Gate, ls: seq<Label>)
    decreases |ls|
  {
    ls == [] || ((ls[0].Rebuild? && g.refresh.Some? ==> AllSpared(g)) && Careful(f, Next(f, g, ls[0]), ls[1..]))
  }

  // ----- soundness

  /** While the gate is ready, every key of the last successful warmup was added since the last reset. */
  predicate Backed(g: Gate) { g.ready ==> forall k :: k in g.warmupKeys ==> k in g.since }

  ghost predicate JobOk(g: Gate, job: Job) {
    && job.next <= |job.keys|
    && (job.kept ==> job.ok && job.Loaded() && (forall k :: k in g.warmupKeys ==> k in g.since))
    && (job.ok && !job.kept ==>
          forall i :: 0 <= i < job.next ==> job.keys[i] in g.since || job.keys[i] in job.keys[job.next..])
  }

  ghost predicate Inv(f: Shape, g: Gate) {
    && f.m > 0
    && (forall x :: x in g.since ==> f.Contains(g.bits, x))
    && Backed(g)
    && (forall j :: 0 <= j < |g.jobs| ==> JobOk(g, g.jobs[j]))
  }

  lemma AddKeyInv(f: Shape, g: Gate, key: string)
    requires Inv(f, g)
    ensures Inv(f, AddKey(f, g, key))
  {
    var h := AddKey(f, g, key);
    forall x | x in h.since ensures f.Contains(h.bits, x) {
      if x != key { assert x in g.since; }
    }
    forall j | 0 <= j < |h.jobs| ensures JobOk(h, h.jobs[j]) { assert JobOk(g, g.jobs[j]); }
  }

  /** The key a job loads is no longer ahead of it, but is in the filter. */
  lemma LoadOk(f: Shape, g: Gate, j: nat, ok: bool)
    requires Inv(f, g) && j < |g.jobs| && !g.jobs[j].Loaded()
    ensures Inv(f, Next(f, g, Load(j, ok)))
  {
    var job := g.jobs[j];
    var key := job.keys[job.next];
    AddKeyInv(f, g, key);
    var h := Next(f, g, Load(j, ok));
    assert job.keys[job.next..] == [key] + job.keys[job.next + 1..];
    forall q | 0 <= q < |h.jobs| ensures JobOk(h, h.jobs[q]) { assert JobOk(g, g.jobs[q]); }
  }

  lemma KeepOk(f: Shape, g: Gate, j: nat)
    requires Inv(f, g) && j < |g.jobs|
    ensures Inv(f, Next(f, g, Keep(j)))
  {
    var job := g.jobs[j];
    if job.Loaded() && job.ok && !job.kept {
      assert JobOk(g, job) && job.keys[job.next..] == [];
      var h := Next(f, g, Keep(j));
      forall k | k in h.warmupKeys ensures k in h.since { assert k in job.keys; }
      forall q | 0 <= q < |h.jobs| ensures JobOk(h, h.jobs[q]) { assert JobOk(g, g.jobs[q]); }
    }
  }

  lemma DropOk(f: Shape, g: Gate, j: nat)
    requires Inv(f, g) && j < |g.jobs|
    ensures Inv(f, Drop(g, j)) && (g.jobs[j].kept ==> Inv(f, Drop(g, j).(ready := true)))
  {
    var h := Drop(g, j);
    assert JobOk(g, g.jobs[j]);
    forall q | 0 <= q < |h.jobs| ensures JobOk(h, h.jobs[q]) && JobOk(h.(ready := true), h.jobs[q]) {
      assert h.jobs[q] == g.jobs[if q < j then q else q + 1];
    }
  }

  lemma StartOk(f: Shape, g: Gate, keys: seq<string>)
    requires Inv(f, g)
    ensures Inv(f, Start(g, keys))
  {
    var h := Start(g, keys);
    forall q | 0 <= q < |h.jobs| ensures JobOk(h, h.jobs[q]) {
      if q < |g.jobs| { assert JobOk(g, g.jobs[q]); }
    }
  }

  lemma ClearOk(f: Shape, g: Gate)
    requires Inv(f, g) && g.refresh.Some? && AllSpared(g)
    ensures Inv(f, Clear(g))
  {
    var h := g.(ready := false, bits := {}, since := {}, refresh := None);
    forall q | 0 <= q < |h.jobs| ensures JobOk(h, h.jobs[q]) { assert JobOk(g, g.jobs[q]) && Spared(g, g.jobs[q]); }
    StartOk(f, h, g.refresh.value);
  }

  lemma NextInv(f: Shape, g: Gate, l: Label)
    requires Inv(f, g) && (l.Rebuild? && g.refresh.Some? ==> AllSpared(g))
    ensures Inv(f, Next(f, g, l))
  {
    match l
    case Note(key) => AddKeyInv(f, g, key);
    case Warmup(keys) => StartOk(f, g, keys);
    case Tick =>
      forall q | 0 <= q < |g.jobs| ensures JobOk(Next(f, g, Tick), g.jobs[q]) { assert JobOk(g, g.jobs[q]); }
    case Rebuild => if g.refresh.Some? { ClearOk(f, g); }
    case Load(j, ok) => if j < |g.jobs| && !g.jobs[j].Loaded() { LoadOk(f, g, j, ok); }
    case Keep(j) => if j < |g.jobs| { KeepOk(f, g, j); }
    case Arm(j) => if j < |g.jobs| { DropOk(f, g, j); }
    case Quit(j) => if j < |g.jobs| { DropOk(f, g, j); }
  }

  lemma {:induction false} RunInv(f: Shape, g: Gate, ls: seq<Label>)
    requires Inv(f, g) && Careful(f, g, ls)
    ensures Inv(f, Run(f, g, ls))
    decreases |ls|
  {
    if ls != [] {
      NextInv(f, g, ls[0]);
      RunInv(f, Next(f, g, ls[0]), ls[1..]);
    }
  }

  /** Over every careful run, with adds, warmups and ticks interleaved freely, the gate never rejects a
      key added since the last reset, nor, once it is ready, a key of the last successful warmup. */
  lemma GateSound(f: Shape, ls: seq<Label>, key: string)
    requires f.m > 0 && Careful(f, Init(), ls)
    ensures var g := Run(f, Init(), ls);
      key in g.since || key in g.warmupKeys ==> !Rejects(f, g, key)
  {
    RunInv(f, Init(), ls);
  }

  /** In particular, warmups may overlap each other and refreshes as they like, as long as no reset
      happens while a job is in progress. */
  ghost predicate NoResetDuringJobs(f: Shape, g: Gate, ls: seq<Label>)
    decreases |ls|
  {
    ls == [] || ((ls[0].Rebuild? ==> g.jobs == []) && NoResetDuringJobs(f, Next(f, g, ls[0]), ls[1..]))
  }

  lemma {:induction false} WaitingIsCareful(f: Shape, g: Gate, ls: seq<Label>)
    requires NoResetDuringJobs(f, g, ls)
    ensures Careful(f, g, ls)
    decreases |ls|
  {
    if ls != [] { WaitingIsCareful(f, Next(f, g, ls[0]), ls[1..]); }
  }

  // ----- what is admitted, and what is turned away

  lemma NextExact(f: Shape, g: Gate, l: Label)
    requires Exact(f, g.bits, g.since)
    ensures Exact(f, Next(f, g, l).bits, Next(f, g, l).since)
  {
    match l
    case Note(key) => AddExact(f, g.bits, g.since, key);
    case Load(j, ok) =>
      if j < |g.jobs| && !g.jobs[j].Loaded() { AddExact(f, g.bits, g.since, g.jobs[j].keys[g.jobs[j].next]); }
    case _ =>
  }

  lemma {:induction false} RunBits(f: Shape, g: Gate, ls: seq<Label>)
    requires Exact(f, g.bits, g.since)
    ensures Exact(f, Run(f, g, ls).bits, Run(f, g, ls).since)
    decreases |ls|
  {
    if ls != [] {
      NextExact(f, g, ls[0]);
      RunBits(f, Next(f, g, ls[0]), ls[1..]);
    }
  }

  /** After every run the gate rejects a key if and only if it is ready and some position of the key is that of
      no key added since the last reset. */
  lemma RejectsExactly(f: Shape, ls: seq<Label>, key: string)
    requires f.m > 0
    ensures var g := Run(f, Init(), ls);
      Rejects(f, g, key) <==>
      g.ready && exists b :: b in f.Indexes(key) && forall x :: x in g.since ==> b !in f.Indexes(x)
  {
    RunBits(f, Init(), ls);
    var g := Run(f, Init(), ls);
    if !f.Contains(g.bits, key) {
      var b :| b in f.Indexes(key) && b !in g.bits;
      assert forall x :: x in g.since ==> b !in f.Indexes(x);
    }
  }

  lemma {:induction false} SinceStays(f: Shape, g: Gate, ls: seq<Label>, key: string)
    requires key in g.since && forall l :: l in ls ==> !l.Rebuild?
    ensures key in Run(f, g, ls).since
    decreases |ls|
  {
    if ls != [] {
      assert !ls[0].Rebuild?;
      SinceStays(f, Next(f, g, ls[0]), ls[1..], key);
    }
  }

  /** A key that was added is admitted until the next reset, whatever warmups do. */
  lemma NotedStaysAdmitted(f: Shape, g: Gate, ls: seq<Label>, key: string)
    requires Inv(f, g) && forall l :: l in ls ==> !l.Rebuild?
    ensures var r := Run(f, Next(f, g, Note(key)), ls);
      key in r.since && !Rejects(f, r, key)
  {
    var n := Next(f, g, Note(key));
    NextInv(f, g, Note(key));
    NoResetCareful(f, n, ls);
    RunInv(f, n, ls);
    SinceStays(f, n, ls, key);
  }

  /** A warmup that loads all its keys leaves the gate ready, its keys kept for refreshes and admitted. */
  lemma WarmupArms(f: Shape, g: Gate, keys: seq<string>)
    requires Inv(f, g)
    ensures var r := Run(f, Next(f, g, Warmup(keys)), FinishJob(|g.jobs|, |keys|));
      && r.ready && r.warmupKeys == keys
      && forall k :: k in keys ==> k in r.since && !Rejects(f, r, k)
  {
    var n := Next(f, g, Warmup(keys));
    NextInv(f, g, Warmup(keys));
    Finished(f, n, |g.jobs|);
    FinishNoReset(|g.jobs|, |keys|);
    NoResetCareful(f, n, FinishJob(|g.jobs|, |keys|));
    RunInv(f, n, FinishJob(|g.jobs|, |keys|));
  }

  // ----- exactly which resets break the promise

  /** Job `j` loads its last `n` keys, keeps its list and sets the gate ready. */
  function FinishJob(j: nat, n: nat): seq<Label> {
    if n == 0 then [Keep(j)] + ([Arm(j)] + []) else [Load(j, true)] + FinishJob(j, n - 1)
  }

  lemma {:induction false} FinishNoReset(j: nat, n: nat)
    ensures forall l :: l in FinishJob(j, n) ==> !l.Rebuild?
  {
    if n > 0 { FinishNoReset(j, n - 1); }
  }

  /** What a job that finishes leaves: a ready gate to which only the keys still ahead of it were added. */
  lemma {:induction false} Finished(f: Shape, g: Gate, j: nat)
    requires j < |g.jobs| && g.jobs[j].ok && !g.jobs[j].kept && g.jobs[j].next <= |g.jobs[j].keys|
    ensures var job := g.jobs[j];
      var r := Run(f, g, FinishJob(j, |job.keys| - job.next));
      && r.ready && r.warmupKeys == job.keys
      && (forall k :: k in r.since ==> k in g.since || k in job.keys[job.next..])
    decreases |g.jobs[j].keys| - g.jobs[j].next
  {
    var job := g.jobs[j];
    var n := |job.keys| - job.next;
    if n == 0 {
      RunStep(f, g, Keep(j), [Arm(j)] + []);
      RunStep(f, Next(f, g, Keep(j)), Arm(j), []);
    } else {
      var h := Next(f, g, Load(j, true));
      RunStep(f, g, Load(j, true), FinishJob(j, n - 1));
      assert job.keys[job.next..] == [job.keys[job.next]] + job.keys[job.next + 1..];
      Finished(f, h, j);
    }
  }

  /** If a reset interrupts a job that it spoils, the job can go on to set the gate ready without some key
      of its warmup. */
  lemma SpoiledJob(f: Shape, g: Gate, j: nat) returns (ls: seq<Label>)
    requires Inv(f, g) && g.refresh.Some? && j < |g.jobs| && !Spared(g, g.jobs[j])
    ensures (forall l :: l in ls ==> !l.Rebuild?) && !Backed(Run(f, Clear(g), ls))
  {
    var job, h := g.jobs[j], Clear(g);
    assert JobOk(g, job) && h.jobs[j] == job;
    if job.kept {
      ls := [Arm(j)] + [];
      RunStep(f, h, Arm(j), []);
      assert g.warmupKeys[0] in g.warmupKeys;
    } else {
      var n := |job.keys| - job.next;
      ls := FinishJob(j, n);
      FinishNoReset(j, n);
      Finished(f, h, j);
      var i :| 0 <= i < job.next && job.keys[i] !in job.keys[job.next..];
      assert job.keys[i] in job.keys;
    }
  }

  /** The promise survives a reset, whatever follows up to the next reset, if and only if the reset spoils
      no job. */
  lemma ResetExactly(f: Shape, g: Gate)
    requires Inv(f, g) && g.refresh.Some?
    ensures AllSpared(g) <==>
            forall ls: seq<Label> :: (forall l :: l in ls ==> !l.Rebuild?) ==> Backed(Run(f, Clear(g), ls))
  {
    if AllSpared(g) {
      ClearOk(f, g);
      forall ls: seq<Label> | forall l :: l in ls ==> !l.Rebuild? ensures Backed(Run(f, Clear(g), ls)) {
        NoResetCareful(f, Clear(g), ls);
        RunInv(f, Clear(g), ls);
      }
    } else {
      var j :| 0 <= j < |g.jobs| && !Spared(g, g.jobs[j]);
      var ls := SpoiledJob(f, g, j);
    }
  }

  lemma {:induction false} NoResetCareful(f: Shape, g: Gate, ls: seq<Label>)
    requires forall l :: l in ls ==> !l.Rebuild?
    ensures Careful(f, g, ls)
    decreases |ls|
  {
    if ls != [] { NoResetCareful(f, Next(f, g, ls[0]), ls[1..]); }
  }

  /** And then the gate does turn keys away: a reset just before a warmup that has loaded everything
      declares the gate ready makes it reject every key of the last successful warmup. */
  lemma OverlapLoses(f: Shape, g: Gate, j: nat, key: string)
    requires f.m > 0 && f.k > 0 && g.refresh.Some? && j < |g.jobs| && g.jobs[j].kept && key in g.warmupKeys
    ensures var r := Next(f, Next(f, g, Rebuild), Arm(j));
      key in r.warmupKeys && Rejects(f, r, key)
  {
    assert Clear(g).jobs[j] == g.jobs[j];
    assert f.Index(key, 0) in f.Indexes(key);
  }

  /** Such a state is reached by a warmup, a tick, and a second warmup that gets as far. */
  lemma OverlapReached(f: Shape, key: string) returns (ls: seq<Label>)
    ensures var g := Run(f, Init(), ls);
      g.refresh.Some? && |g.jobs| == 1 && g.jobs[0].kept && key in g.warmupKeys
  {
    var g1 := Next(f, Init(), Warmup([key]));
    var g2 := Next(f, g1, Load(0, true));
    var g3 := Next(f, g2, Keep(0));
    assert g1.jobs == [Job([key], 0, true, false)] && g2.jobs == [Job([key], 1, true, false)];
    assert g3.jobs == [Job([key], 1, true, true)] && g3.warmupKeys == [key];
    var t := [Tick] + [];
    RunStep(f, Init(), Warmup([key]), [Load(0, true)] + ([Keep(0)] + t));
    RunStep(f, g1, Load(0, true), [Keep(0)] + t);
    RunStep(f, g2, Keep(0), t);
    RunStep(f, g3, Tick, []);
    ls := [Warmup([key])] + ([Load(0, true)] + ([Keep(0)] + t));
  }

  // ----- a refresh that fails

  /** A step other than the start of a warmup or a reset. */
  predicate Quiet(l: Label) { !l.Warmup? && !l.Rebuild? }

  /** The only job, if any, is a refresh under way, and the gate is shut down meanwhile. */
  ghost predicate Refreshing(g: Gate) {
    |g.jobs| <= 1 && (g.jobs != [] ==> !g.ready && (g.jobs[0].kept ==> g.jobs[0].Loaded()))
  }

  lemma {:induction false} RunRefreshing(f: Shape, g: Gate, ls: seq<Label>)
    requires Refreshing(g) && forall l :: l in ls ==> Quiet(l)
    ensures Refreshing(Run(f, g, ls))
    decreases |ls|
  {
    if ls != [] {
      assert Quiet(ls[0]);
      RunRefreshing(f, Next(f, g, ls[0]), ls[1..]);
    }
  }

  ghost predicate Failed(g: Gate) {
    !g.ready && |g.jobs| <= 1 && (g.jobs != [] ==> !g.jobs[0].ok && !g.jobs[0].kept)
  }

  lemma {:induction false} RunFailed(f: Shape, g: Gate, ls: seq<Label>)
    requires Failed(g) && forall l :: l in ls ==> Quiet(l)
    ensures Failed(Run(f, g, ls))
    decreases |ls|
  {
    if ls != [] {
      assert Quiet(ls[0]);
      RunFailed(f, Next(f, g, ls[0]), ls[1..]);
    }
  }

  /** A refresh rejects nothing while it loads; and if any load of it fails, nothing is rejected until
      another warmup or refresh starts, whatever is added meanwhile. */
  lemma FailedRefreshOpens(f: Shape, g: Gate, before: seq<Label>, after: seq<Label>, key: string)
    requires g.jobs == [] && g.refresh.Some?
    requires (forall l :: l in before ==> Quiet(l)) && (forall l :: l in after ==> Quiet(l))
    requires var mid := Run(f, Next(f, g, Rebuild), before); mid.jobs != [] && !mid.jobs[0].Loaded()
    ensures var mid := Run(f, Next(f, g, Rebuild), before);
      && !Rejects(f, mid, key)
      && !Rejects(f, Run(f, Next(f, mid, Load(0, false)), after), key)
  {
    RunRefreshing(f, Next(f, g, Rebuild), before);
    var mid := Run(f, Next(f, g, Rebuild), before);
    RunFailed(f, Next(f, mid, Load(0, false)), after);
  }
}

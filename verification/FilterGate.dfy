/**
 The filter gate as the program keeps it (groupcache_filter.go), called by one thread at a time: each
 method is a run of FilterGateModel. `oks` says which loads of a warmup succeed.
 */
module FilterGates {
  import B = Bloom
  import E = Entries
  import opened FilterGateModel

  /** The labels of a warmup's loads from key `i` on and of its end. */
  function Script(oks: seq<bool>, i: nat, ok: bool): seq<Label>
    requires i <= |oks|
    decreases |oks| - i
  {
    if i < |oks| then [Load(0, oks[i])] + Script(oks, i + 1, ok && oks[i])
    else if ok then [Keep(0)] + ([Arm(0)] + [])
    else [Quit(0)] + []
  }

  /** The labels of one firing of the refresh ticker. */
  function RefreshScript(keys: seq<string>, oks: seq<bool>): seq<Label> {
    [Tick] + if keys == [] then [] else [Rebuild] + Script(oks, 0, true)
  }

  /** What a warmup that is at key `i` makes of the gate. */
  function Rest(f: B.Shape, g: Gate, keys: seq<string>, oks: seq<bool>, i: nat, ok: bool): Gate
    requires i <= |oks|
  {
    Run(f, g.(jobs := [Job(keys, i, ok, false)]), Script(oks, i, ok))
  }

  class FilterGate {
    const filter: B.BloomFilter
    var ready: bool
    var warmupKeys: seq<string>
    ghost var since: set<string>

    ghost function Model(): Gate
      reads this, filter.arr
    {
      Gate(filter.Bits(), ready, warmupKeys, E.None, [], since)
    }

    constructor (filter: B.BloomFilter)
      requires filter.Bits() == {}
      ensures this.filter == filter && Model() == Init()
    {
      this.filter := filter;
      ready, warmupKeys, since := false, [], {};
    }

    method Add(key: string)
      requires filter.Sized()
      modifies this, filter.arr
      ensures Model() == Next(filter.Form(), old(Model()), Note(key))
      ensures ready == old(ready) && warmupKeys == old(warmupKeys)
    {
      filter.Add(key);
      since := since + {key};
    }

    method Rejects(key: string) returns (r: bool)
      requires filter.Sized()
      ensures r == FilterGateModel.Rejects(filter.Form(), Model(), key)
    {
      var seen := filter.Contains(key);
      return ready && !seen;
    }

    method Warmup(keys: seq<string>, oks: seq<bool>) returns (done: bool)
      requires filter.Sized() && |oks| == |keys|
      modifies this, filter.arr
      ensures Model() == Run(filter.Form(), old(Model()), [Label.Warmup(keys)] + Script(oks, 0, true))
      ensures done == forall i :: 0 <= i < |oks| ==> oks[i]
    {
      RunStep(filter.Form(), Model(), Label.Warmup(keys), Script(oks, 0, true));
      done := LoadAll(keys, oks);
    }

    /** The loop over the keys, and what follows it. */
    method LoadAll(keys: seq<string>, oks: seq<bool>) returns (ok: bool)
      requires filter.Sized() && |oks| == |keys|
      modifies this, filter.arr
      ensures Model() == Run(filter.Form(), Start(old(Model()), keys), Script(oks, 0, true))
      ensures ok == forall i :: 0 <= i < |oks| ==> oks[i]
    {
      ok := true;
      var i := 0;
      ghost var f, end := filter.Form(), Rest(filter.Form(), Model(), keys, oks, 0, true);
      assert Start(Model(), keys) == Model().(jobs := [Job(keys, 0, true, false)]);
      while i < |keys|
        invariant 0 <= i <= |keys| && ok == forall j :: 0 <= j < i ==> oks[j]
        invariant Rest(f, Model(), keys, oks, i, ok) == end
      {
        LoadOne(keys, oks, i, ok);
        ok := ok && oks[i];
        i := i + 1;
      }
      EndScript(f, Model(), keys, oks, ok);
      if ok {
        warmupKeys := keys;
        ready := true;
      }
    }

    /** One turn of the loop. */
    method LoadOne(keys: seq<string>, oks: seq<bool>, i: nat, ghost ok: bool)
      requires filter.Sized() && i < |keys| == |oks|
      modifies this, filter.arr
      ensures Rest(filter.Form(), Model(), keys, oks, i + 1, ok && oks[i]) ==
              Rest(filter.Form(), old(Model()), keys, oks, i, ok)
    {
      ghost var g := Model();
      if oks[i] { Add(keys[i]); }
      RestStep(filter.Form(), g, Model(), keys, oks, i, ok);
    }

    /** One firing of the refresh ticker. */
    method Refresh(oks: seq<bool>)
      requires filter.Sized() && |oks| == |warmupKeys|
      modifies this, filter.arr
      ensures Model() == Run(filter.Form(), old(Model()), RefreshScript(old(warmupKeys), oks))
    {
      var keys := warmupKeys;
      ghost var f, g, rest := filter.Form(), Model(), Script(oks, 0, true);
      if |keys| == 0 {
        RunStep(f, g, Tick, []);
        return;
      }
      RunStep(f, g, Tick, [Rebuild] + rest);
      RunStep(f, Next(f, g, Tick), Rebuild, rest);
      ready := false;
      filter.Reset();
      since := {};
      var _ := LoadAll(keys, oks);
    }
  }

  /** `g` becomes `h` when the next key is loaded. */
  lemma RestStep(f: B.Shape, g: Gate, h: Gate, keys: seq<string>, oks: seq<bool>, i: nat, ok: bool)
    requires i < |keys| == |oks|
    requires h.(jobs := [Job(keys, i + 1, ok && oks[i], false)]) ==
             Next(f, g.(jobs := [Job(keys, i, ok, false)]), Load(0, oks[i]))
    ensures Rest(f, h, keys, oks, i + 1, ok && oks[i]) == Rest(f, g, keys, oks, i, ok)
  {
    RunStep(f, g.(jobs := [Job(keys, i, ok, false)]), Load(0, oks[i]), Script(oks, i + 1, ok && oks[i]));
  }

  lemma EndScript(f: B.Shape, g: Gate, keys: seq<string>, oks: seq<bool>, ok: bool)
    requires g.jobs == [] && |oks| == |keys|
    ensures Rest(f, g, keys, oks, |keys|, ok) == if ok then g.(warmupKeys := keys, ready := true) else g
  {
    var h := g.(jobs := [Job(keys, |keys|, ok, false)]);
    if ok {
      RunStep(f, h, Keep(0), [Arm(0)] + []);
      RunStep(f, Next(f, h, Keep(0)), Arm(0), []);
    } else {
      RunStep(f, h, Quit(0), []);
    }
  }

  /** A warmup run to its end leaves no job, so a refresh after it interrupts none. */
  lemma {:induction false} ScriptEnds(f: B.Shape, g: Gate, keys: seq<string>, oks: seq<bool>, i: nat, ok: bool)
    requires i <= |keys| == |oks|
    ensures var h := g.(jobs := [Job(keys, i, ok, false)]);
      Careful(f, h, Script(oks, i, ok)) && Run(f, h, Script(oks, i, ok)).jobs == []
    decreases |keys| - i
  {
    var h := g.(jobs := [Job(keys, i, ok, false)]);
    if i < |keys| {
      var rest := Script(oks, i + 1, ok && oks[i]);
      var n := Next(f, h, Load(0, oks[i]));
      RunStep(f, h, Load(0, oks[i]), rest);
      assert ([Load(0, oks[i])] + rest)[1..] == rest;
      ScriptEnds(f, n, keys, oks, i + 1, ok && oks[i]);
      assert n == n.(jobs := [Job(keys, i + 1, ok && oks[i], false)]);
    } else {
      EndScript(f, g.(jobs := []), keys, oks, ok);
      assert ([Keep(0)] + ([Arm(0)] + []))[1..] == [Arm(0)] + [];
      assert h == g.(jobs := []).(jobs := [Job(keys, |keys|, ok, false)]);
    }
  }

  /** So a refresh of a gate without jobs is careful, and leaves none. */
  lemma RefreshCareful(f: B.Shape, g: Gate, oks: seq<bool>)
    requires g.jobs == [] && g.refresh.None? && |oks| == |g.warmupKeys|
    ensures Careful(f, g, RefreshScript(g.warmupKeys, oks)) && Run(f, g, RefreshScript(g.warmupKeys, oks)).jobs == []
  {
    var rest := Script(oks, 0, true);
    if g.warmupKeys == [] {
      RunStep(f, g, Tick, []);
    } else {
      var t := Next(f, g, Tick);
      RunStep(f, g, Tick, [Rebuild] + rest);
      RunStep(f, t, Rebuild, rest);
      assert ([Tick] + ([Rebuild] + rest))[1..] == [Rebuild] + rest && ([Rebuild] + rest)[1..] == rest;
      assert Clear(t) == Clear(t).(jobs := [Job(g.warmupKeys, 0, true, false)]);
      ScriptEnds(f, Clear(t), g.warmupKeys, oks, 0, true);
    }
  }
}

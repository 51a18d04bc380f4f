/**
 Loads of one key across a cluster (groupcache.go `load` and `loadFromPeer`, http.go `ServeHTTP`). Each node
 merges its loads into one call, and that call may wait for the call of the peer it was forwarded to, which
 a Get that arrives there joins or starts. A run is any list of labels; a label whose step is not enabled
 does nothing.
 */
module Forwarding {
  import opened Entries
  import opened RingModel
  import opened Routing

  /** Whether Gets bound the time they wait for a load (WithSingleflightWaitTTL) is the same on all nodes. */
  datatype Net = Net(c: Config, cl: Cluster, key: string, bounded: bool)

  datatype Phase =
    | Sent(to: string)      // the Get is on its way to the picked peer
    | Waits(on: nat)        // the Get waits there for that call
    | Loading               // the local load
    | Done(ok: bool)        // with a value or "not found", or with an error

  datatype Call = Call(node: string, phase: Phase)

  /** All calls so far, and the call that each node's loader has for the key. */
  datatype State = State(calls: seq<Call>, cur: map<string, nat>)

  datatype Label =
    | Arrive(node: string, to: Option<string>)   // a client's Get misses the cache and joins or starts a call
    | Deliver(i: nat, to: Option<string>)        // the Get of call i misses the peer's cache, and does the same
    | Hit(i: nat)                                // it finds the key there
    | Return(i: nat)                             // the awaited call is done and its answer comes back
    | GiveUp(i: nat, ok: bool)                   // the wait at the peer times out; `ok` if a cached value is served
    | Break(i: nat)                              // the request fails on the way
    | Load(i: nat, ok: bool)                     // the local load ends
    | Remove(i: nat)                             // the done call leaves the node's loader

  /** Where node `a` forwards the key to, if it does. */
  ghost predicate Route(n: Net, a: string, to: Option<string>) {
    if to.Some? then Forwards(n.c, n.cl, n.key, a, to.value) else forall b :: !Forwards(n.c, n.cl, n.key, a, b)
  }

  function Init(): State { State([], map[]) }

  /** A Get at node `a` that misses: it joins the node's call, or starts one. */
  function Join(s: State, a: string, to: Option<string>): (State, nat) {
    if a in s.cur then (s, s.cur[a])
    else
      var call := Call(a, if to.Some? then Sent(to.value) else Loading);
      (State(s.calls + [call], s.cur[a := |s.calls|]), |s.calls|)
  }

  function Moved(s: State, i: nat, p: Phase): State
    requires i < |s.calls|
  {
    s.(calls := s.calls[i := s.calls[i].(phase := p)])
  }

  /** What the peer's answer does to call `i`: an error falls back to the local load. */
  function Answered(s: State, i: nat, ok: bool): State
    requires i < |s.calls|
  {
    Moved(s, i, if ok then Done(true) else Loading)
  }

  /** The Get of call `i` arrives at `b`. */
  ghost function Delivered(n: Net, s: State, i: nat, b: string, to: Option<string>): State
    requires i < |s.calls|
  {
    if b !in n.cl then Moved(s, i, Loading)
    else if !Route(n, b, to) then s
    else
      var (t, d) := Join(s, b, to);
      if i < |t.calls| then Moved(t, i, Waits(d)) else s
  }

  /** A step of call `i`. */
  ghost function CallStep(n: Net, s: State, i: nat, l: Label): State
    requires i < |s.calls|
  {
    match (l, s.calls[i].phase)
    case (Deliver(_, to), Sent(b)) => Delivered(n, s, i, b, to)
    case (Hit(_), Sent(b)) => if b in n.cl then Moved(s, i, Done(true)) else s
    case (Return(_), Waits(d)) =>
      if d < |s.calls| && s.calls[d].phase.Done? then Answered(s, i, s.calls[d].phase.ok) else s
    case (GiveUp(_, ok), Waits(_)) => if n.bounded then Answered(s, i, ok) else s
    case (Break(_), Sent(_)) => Moved(s, i, Loading)
    case (Break(_), Waits(_)) => Moved(s, i, Loading)
    case (Load(_, ok), Loading) => Moved(s, i, Done(ok))
    case (Remove(_), Done(_)) =>
      var a := s.calls[i].node;
      if a in s.cur && s.cur[a] == i then s.(cur := s.cur - {a}) else s
    case _ => s
  }

  ghost function Next(n: Net, s: State, l: Label): State {
    if l.Arrive? then if l.node in n.cl && Route(n, l.node, l.to) then Join(s, l.node, l.to).0 else s
    else if l.i < |s.calls| then CallStep(n, s, l.i, l)
    else s
  }

  ghost function Run(n: Net, s: State, ls: seq<Label>): State
    decreases |ls|
  {
    if ls == [] then s else Run(n, Next(n, s, ls[0]), ls[1..])
  }

  lemma RunStep(n: Net, s: State, l: Label, rest: seq<Label>)
    ensures Run(n, s, [l] + rest) == Run(n, Next(n, s, l), rest)
  {
    assert ([l] + rest)[1..] == rest;
  }

  // ----- the invariant

  /** A call that is not done is its node's only one; a Get is where its node forwards the key. */
  ghost predicate CallOk(n: Net, s: State, i: nat)
    requires i < |s.calls|
  {
    var a := s.calls[i].node;
    match s.calls[i].phase
    case Sent(b) => a in s.cur && s.cur[a] == i && Forwards(n.c, n.cl, n.key, a, b)
    case Waits(d) =>
      a in s.cur && s.cur[a] == i && d < |s.calls| && Forwards(n.c, n.cl, n.key, a, s.calls[d].node)
    case Loading => a in s.cur && s.cur[a] == i
    case Done(_) => true
  }

  ghost predicate Inv(n: Net, s: State) {
    && (forall i :: 0 <= i < |s.calls| ==> CallOk(n, s, i))
    && (forall a :: a in s.cur ==> s.cur[a] < |s.calls| && s.calls[s.cur[a]].node == a)
  }

  lemma JoinInv(n: Net, s: State, a: string, to: Option<string>)
    requires Inv(n, s) && Route(n, a, to)
    ensures var (t, d) := Join(s, a, to);
      && Inv(n, t) && d < |t.calls| && t.calls[d].node == a
      && |s.calls| <= |t.calls| && t.calls[..|s.calls|] == s.calls
  {
    var t := Join(s, a, to).0;
    forall i | 0 <= i < |t.calls| ensures CallOk(n, t, i) {
      if i < |s.calls| { assert CallOk(n, s, i); }
    }
  }

  lemma MovedInv(n: Net, s: State, i: nat, p: Phase)
    requires Inv(n, s) && i < |s.calls| && CallOk(n, Moved(s, i, p), i)
    ensures Inv(n, Moved(s, i, p))
  {
    var t := Moved(s, i, p);
    forall j | 0 <= j < |t.calls| ensures CallOk(n, t, j) { assert CallOk(n, s, j); }
  }

  lemma DeliveredInv(n: Net, s: State, i: nat, b: string, to: Option<string>)
    requires Inv(n, s) && i < |s.calls| && s.calls[i].phase == Sent(b)
    ensures Inv(n, Delivered(n, s, i, b, to))
  {
    assert CallOk(n, s, i);
    if b !in n.cl {
      MovedInv(n, s, i, Loading);
    } else if Route(n, b, to) {
      var (t, d) := Join(s, b, to);
      JoinInv(n, s, b, to);
      assert t.calls[i] == s.calls[i] && CallOk(n, t, i);
      MovedInv(n, t, i, Waits(d));
    }
  }

  lemma CallStepInv(n: Net, s: State, i: nat, l: Label)
    requires Inv(n, s) && i < |s.calls|
    ensures Inv(n, CallStep(n, s, i, l))
  {
    var p, t := s.calls[i].phase, CallStep(n, s, i, l);
    assert CallOk(n, s, i);
    if l.Deliver? && p.Sent? {
      DeliveredInv(n, s, i, p.to, l.to);
    } else if l.Remove? && p.Done? {
      forall j | 0 <= j < |t.calls| ensures CallOk(n, t, j) { assert CallOk(n, s, j); }
    } else if t != s {
      MovedInv(n, s, i, t.calls[i].phase);
    }
  }

  lemma NextInv(n: Net, s: State, l: Label)
    requires Inv(n, s)
    ensures Inv(n, Next(n, s, l))
  {
    if l.Arrive? {
      if l.node in n.cl && Route(n, l.node, l.to) { JoinInv(n, s, l.node, l.to); }
    } else if l.i < |s.calls| {
      CallStepInv(n, s, l.i, l);
    }
  }

  lemma {:induction false} RunInv(n: Net, s: State, ls: seq<Label>)
    requires Inv(n, s)
    ensures Inv(n, Run(n, s, ls))
    decreases |ls|
  {
    if ls != [] {
      NextInv(n, s, ls[0]);
      RunInv(n, Next(n, s, ls[0]), ls[1..]);
    }
  }

  /** In every reachable state a node has at most one call that is not done, so no node forwards a Get that
      comes back to it: it joins the call that forwarded it. */
  lemma OneCallPerNode(n: Net, ls: seq<Label>, i: nat, j: nat)
    requires var s := Run(n, Init(), ls);
      && i < |s.calls| && j < |s.calls| && s.calls[i].node == s.calls[j].node
      && !s.calls[i].phase.Done? && !s.calls[j].phase.Done?
    ensures i == j
  {
    RunInv(n, Init(), ls);
    var s := Run(n, Init(), ls);
    assert CallOk(n, s, i) && CallOk(n, s, j);
  }

  /** What a peer's answer does: a value or "not found" is final, an error falls back to the local load. */
  lemma AnswersBack(n: Net, s: State, i: nat, d: nat)
    requires WaitsFor(s, i, d) && d < |s.calls| && s.calls[d].phase.Done?
    ensures Next(n, s, Return(i)).calls[i].phase == if s.calls[d].phase.ok then Done(true) else Loading
  {
  }

  /** A Get that arrives where there is no call starts one: for the peer that the node picks, or else a load. */
  lemma ArrivalStarts(n: Net, s: State, a: string, to: Option<string>)
    requires a in n.cl && a !in s.cur && Route(n, a, to)
    ensures var t := Next(n, s, Arrive(a, to));
      && |t.calls| == |s.calls| + 1 && t.calls[..|s.calls|] == s.calls && t.cur == s.cur[a := |s.calls|]
      && t.calls[|s.calls|] == Call(a, if exists b :: Forwards(n.c, n.cl, n.key, a, b) then Sent(to.value) else Loading)
  {
    if b :| Forwards(n.c, n.cl, n.key, a, b) { assert to.Some?; }
  }

  // ----- cycles of waits

  ghost predicate WaitsFor(s: State, i: nat, j: nat) { i < |s.calls| && s.calls[i].phase == Waits(j) }

  /** Each call of the list waits for the next one, and the last one is the first again. */
  ghost predicate Cycle(s: State, path: seq<nat>) {
    |path| > 1 && path[0] == path[|path| - 1] && forall k :: 0 <= k < |path| - 1 ==> WaitsFor(s, path[k], path[k + 1])
  }

  /** When peers are apart, nothing waits for a call that waits itself. */
  lemma NoTwoWaits(n: Net, s: State, ps: seq<string>, i: nat, j: nat)
    requires Separate(n.c, ps) && Listing(n.cl, ps) && Inv(n, s) && WaitsFor(s, i, j)
    ensures j < |s.calls| && !s.calls[j].phase.Sent? && !s.calls[j].phase.Waits?
  {
    assert CallOk(n, s, i) && CallOk(n, s, j);
    var b := s.calls[j].node;
    if s.calls[j].phase.Sent? {
      OwnerServes(n.c, ps, n.cl, n.key, s.calls[i].node, b, s.calls[j].phase.to);
    } else if s.calls[j].phase.Waits? {
      OwnerServes(n.c, ps, n.cl, n.key, s.calls[i].node, b, s.calls[s.calls[j].phase.on].node);
    }
  }

  lemma CycleWaitsTwice(s: State, path: seq<nat>)
    requires Cycle(s, path)
    ensures WaitsFor(s, path[0], path[1]) && path[1] < |s.calls| && s.calls[path[1]].phase.Waits?
  {
    var k := if |path| > 2 then 1 else 0;
    assert WaitsFor(s, path[k], path[k + 1]);
  }

  lemma NoCycle(n: Net, s: State, ps: seq<string>, path: seq<nat>)
    requires Separate(n.c, ps) && Listing(n.cl, ps) && Inv(n, s)
    ensures !Cycle(s, path)
  {
    if Cycle(s, path) {
      CycleWaitsTwice(s, path);
      NoTwoWaits(n, s, ps, path[0], path[1]);
    }
  }

  /** Two nodes that forward the key to each other can come to wait for each other: one Get is forwarded,
      comes back, and joins the call that forwarded it. */
  lemma MeetingGets(n: Net, p: string, q: string) returns (ls: seq<Label>)
    requires p != q && p in n.cl && q in n.cl
    requires Forwards(n.c, n.cl, n.key, p, q) && Forwards(n.c, n.cl, n.key, q, p)
    ensures Run(n, Init(), ls).calls == [Call(p, Waits(1)), Call(q, Waits(0))]
  {
    var s1 := State([Call(p, Sent(q))], map[p := 0]);
    var s2 := State([Call(p, Waits(1)), Call(q, Sent(p))], map[p := 0, q := 1]);
    var s3 := State([Call(p, Waits(1)), Call(q, Waits(0))], map[p := 0, q := 1]);
    assert Next(n, Init(), Arrive(p, Some(q))) == s1;
    assert Next(n, s1, Deliver(0, Some(p))) == s2;
    assert Next(n, s2, Deliver(1, Some(q))) == s3;
    RunStep(n, Init(), Arrive(p, Some(q)), [Deliver(0, Some(p))] + ([Deliver(1, Some(q))] + []));
    RunStep(n, s1, Deliver(0, Some(p)), [Deliver(1, Some(q))] + []);
    RunStep(n, s2, Deliver(1, Some(q)), []);
    ls := [Arrive(p, Some(q))] + ([Deliver(0, Some(p))] + ([Deliver(1, Some(q))] + []));
  }

  /** No cycle of waits is reachable, in any cluster that lists the peers `ps` and for any key, if and only
      if different peers share no point. */
  lemma NoCycleExactly(c: Config, ps: seq<string>, bounded: bool)
    ensures Separate(c, ps) <==>
            forall cl, key, ls, path ::
              Listing(cl, ps) ==> !Cycle(Run(Net(c, cl, key, bounded), Init(), ls), path)
  {
    if Separate(c, ps) {
      forall cl, key, ls, path | Listing(cl, ps)
        ensures !Cycle(Run(Net(c, cl, key, bounded), Init(), ls), path)
      {
        var n := Net(c, cl, key, bounded);
        RunInv(n, Init(), ls);
        NoCycle(n, Run(n, Init(), ls), ps, path);
      }
    } else {
      var cl, p, q, key := SharedReturns(c, ps);
      var ls := MeetingGets(Net(c, cl, key, bounded), p, q);
      assert Cycle(Run(Net(c, cl, key, bounded), Init(), ls), [0, 1, 0]);
    }
  }
  // ----- who can finish

  /** What may get a waiting call out by luck: the peer has the key cached, or the connection breaks. */
  predicate Lucky(l: Label) { l.Hit? || l.Break? }

  /** The call can be done after some further steps that need no luck. */
  ghost predicate CanFinish(n: Net, s: State, i: nat) {
    exists ls: seq<Label> ::
      && (forall l :: l in ls ==> !Lucky(l))
      && i < |Run(n, s, ls).calls| && Run(n, s, ls).calls[i].phase.Done?
  }

  /** While waits are not bounded, a call that waits for a call that is not done keeps waiting for it. */
  lemma WaitStays(n: Net, s: State, l: Label, i: nat, j: nat)
    requires !n.bounded && !l.Break? && WaitsFor(s, i, j) && j < |s.calls| && !s.calls[j].phase.Done?
    ensures WaitsFor(Next(n, s, l), i, j) && j < |Next(n, s, l).calls|
  {
  }

  lemma NextKeepsCycle(n: Net, s: State, l: Label, path: seq<nat>)
    requires !n.bounded && !l.Break? && Cycle(s, path)
    ensures Cycle(Next(n, s, l), path)
  {
    var t := Next(n, s, l);
    forall k | 0 <= k < |path| - 1 ensures WaitsFor(t, path[k], path[k + 1]) {
      var k1 := if k + 1 < |path| - 1 then k + 1 else 0;
      assert WaitsFor(s, path[k], path[k + 1]) && WaitsFor(s, path[k1], path[k1 + 1]);
      WaitStays(n, s, l, path[k], path[k + 1]);
    }
  }

  /** So a cycle of waits stays for ever, and no call of it is ever done, unless a connection breaks. */
  lemma {:induction false} CycleStays(n: Net, s: State, ls: seq<Label>, path: seq<nat>, k: nat)
    requires !n.bounded && Cycle(s, path) && k < |path| && forall l :: l in ls ==> !l.Break?
    ensures var t := Run(n, s, ls);
      Cycle(t, path) && path[k] < |t.calls| && !t.calls[path[k]].phase.Done?
    decreases |ls|
  {
    if ls == [] {
      assert WaitsFor(s, path[if k < |path| - 1 then k else 0], path[if k < |path| - 1 then k + 1 else 1]);
    } else {
      NextKeepsCycle(n, s, ls[0], path);
      CycleStays(n, Next(n, s, ls[0]), ls[1..], path, k);
    }
  }

  /** Until then every Get that reaches a node of the cycle joins it. */
  lemma CycleCatches(n: Net, s: State, path: seq<nat>, k: nat, to: Option<string>)
    requires Inv(n, s) && Cycle(s, path) && k < |path|
    ensures path[k] < |s.calls| && Join(s, s.calls[path[k]].node, to) == (s, path[k])
  {
    var k0 := if k < |path| - 1 then k else 0;
    assert WaitsFor(s, path[k0], path[k0 + 1]) && CallOk(n, s, path[k0]);
  }

  lemma SomeRoute(n: Net, a: string) returns (to: Option<string>)
    ensures Route(n, a, to)
  {
    if b :| Forwards(n.c, n.cl, n.key, a, b) { to := Some(b); } else { to := None; }
  }
  lemma CanFinishLater(n: Net, s: State, l: Label, i: nat)
    requires !Lucky(l) && CanFinish(n, Next(n, s, l), i)
    ensures CanFinish(n, s, i)
  {
    var t := Next(n, s, l);
    var ls: seq<Label> :|
      && (forall m :: m in ls ==> !Lucky(m))
      && i < |Run(n, t, ls).calls| && Run(n, t, ls).calls[i].phase.Done?;
    RunStep(n, s, l, ls);
    assert forall m :: m in [l] + ls ==> !Lucky(m);
  }

  /** A local load ends, and a done call is done. */
  lemma LoadFinishes(n: Net, s: State, i: nat)
    requires i < |s.calls| && (s.calls[i].phase.Loading? || s.calls[i].phase.Done?)
    ensures CanFinish(n, s, i)
  {
    var ls: seq<Label> := [];
    if s.calls[i].phase.Done? {
      assert Run(n, s, ls) == s;
    } else {
      var t := Next(n, s, Load(i, true));
      assert Run(n, t, ls) == t;
      CanFinishLater(n, s, Load(i, true), i);
    }
  }

  lemma AnswerFinishes(n: Net, s: State, i: nat, d: nat)
    requires WaitsFor(s, i, d) && d < |s.calls| && s.calls[d].phase.Done?
    ensures CanFinish(n, s, i)
  {
    LoadFinishes(n, Next(n, s, Return(i)), i);
    CanFinishLater(n, s, Return(i), i);
  }

  lemma WaitFinishes(n: Net, s: State, ps: seq<string>, i: nat, d: nat)
    requires Inv(n, s) && WaitsFor(s, i, d) && (n.bounded || (Separate(n.c, ps) && Listing(n.cl, ps)))
    ensures CanFinish(n, s, i)
  {
    if n.bounded {
      LoadFinishes(n, Next(n, s, GiveUp(i, false)), i);
      CanFinishLater(n, s, GiveUp(i, false), i);
    } else {
      NoTwoWaits(n, s, ps, i, d);
      if s.calls[d].phase.Loading? {
        AnswerFinishes(n, Next(n, s, Load(d, true)), i, d);
        CanFinishLater(n, s, Load(d, true), i);
      } else {
        AnswerFinishes(n, s, i, d);
      }
    }
  }

  lemma CallFinishes(n: Net, s: State, ps: seq<string>, i: nat)
    requires Inv(n, s) && i < |s.calls| && (n.bounded || (Separate(n.c, ps) && Listing(n.cl, ps)))
    ensures CanFinish(n, s, i)
  {
    match s.calls[i].phase
    case Sent(b) =>
      var to := SomeRoute(n, b);
      var t := Next(n, s, Deliver(i, to));
      NextInv(n, s, Deliver(i, to));
      if t.calls[i].phase.Waits? { WaitFinishes(n, t, ps, i, t.calls[i].phase.on); } else { LoadFinishes(n, t, i); }
      CanFinishLater(n, s, Deliver(i, to), i);
    case Waits(d) => WaitFinishes(n, s, ps, i, d);
    case _ => LoadFinishes(n, s, i);
  }

  /** The calls of a cycle cannot, while waits are not bounded. */
  lemma CycleNeverFinishes(n: Net, s: State, path: seq<nat>)
    requires !n.bounded && Cycle(s, path)
    ensures !CanFinish(n, s, path[0])
  {
    forall ls: seq<Label> | forall l :: l in ls ==> !Lucky(l)
      ensures path[0] < |Run(n, s, ls).calls| && !Run(n, s, ls).calls[path[0]].phase.Done?
    {
      CycleStays(n, s, ls, path, 0);
    }
  }

  /** In every cluster that lists the peers `ps`, for any key and at every reachable state, every call can
      finish without luck, if and only if waits are bounded or different peers share no point. */
  lemma FinishExactly(c: Config, ps: seq<string>, bounded: bool)
    ensures bounded || Separate(c, ps) <==>
            forall cl, key, ls, i: nat | Listing(cl, ps) ::
              var n := Net(c, cl, key, bounded);
              i < |Run(n, Init(), ls).calls| ==> CanFinish(n, Run(n, Init(), ls), i)
  {
    if bounded || Separate(c, ps) {
      forall cl, key, ls, i: nat |
        Listing(cl, ps) && i < |Run(Net(c, cl, key, bounded), Init(), ls).calls|
        ensures CanFinish(Net(c, cl, key, bounded), Run(Net(c, cl, key, bounded), Init(), ls), i)
      {
        var n := Net(c, cl, key, bounded);
        RunInv(n, Init(), ls);
        CallFinishes(n, Run(n, Init(), ls), ps, i);
      }
    } else {
      var cl, p, q, key := SharedReturns(c, ps);
      var n := Net(c, cl, key, bounded);
      var ls := MeetingGets(n, p, q);
      var path: seq<nat> := [0, 1, 0];
      CycleNeverFinishes(n, Run(n, Init(), ls), path);
    }
  }
}

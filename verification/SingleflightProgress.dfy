/** Completion of calls: what the runner can always finish, and what a panic under `Do` leaves for good. */
module SingleflightProgress {
  import opened Entries
  import opened Singleflight
  import opened SingleflightRuns

  // ----- completion is never stuck

  /** Steps left for a runner whose function has returned. */
  function Left(call: Call): nat {
    match call.phase
    case Returned(_) => 2 * |call.chs| + 4
    case Stored(_) => 2 * |call.chs| + 3
    case Signalled(_) => 2 * |call.chs| + 2
    case Sending(_, snap, i) => if i <= |snap| then 2 * (|snap| - i) + 1 else 0
    case Closing(_, snap, i) => if i < |snap| then 2 * (|snap| - i) else 0
    case _ => 0
  }

  /** The runner's next step. */
  function Move(p: Phase, c: nat): Label {
    match p
    case Returned(_) => Store(c)
    case Stored(_) => Signal(c)
    case Signalled(_) => Delete(c)
    case Sending(_, snap, i) => if i < |snap| then Send(c) else Finish(c)
    case _ => Close(c)
  }

  lemma MoveProgress(s: State, c: nat)
    requires Inv(s) && c < |s.calls| && Left(s.calls[c]) > 0
    ensures var t := Next(s, Move(s.calls[c].phase, c));
      |t.calls| == |s.calls| && Left(t.calls[c]) == Left(s.calls[c]) - 1
      && t.calls[c].phase.res == s.calls[c].phase.res && t.callers == s.callers
      && (Left(t.calls[c]) == 0 ==> t.calls[c].phase.Finished?)
  {
    SendEnabled(s, c);
  }

  /** From every reachable state, once a call's function has returned, its runner alone can complete the
      call with that result: nothing it does waits for anyone. */
  lemma {:induction false} CompletionNeverStuck(s: State, c: nat) returns (ls: seq<Label>)
    requires Inv(s) && c < |s.calls| && Left(s.calls[c]) > 0
    ensures var t := Run(s, ls);
      && c < |t.calls| && t.calls[c].phase.Finished? && t.calls[c].phase.res == s.calls[c].phase.res
      && t.callers == s.callers && Inv(t)
    decreases Left(s.calls[c])
  {
    var l := Move(s.calls[c].phase, c);
    MoveProgress(s, c);
    NextInv(s, l);
    var t := Next(s, l);
    if Left(t.calls[c]) == 0 {
      ls := [l];
      assert Run(t, ls[1..]) == t;
    } else {
      var rest := CompletionNeverStuck(t, c);
      ls := [l] + rest;
      assert ls[1..] == rest;
    }
  }

  // ----- a panic under Do

  /** Caller `i` waits for call `c`, by either way. */
  predicate WaitsFor(s: State, i: nat, c: nat) {
    i < |s.callers| && s.callers[i].call == c && (s.callers[i].Waiting? || s.callers[i].Listening?)
  }

  /** After a panic under `Do` the key stays taken for ever: in every continuation the dead call is still
      in the map, every later caller joins it, and nobody who waits for it ever returns. */
  lemma {:induction false} DeadForEver(s: State, c: nat, ls: seq<Label>)
    requires Inv(s) && c < |s.calls| && s.calls[c].phase.Abandoned?
    ensures var t := Run(s, ls);
      && c < |t.calls| && t.calls[c].phase.Abandoned?
      && Joined(t, s.calls[c].key) == c
      && (forall i :: WaitsFor(s, i, c) ==> WaitsFor(t, i, c))
    decreases |ls|
  {
    assert OkAt(s, c, "", 0, 0, 0);
    if ls != [] {
      var t := Next(s, ls[0]);
      NextInv(s, ls[0]);
      DeadCall(s, c, ls[0]);
      DeadForEver(t, c, ls[1..]);
      forall i | WaitsFor(s, i, c) ensures WaitsFor(t, i, c) { DeadWait(s, c, ls[0], i); }
    }
  }

  lemma DeadCall(s: State, c: nat, l: Label)
    requires Inv(s) && c < |s.calls| && s.calls[c].phase.Abandoned?
    ensures var t := Next(s, l);
      c < |t.calls| && t.calls[c].phase.Abandoned? && t.calls[c].key == s.calls[c].key
  {
  }

  lemma DeadWait(s: State, c: nat, l: Label, i: nat)
    requires Inv(s) && c < |s.calls| && s.calls[c].phase.Abandoned? && WaitsFor(s, i, c)
    ensures WaitsFor(Next(s, l), i, c)
  {
    var who := s.callers[i];
    assert OkAt(s, c, "", 0, if who.Listening? then who.ch else 0, i);
    NextKeeps(s, l, i, c);
  }

  /** A `Do` whose function panics leads there. */
  lemma PanicAbandons(before: seq<Label>, k: Key, msg: string)
    requires k !in Run(Init(), before).m
    ensures var s := Run(Init(), before);
      var t := Next(Next(s, Do(k)), Panic(|s.calls|, msg));
      |t.calls| == |s.calls| + 1 && t.calls[|s.calls|].phase.Abandoned? && t.m[k] == |s.calls|
  {
  }

  /** A finished call's waiters can return at once. */
  lemma FinishedReturns(s: State, i: nat, c: nat) returns (l: Label)
    requires Inv(s) && WaitsFor(s, i, c) && c < |s.calls| && s.calls[c].phase.Finished?
    ensures var t := Next(s, l); i < |t.callers| && t.callers[i].Got?
  {
    var who := s.callers[i];
    l := if who.Waiting? then Wake(i) else Receive(i);
    assert OkAt(s, c, "", 0, if who.Listening? then who.ch else 0, i);
  }

  /** In every reachable state, a caller that waits for a call can still return if and only if the call
      was not abandoned by a panic under `Do`. */
  lemma WaiterReturnsExactly(s: State, i: nat, c: nat)
    requires Inv(s) && WaitsFor(s, i, c)
    ensures c < |s.calls|
    ensures (exists ls :: i < |Run(s, ls).callers| && Run(s, ls).callers[i].Got?) <==> !s.calls[c].phase.Abandoned?
  {
    assert OkAt(s, c, "", 0, 0, i);
    if s.calls[c].phase.Abandoned? {
      forall ls ensures !(i < |Run(s, ls).callers| && Run(s, ls).callers[i].Got?) { DeadForEver(s, c, ls); }
    } else {
      var ls := ReturnPath(s, i, c);
    }
  }

  lemma {:induction false} RunAppend(s: State, a: seq<Label>, l: Label)
    ensures Run(s, a + [l]) == Next(Run(s, a), l)
    decreases |a|
  {
    if a == [] {
      assert (a + [l])[0] == l && Run(Next(s, l), (a + [l])[1..]) == Next(s, l);
    } else {
      RunAppend(Next(s, a[0]), a[1..], l);
      assert (a + [l])[1..] == a[1..] + [l];
    }
  }

  lemma ReturnPath(s: State, i: nat, c: nat) returns (ls: seq<Label>)
    requires Inv(s) && WaitsFor(s, i, c) && c < |s.calls| && !s.calls[c].phase.Abandoned?
    ensures i < |Run(s, ls).callers| && Run(s, ls).callers[i].Got?
    decreases s.calls[c].phase.Running?
  {
    if s.calls[c].phase.Running? {
      var l := Return(c, Res(None, None));
      NextInv(s, l);
      var rest := ReturnPath(Next(s, l), i, c);
      ls := [l] + rest;
      assert ls[1..] == rest;
    } else {
      var path := CompletePath(s, c);
      var l := FinishedReturns(Run(s, path), i, c);
      ls := path + [l];
      RunAppend(s, path, l);
    }
  }

  /** The runner's steps to the end, if any are left. */
  lemma CompletePath(s: State, c: nat) returns (ls: seq<Label>)
    requires Inv(s) && c < |s.calls| && !s.calls[c].phase.Abandoned? && !s.calls[c].phase.Running?
    ensures var t := Run(s, ls);
      c < |t.calls| && t.calls[c].phase.Finished? && t.callers == s.callers && Inv(t)
  {
    assert OkAt(s, c, "", 0, 0, 0);
    if s.calls[c].phase.Finished? { ls := []; } else { ls := CompletionNeverStuck(s, c); }
  }
}

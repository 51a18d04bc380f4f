/** What singleflight promises over every interleaving, and to callers that join late. */
module SingleflightRuns {
  import opened Entries
  import opened Singleflight

  lemma {:induction false} RunInv(s: State, ls: seq<Label>)
    requires Inv(s)
    ensures Inv(Run(s, ls))
    decreases |ls|
  {
    if ls != [] {
      NextInv(s, ls[0]);
      RunInv(Next(s, ls[0]), ls[1..]);
    }
  }

  lemma Reached(ls: seq<Label>)
    ensures Inv(Run(Init(), ls))
  {
    RunInv(Init(), ls);
  }

  /** At most one function runs per key; indeed at most one call per key is not yet deleted. */
  lemma OneFlight(ls: seq<Label>, c: nat, d: nat)
    requires var s := Run(Init(), ls);
      && c < |s.calls| && d < |s.calls| && s.calls[c].key == s.calls[d].key
      && s.calls[c].phase.InMap() && s.calls[d].phase.InMap()
    ensures c == d
  {
    var s := Run(Init(), ls);
    Reached(ls);
    assert OkAt(s, c, "", 0, 0, 0) && OkAt(s, d, "", 0, 0, 0);
  }

  /** The delete always removes the completing call itself, never another call of the same key. */
  lemma DeleteRemovesItself(ls: seq<Label>, c: nat)
    requires var s := Run(Init(), ls); c < |s.calls| && s.calls[c].phase.Signalled?
    ensures var s := Run(Init(), ls);
      && s.calls[c].key in s.m && s.m[s.calls[c].key] == c
      && Next(s, Delete(c)).m == s.m - {s.calls[c].key}
  {
    Reached(ls);
    assert OkAt(Run(Init(), ls), c, "", 0, 0, 0);
  }

  lemma CallerHasItsCall(s: State, i: nat)
    requires Inv(s) && i < |s.callers|
    ensures var who := s.callers[i];
      && !who.GotNothing?
      && (who.Got? ==>
            && who.call < |s.calls| && s.calls[who.call].phase.HasValue()
            && s.calls[who.call].phase.res == who.res)
      && (who.Panicked? ==> who.call < |s.calls| && s.calls[who.call].phase.Abandoned?)
  {
    assert OkAt(s, s.callers[i].call, "", 0, 0, i);
  }

  /** The phase carries a result. */
  predicate HasRes(p: Phase) { p.Returned? || p.HasValue() }

  /** A caller keeps the call it joined; a call keeps its key and, once its function has returned, its
      result. */
  predicate Kept(s: State, t: State, i: nat, c: nat) {
    && (i < |s.callers| ==> i < |t.callers| && t.callers[i].call == s.callers[i].call)
    && (c < |s.calls| ==> c < |t.calls| && t.calls[c].key == s.calls[c].key)
    && (c < |s.calls| && HasRes(s.calls[c].phase) ==>
          HasRes(t.calls[c].phase) && t.calls[c].phase.res == s.calls[c].phase.res)
  }

  lemma NextKeeps(s: State, l: Label, i: nat, c: nat)
    ensures Kept(s, Next(s, l), i, c)
  {
  }

  lemma {:induction false} RunKeeps(s: State, ls: seq<Label>, i: nat, c: nat)
    ensures Kept(s, Run(s, ls), i, c)
    decreases |ls|
  {
    if ls != [] {
      NextKeeps(s, ls[0], i, c);
      RunKeeps(Next(s, ls[0]), ls[1..], i, c);
    }
  }

  /** The call that a `Do` or `DoChan` for `k` joins: the one in the map, or a new one. */
  function Joined(s: State, k: Key): nat { if k in s.m then s.m[k] else |s.calls| }

  /** Whatever happened before and happens after, a caller that returns has the result of exactly the call
      that it joined when it came, which is a call for its key, and never finds its channel closed and
      empty. */
  lemma CallersGetTheirCall(before: seq<Label>, l: Label, after: seq<Label>)
    requires l.Do? || l.DoChan?
    ensures var s := Run(Init(), before);
      var t := Run(Next(s, l), after);
      && |s.callers| < |t.callers| && Joined(s, l.key) < |t.calls| && t.calls[Joined(s, l.key)].key == l.key
      && var (who, call) := (t.callers[|s.callers|], t.calls[Joined(s, l.key)]);
      && who.call == Joined(s, l.key)
      && !who.GotNothing?
      && (who.Got? ==> call.phase.HasValue() && who.res == call.phase.res)
      && (who.Panicked? ==> call.phase.Abandoned?)
  {
    var s := Run(Init(), before);
    Reached(before);
    assert OkAt(s, 0, l.key, 0, 0, 0);
    NextInv(s, l);
    var u := Next(s, l);
    RunInv(u, after);
    RunKeeps(u, after, |s.callers|, Joined(s, l.key));
    CallerHasItsCall(Run(u, after), |s.callers|);
  }

  /** No channel is registered after the snapshot, and no send or close can block or fail: the channel
      the runner is about to use is open, and empty when it is about to send. */
  lemma SendsNeverBlock(ls: seq<Label>, c: nat)
    requires c < |Run(Init(), ls).calls|
    ensures var s := Run(Init(), ls);
      var p := s.calls[c].phase;
      && (p.Sending? || p.Closing? || p.Finished? ==> p.snap == s.calls[c].chs)
      && (p.Sending? && p.next < |p.snap| ==>
            && p.snap[p.next] < |s.chans| && s.chans[p.snap[p.next]].buf == [] && !s.chans[p.snap[p.next]].closed
            && Next(s, Send(c)).calls[c].phase == Closing(p.res, p.snap, p.next))
      && (p.Closing? ==>
            && p.next < |p.snap| && p.snap[p.next] < |s.chans| && !s.chans[p.snap[p.next]].closed
            && Next(s, Close(c)).calls[c].phase == Sending(p.res, p.snap, p.next + 1))
  {
    Reached(ls);
    var s := Run(Init(), ls);
    SendEnabled(s, c);
  }

  lemma SendEnabled(s: State, c: nat)
    requires Inv(s) && c < |s.calls|
    ensures CallOk(s, c)
    ensures var p := s.calls[c].phase;
      (p.Sending? || p.Closing?) && p.next < |p.snap| ==>
        && p.snap[p.next] < |s.chans| && !s.chans[p.snap[p.next]].closed
        && (p.Sending? ==> s.chans[p.snap[p.next]].buf == [])
  {
    assert OkAt(s, c, "", 0, 0, 0);
    var p := s.calls[c].phase;
    if (p.Sending? || p.Closing?) && p.next < |p.snap| {
      assert OkAt(s, c, "", p.next, p.snap[p.next], 0);
    }
  }

  /** When a call is finished, every channel that ever joined it was sent its result exactly once and
      was closed; and no channel is ever sent anything else. */
  lemma ChannelsServedOnce(ls: seq<Label>, ch: nat)
    requires ch < |Run(Init(), ls).chans|
    ensures var s := Run(Init(), ls);
      var x := s.chans[ch];
      && x.call < |s.calls| && ch in s.calls[x.call].chs
      && (x.sent == [] || (s.calls[x.call].phase.HasValue() && x.sent == [s.calls[x.call].phase.res]))
      && (x.closed ==> x.sent != [])
      && (s.calls[x.call].phase.Finished? ==> x.sent == [s.calls[x.call].phase.res] && x.closed)
  {
    Reached(ls);
    var s := Run(Init(), ls);
    assert OkAt(s, s.chans[ch].call, "", 0, ch, 0);
  }

  // ----- joining late

  /** A `Do` that arrives between `wg.Done` and the delete joins the finished call and can return its
      result at once. */
  lemma LateDo(ls: seq<Label>, c: nat)
    requires var s := Run(Init(), ls); c < |s.calls| && s.calls[c].phase.Signalled?
    ensures var s := Run(Init(), ls);
      var t := Next(Next(s, Do(s.calls[c].key)), Wake(|s.callers|));
      t.calls == s.calls && t.callers == s.callers + [Got(c, s.calls[c].phase.res)]
  {
    Reached(ls);
    assert OkAt(Run(Init(), ls), c, "", 0, 0, 0);
  }

  /** A `DoChan` in the same window is part of the snapshot that the delete then takes. */
  lemma LateDoChan(ls: seq<Label>, c: nat)
    requires var s := Run(Init(), ls); c < |s.calls| && s.calls[c].phase.Signalled?
    ensures var s := Run(Init(), ls);
      var t := Next(Next(s, DoChan(s.calls[c].key)), Delete(c));
      && t.callers == s.callers + [Listening(c, |s.chans|)]
      && t.calls[c].phase == Sending(s.calls[c].phase.res, s.calls[c].chs + [|s.chans|], 0)
  {
    Reached(ls);
    assert OkAt(Run(Init(), ls), c, "", 0, 0, 0);
  }
}

/** What the function of a call returned is what the call's callers get, however they came and whenever. */
module SingleflightResults {
  import opened Entries
  import opened Singleflight
  import opened SingleflightRuns

  /** Every caller of call `c` that has returned has exactly `res`, and nothing else is ever sent on a channel of
      the call. */
  ghost predicate Delivers(t: State, c: nat, res: Res) {
    && (forall i :: 0 <= i < |t.callers| && t.callers[i].call == c ==>
          !t.callers[i].GotNothing? && !t.callers[i].Panicked? && (t.callers[i].Got? ==> t.callers[i].res == res))
    && (forall ch :: 0 <= ch < |t.chans| && t.chans[ch].call == c ==>
          t.chans[ch].sent == [] || t.chans[ch].sent == [res])
  }

  lemma HolderDelivers(t: State, c: nat, res: Res)
    requires Inv(t) && c < |t.calls| && HasRes(t.calls[c].phase) && t.calls[c].phase.res == res
    ensures Delivers(t, c, res)
  {
    forall i | 0 <= i < |t.callers| && t.callers[i].call == c
      ensures !t.callers[i].GotNothing? && !t.callers[i].Panicked?
      ensures t.callers[i].Got? ==> t.callers[i].res == res
    {
      CallerHasItsCall(t, i);
    }
    forall ch | 0 <= ch < |t.chans| && t.chans[ch].call == c
      ensures t.chans[ch].sent == [] || t.chans[ch].sent == [res]
    {
      assert OkAt(t, c, "", 0, ch, 0);
    }
  }

  /** From the step on with which call `c` holds `res`. */
  lemma HeldDelivers(s: State, l: Label, c: nat, res: Res, after: seq<Label>)
    requires Inv(s) && c < |Next(s, l).calls| && HasRes(Next(s, l).calls[c].phase)
    requires Next(s, l).calls[c].phase.res == res
    ensures Delivers(Run(Next(s, l), after), c, res)
  {
    NextInv(s, l);
    RunInv(Next(s, l), after);
    RunKeeps(Next(s, l), after, 0, c);
    HolderDelivers(Run(Next(s, l), after), c, res);
  }

  /** After any run, when the function of a running call returns, every caller of that call, early or late,
      under Do or DoChan, gets exactly what it returned, whatever follows. */
  lemma ReturnDelivers(before: seq<Label>, c: nat, res: Res, after: seq<Label>)
    requires var s := Run(Init(), before); c < |s.calls| && s.calls[c].phase.Running?
    ensures Delivers(Run(Next(Run(Init(), before), Return(c, res)), after), c, res)
  {
    Reached(before);
    HeldDelivers(Run(Init(), before), Return(c, res), c, res, after);
  }

  /** When it panics under DoChan, they get no value and an error that names the panic. */
  lemma PanicDelivers(before: seq<Label>, c: nat, msg: string, after: seq<Label>)
    requires var s := Run(Init(), before); c < |s.calls| && s.calls[c].phase.Running? && !s.calls[c].led
    ensures var t := Run(Next(Run(Init(), before), Panic(c, msg)), after);
      Delivers(t, c, Res(None, Some("singleflight panic: " + msg)))
  {
    Reached(before);
    HeldDelivers(Run(Init(), before), Panic(c, msg), c, Res(None, Some("singleflight panic: " + msg)), after);
  }

  /** A new call is running, led by the caller if that came with Do, and its key's call from then on. */
  lemma NewCallRuns(before: seq<Label>, l: Label)
    requires (l.Do? || l.DoChan?) && l.key !in Run(Init(), before).m
    ensures var s := Run(Init(), before);
      var t := Next(s, l);
      && |t.calls| == |s.calls| + 1 && t.calls[..|s.calls|] == s.calls
      && t.calls[|s.calls|].phase.Running? && t.calls[|s.calls|].key == l.key
      && (t.calls[|s.calls|].led <==> l.Do?)
      && Joined(t, l.key) == |s.calls|
  {
  }

  /** A caller that finds a call for its key starts none. */
  lemma NoSecondCall(before: seq<Label>, l: Label)
    requires (l.Do? || l.DoChan?) && l.key in Run(Init(), before).m
    ensures var s := Run(Init(), before);
      |Next(s, l).calls| == |s.calls| && Next(s, l).callers[|s.callers|].call == s.m[l.key]
  {
    Reached(before);
    assert OkAt(Run(Init(), before), 0, l.key, 0, 0, 0);
  }
}

/**
 Singleflight (internal/singleflight/singleflight.go) as a concurrent protocol.

 The mutex-guarded sections, the function calls, the stores, `wg.Done`, each channel send and each
 close are atomic steps; a run is any list of labels, and a label whose step is not enabled does
 nothing, so the runs are exactly the interleavings of any number of `Do` and `DoChan` callers. The
 window between `wg.Done` and the delete, in which late callers still join, is part of the model. A
 function under `DoChan` may panic and the panic becomes an error; a function under `Do` may panic too,
 and its call is then never completed.
 */
module Singleflight {
  import opened Entries

  /** A function's result; a recovered panic is an error with no value. */
  datatype Res = Res(val: Option<int>, err: Option<string>)

  /** Where the goroutine that runs the call is. */
  datatype Phase =
    | Running                                        // in fn
    | Returned(res: Res)                             // fn has returned
    | Stored(res: Res)                               // c.val, c.err written
    | Signalled(res: Res)                            // wg.Done
    | Sending(res: Res, snap: seq<nat>, next: nat)   // deleted from the map, channels copied
    | Closing(res: Res, snap: seq<nat>, next: nat)   // sent on snap[next], not yet closed
    | Finished(res: Res, snap: seq<nat>)
    | Abandoned                                      // fn panicked under Do
  {
    /** The call is still in the map. */
    predicate InMap() { Running? || Returned? || Stored? || Signalled? || Abandoned? }

    /** The result has been written to the call. */
    predicate HasValue() { Stored? || Signalled? || Sending? || Closing? || Finished? }

    predicate Done() { Signalled? || Sending? || Closing? || Finished? }
  }

  /** A call record; `phase` is its runner's place, the rest are its fields. */
  datatype Call = Call(key: Key, led: bool, phase: Phase, val: Option<Res>, done: bool, chs: seq<nat>)

  /** A channel with room for one result: `buf` is what is in it, `sent` all that was ever sent. It
      belongs to caller `owner` and is number `pos` of call `call`. */
  datatype Chan = Chan(call: nat, pos: nat, owner: nat, sent: seq<Res>, buf: seq<Res>, closed: bool)

  datatype Caller =
    | Leading(call: nat)
    | Waiting(call: nat)
    | Listening(call: nat, ch: nat)
    | Got(call: nat, res: Res)
    | GotNothing(call: nat)      // received from a closed, empty channel
    | Panicked(call: nat)

  datatype State = State(m: map<Key, nat>, calls: seq<Call>, chans: seq<Chan>, callers: seq<Caller>)

  datatype Label =
    | Do(key: Key)
    | DoChan(key: Key)
    | Return(c: nat, res: Res)
    | Panic(c: nat, msg: string)
    | Store(c: nat)
    | Signal(c: nat)
    | Delete(c: nat)
    | Send(c: nat)
    | Close(c: nat)
    | Finish(c: nat)
    | Wake(i: nat)
    | LeaderDone(i: nat)
    | Receive(i: nat)

  /** What safeCall makes of a panic. */
  function Recovered(msg: string): Res { Res(None, Some("singleflight panic: " + msg)) }

  function Init(): State { State(map[], [], [], []) }

  // ----- the steps

  function WithPhase(s: State, c: nat, p: Phase): State
    requires c < |s.calls|
  {
    s.(calls := s.calls[c := s.calls[c].(phase := p)])
  }

  function DoStep(s: State, k: Key): State {
    if k in s.m then s.(callers := s.callers + [Waiting(s.m[k])])
    else
      s.(m := s.m[k := |s.calls|],
         calls := s.calls + [Call(k, true, Running, None, false, [])],
         callers := s.callers + [Leading(|s.calls|)])
  }

  function DoChanStep(s: State, k: Key): State {
    var ch := |s.chans|;
    if k in s.m && s.m[k] < |s.calls| then
      var c := s.m[k];
      s.(calls := s.calls[c := s.calls[c].(chs := s.calls[c].chs + [ch])],
         chans := s.chans + [Chan(c, |s.calls[c].chs|, |s.callers|, [], [], false)],
         callers := s.callers + [Listening(c, ch)])
    else
      s.(m := s.m[k := |s.calls|],
         calls := s.calls + [Call(k, false, Running, None, false, [ch])],
         chans := s.chans + [Chan(|s.calls|, 0, |s.callers|, [], [], false)],
         callers := s.callers + [Listening(|s.calls|, ch)])
  }

  /** The steps of the goroutine that runs call `c`. */
  function RunnerStep(s: State, c: nat, l: Label): State
    requires c < |s.calls|
  {
    var call := s.calls[c];
    match l
    case Return(_, res) => if call.phase.Running? then WithPhase(s, c, Returned(res)) else s
    case Panic(_, msg) =>
      if !call.phase.Running? then s
      else if call.led then WithPhase(s, c, Abandoned)
      else WithPhase(s, c, Returned(Recovered(msg)))
    case Store(_) =>
      if !call.phase.Returned? then s
      else s.(calls := s.calls[c := call.(phase := Stored(call.phase.res), val := Some(call.phase.res))])
    case Signal(_) =>
      if !call.phase.Stored? then s
      else s.(calls := s.calls[c := call.(phase := Signalled(call.phase.res), done := true)])
    case Delete(_) =>
      if !call.phase.Signalled? then s
      else WithPhase(s.(m := s.m - {call.key}), c, Sending(call.phase.res, call.chs, 0))
    case Send(_) =>
      (match call.phase
       case Sending(res, snap, i) =>
         if i < |snap| && snap[i] < |s.chans| && s.chans[snap[i]].buf == [] && !s.chans[snap[i]].closed then
           var ch := s.chans[snap[i]];
           WithPhase(s.(chans := s.chans[snap[i] := ch.(sent := ch.sent + [res], buf := [res])]), c,
                     Closing(res, snap, i))
         else s
       case _ => s)
    case Close(_) =>
      (match call.phase
       case Closing(res, snap, i) =>
         if i < |snap| && snap[i] < |s.chans| && !s.chans[snap[i]].closed then
           WithPhase(s.(chans := s.chans[snap[i] := s.chans[snap[i]].(closed := true)]), c,
                     Sending(res, snap, i + 1))
         else s
       case _ => s)
    case Finish(_) =>
      (match call.phase
       case Sending(res, snap, i) => if i >= |snap| then WithPhase(s, c, Finished(res, snap)) else s
       case _ => s)
    case _ => s
  }

  function CallerStep(s: State, i: nat, l: Label): State
    requires i < |s.callers|
  {
    match (s.callers[i], l)
    case (Waiting(c), Wake(_)) =>
      if c < |s.calls| && s.calls[c].done && s.calls[c].val.Some?
      then s.(callers := s.callers[i := Got(c, s.calls[c].val.value)]) else s
    case (Leading(c), LeaderDone(_)) =>
      if c >= |s.calls| then s
      else if s.calls[c].phase.Abandoned? then s.(callers := s.callers[i := Panicked(c)])
      else if s.calls[c].phase.Finished? && s.calls[c].val.Some?
      then s.(callers := s.callers[i := Got(c, s.calls[c].val.value)]) else s
    case (Listening(c, ch), Receive(_)) =>
      if ch >= |s.chans| then s
      else if s.chans[ch].buf != [] then
        s.(callers := s.callers[i := Got(c, s.chans[ch].buf[0])],
           chans := s.chans[ch := s.chans[ch].(buf := s.chans[ch].buf[1..])])
      else if s.chans[ch].closed then s.(callers := s.callers[i := GotNothing(c)])
      else s
    case _ => s
  }

  function Next(s: State, l: Label): State {
    match l
    case Do(k) => DoStep(s, k)
    case DoChan(k) => DoChanStep(s, k)
    case Wake(i) => if i < |s.callers| then CallerStep(s, i, l) else s
    case LeaderDone(i) => if i < |s.callers| then CallerStep(s, i, l) else s
    case Receive(i) => if i < |s.callers| then CallerStep(s, i, l) else s
    case _ => if l.c < |s.calls| then RunnerStep(s, l.c, l) else s
  }

  function Run(s: State, ls: seq<Label>): State
    decreases |ls|
  {
    if ls == [] then s else Run(Next(s, ls[0]), ls[1..])
  }

  // ----- the invariant, object by object

  /** A call is in the map exactly until its delete; its fields follow its runner's place; after the
      delete no channel joins it. */
  ghost predicate CallOk(s: State, c: nat)
    requires c < |s.calls|
  {
    var call := s.calls[c];
    var p := call.phase;
    && (p.InMap() ==> call.key in s.m && s.m[call.key] == c)
    && (call.val.Some? <==> p.HasValue())
    && (p.HasValue() ==> call.val == Some(p.res))
    && (call.done <==> p.Done())
    && (p.Sending? || p.Closing? || p.Finished? ==> p.snap == call.chs)
    && (p.Sending? ==> p.next <= |p.snap|)
    && (p.Closing? ==> p.next < |p.snap|)
    && (p.Abandoned? ==> call.led)
  }

  ghost predicate MapOk(s: State, k: Key) {
    k in s.m ==> s.m[k] < |s.calls| && s.calls[s.m[k]].key == k && s.calls[s.m[k]].phase.InMap()
  }

  /** Registration `q` of call `c` is a channel that knows it. */
  ghost predicate RegOk(s: State, c: nat, q: nat)
    requires c < |s.calls| && q < |s.calls[c].chs|
  {
    var ch := s.calls[c].chs[q];
    ch < |s.chans| && s.chans[ch].call == c && s.chans[ch].pos == q
  }

  /** What was sent on channel number `q` of a call, and whether it is closed. */
  function SentOn(p: Phase, q: nat): seq<Res> {
    match p
    case Sending(res, _, i) => if q < i then [res] else []
    case Closing(res, _, i) => if q <= i then [res] else []
    case Finished(res, _) => [res]
    case _ => []
  }

  predicate ClosedOn(p: Phase, q: nat) {
    match p
    case Sending(_, _, i) => q < i
    case Closing(_, _, i) => q < i
    case Finished(_, _) => true
    case _ => false
  }

  /** Each channel is registered once, gets its call's result once and is then closed; the result stays
      in it until its owner takes it. */
  ghost predicate ChanOk(s: State, ch: nat)
    requires ch < |s.chans|
  {
    var x := s.chans[ch];
    && x.call < |s.calls| && x.pos < |s.calls[x.call].chs| && s.calls[x.call].chs[x.pos] == ch
    && x.sent == SentOn(s.calls[x.call].phase, x.pos)
    && x.closed == ClosedOn(s.calls[x.call].phase, x.pos)
    && x.owner < |s.callers|
    && (s.callers[x.owner] == Listening(x.call, ch) ==> x.buf == x.sent)
    && (s.callers[x.owner] != Listening(x.call, ch) ==> x.buf == [] && x.sent != [])
  }

  ghost predicate CallerOk(s: State, i: nat)
    requires i < |s.callers|
  {
    match s.callers[i]
    case Leading(c) => c < |s.calls| && s.calls[c].led
    case Waiting(c) => c < |s.calls|
    case Listening(c, ch) => c < |s.calls| && ch < |s.chans| && s.chans[ch].call == c && s.chans[ch].owner == i
    case Got(c, res) => c < |s.calls| && s.calls[c].val == Some(res)
    case GotNothing(c) => false
    case Panicked(c) => c < |s.calls| && s.calls[c].phase.Abandoned?
  }

  /** The invariant at one choice of objects. */
  ghost predicate OkAt(s: State, c: nat, k: Key, q: nat, ch: nat, i: nat) {
    && (c < |s.calls| ==> CallOk(s, c))
    && MapOk(s, k)
    && (c < |s.calls| && q < |s.calls[c].chs| ==> RegOk(s, c, q))
    && (ch < |s.chans| ==> ChanOk(s, ch))
    && (i < |s.callers| ==> CallerOk(s, i))
  }

  ghost predicate Inv(s: State) {
    forall c, k, q, ch, i :: OkAt(s, c, k, q, ch, i)
  }

  // ----- every step keeps it

  lemma DoOk(s: State, key: Key, c: nat, k: Key, q: nat, ch: nat, i: nat)
    requires Inv(s)
    ensures OkAt(DoStep(s, key), c, k, q, ch, i)
  {
    assert OkAt(s, c, k, q, ch, i) && OkAt(s, c, key, q, ch, i);
  }

  lemma DoChanJoinOk(s: State, key: Key, c: nat, k: Key, q: nat, ch: nat, i: nat)
    requires Inv(s) && key in s.m
    ensures OkAt(DoChanStep(s, key), c, k, q, ch, i)
  {
    assert OkAt(s, c, k, q, ch, i) && OkAt(s, s.m[key], key, q, ch, i);
  }

  lemma DoChanLeadOk(s: State, key: Key, c: nat, k: Key, q: nat, ch: nat, i: nat)
    requires Inv(s) && key !in s.m
    ensures OkAt(DoChanStep(s, key), c, k, q, ch, i)
  {
    assert OkAt(s, c, k, q, ch, i);
  }

  /** Function return and panic: only call `r` moves on. */
  lemma AnswerOk(s: State, l: Label, r: nat, c: nat, k: Key, q: nat, ch: nat, i: nat)
    requires Inv(s) && r < |s.calls| && (l.Return? || l.Panic?)
    ensures OkAt(RunnerStep(s, r, l), c, k, q, ch, i)
  {
    assert OkAt(s, c, k, q, ch, i) && OkAt(s, r, k, q, ch, i);
  }

  lemma StoreOk(s: State, r: nat, c: nat, k: Key, q: nat, ch: nat, i: nat)
    requires Inv(s) && r < |s.calls|
    ensures OkAt(RunnerStep(s, r, Store(r)), c, k, q, ch, i)
  {
    assert OkAt(s, c, k, q, ch, i) && OkAt(s, r, k, q, ch, i);
  }

  lemma SignalOk(s: State, r: nat, c: nat, k: Key, q: nat, ch: nat, i: nat)
    requires Inv(s) && r < |s.calls|
    ensures OkAt(RunnerStep(s, r, Signal(r)), c, k, q, ch, i)
  {
    assert OkAt(s, c, k, q, ch, i) && OkAt(s, r, k, q, ch, i);
  }

  /** The delete takes the completing call itself out of the map. */
  lemma DeleteOk(s: State, r: nat, c: nat, k: Key, q: nat, ch: nat, i: nat)
    requires Inv(s) && r < |s.calls|
    ensures OkAt(RunnerStep(s, r, Delete(r)), c, k, q, ch, i)
  {
    assert OkAt(s, c, k, q, ch, i) && OkAt(s, r, k, q, ch, i);
  }

  lemma SendOk(s: State, r: nat, c: nat, k: Key, q: nat, ch: nat, i: nat)
    requires Inv(s) && r < |s.calls|
    ensures OkAt(RunnerStep(s, r, Send(r)), c, k, q, ch, i)
  {
    assert OkAt(s, c, k, q, ch, i);
    var p := s.calls[r].phase;
    if p.Sending? && p.next < |p.snap| {
      assert OkAt(s, r, k, p.next, p.snap[p.next], i);
    }
  }

  lemma CloseOk(s: State, r: nat, c: nat, k: Key, q: nat, ch: nat, i: nat)
    requires Inv(s) && r < |s.calls|
    ensures OkAt(RunnerStep(s, r, Close(r)), c, k, q, ch, i)
  {
    assert OkAt(s, c, k, q, ch, i);
    var p := s.calls[r].phase;
    if p.Closing? && p.next < |p.snap| {
      assert OkAt(s, r, k, p.next, p.snap[p.next], i);
    }
  }

  lemma FinishOk(s: State, r: nat, c: nat, k: Key, q: nat, ch: nat, i: nat)
    requires Inv(s) && r < |s.calls|
    ensures OkAt(RunnerStep(s, r, Finish(r)), c, k, q, ch, i)
  {
    assert OkAt(s, c, k, q, ch, i) && OkAt(s, r, k, q, ch, i);
  }

  lemma WakeOk(s: State, l: Label, j: nat, c: nat, k: Key, q: nat, ch: nat, i: nat)
    requires Inv(s) && j < |s.callers| && (l.Wake? || l.LeaderDone?)
    ensures OkAt(CallerStep(s, j, l), c, k, q, ch, i)
  {
    assert OkAt(s, c, k, q, ch, i) && OkAt(s, s.callers[j].call, k, q, ch, j);
  }

  lemma ReceiveOk(s: State, j: nat, c: nat, k: Key, q: nat, ch: nat, i: nat)
    requires Inv(s) && j < |s.callers|
    ensures OkAt(CallerStep(s, j, Receive(j)), c, k, q, ch, i)
  {
    assert OkAt(s, c, k, q, ch, i);
    if s.callers[j].Listening? {
      assert OkAt(s, s.callers[j].call, k, q, s.callers[j].ch, j);
    }
  }

  lemma NextInv(s: State, l: Label)
    requires Inv(s)
    ensures Inv(Next(s, l))
  {
    forall c, k, q, ch, i ensures OkAt(Next(s, l), c, k, q, ch, i) {
      assert OkAt(s, c, k, q, ch, i);
      match l
      case Do(key) => DoOk(s, key, c, k, q, ch, i);
      case DoChan(key) =>
        if key in s.m { DoChanJoinOk(s, key, c, k, q, ch, i); } else { DoChanLeadOk(s, key, c, k, q, ch, i); }
      case Wake(j) => if j < |s.callers| { WakeOk(s, l, j, c, k, q, ch, i); }
      case LeaderDone(j) => if j < |s.callers| { WakeOk(s, l, j, c, k, q, ch, i); }
      case Receive(j) => if j < |s.callers| { ReceiveOk(s, j, c, k, q, ch, i); }
      case Store(r) => if r < |s.calls| { StoreOk(s, r, c, k, q, ch, i); }
      case Signal(r) => if r < |s.calls| { SignalOk(s, r, c, k, q, ch, i); }
      case Delete(r) => if r < |s.calls| { DeleteOk(s, r, c, k, q, ch, i); }
      case Send(r) => if r < |s.calls| { SendOk(s, r, c, k, q, ch, i); }
      case Close(r) => if r < |s.calls| { CloseOk(s, r, c, k, q, ch, i); }
      case Finish(r) => if r < |s.calls| { FinishOk(s, r, c, k, q, ch, i); }
      case _ => if l.c < |s.calls| { AnswerOk(s, l, l.c, c, k, q, ch, i); }
    }
  }
}

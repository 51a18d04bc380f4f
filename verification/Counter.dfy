/**
 Cache-only counters (cache.go, `increment`): the store holds a counter as decimal text; an increment
 reads it, adds with 64-bit wrap-around and writes it back, under the cache's mutex.

 The proofs see printing, parsing and wrapping only through the laws in `Numeral.LawAt`, which
 DecimalLaw establishes for the decimal text of 64-bit integers.
 */
module Counter {
  import opened Entries
  import opened Stores
  import opened Decimal
  import opened Runs

  datatype Numeral = Numeral(text: int -> string, parse: string -> Option<int>, wrap: int -> int)
  {
    /** Text parses back, and wrapping early or late gives the same sum. */
    predicate LawAt(n: int, d: int) {
      && text(wrap(n)) != ""
      && parse(text(wrap(n))) == Some(wrap(n))
      && wrap(wrap(n) + d) == wrap(n + d)
    }
  }

  const DECIMAL := Numeral(FormatInt, ParseNumericValue, Wrap)

  lemma DecimalLaw(n: int, d: int)
    ensures DECIMAL.LawAt(n, d)
  {
    PrintedNumber(Wrap(n));
    WrapAdd(n, d);
  }

  lemma DecimalText(n: int)
    ensures DECIMAL.text(DECIMAL.wrap(n)) == FormatInt(Wrap(n))
  {
  }

  datatype Outcome = Counted(next: int) | NonNumeric

  /** The write that an increment ends with. */
  function Rewritten(u: Numeral, k: Key, next: int, ttl: int, wrote: int): Op {
    Add(k, View(u.text(next), false), ttl, wrote)
  }

  /** What an increment starts from: absent, "not found" and empty values count as 0. */
  function Current(u: Numeral, v: Option<View>): Option<int> {
    if v.None? || v.value.notFound || v.value.bytes == "" then Some(0) else u.parse(v.value.bytes)
  }

  function Total(u: Numeral, n: int, delta: int): int { u.wrap(n + delta) }

  function Increment(u: Numeral, st: Store, k: Key, delta: int, ttl: int, now: int, wrote: int): (r: (Store, Outcome))
    requires st.Inv()
    ensures r.0.Inv() && r.0.MaxBytes() == st.MaxBytes()
  {
    StepInv(st, Get(k, now));
    var (st1, v) := Step(st, Get(k, now));
    WriteBack(u, st1, v, k, delta, ttl, wrote)
  }

  /** The second half of an increment, after the lookup answered `v`. */
  function WriteBack(
      u: Numeral, st: Store, v: Option<View>, k: Key, delta: int, ttl: int, wrote: int): (r: (Store, Outcome))
    requires st.Inv()
    ensures r.0.Inv() && r.0.MaxBytes() == st.MaxBytes()
  {
    var cur := Current(u, v);
    if cur.None? then (st, NonNumeric) else Put(u, st, k, Total(u, cur.value, delta), ttl, wrote)
  }

  function Put(u: Numeral, st: Store, k: Key, next: int, ttl: int, wrote: int): (r: (Store, Outcome))
    requires st.Inv()
    ensures r.0.Inv() && r.0.MaxBytes() == st.MaxBytes()
  {
    var op := Rewritten(u, k, next, ttl, wrote);
    StepInv(st, op);
    (Step(st, op).0, Counted(next))
  }

  lemma WriteBackForm(u: Numeral, st: Store, v: Option<View>, next: int, k: Key, delta: int, ttl: int, wrote: int)
    requires st.Inv() && Current(u, v).Some? && next == Total(u, Current(u, v).value, delta)
    ensures WriteBack(u, st, v, k, delta, ttl, wrote) == Put(u, st, k, next, ttl, wrote)
  {
  }

  /** An increment is a lookup and, if what it reads is a number, a write of the new number's text. */
  lemma IncrementForm(u: Numeral, st: Store, k: Key, delta: int, ttl: int, now: int, wrote: int)
    requires st.Inv()
    ensures var (r, o) := Increment(u, st, k, delta, ttl, now, wrote);
      && Step(st, Get(k, now)).0.Inv()
      && r == if o.NonNumeric? then Step(st, Get(k, now)).0
              else Step(Step(st, Get(k, now)).0, Rewritten(u, k, o.next, ttl, wrote)).0
  {
    StepInv(st, Get(k, now));
  }

  // ----- runs that mix increments of one key with any other traffic

  /** An increment reads the clock when it looks the key up and again when it writes. */
  datatype Event = Inc(delta: int, ttl: int, now: int, wrote: int) | Act(op: Op)

  function Delta(ev: Event): int { if ev.Inc? then ev.delta else 0 }

  function Sum(evs: seq<Event>): int
    decreases |evs|
  {
    if evs == [] then 0 else Delta(evs[0]) + Sum(evs[1..])
  }

  /** Who wrote the counter's text last: nobody, somebody else (a load, say), or an increment. */
  datatype Author = Nobody | Other | Self

  /** The store; the record of last writes; the start plus the sum asked for so far. */
  datatype World = World(st: Store, ref: Ref, n: int, author: Author)

  function Effect(u: Numeral, k: Key, st: Store, ref: Ref, ev: Event): (Store, Ref)
    requires st.Inv()
  {
    match ev
    case Act(op) => (Step(st, op).0, RefStep(ref, op))
    case Inc(d, ttl, now, wrote) =>
      match Increment(u, st, k, d, ttl, now, wrote)
      case (st', Counted(next)) => (st', RefStep(ref, Rewritten(u, k, next, ttl, wrote)))
      case (st', NonNumeric) => (st', ref)
  }

  function Next(u: Numeral, k: Key, w: World, ev: Event): World {
    var (st, ref) := if w.st.Inv() then Effect(u, k, w.st, w.ref, ev) else (w.st, w.ref);
    World(st, ref, w.n + Delta(ev), if ev.Inc? then Self else w.author)
  }

  /** Other traffic does not write or remove the counter itself, and the counter is resident and live
      whenever it is incremented (unless nobody has written it yet). */
  predicate Ready(k: Key, w: World, ev: Event) {
    match ev
    case Act(op) => (op.Add? || op.Remove?) ==> op.key != k
    case Inc(d, ttl, now, _) => w.st.Inv() && (w.author.Nobody? || Step(w.st, Get(k, now)).1.Some?)
  }

  /** The last write of `k` is a value that an increment reads as the wrapped sum (its exact text, if an
      increment wrote it); or there is none and the sum is 0. */
  ghost predicate Good(u: Numeral, k: Key, w: World) {
    && w.st.Inv()
    && Agrees(w.st.Items(), w.ref)
    && (if w.author.Nobody? then k !in w.ref && u.wrap(w.n) == 0
        else k in w.ref && Current(u, Some(w.ref[k].value)) == Some(u.wrap(w.n)))
    && (w.author.Self? ==> w.ref[k].value == View(u.text(u.wrap(w.n)), false))
  }

  /** What an increment of a good world reads. */
  lemma CurrentIs(u: Numeral, k: Key, w: World, now: int)
    requires Good(u, k, w) && (w.author.Nobody? || Step(w.st, Get(k, now)).1.Some?)
    ensures Current(u, Step(w.st, Get(k, now)).1) == Some(u.wrap(w.n))
  {
    GetAnswer(w.st, k, now);
    AgreesKey(w.st.Items(), w.ref, k);
  }

  lemma WriteBackAdds(u: Numeral, k: Key, st: Store, ref: Ref, v: Option<View>, n: int, d: int, ttl: int, wrote: int)
    requires st.Inv() && Agrees(st.Items(), ref)
    requires Current(u, v) == Some(u.wrap(n)) && u.wrap(u.wrap(n) + d) == u.wrap(n + d)
    ensures WriteBack(u, st, v, k, d, ttl, wrote).1 == Counted(u.wrap(n + d))
    ensures Agrees(WriteBack(u, st, v, k, d, ttl, wrote).0.Items(),
                   RefStep(ref, Rewritten(u, k, u.wrap(n + d), ttl, wrote)))
  {
    StepAgrees(st, Rewritten(u, k, u.wrap(n + d), ttl, wrote), ref);
  }

  /** An increment returns, and writes, the sum with its delta added. */
  lemma IncrementAdds(u: Numeral, k: Key, w: World, d: int, ttl: int, now: int, wrote: int)
    requires u.LawAt(w.n, d)
    requires Good(u, k, w) && (w.author.Nobody? || Step(w.st, Get(k, now)).1.Some?)
    ensures Increment(u, w.st, k, d, ttl, now, wrote).1 == Counted(u.wrap(w.n + d))
    ensures Agrees(Increment(u, w.st, k, d, ttl, now, wrote).0.Items(),
                   RefStep(w.ref, Rewritten(u, k, u.wrap(w.n + d), ttl, wrote)))
  {
    CurrentIs(u, k, w, now);
    StepAgrees(w.st, Get(k, now), w.ref);
    StepInv(w.st, Get(k, now));
    WriteBackAdds(u, k, Step(w.st, Get(k, now)).0, w.ref, Step(w.st, Get(k, now)).1, w.n, d, ttl, wrote);
  }

  lemma ActGood(u: Numeral, k: Key, w: World, op: Op)
    requires Good(u, k, w) && Ready(k, w, Act(op))
    ensures Good(u, k, w.(st := Step(w.st, op).0, ref := RefStep(w.ref, op)))
  {
    StepInv(w.st, op);
    StepAgrees(w.st, op, w.ref);
  }

  lemma NextGood(u: Numeral, k: Key, w: World, ev: Event)
    requires u.LawAt(w.n, Delta(ev)) && u.LawAt(w.n + Delta(ev), 0) && Good(u, k, w) && Ready(k, w, ev)
    ensures Good(u, k, Next(u, k, w, ev))
  {
    if ev.Act? {
      ActGood(u, k, w, ev.op);
      assert Next(u, k, w, ev) == w.(st := Step(w.st, ev.op).0, ref := RefStep(w.ref, ev.op));
    } else {
      IncrementAdds(u, k, w, ev.delta, ev.ttl, ev.now, ev.wrote);
    }
  }

  lemma {:induction false} FoldSums(f: (World, Event) -> World, w: World, evs: seq<Event>)
    requires forall x, e :: f(x, e).n == x.n + Delta(e) && (e.Inc? || x.author.Self? ==> f(x, e).author.Self?)
    ensures Fold(f, w, evs).n == w.n + Sum(evs)
    ensures w.author.Self? || (exists e :: e in evs && e.Inc?) ==> Fold(f, w, evs).author.Self?
    decreases |evs|
  {
    if evs != [] { FoldSums(f, f(w, evs[0]), evs[1..]); }
  }

  ghost function RunEvents(k: Key, w: World, evs: seq<Event>): World {
    Fold((x: World, e: Event) => Next(DECIMAL, k, x, e), w, evs)
  }

  ghost predicate Steady(k: Key, w: World, evs: seq<Event>) {
    AllReady((x: World, e: Event) => Next(DECIMAL, k, x, e), (x, e) => Ready(k, x, e), w, evs)
  }

  /** A counter whose last write is any value that an increment would read as `n`: decimal text with white
      space, a sign or leading zeros, an empty or "not found" value, or no value at all. */
  ghost predicate StartsAt(k: Key, w: World, n: int) {
    Good(DECIMAL, k, w) && w.n == n
  }

  lemma DecimalNextGood(k: Key, w: World, ev: Event)
    requires Good(DECIMAL, k, w) && Ready(k, w, ev)
    ensures Good(DECIMAL, k, Next(DECIMAL, k, w, ev))
  {
    DecimalLaw(w.n, Delta(ev));
    DecimalLaw(w.n + Delta(ev), 0);
    NextGood(DECIMAL, k, w, ev);
  }

  /** Whatever other traffic is mixed in, as long as the counter stays resident its last write is the
      sum so far, wrapped to 64 bits. */
  lemma SumHeld(k: Key, w: World, evs: seq<Event>)
    requires StartsAt(k, w, w.n) && Steady(k, w, evs)
    ensures Good(DECIMAL, k, RunEvents(k, w, evs))
  {
    forall x, e | Good(DECIMAL, k, x) && Ready(k, x, e) ensures Good(DECIMAL, k, Next(DECIMAL, k, x, e)) {
      DecimalNextGood(k, x, e);
    }
    FoldKeeps((x: World, e: Event) => Next(DECIMAL, k, x, e), (x, e) => Ready(k, x, e),
              x => Good(DECIMAL, k, x), w, evs);
  }

  lemma SumReached(k: Key, w: World, evs: seq<Event>)
    ensures RunEvents(k, w, evs).n == w.n + Sum(evs)
    ensures (exists e :: e in evs && e.Inc?) ==> RunEvents(k, w, evs).author.Self?
  {
    FoldSums((x: World, e: Event) => Next(DECIMAL, k, x, e), w, evs);
  }

  /** A hit of a good world is a value that reads as the wrapped sum, and its text once incremented. */
  lemma HitReads(u: Numeral, k: Key, w: World, now: int)
    requires Good(u, k, w)
    ensures var v := Step(w.st, Get(k, now)).1;
      v.Some? ==> Current(u, v) == Some(u.wrap(w.n)) && (w.author.Self? ==> v.value == View(u.text(u.wrap(w.n)), false))
  {
    GetAnswer(w.st, k, now);
    AgreesKey(w.st.Items(), w.ref, k);
  }

  /** An answer that, if it is a hit, is the decimal text of `n` wrapped to 64 bits. */
  predicate Shows(v: Option<View>, n: int) { v.Some? ==> v.value == View(FormatInt(Wrap(n)), false) }

  /** The same for decimal text. */
  lemma DecimalHit(k: Key, w: World, now: int, n: int)
    requires StartsAt(k, w, n) && w.author.Self?
    ensures w.st.Inv() && Shows(Step(w.st, Get(k, now)).1, n)
  {
    HitReads(DECIMAL, k, w, now);
    DecimalText(n);
  }

  /** Printed text with white space around it is such a start, for every 64-bit integer. */
  lemma PaddedStart(k: Key, w: World, n: int, left: string, right: string)
    requires w.st.Inv() && Agrees(w.st.Items(), w.ref) && k in w.ref && w.author.Other? && w.n == n
    requires IsInt64(n) && AllSpace(left) && AllSpace(right)
    requires w.ref[k].value == View(left + FormatInt(n) + right, false)
    ensures StartsAt(k, w, n)
  {
    StoredNumber(n, left, right);
    WrapAdd(n, 0);
    assert FormatInt(n) != "";
  }

  /** A run from `w` with increments in it, during which the counter stays resident, ends in `r`. */
  ghost predicate Counts(k: Key, w: World, evs: seq<Event>, r: World) {
    Steady(k, w, evs) && r == RunEvents(k, w, evs) && exists e :: e in evs && e.Inc?
  }

  lemma SumArrives(k: Key, w: World, evs: seq<Event>, n: int, r: World)
    requires StartsAt(k, w, n) && Counts(k, w, evs, r)
    ensures StartsAt(k, r, n + Sum(evs)) && r.author.Self?
  {
    SumHeld(k, w, evs);
    SumReached(k, w, evs);
  }

  /** Increments conserve the sum: from any start that the program reads as a number, a lookup that hits
      after any run in which the counter was incremented and stayed resident reads the decimal text of the
      start plus all the deltas, wrapped to 64 bits. */
  lemma SumConserved(k: Key, w: World, evs: seq<Event>, n: int, r: World, now: int)
    requires StartsAt(k, w, n) && Counts(k, w, evs, r)
    ensures r.st.Inv() && Shows(Step(r.st, Get(k, now)).1, n + Sum(evs))
  {
    var total := n + Sum(evs);
    assert StartsAt(k, r, total) && r.author.Self? by { SumArrives(k, w, evs, n, r); }
    DecimalHit(k, r, now, total);
  }

  // ----- order does not matter

  lemma {:induction false} SumSplit(a: seq<Event>, b: seq<Event>)
    ensures Sum(a + b) == Sum(a) + Sum(b)
  {
    if a == [] {
      assert a + b == b;
    } else {
      SumSplit(a[1..], b);
      assert (a + b)[1..] == a[1..] + b;
    }
  }

  lemma SumWithout(b: seq<Event>, i: nat)
    requires i < |b|
    ensures Sum(b) == Sum([b[i]]) + Sum(b[..i] + b[i + 1..])
  {
    SumSplit(b[..i], b[i..]);
    SumSplit([b[i]], b[i + 1..]);
    SumSplit(b[..i], b[i + 1..]);
    assert b == b[..i] + b[i..] && b[i..] == [b[i]] + b[i + 1..];
  }

  lemma BagWithout(b: seq<Event>, i: nat)
    requires i < |b|
    ensures multiset(b[..i] + b[i + 1..]) == multiset(b) - multiset{b[i]}
  {
    assert b == b[..i] + ([b[i]] + b[i + 1..]);
  }

  /** Any reordering of the same events has the same sum. */
  lemma {:induction false} SumReordered(a: seq<Event>, b: seq<Event>)
    requires multiset(a) == multiset(b)
    ensures Sum(a) == Sum(b)
    decreases |a|
  {
    if a == [] {
      assert |b| == |multiset(b)| == 0;
    } else {
      assert a[0] in multiset(b);
      var i :| 0 <= i < |b| && b[i] == a[0];
      BagWithout(b, i);
      BagWithout(a, 0);
      SumWithout(a, 0);
      SumWithout(b, i);
      SumReordered(a[..0] + a[1..], b[..i] + b[i + 1..]);
    }
  }
}

/** What an increment of a cached value answers and leaves (cache.go:91-133), said of the value's text. */
module CounterLaws {
  import opened Entries
  import opened Stores
  import opened StoreLaws
  import opened Decimal
  import opened Numerals
  import C = Counter

  /** The number that a lookup's answer counts as: 0 if there is no value, and else what its text denotes. */
  ghost predicate ReadsAs(v: Option<View>, n: int) {
    if v.None? || v.value.notFound || v.value.bytes == "" then n == 0 else IsNumeral(v.value.bytes, n)
  }

  /** `r` is the 64-bit integer that two's-complement addition gives for the sum. */
  predicate WrapsTo(sum: int, r: int) { IsInt64(r) && (sum - r) % TWO_64 == 0 }

  lemma CurrentReads(v: Option<View>, n: int)
    ensures C.Current(C.DECIMAL, v) == Some(n) <==> ReadsAs(v, n)
  {
    if v.Some? { ParsesExactly(v.value.bytes, n); }
  }

  lemma TotalWraps(n: int, delta: int)
    ensures WrapsTo(n + delta, C.Total(C.DECIMAL, n, delta))
  {
    WrapsExactly(n + delta, Wrap(n + delta));
  }

  /** An increment is refused if and only if there is a value whose text is no numeral; then the store only
      notices the lookup, and every entry is as it was. */
  lemma RefusesExactly(st: Store, k: Key, delta: int, ttl: int, now: int, wrote: int, x: Key)
    requires st.Inv()
    ensures var v := Step(st, Get(k, now)).1;
      var (st1, r) := C.Increment(C.DECIMAL, st, k, delta, ttl, now, wrote);
      && (r.NonNumeric? <==> forall n :: !ReadsAs(v, n))
      && (r.NonNumeric? ==>
            && (HasKey(st1.Items(), x) <==> HasKey(st.Items(), x))
            && (HasKey(st.Items(), x) ==> EntryFor(st1.Items(), x) == EntryFor(st.Items(), x)))
  {
    var v, u := Step(st, Get(k, now)).1, C.DECIMAL;
    StepInv(st, Get(k, now));
    GetSpares(st, k, now, x);
    GetAnswer(st, k, now);
    var cur := C.Current(u, v);
    if cur.Some? {
      CurrentReads(v, cur.value);
    } else {
      forall n ensures !ReadsAs(v, n) { CurrentReads(v, n); }
      assert v.Some? by { if v.None? { assert ReadsAs(v, 0); } }
    }
  }

  /** Otherwise it answers the sum of that number and the delta, wrapped to 64 bits, and writes the canonical
      numeral of its answer. */
  lemma CountsExactly(st: Store, k: Key, delta: int, ttl: int, now: int, wrote: int, n: int)
    requires st.Inv() && ReadsAs(Step(st, Get(k, now)).1, n)
    ensures var (st1, r) := C.Increment(C.DECIMAL, st, k, delta, ttl, now, wrote);
      && r.Counted? && WrapsTo(n + delta, r.next) && Denotes(FormatInt(r.next), r.next)
      && Step(st, Get(k, now)).0.Inv()
      && st1 == Step(Step(st, Get(k, now)).0, Add(k, View(FormatInt(r.next), false), ttl, wrote)).0
  {
    var u := C.DECIMAL;
    CurrentReads(Step(st, Get(k, now)).1, n);
    TotalWraps(n, delta);
    C.IncrementForm(u, st, k, delta, ttl, now, wrote);
    PrintsCanonical(C.Total(u, n, delta));
  }

  /** The same keys with the same entries, in whatever order. */
  ghost predicate SameEntries(s: seq<Entry>, t: seq<Entry>) {
    forall x :: (HasKey(s, x) <==> HasKey(t, x)) && (HasKey(s, x) && HasKey(t, x) ==> EntryFor(s, x) == EntryFor(t, x))
  }

  /** What an increment may answer and leave when the lookup answered `v`. */
  ghost predicate AnswerOk(v: Option<View>, delta: int, r: C.Outcome, before: seq<Entry>, after: seq<Entry>) {
    if r.Counted? then exists n :: ReadsAs(v, n) && WrapsTo(n + delta, r.next)
    else (forall n :: !ReadsAs(v, n)) && SameEntries(before, after)
  }

  lemma IncrementAnswers(st: Store, k: Key, delta: int, ttl: int, now: int, wrote: int)
    requires st.Inv()
    ensures var (st1, r) := C.Increment(C.DECIMAL, st, k, delta, ttl, now, wrote);
      AnswerOk(Step(st, Get(k, now)).1, delta, r, st.Items(), st1.Items())
  {
    var v := Step(st, Get(k, now)).1;
    var (st1, r) := C.Increment(C.DECIMAL, st, k, delta, ttl, now, wrote);
    RefusesExactly(st, k, delta, ttl, now, wrote, k);
    if r.Counted? {
      var n :| ReadsAs(v, n);
      CountsExactly(st, k, delta, ttl, now, wrote, n);
    } else {
      forall x
        ensures HasKey(st.Items(), x) <==> HasKey(st1.Items(), x)
        ensures HasKey(st.Items(), x) && HasKey(st1.Items(), x) ==> EntryFor(st.Items(), x) == EntryFor(st1.Items(), x)
      {
        RefusesExactly(st, k, delta, ttl, now, wrote, x);
      }
    }
  }

  /** A key without a value counts from 0: it is absent or expired, or its value is "not found" or empty. */
  lemma CountsFromZero(st: Store, k: Key, delta: int, ttl: int, now: int, wrote: int)
    requires st.Inv() && IsInt64(delta)
    requires var v := Step(st, Get(k, now)).1; v.None? || v.value.notFound || v.value.bytes == ""
    ensures C.Increment(C.DECIMAL, st, k, delta, ttl, now, wrote).1 == C.Counted(delta)
  {
    CountsExactly(st, k, delta, ttl, now, wrote, 0);
    var r := C.Increment(C.DECIMAL, st, k, delta, ttl, now, wrote).1;
    WrapsExactly(delta, r.next);
    WrapsExactly(delta, delta);
  }
}

/**
 Entries, byte accounting and the list vocabulary shared by the two stores
 (internal/lru/lru.go, internal/lru/slru.go).

 A recency list is a `seq<Entry>` whose first element is the most recent one.
 Text is a `string` in which each character stands for one byte.
 */
module Entries {
  type Key = string

  datatype Option<+T> = None | Some(value: T)

  /** A cached value: its bytes, and whether it is a cached "not found" answer. */
  datatype View = View(bytes: string, notFound: bool)

  datatype Entry = Entry(key: Key, value: View, expireAt: Option<int>) {
    function Cost(): nat { |key| + |value.bytes| }

    /** Expiry is strict: an entry is still served at `now == expireAt`. */
    predicate Expired(now: int) { expireAt.Some? && now > expireAt.value }
  }

  /** The clock readings of one sweep: the j-th entry visited is judged at `At(c, j)`. */
  type Clock = c: seq<int> | |c| > 0 witness [0]

  function At(c: Clock, j: nat): int { if j < |c| then c[j] else c[|c| - 1] }

  /** The operations of a store. `Sweep` carries the clock readings it makes. */
  datatype Op =
    | Get(key: Key, now: int)
    | Add(key: Key, value: View, ttl: int, now: int)
    | Remove(key: Key)
    | RemoveOldest
    | Sweep(readings: Clock)

  function ExpiryOf(ttl: int, now: int): Option<int> {
    if ttl > 0 then Some(now + ttl) else None
  }

  /** The entry has the value, and is due when the TTL has passed since `now`; never, without one. */
  predicate Written(e: Entry, value: View, ttl: int, now: int) {
    && e.value == value
    && (e.expireAt.None? <==> ttl <= 0)
    && (e.expireAt.Some? ==> e.expireAt.value - now == ttl)
  }

  function Max(a: int, b: int): int { if a < b then b else a }

  function Min(a: int, b: int): int { if a < b then a else b }

  lemma ConsAssoc(e: Entry, a: seq<Entry>, b: seq<Entry>)
    ensures [e] + (a + b) == ([e] + a) + b
  {
  }

  // ----- byte sums

  function Bytes(s: seq<Entry>): nat {
    if s == [] then 0 else s[0].Cost() + Bytes(s[1..])
  }

  lemma {:induction false} BytesAppend(a: seq<Entry>, b: seq<Entry>)
    ensures Bytes(a + b) == Bytes(a) + Bytes(b)
  {
    if a == [] {
      assert a + b == b;
    } else {
      BytesAppend(a[1..], b);
      assert (a + b)[1..] == a[1..] + b;
    }
  }

  lemma BytesSplit(s: seq<Entry>, n: nat)
    requires n <= |s|
    ensures Bytes(s) == Bytes(s[..n]) + Bytes(s[n..])
  {
    BytesAppend(s[..n], s[n..]);
    assert s[..n] + s[n..] == s;
  }

  lemma BytesPushFront(e: Entry, s: seq<Entry>)
    ensures Bytes([e] + s) == e.Cost() + Bytes(s)
  {
    assert ([e] + s)[1..] == s;
  }

  // ----- the longest prefix that fits a byte limit

  /** The length of the longest prefix of `s` of at most `limit` bytes (FitLenFits, FitLenMax). */
  function FitLen(s: seq<Entry>, limit: int): (n: nat)
    ensures n <= |s|
  {
    if s == [] then 0
    else if Bytes(s) <= limit then |s|
    else FitLen(s[..|s| - 1], limit)
  }

  lemma {:induction false} FitLenFits(s: seq<Entry>, limit: int)
    requires FitLen(s, limit) > 0 || limit >= 0
    ensures Bytes(s[..FitLen(s, limit)]) <= limit
  {
    if s != [] {
      if Bytes(s) <= limit {
        assert s[..|s|] == s;
      } else {
        FitLenFits(s[..|s| - 1], limit);
        assert s[..|s| - 1][..FitLen(s, limit)] == s[..FitLen(s, limit)];
      }
    }
  }

  lemma {:induction false} FitLenMax(s: seq<Entry>, limit: int, n: nat)
    requires n <= |s| && Bytes(s[..n]) <= limit
    ensures n <= FitLen(s, limit)
  {
    if s != [] && Bytes(s) > limit {
      assert s[..|s|] == s;
      assert s[..|s| - 1][..n] == s[..n];
      FitLenMax(s[..|s| - 1], limit, n);
    }
  }

  /** `n` is the length of the longest prefix of `s` of at most `limit` bytes. */
  predicate LongestFit(s: seq<Entry>, n: nat, limit: int) {
    n <= |s| && Bytes(s[..n]) <= limit && forall i :: n < i <= |s| ==> Bytes(s[..i]) > limit
  }

  lemma FitLenLongest(s: seq<Entry>, limit: int)
    requires limit >= 0
    ensures LongestFit(s, FitLen(s, limit), limit)
  {
    FitLenFits(s, limit);
    forall i | FitLen(s, limit) < i <= |s| ensures Bytes(s[..i]) > limit {
      if Bytes(s[..i]) <= limit { FitLenMax(s, limit, i); }
    }
  }

  // ----- keys

  predicate HasKey(s: seq<Entry>, k: Key) {
    s != [] && (s[0].key == k || HasKey(s[1..], k))
  }

  /** The entry for a present key. */
  function EntryFor(s: seq<Entry>, k: Key): (e: Entry)
    requires HasKey(s, k)
    ensures e in s && e.key == k
  {
    if s[0].key == k then s[0] else EntryFor(s[1..], k)
  }

  /** List removal of the entry for `k`. */
  function Without(s: seq<Entry>, k: Key): seq<Entry> {
    if s == [] then []
    else if s[0].key == k then s[1..]
    else [s[0]] + Without(s[1..], k)
  }

  predicate Distinct(s: seq<Entry>) {
    s == [] || (!HasKey(s[1..], s[0].key) && Distinct(s[1..]))
  }

  /** No key of `a` is a key of `b`. */
  predicate Apart(a: seq<Entry>, b: seq<Entry>) {
    a == [] || (!HasKey(b, a[0].key) && Apart(a[1..], b))
  }

  /** How many entries of `s` have key `x`. */
  function Count(s: seq<Entry>, x: Key): nat {
    if s == [] then 0 else One(s[0].key == x) + Count(s[1..], x)
  }

  function One(b: bool): nat { if b then 1 else 0 }

  lemma {:induction false} HasKeyAppend(a: seq<Entry>, b: seq<Entry>, k: Key)
    ensures HasKey(a + b, k) <==> HasKey(a, k) || HasKey(b, k)
    ensures HasKey(a, k) ==> EntryFor(a + b, k) == EntryFor(a, k)
    ensures !HasKey(a, k) && HasKey(b, k) ==> EntryFor(a + b, k) == EntryFor(b, k)
  {
    if a == [] {
      assert a + b == b;
    } else {
      HasKeyAppend(a[1..], b, k);
      assert (a + b)[1..] == a[1..] + b;
    }
  }

  lemma WithoutCons(e: Entry, s: seq<Entry>, k: Key)
    ensures Without([e] + s, k) == if e.key == k then s else [e] + Without(s, k)
  {
    assert ([e] + s)[1..] == s;
  }

  lemma {:induction false} WithoutAppend(a: seq<Entry>, b: seq<Entry>, k: Key)
    ensures Without(a + b, k) == if HasKey(a, k) then Without(a, k) + b else a + Without(b, k)
  {
    if a == [] {
      assert a + b == b && a + Without(b, k) == Without(b, k);
    } else {
      var e, t := a[0], a[1..];
      assert a + b == [e] + (t + b);
      WithoutCons(e, t + b, k);
      if e.key != k {
        WithoutAppend(t, b, k);
        assert HasKey(t, k) ==> [e] + (Without(t, k) + b) == Without(a, k) + b;
        assert !HasKey(t, k) ==> [e] + (t + Without(b, k)) == a + Without(b, k);
      }
    }
  }

  lemma {:induction false} WithoutAbsent(s: seq<Entry>, k: Key)
    requires !HasKey(s, k)
    ensures Without(s, k) == s
  {
    if s != [] { WithoutAbsent(s[1..], k); }
  }

  lemma {:induction false} WithoutPresent(s: seq<Entry>, k: Key)
    requires HasKey(s, k)
    ensures |Without(s, k)| == |s| - 1
    ensures Bytes(Without(s, k)) == Bytes(s) - EntryFor(s, k).Cost()
    ensures forall x :: Count(s, x) == Count(Without(s, k), x) + One(x == k)
  {
    if s[0].key != k {
      WithoutPresent(s[1..], k);
      BytesPushFront(s[0], Without(s[1..], k));
      assert Without(s, k)[1..] == Without(s[1..], k);
    }
  }

  lemma {:induction false} WithoutOther(s: seq<Entry>, k: Key, x: Key)
    requires x != k
    ensures HasKey(Without(s, k), x) <==> HasKey(s, x)
    ensures HasKey(s, x) ==> EntryFor(Without(s, k), x) == EntryFor(s, x)
  {
    if s != [] && s[0].key != k {
      WithoutOther(s[1..], k, x);
      assert Without(s, k)[1..] == Without(s[1..], k);
    }
  }

  lemma {:induction false} WithoutDistinct(s: seq<Entry>, k: Key)
    requires Distinct(s)
    ensures Distinct(Without(s, k)) && !HasKey(Without(s, k), k)
  {
    if s != [] && s[0].key != k {
      WithoutDistinct(s[1..], k);
      WithoutOther(s[1..], k, s[0].key);
      assert Without(s, k)[1..] == Without(s[1..], k);
    }
  }

  /** Where the entry stands, removal is cutting it out. */
  lemma WithoutMiddle(a: seq<Entry>, e: Entry, b: seq<Entry>)
    requires !HasKey(a, e.key)
    ensures Without(a + [e] + b, e.key) == a + b
    ensures HasKey(a + [e] + b, e.key) && EntryFor(a + [e] + b, e.key) == e
  {
    assert a + [e] + b == a + ([e] + b);
    WithoutAppend(a, [e] + b, e.key);
    HasKeyAppend(a, [e] + b, e.key);
    assert ([e] + b)[1..] == b;
  }

  lemma MiddleFound(a: seq<Entry>, e: Entry, b: seq<Entry>, n: nat)
    requires n <= |a| + 1 + |b| && !HasKey(a, e.key)
    ensures HasKey((a + [e] + b)[..n], e.key) ==> EntryFor((a + [e] + b)[..n], e.key) == e
  {
    if n > |a| {
      assert (a + [e] + b)[..n] == a + [e] + b[..n - |a| - 1];
      WithoutMiddle(a, e, b[..n - |a| - 1]);
    } else {
      assert (a + [e] + b)[..n] == a[..n] && a == a[..n] + a[n..];
      HasKeyAppend(a[..n], a[n..], e.key);
    }
  }

  lemma {:induction false} DistinctAppend(a: seq<Entry>, b: seq<Entry>)
    ensures Distinct(a + b) <==> Distinct(a) && Distinct(b) && Apart(a, b)
  {
    if a == [] {
      assert a + b == b;
    } else {
      DistinctAppend(a[1..], b);
      HasKeyAppend(a[1..], b, a[0].key);
      assert (a + b)[1..] == a[1..] + b;
    }
  }

  lemma {:induction false} ApartKey(a: seq<Entry>, b: seq<Entry>, k: Key)
    requires Apart(a, b) && HasKey(a, k)
    ensures !HasKey(b, k)
  {
    if a[0].key != k { ApartKey(a[1..], b, k); }
  }

  lemma DistinctPushFront(e: Entry, s: seq<Entry>)
    requires Distinct(s) && !HasKey(s, e.key)
    ensures Distinct([e] + s)
  {
    assert ([e] + s)[1..] == s;
  }

  lemma InsertKey(a: seq<Entry>, e: Entry, b: seq<Entry>, x: Key)
    ensures HasKey(a + [e] + b, x) <==> HasKey(a + b, x) || x == e.key
  {
    HasKeyAppend(a + [e], b, x);
    HasKeyAppend(a, [e], x);
    HasKeyAppend(a, b, x);
  }

  /** A new key put anywhere keeps keys distinct. */
  lemma {:induction false} DistinctInsert(a: seq<Entry>, e: Entry, b: seq<Entry>)
    requires Distinct(a + b) && !HasKey(a + b, e.key)
    ensures Distinct(a + [e] + b)
  {
    if a == [] {
      assert a + b == b && a + [e] + b == [e] + b;
      DistinctPushFront(e, b);
    } else {
      var t := a[1..];
      assert (a + b)[1..] == t + b;
      DistinctInsert(t, e, b);
      InsertKey(t, e, b, a[0].key);
      DistinctPushFront(a[0], t + [e] + b);
      assert a + [e] + b == [a[0]] + (t + [e] + b);
    }
  }

  /** The last entry of a list with distinct keys is found under its key, and nowhere before. */
  lemma {:induction false} LastFound(s: seq<Entry>)
    requires Distinct(s) && s != []
    ensures var n := |s| - 1;
      && HasKey(s, s[n].key) && EntryFor(s, s[n].key) == s[n]
      && Without(s, s[n].key) == s[..n]
      && !HasKey(s[..n], s[n].key)
  {
    var n := |s| - 1;
    if n > 0 {
      var t := s[1..];
      assert t[n - 1] == s[n] && t[..n - 1] == s[..n][1..];
      LastFound(t);
      assert s[0].key != s[n].key;
      assert s[..n] == [s[0]] + t[..n - 1];
    }
  }

  lemma PrefixDistinct(s: seq<Entry>, n: nat)
    requires Distinct(s) && n <= |s|
    ensures Distinct(s[..n])
  {
    assert s == s[..n] + s[n..];
    DistinctAppend(s[..n], s[n..]);
  }

  lemma {:induction false} CountAppend(a: seq<Entry>, b: seq<Entry>, x: Key)
    ensures Count(a + b, x) == Count(a, x) + Count(b, x)
  {
    if a == [] {
      assert a + b == b;
    } else {
      CountAppend(a[1..], b, x);
      assert (a + b)[1..] == a[1..] + b && (a + b)[0] == a[0];
    }
  }

  // ----- filtering by expiry, and the eviction callback log

  /** Survivors of a sweep that reads the clock anew for each entry, from the back to the front. */
  function Survivors(s: seq<Entry>, c: Clock): seq<Entry> {
    if s == [] then []
    else if s[0].Expired(At(c, |s| - 1)) then Survivors(s[1..], c)
    else [s[0]] + Survivors(s[1..], c)
  }

  function Casualties(s: seq<Entry>, c: Clock): seq<Entry> {
    if s == [] then []
    else if s[0].Expired(At(c, |s| - 1)) then [s[0]] + Casualties(s[1..], c)
    else Casualties(s[1..], c)
  }

  /** The same at one clock reading. */
  function Live(s: seq<Entry>, now: int): seq<Entry> { Survivors(s, [now]) }

  function Dead(s: seq<Entry>, now: int): seq<Entry> { Casualties(s, [now]) }

  lemma LiveFirst(e: Entry, s: seq<Entry>, now: int)
    ensures Live([e] + s, now) == (if e.Expired(now) then [] else [e]) + Live(s, now)
    ensures Dead([e] + s, now) == (if e.Expired(now) then [e] else []) + Dead(s, now)
  {
    assert ([e] + s)[1..] == s;
  }

  lemma {:induction false} LiveAppend(a: seq<Entry>, b: seq<Entry>, now: int)
    ensures Live(a + b, now) == Live(a, now) + Live(b, now)
    ensures Dead(a + b, now) == Dead(a, now) + Dead(b, now)
  {
    if a == [] {
      assert a + b == b;
    } else {
      var e, rest := a[0], a[1..];
      LiveAppend(rest, b, now);
      LiveFirst(e, rest, now);
      LiveFirst(e, rest + b, now);
      assert a == [e] + rest && a + b == [e] + (rest + b);
    }
  }

  /** A key survives the sweep exactly when its entry is live. */
  lemma {:induction false} LiveKey(s: seq<Entry>, now: int, k: Key)
    requires Distinct(s)
    ensures HasKey(Live(s, now), k) <==> HasKey(s, k) && !EntryFor(s, k).Expired(now)
    ensures HasKey(Live(s, now), k) ==> EntryFor(Live(s, now), k) == EntryFor(s, k)
  {
    if s != [] {
      LiveKey(s[1..], now, k);
      if !s[0].Expired(now) { assert Live(s, now)[1..] == Live(s[1..], now); }
    }
  }

  lemma {:induction false} SurvivorKey(s: seq<Entry>, c: Clock, k: Key)
    ensures HasKey(Survivors(s, c), k) ==> HasKey(s, k)
    ensures Distinct(s) && HasKey(Survivors(s, c), k) ==> EntryFor(Survivors(s, c), k) == EntryFor(s, k)
  {
    if s != [] {
      SurvivorKey(s[1..], c, k);
      if !s[0].Expired(At(c, |s| - 1)) { assert Survivors(s, c)[1..] == Survivors(s[1..], c); }
    }
  }

  lemma {:induction false} SurvivorsDistinct(s: seq<Entry>, c: Clock)
    requires Distinct(s)
    ensures Distinct(Survivors(s, c)) && Bytes(Survivors(s, c)) <= Bytes(s)
  {
    if s != [] {
      SurvivorsDistinct(s[1..], c);
      if !s[0].Expired(At(c, |s| - 1)) {
        SurvivorKey(s[1..], c, s[0].key);
        DistinctPushFront(s[0], Survivors(s[1..], c));
        BytesPushFront(s[0], Survivors(s[1..], c));
      }
    }
  }

  lemma {:induction false} SurvivorCount(s: seq<Entry>, c: Clock, x: Key)
    ensures Count(s, x) == Count(Survivors(s, c), x) + Count(Casualties(s, c), x)
  {
    if s != [] {
      SurvivorCount(s[1..], c, x);
      if s[0].Expired(At(c, |s| - 1)) {
        assert Casualties(s, c)[1..] == Casualties(s[1..], c);
      } else {
        assert Survivors(s, c)[1..] == Survivors(s[1..], c);
      }
    }
  }

  /** Callback order: eviction works from the back of a list to its front. */
  function Calls(s: seq<Entry>): seq<(Key, View)> {
    if s == [] then [] else Calls(s[1..]) + [(s[0].key, s[0].value)]
  }

  lemma {:induction false} CallsAppend(a: seq<Entry>, b: seq<Entry>)
    ensures Calls(a + b) == Calls(b) + Calls(a)
  {
    if a == [] {
      assert a + b == b;
    } else {
      CallsAppend(a[1..], b);
      assert (a + b)[1..] == a[1..] + b && (a + b)[0] == a[0];
    }
  }

  /** How many calls of `log` were for key `x`. */
  function CallCount(log: seq<(Key, View)>, x: Key): nat {
    if log == [] then 0 else CallCount(log[..|log| - 1], x) + One(log[|log| - 1].0 == x)
  }

  /** A callback log grows by exactly the keys of the entries dropped. */
  lemma {:induction false} CallCountAppend(log: seq<(Key, View)>, s: seq<Entry>, x: Key)
    ensures CallCount(log + Calls(s), x) == CallCount(log, x) + Count(s, x)
  {
    if s == [] {
      assert log + Calls(s) == log;
    } else {
      CallCountAppend(log, s[1..], x);
      var r := log + Calls(s);
      assert r[..|r| - 1] == log + Calls(s[1..]) && r[|r| - 1].0 == s[0].key;
    }
  }

  /** One step of a sweep that works from the back of `s`: entries from `i` on have been judged. */
  lemma SweepStep(s: seq<Entry>, i: nat, kept: seq<Entry>)
    requires 0 < i <= |s| && Distinct(s[..i] + kept)
    ensures Without(s[..i] + kept, s[i - 1].key) == s[..i - 1] + kept
    ensures HasKey(s[..i] + kept, s[i - 1].key) && EntryFor(s[..i] + kept, s[i - 1].key) == s[i - 1]
    ensures s[..i] + kept == s[..i - 1] + ([s[i - 1]] + kept)
  {
    var a, e := s[..i - 1], s[i - 1];
    assert s[..i] + kept == a + [e] + kept == a + ([e] + kept);
    DistinctAppend(a, [e] + kept);
    if HasKey(a, e.key) { ApartKey(a, [e] + kept, e.key); }
    WithoutMiddle(a, e, kept);
  }

  /** A list and its callback log when the entries from `i` on have been judged. */
  function Swept(s: seq<Entry>, log: seq<(Key, View)>, i: nat, c: Clock): (seq<Entry>, seq<(Key, View)>)
    requires i <= |s|
  {
    (s[..i] + Survivors(s[i..], c), log + Calls(Casualties(s[i..], c)))
  }

  lemma SweepEnds(s: seq<Entry>, log: seq<(Key, View)>, c: Clock)
    ensures Swept(s, log, |s|, c) == (s, log)
    ensures Swept(s, log, 0, c) == (Survivors(s, c), log + Calls(Casualties(s, c)))
  {
    assert s[..|s|] + [] == s && log + [] == log;
    assert s[0..] == s && s[..0] + Survivors(s, c) == Survivors(s, c);
  }

  lemma SurvivorsFrom(s: seq<Entry>, i: nat, c: Clock)
    requires 0 < i <= |s|
    ensures var e, x := s[i - 1], s[i - 1].Expired(At(c, |s| - i));
      && Survivors(s[i - 1..], c) == (if x then [] else [e]) + Survivors(s[i..], c)
      && Casualties(s[i - 1..], c) == (if x then [e] else []) + Casualties(s[i..], c)
  {
    assert s[i - 1..][1..] == s[i..];
  }

  lemma SweepJudged(s: seq<Entry>, log: seq<(Key, View)>, i: nat, c: Clock)
    requires 0 < i <= |s| && Distinct(Swept(s, log, i, c).0)
    ensures var (cur, calls) := Swept(s, log, i, c);
      var e := s[i - 1];
      && |cur| >= i && cur[i - 1] == e
      && HasKey(cur, e.key) && EntryFor(cur, e.key) == e
      && Swept(s, log, i - 1, c) ==
         (if e.Expired(At(c, |s| - i)) then (Without(cur, e.key), calls + [(e.key, e.value)]) else (cur, calls))
  {
    var e, kept := s[i - 1], Survivors(s[i..], c);
    SweepStep(s, i, kept);
    SurvivorsFrom(s, i, c);
    if e.Expired(At(c, |s| - i)) {
      assert [] + kept == kept;
      CallsGrow(log, e, Casualties(s[i..], c));
    } else {
      assert [] + Casualties(s[i..], c) == Casualties(s[i..], c);
    }
  }

  lemma CallsGrow(log: seq<(Key, View)>, e: Entry, dead: seq<Entry>)
    ensures log + Calls([e] + dead) == log + Calls(dead) + [(e.key, e.value)]
  {
    CallsPushFront(e, dead);
    assert log + (Calls(dead) + [(e.key, e.value)]) == log + Calls(dead) + [(e.key, e.value)];
  }

  lemma CallsPushFront(e: Entry, s: seq<Entry>)
    ensures Calls([e] + s) == Calls(s) + [(e.key, e.value)]
  {
    assert ([e] + s)[1..] == s;
  }

  lemma CallsFrom(s: seq<Entry>, n: nat)
    requires n < |s|
    ensures Calls(s[n..]) == Calls(s[n + 1..]) + [(s[n].key, s[n].value)]
  {
    assert s[n..][1..] == s[n + 1..];
  }

  // ----- key sets after list surgery

  lemma KeysAfterRemoval(s: seq<Entry>, k: Key)
    requires Distinct(s)
    ensures Distinct(Without(s, k))
    ensures forall x :: HasKey(Without(s, k), x) <==> HasKey(s, x) && x != k
  {
    WithoutDistinct(s, k);
    forall x ensures HasKey(Without(s, k), x) <==> HasKey(s, x) && x != k {
      if x != k { WithoutOther(s, k, x); }
    }
  }

  lemma KeysAfterPush(e: Entry, s: seq<Entry>)
    ensures forall x :: HasKey([e] + s, x) <==> HasKey(s, x) || x == e.key
  {
    assert ([e] + s)[1..] == s;
  }

  lemma KeysAfterPop(rest: seq<Entry>, e: Entry)
    requires Distinct(rest + [e])
    ensures forall x :: HasKey(rest, x) <==> HasKey(rest + [e], x) && x != e.key
  {
    DistinctAppend(rest, [e]);
    forall x ensures HasKey(rest, x) <==> HasKey(rest + [e], x) && x != e.key {
      HasKeyAppend(rest, [e], x);
      if HasKey(rest, x) { ApartKey(rest, [e], x); }
    }
  }
}

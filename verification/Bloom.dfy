/**
 The Bloom filter (bloomfilter/bloomfilter.go): k positions per item by double hashing with 32-bit
 wrap-around. The two hashes are arbitrary functions to 32-bit values.
 */
module Bloom {
  const TWO_32: int := 0x1_0000_0000

  datatype Shape = Shape(m: nat, k: nat, hash1: string -> nat, hash2: string -> nat)
  {
    /** Position `i` of an item; only meaningful for m > 0. */
    function Index(item: string, i: nat): (x: nat)
      requires m > 0
      ensures x < m
    {
      Word(item, i) % m
    }

    function Word(item: string, i: nat): nat {
      var h2 := if hash2(item) % TWO_32 == 0 then 1 else hash2(item) % TWO_32;
      (hash1(item) + i * h2) % TWO_32
    }

    function Indexes(item: string): (s: set<nat>)
      requires m > 0
    {
      set i | 0 <= i < k :: Index(item, i)
    }

    predicate Contains(bits: set<nat>, item: string) { m > 0 && Indexes(item) <= bits }

    function Insert(bits: set<nat>, item: string): set<nat> { if m > 0 then bits + Indexes(item) else bits }
  }

  /** The positions of an item: from the first hash on, each 32-bit number is the one before plus the second
      hash, or plus 1 if that is 0; a position is such a number modulo the length. */
  predicate Steps(f: Shape, item: string, w: seq<nat>) {
    && |w| == f.k
    && (f.k > 0 ==> w[0] == f.hash1(item) % TWO_32)
    && forall i :: 0 < i < f.k ==>
         w[i] == (w[i - 1] + if f.hash2(item) % TWO_32 == 0 then 1 else f.hash2(item)) % TWO_32
  }

  lemma AddMod(a: nat, b: nat)
    ensures (a + b) % TWO_32 == (a % TWO_32 + b) % TWO_32
    ensures (a + b) % TWO_32 == (a + b % TWO_32) % TWO_32
  {
  }

  lemma IndexStep(f: Shape, item: string, i: nat)
    ensures var h2 := if f.hash2(item) % TWO_32 == 0 then 1 else f.hash2(item);
      f.Word(item, i + 1) == (f.Word(item, i) + h2) % TWO_32
  {
    var h2 := if f.hash2(item) % TWO_32 == 0 then 1 else f.hash2(item);
    var g := if f.hash2(item) % TWO_32 == 0 then 1 else f.hash2(item) % TWO_32;
    var sum := f.hash1(item) + i * g;
    assert f.hash1(item) + (i + 1) * g == sum + g;
    AddMod(sum, g);
    AddMod(f.Word(item, i), h2);
  }

  /** The positions are exactly those. */
  lemma IndexesExactly(f: Shape, item: string, w: seq<nat>)
    requires f.m > 0 && Steps(f, item, w)
    ensures forall x :: x in f.Indexes(item) <==> exists i :: 0 <= i < f.k && x == w[i] % f.m
  {
    WordsAre(f, item, w, f.k);
    forall i | 0 <= i < f.k ensures f.Index(item, i) == w[i] % f.m {}
  }

  lemma {:induction false} WordsAre(f: Shape, item: string, w: seq<nat>, n: nat)
    requires Steps(f, item, w) && n <= f.k
    ensures forall i :: 0 <= i < n ==> w[i] == f.Word(item, i)
  {
    if n > 0 {
      WordsAre(f, item, w, n - 1);
      if n > 1 { IndexStep(f, item, n - 2); }
    }
  }

  // ----- no false negatives, over every run

  datatype Op = Add(item: string) | Reset

  function Step(f: Shape, bits: set<nat>, op: Op): set<nat> {
    match op
    case Add(x) => f.Insert(bits, x)
    case Reset => {}
  }

  function Run(f: Shape, bits: set<nat>, ops: seq<Op>): set<nat>
    decreases |ops|
  {
    if ops == [] then bits else Run(f, Step(f, bits, ops[0]), ops[1..])
  }

  /** The items added since the last reset. */
  function Current(items: set<string>, ops: seq<Op>): set<string>
    decreases |ops|
  {
    if ops == [] then items
    else Current(if ops[0].Add? then items + {ops[0].item} else {}, ops[1..])
  }

  /** The bits are exactly the positions of the items. */
  ghost predicate Exact(f: Shape, bits: set<nat>, items: set<string>) {
    f.m > 0 ==> forall b :: b in bits <==> exists x :: x in items && b in f.Indexes(x)
  }

  lemma AddExact(f: Shape, bits: set<nat>, items: set<string>, item: string)
    requires Exact(f, bits, items)
    ensures Exact(f, f.Insert(bits, item), items + {item})
  {
    if f.m > 0 {
      var new' := f.Insert(bits, item);
      forall b ensures b in new' <==> exists x :: x in items + {item} && b in f.Indexes(x) {
        if b in f.Indexes(item) {
          assert item in items + {item};
        } else if b in bits {
          var x :| x in items && b in f.Indexes(x);
          assert x in items + {item};
        }
      }
    }
  }

  lemma {:induction false} RunExact(f: Shape, bits: set<nat>, items: set<string>, ops: seq<Op>)
    requires Exact(f, bits, items)
    ensures Exact(f, Run(f, bits, ops), Current(items, ops))
    decreases |ops|
  {
    if ops != [] {
      if ops[0].Add? { AddExact(f, bits, items, ops[0].item); }
      RunExact(f, Step(f, bits, ops[0]), if ops[0].Add? then items + {ops[0].item} else {}, ops[1..]);
    }
  }

  /** After any run, every item added since the last reset is contained if and only if the filter has at
      least one bit (a zero-length filter contains nothing). */
  lemma NoFalseNegatives(f: Shape, ops: seq<Op>, item: string)
    requires item in Current({}, ops)
    ensures f.Contains(Run(f, {}, ops), item) <==> f.m > 0
  {
    RunExact(f, {}, {}, ops);
    var bits := Run(f, {}, ops);
    if f.m > 0 {
      forall b | b in f.Indexes(item) ensures b in bits {
        assert item in Current({}, ops);
      }
    }
  }

  // ----- the class

  class BloomFilter {
    const arr: array<nat>
    const k: nat
    const hash1: string -> nat
    const hash2: string -> nat

    /** The length is used modulo 2^32. */
    function Form(): Shape { Shape(arr.Length % TWO_32, k, hash1, hash2) }

    /** A length that is a multiple of 2^32, other than 0, makes the program divide by zero. */
    predicate Sized() { arr.Length == 0 || arr.Length % TWO_32 > 0 }

    /** The positions that are set. */
    ghost function Bits(): set<nat> reads arr { set j: nat | j < arr.Length && arr[j] != 0 }

    /** Sizes that are not positive are replaced by the defaults; 32 bits of the others are used. */
    constructor (m: int, k: int, hash1: string -> nat, hash2: string -> nat)
      ensures Bits() == {} && fresh(arr)
      ensures Form() == Shape(if m <= 0 then 1000 else m % TWO_32, if k <= 0 then 6 else k % TWO_32, hash1, hash2)
      ensures Sized() <==> m <= 0 || m % TWO_32 > 0
    {
      var n := if m <= 0 then 1000 else m;
      arr := new nat[n](_ => 0);
      this.k := if k <= 0 then 6 else k % TWO_32;
      this.hash1, this.hash2 := hash1, hash2;
    }

    method IndexList(item: string) returns (idx: seq<nat>)
      requires arr.Length % TWO_32 > 0
      ensures |idx| == k && forall i :: 0 <= i < k ==> idx[i] == Form().Index(item, i)
    {
      var m := arr.Length % TWO_32;
      var h1, h2 := hash1(item), hash2(item) % TWO_32;
      if h2 == 0 { h2 := 1; }
      idx := [];
      var i := 0;
      while i < k
        invariant 0 <= i <= k && |idx| == i
        invariant forall j :: 0 <= j < i ==> idx[j] == Form().Index(item, j)
      {
        idx := idx + [(h1 + i * h2) % TWO_32 % m];
        i := i + 1;
      }
    }

    method Add(item: string)
      requires Sized()
      modifies arr
      ensures Bits() == Form().Insert(old(Bits()), item)
    {
      if arr.Length == 0 { return; }
      var idx := IndexList(item);
      var i := 0;
      while i < |idx|
        invariant 0 <= i <= |idx|
        invariant forall j: nat :: j < arr.Length ==> (arr[j] != 0 <==> old(arr[j]) != 0 || j in idx[..i])
      {
        arr[idx[i]] := 1;
        i := i + 1;
      }
      assert idx[..|idx|] == idx;
      ListIsSet(item, idx);
    }

    lemma ListIsSet(item: string, idx: seq<nat>)
      requires arr.Length % TWO_32 > 0 && |idx| == k && forall i :: 0 <= i < k ==> idx[i] == Form().Index(item, i)
      ensures forall j :: j in idx <==> j in Form().Indexes(item)
    {
    }

    method Contains(item: string) returns (r: bool)
      requires Sized()
      ensures r == Form().Contains(Bits(), item)
    {
      if arr.Length == 0 { return false; }
      var idx := IndexList(item);
      ListIsSet(item, idx);
      var i := 0;
      while i < |idx|
        invariant 0 <= i <= |idx|
        invariant forall j :: 0 <= j < i ==> idx[j] in Bits()
      {
        if arr[idx[i]] == 0 {
          assert idx[i] in idx;
          return false;
        }
        i := i + 1;
      }
      return true;
    }

    method Reset()
      modifies arr
      ensures Bits() == {}
    {
      var i := 0;
      while i < arr.Length
        invariant 0 <= i <= arr.Length
        invariant forall j :: 0 <= j < i ==> arr[j] == 0
      {
        arr[i] := 0;
        i := i + 1;
      }
    }
  }
}

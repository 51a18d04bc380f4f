/** What the shard hash keeps apart (sharded.go:12-18): it depends on every byte of a key. */
module HashLaws {
  import opened Runs
  import opened Sharding

  // ----- folds of injective steps

  ghost predicate Injective<D(!new)>(f: D -> D) { forall d, e :: f(d) == f(e) ==> d == e }

  ghost predicate Steps<D(!new)>(mix: (D, char) -> D) { forall d, e, x :: mix(d, x) == mix(e, x) ==> d == e }

  lemma {:induction false} FoldApart<D(!new)>(mix: (D, char) -> D, d: D, e: D, k: string)
    requires Steps(mix) && d != e
    ensures Fold(mix, d, k) != Fold(mix, e, k)
    decreases |k|
  {
    if k != "" { FoldApart(mix, mix(d, k[0]), mix(e, k[0]), k[1..]); }
  }

  lemma {:induction false} FoldAppend<D>(mix: (D, char) -> D, d: D, a: string, b: string)
    ensures Fold(mix, d, a + b) == Fold(mix, Fold(mix, d, a), b)
    decreases |a|
  {
    if a == "" {
      assert a + b == b;
    } else {
      FoldAppend(mix, mix(d, a[0]), a[1..], b);
      assert (a + b)[1..] == a[1..] + b;
    }
  }

  lemma FoldByte<D>(mix: (D, char) -> D, d: D, a: string, x: char, b: string)
    ensures Fold(mix, d, a + [x] + b) == Fold(mix, mix(Fold(mix, d, a), x), b)
  {
    assert a + [x] + b == a + ([x] + b);
    FoldAppend(mix, d, a, [x] + b);
    assert ([x] + b)[1..] == b;
  }

  /** Such a fold, finished by an injective function, from a start that depends on the length alone. */
  ghost predicate Folds<D(!new)>(hash: string -> D, mix: (D, char) -> D, fin: D -> D, start: nat -> D) {
    Steps(mix) && Injective(fin) && forall k :: hash(k) == fin(Fold(mix, start(|k|), k))
  }

  lemma ByteCounts<D(!new)>(
      hash: string -> D, mix: (D, char) -> D, fin: D -> D, start: nat -> D, a: string, x: char, y: char, b: string)
    requires Folds(hash, mix, fin, start) && forall e :: mix(e, x) != mix(e, y)
    ensures hash(a + [x] + b) != hash(a + [y] + b)
  {
    var d := start(|a + [x] + b|);
    assert |a + [x] + b| == |a + [y] + b|;
    FoldByte(mix, d, a, x, b);
    FoldByte(mix, d, a, y, b);
    var e := Fold(mix, d, a);
    FoldApart(mix, mix(e, x), mix(e, y), b);
  }

  // ----- djb33 is one

  lemma TimesInjective(d: bv32, e: bv32)
    requires d * 33 == e * 33
    ensures d == e
  {
  }

  lemma XorInjective(a: bv32, b: bv32, w: bv32)
    ensures a ^ w == b ^ w ==> a == b
    ensures w ^ a == w ^ b ==> a == b
  {
  }

  /** A shift that the exclusive-or with it does not change can be taken back. */
  lemma ShiftCancels<D(!new)>(shift: D -> D, xor: (D, D) -> D, f: D -> D)
    requires forall d :: f(d) == xor(d, shift(d)) && shift(f(d)) == shift(d)
    requires forall a, b, s :: xor(a, s) == xor(b, s) ==> a == b
    ensures Injective(f)
  {
    forall d, e | f(d) == f(e) ensures d == e {
      assert shift(f(d)) == shift(d) && shift(f(e)) == shift(e);
    }
  }

  lemma TopKept(d: bv32)
    ensures (d ^ (d >> 16)) >> 16 == d >> 16
  {
  }

  lemma FinishIsXor(d: bv32)
    ensures Finish(d) == Xor(d, High(d))
  {
  }

  lemma FinishTop(d: bv32)
    ensures High(Finish(d)) == High(d)
  {
    TopKept(d);
  }

  lemma FinishInjective()
    ensures Injective(Finish)
  {
    forall d ensures Finish(d) == Xor(d, High(d)) && High(Finish(d)) == High(d) {
      FinishIsXor(d);
      FinishTop(d);
    }
    forall a, b, s | Xor(a, s) == Xor(b, s) ensures a == b { XorInjective(a, b, s); }
    ShiftCancels(High, Xor, Finish);
  }

  lemma MixSteps()
    ensures Steps(Mix)
  {
    forall d, e, x | Mix(d, x) == Mix(e, x) ensures d == e {
      XorInjective(d * 33, e * 33, Word(x as int % 256));
      TimesInjective(d, e);
    }
  }

  lemma WordValue(n: nat)
    requires n < 256
    ensures Word(n) as int == n
  {
    assert n % 0x1_0000_0000 == n;
  }

  lemma MixByte(d: bv32, x: char, y: char)
    requires x as int % 256 != y as int % 256
    ensures Mix(d, x) != Mix(d, y)
  {
    WordValue(x as int % 256);
    WordValue(y as int % 256);
    XorInjective(Word(x as int % 256), Word(y as int % 256), d * 33);
  }

  lemma HashFolds(seed: bv32)
    ensures Folds((k: string) => HashOf(seed, k), Mix, Finish, (n: nat) => Start(seed, Word(n)))
  {
    MixSteps();
    FinishInjective();
  }

  /** Keys that differ in one byte only have different hashes. */
  lemma EveryByteCounts(seed: bv32, a: string, x: char, y: char, b: string)
    requires x as int % 256 != y as int % 256
    ensures HashOf(seed, a + [x] + b) != HashOf(seed, a + [y] + b)
  {
    var hash := (k: string) => HashOf(seed, k);
    HashFolds(seed);
    forall e ensures Mix(e, x) != Mix(e, y) { MixByte(e, x, y); }
    ByteCounts(hash, Mix, Finish, (n: nat) => Start(seed, Word(n)), a, x, y, b);
    assert hash(a + [x] + b) != hash(a + [y] + b);
  }

  /** A key's bucket is the remainder of its hash by the number of buckets. */
  lemma BucketIsRemainder(seed: bv32, k: string, m: nat) returns (q: nat)
    requires m > 0
    ensures Bucket(seed, k, m) < m && HashOf(seed, k) as nat == q * m + Bucket(seed, k, m)
  {
    q := Divides(HashOf(seed, k) as nat, m);
  }

  lemma Divides(h: nat, m: nat) returns (q: nat)
    requires m > 0
    ensures h == q * m + h % m
  {
    q := h / m;
  }

  /** Two hashes, worked out by hand. */
  lemma HashValues()
    ensures HashOf(0, "") == 5381 && HashOf(0, "a") == 177573
  {
    assert 'a' as int % 256 == 97 && "a"[1..] == "";
    assert Start(0, Word(0)) == 5381 && Start(0, Word(1)) == 5382;
  }
}

/**
 The ring as the program keeps it (internal/consistenthash/consistenthash.go): a sorted list of points,
 possibly with repetitions, and a map from points to peers. Every method is proved against RingModel.
 */
module HashRings {
  import opened RingModel

  predicate Sorted(s: seq<int>) { forall i, j :: 0 <= i < j < |s| ==> s[i] <= s[j] }

  function Insert(x: int, s: seq<int>): seq<int> {
    if s == [] || x <= s[0] then [x] + s else [s[0]] + Insert(x, s[1..])
  }

  lemma SortedCons(x: int, s: seq<int>)
    requires Sorted(s) && (s != [] ==> x <= s[0])
    ensures Sorted([x] + s)
  {
  }

  lemma BagCons(x: int, s: seq<int>)
    ensures multiset([x] + s) == multiset{x} + multiset(s)
  {
  }

  lemma {:induction false} InsertSorted(x: int, s: seq<int>)
    requires Sorted(s)
    ensures Sorted(Insert(x, s))
    ensures Insert(x, s) != [] && (Insert(x, s)[0] == x || (s != [] && Insert(x, s)[0] == s[0]))
  {
    if s == [] || x <= s[0] {
      SortedCons(x, s);
    } else {
      InsertSorted(x, s[1..]);
      SortedCons(s[0], Insert(x, s[1..]));
    }
  }

  lemma {:induction false} InsertBag(x: int, s: seq<int>)
    ensures multiset(Insert(x, s)) == multiset{x} + multiset(s)
  {
    if s == [] || x <= s[0] {
      BagCons(x, s);
    } else {
      var first, rest := s[0], s[1..];
      InsertBag(x, rest);
      BagCons(first, Insert(x, rest));
      BagCons(first, rest);
      assert s == [first] + rest;
    }
  }

  /** sort.Ints. */
  function SortInts(s: seq<int>): seq<int> {
    if s == [] then [] else Insert(s[0], SortInts(s[1..]))
  }

  lemma {:induction false} SortFacts(s: seq<int>)
    ensures Sorted(SortInts(s)) && multiset(SortInts(s)) == multiset(s)
  {
    if s != [] {
      SortFacts(s[1..]);
      InsertSorted(s[0], SortInts(s[1..]));
      InsertBag(s[0], SortInts(s[1..]));
      BagCons(s[0], s[1..]);
      assert s == [s[0]] + s[1..];
    }
  }

  /** sort.Search: binary search for the least index whose point is not below `h`. */
  method Search(keys: seq<int>, h: int) returns (idx: nat)
    requires Sorted(keys)
    ensures idx <= |keys|
    ensures forall i :: 0 <= i < idx ==> keys[i] < h
    ensures forall i :: idx <= i < |keys| ==> keys[i] >= h
  {
    var i, j := 0, |keys|;
    while i < j
      invariant 0 <= i <= j <= |keys|
      invariant forall k :: 0 <= k < i ==> keys[k] < h
      invariant forall k :: j <= k < |keys| ==> keys[k] >= h
    {
      var mid := (i + j) / 2;
      if keys[mid] < h { i := mid + 1; } else { j := mid; }
    }
    idx := i;
  }

  class HashRing {
    const c: Config
    var keys: seq<int>
    var hashMap: map<int, string>

    ghost predicate Valid() reads this { Sorted(keys) }

    ghost function Model(): Ring reads this { Ring(multiset(keys), hashMap) }

    constructor (c: Config)
      ensures Valid() && this.c == c && Model() == EMPTY
    {
      this.c := c;
      keys, hashMap := [], map[];
    }

    method Add(peers: seq<string>)
      requires Valid()
      modifies this
      ensures Valid() && Model() == AddPeers(c, old(Model()), peers)
    {
      var n := 0;
      assert peers[0..] == peers;
      while n < |peers|
        invariant 0 <= n <= |peers|
        invariant AddPeers(c, Model(), peers[n..]) == AddPeers(c, old(Model()), peers)
      {
        assert peers[n..][1..] == peers[n + 1..];
        AppendPoints(peers[n]);
        n := n + 1;
      }
      SortFacts(keys);
      keys := SortInts(keys);
    }

    /** The inner loop of `Add`. */
    method AppendPoints(peer: string)
      modifies this
      ensures Model() == AddPeer(c, old(Model()), peer)
    {
      var i := 0;
      while i < c.replicas
        invariant 0 <= i <= c.replicas
        invariant AddFrom(c, Model(), peer, i) == AddPeer(c, old(Model()), peer)
      {
        var h := c.Point(i, peer);
        keys := keys + [h];
        hashMap := hashMap[h := peer];
        i := i + 1;
      }
    }

    method Remove(peers: seq<string>)
      requires Valid()
      modifies this
      ensures Valid() && Model() == RemovePeers(c, old(Model()), peers)
    {
      var n := 0;
      assert peers[0..] == peers;
      while n < |peers|
        invariant 0 <= n <= |peers| && Valid()
        invariant RemovePeers(c, Model(), peers[n..]) == RemovePeers(c, old(Model()), peers)
      {
        assert peers[n..][1..] == peers[n + 1..];
        DropPoints(peers[n]);
        n := n + 1;
      }
    }

    /** The inner loop of `Remove`. */
    method DropPoints(peer: string)
      requires Valid()
      modifies this
      ensures Valid() && Model() == RemovePeer(c, old(Model()), peer)
    {
      var i := 0;
      while i < c.replicas
        invariant 0 <= i <= c.replicas && Valid()
        invariant RemoveFrom(c, Model(), peer, i) == RemovePeer(c, old(Model()), peer)
      {
        DropPoint(c.Point(i, peer));
        i := i + 1;
      }
    }

    method DropPoint(h: int)
      requires Valid()
      modifies this
      ensures Valid() && Model() == RemovePoint(old(Model()), h)
    {
      var idx := Search(keys, h);
      if idx < |keys| && keys[idx] == h {
        assert keys == keys[..idx] + ([h] + keys[idx + 1..]);
        keys := keys[..idx] + keys[idx + 1..];
        hashMap := hashMap - {h};
      } else {
        assert h !in keys;
      }
    }

    /** The owner of the first point at or after the key's hash, round the ring. */
    method Get(key: string) returns (peer: string)
      requires Valid()
      ensures Answers(Model(), c.hash(key), peer)
    {
      if |keys| == 0 { return ""; }
      var h := c.hash(key);
      var idx := Search(keys, h);
      var x := keys[idx % |keys|];
      Round(idx, |keys|);
      SuccessorFound(keys, h, idx, idx % |keys|);
      assert x in multiset(keys);
      peer := if x in hashMap then hashMap[x] else "";
      assert peer == OwnerOf(Model(), x);
    }
  }

  lemma Round(idx: nat, n: nat)
    requires 0 < n && idx <= n
    ensures idx % n == if idx < n then idx else 0
  {
  }

  lemma SuccessorFound(keys: seq<int>, h: int, idx: nat, j: nat)
    requires Sorted(keys) && idx <= |keys| && j < |keys| && j == (if idx < |keys| then idx else 0)
    requires forall i :: 0 <= i < idx ==> keys[i] < h
    requires forall i :: idx <= i < |keys| ==> keys[i] >= h
    ensures Succeeds(multiset(keys), h, keys[j])
  {
    var x := keys[j];
    assert x in keys;
    forall y | y in multiset(keys) ensures (x >= h && y >= h ==> x <= y) && (x < h ==> x <= y < h) {
      var i :| 0 <= i < |keys| && keys[i] == y;
      if idx < |keys| {
        assert x >= h;
        if y >= h { assert idx <= i; }
      } else {
        assert y < h;
      }
    }
  }

  lemma SortedHeads(s: seq<int>, t: seq<int>)
    requires Sorted(s) && Sorted(t) && multiset(s) == multiset(t) && s != [] && t != []
    ensures s[0] == t[0]
  {
    assert s[0] in multiset(t) && t[0] in multiset(s);
  }

  lemma TailBag(s: seq<int>)
    requires s != []
    ensures multiset(s[1..]) == multiset(s) - multiset{s[0]}
  {
    assert s == [s[0]] + s[1..];
  }

  /** Sorted lists with the same bag of points are the same list, so equal models are equal rings. */
  lemma {:induction false} SortedUnique(s: seq<int>, t: seq<int>)
    requires Sorted(s) && Sorted(t) && multiset(s) == multiset(t)
    ensures s == t
  {
    assert |s| == |multiset(s)| == |multiset(t)| == |t|;
    if s != [] {
      SortedHeads(s, t);
      TailBag(s);
      TailBag(t);
      SortedUnique(s[1..], t[1..]);
      assert s == [s[0]] + s[1..] && t == [t[0]] + t[1..];
    }
  }
}

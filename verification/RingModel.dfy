/**
 The consistent-hash ring (internal/consistenthash/consistenthash.go) as a bag of points and a map from
 points to their owners. The hash is an arbitrary function; points of different peers may collide, and
 then the peer added last owns the point.
 */
module RingModel {
  import opened Decimal

  datatype Ring = Ring(bag: multiset<int>, owner: map<int, string>)

  datatype Config = Config(hash: string -> int, replicas: nat)
  {
    /** Virtual node `i` of a peer. */
    function Point(i: nat, peer: string): int { hash(FormatInt(i) + peer) }
  }

  const EMPTY := Ring(multiset{}, map[])

  // ----- adding and removing, one virtual node at a time

  function AddFrom(c: Config, r: Ring, peer: string, i: nat): Ring
    requires i <= c.replicas
    decreases c.replicas - i
  {
    if i == c.replicas then r
    else
      var h := c.Point(i, peer);
      AddFrom(c, Ring(r.bag + multiset{h}, r.owner[h := peer]), peer, i + 1)
  }

  function AddPeer(c: Config, r: Ring, peer: string): Ring { AddFrom(c, r, peer, 0) }

  function AddPeers(c: Config, r: Ring, peers: seq<string>): Ring
    decreases |peers|
  {
    if peers == [] then r else AddPeers(c, AddPeer(c, r, peers[0]), peers[1..])
  }

  function RemovePoint(r: Ring, h: int): Ring {
    if h in r.bag then Ring(r.bag - multiset{h}, r.owner - {h}) else r
  }

  function RemoveFrom(c: Config, r: Ring, peer: string, i: nat): Ring
    requires i <= c.replicas
    decreases c.replicas - i
  {
    if i == c.replicas then r else RemoveFrom(c, RemovePoint(r, c.Point(i, peer)), peer, i + 1)
  }

  function RemovePeer(c: Config, r: Ring, peer: string): Ring { RemoveFrom(c, r, peer, 0) }

  function RemovePeers(c: Config, r: Ring, peers: seq<string>): Ring
    decreases |peers|
  {
    if peers == [] then r else RemovePeers(c, RemovePeer(c, r, peers[0]), peers[1..])
  }

  // ----- lookup

  /** `x` is the first point at or after `h`, going round to the least point when there is none. */
  ghost predicate Succeeds(bag: multiset<int>, h: int, x: int) {
    && x in bag
    && (if x >= h then forall y :: y in bag && y >= h ==> x <= y
        else forall y :: y in bag ==> x <= y < h)
  }

  lemma SuccessorUnique(bag: multiset<int>, h: int, x: int, y: int)
    requires Succeeds(bag, h, x) && Succeeds(bag, h, y)
    ensures x == y
  {
  }

  function OwnerOf(r: Ring, x: int): string { if x in r.owner then r.owner[x] else "" }

  /** `peer` is what a lookup at hash `h` answers. */
  ghost predicate Answers(r: Ring, h: int, peer: string) {
    if r.bag == multiset{} then peer == ""
    else exists x :: Succeeds(r.bag, h, x) && peer == OwnerOf(r, x)
  }

  lemma AnswerUnique(r: Ring, h: int, p: string, q: string)
    requires Answers(r, h, p) && Answers(r, h, q)
    ensures p == q
  {
    if r.bag != multiset{} {
      var x :| Succeeds(r.bag, h, x) && p == OwnerOf(r, x);
      var y :| Succeeds(r.bag, h, y) && q == OwnerOf(r, y);
      SuccessorUnique(r.bag, h, x, y);
    }
  }

  // ----- what adding a peer does

  /** Some virtual node of `peer` from `i` on is at `x`. */
  predicate HasPoint(c: Config, peer: string, x: int, i: nat)
    requires i <= c.replicas
    decreases c.replicas - i
  {
    i < c.replicas && (c.Point(i, peer) == x || HasPoint(c, peer, x, i + 1))
  }

  lemma {:induction false} AddFromFacts(c: Config, r: Ring, peer: string, i: nat, x: int)
    requires i <= c.replicas
    ensures var a := AddFrom(c, r, peer, i);
      && (x in a.bag <==> x in r.bag || HasPoint(c, peer, x, i))
      && (HasPoint(c, peer, x, i) ==> x in a.owner && a.owner[x] == peer)
      && (!HasPoint(c, peer, x, i) ==> (x in a.owner <==> x in r.owner) && OwnerOf(a, x) == OwnerOf(r, x))
    decreases c.replicas - i
  {
    if i < c.replicas {
      var h := c.Point(i, peer);
      var r1 := Ring(r.bag + multiset{h}, r.owner[h := peer]);
      AddFromFacts(c, r1, peer, i + 1, x);
      if x == h && !HasPoint(c, peer, x, i + 1) { assert OwnerOf(r1, x) == peer; }
    }
  }

  // ----- add, then remove

  /** The bag of a peer's points from virtual node `i` on. */
  function PointBag(c: Config, peer: string, i: nat): multiset<int>
    requires i <= c.replicas
    decreases c.replicas - i
  {
    if i == c.replicas then multiset{} else multiset{c.Point(i, peer)} + PointBag(c, peer, i + 1)
  }

  lemma {:induction false} AddBag(c: Config, r: Ring, peer: string, i: nat)
    requires i <= c.replicas
    ensures AddFrom(c, r, peer, i).bag == r.bag + PointBag(c, peer, i)
    decreases c.replicas - i
  {
    if i < c.replicas {
      var h := c.Point(i, peer);
      AddBag(c, Ring(r.bag + multiset{h}, r.owner[h := peer]), peer, i + 1);
    }
  }

  lemma {:induction false} RemoveFacts(c: Config, r: Ring, rest: multiset<int>, peer: string, i: nat, x: int)
    requires i <= c.replicas && r.bag == rest + PointBag(c, peer, i)
    ensures var d := RemoveFrom(c, r, peer, i);
      && d.bag == rest
      && (x in d.owner <==> x in r.owner && !HasPoint(c, peer, x, i))
      && (x in d.owner ==> d.owner[x] == r.owner[x])
    decreases c.replicas - i
  {
    if i < c.replicas {
      var h := c.Point(i, peer);
      assert h in r.bag;
      assert r.bag - multiset{h} == rest + PointBag(c, peer, i + 1);
      RemoveFacts(c, RemovePoint(r, h), rest, peer, i + 1, x);
    }
  }

  /** Some peer of the list has a virtual node at `x`. */
  predicate AnyPoint(c: Config, peers: seq<string>, x: int) {
    peers != [] && (HasPoint(c, peers[0], x, 0) || AnyPoint(c, peers[1..], x))
  }

  function AllPoints(c: Config, peers: seq<string>): multiset<int> {
    if peers == [] then multiset{} else PointBag(c, peers[0], 0) + AllPoints(c, peers[1..])
  }

  /** What adding a list of peers does to the bag, and to the owner of a point that is none of theirs. */
  lemma {:induction false} AddPeersFacts(c: Config, r: Ring, peers: seq<string>, x: int)
    ensures var a := AddPeers(c, r, peers);
      && a.bag == r.bag + AllPoints(c, peers)
      && (x in a.bag <==> x in r.bag || AnyPoint(c, peers, x))
      && (AnyPoint(c, peers, x) ==> x in a.owner && a.owner[x] in peers)
      && (!AnyPoint(c, peers, x) ==> (x in a.owner <==> x in r.owner) && OwnerOf(a, x) == OwnerOf(r, x))
    decreases |peers|
  {
    if peers != [] {
      AddBag(c, r, peers[0], 0);
      AddFromFacts(c, r, peers[0], 0, x);
      AddPeersFacts(c, AddPeer(c, r, peers[0]), peers[1..], x);
    }
  }

  /** Minimal movement: on a non-empty ring, adding peers changes a lookup's answer only to one of them,
      whatever the collisions. */
  lemma MinimalMovement(c: Config, r: Ring, peers: seq<string>, h: int, before: string, after: string)
    requires r.bag != multiset{} && Answers(r, h, before) && Answers(AddPeers(c, r, peers), h, after)
    ensures after == before || after in peers
  {
    var a := AddPeers(c, r, peers);
    var x :| Succeeds(r.bag, h, x) && before == OwnerOf(r, x);
    AddPeersFacts(c, r, peers, x);
    assert a.bag != multiset{};
    var y :| Succeeds(a.bag, h, y) && after == OwnerOf(a, y);
    AddPeersFacts(c, r, peers, y);
    if !AnyPoint(c, peers, y) {
      assert forall z :: z in r.bag ==> z in a.bag;
      assert Succeeds(r.bag, h, y);
      SuccessorUnique(r.bag, h, x, y);
    }
  }

  lemma {:induction false} RemovePeersFacts(c: Config, r: Ring, rest: multiset<int>, peers: seq<string>, x: int)
    requires r.bag == rest + AllPoints(c, peers)
    ensures var d := RemovePeers(c, r, peers);
      && d.bag == rest
      && (x in d.owner <==> x in r.owner && !AnyPoint(c, peers, x))
      && (x in d.owner ==> d.owner[x] == r.owner[x])
    decreases |peers|
  {
    if peers != [] {
      RemoveFacts(c, r, rest + AllPoints(c, peers[1..]), peers[0], 0, x);
      RemovePeersFacts(c, RemovePeer(c, r, peers[0]), rest, peers[1..], x);
    }
  }

  /** Removing the peers just added restores the ring if and only if none of their points was taken
      before. (When one was, its owner's map entry is lost although the point stays.) Collisions among
      the added peers themselves do no harm. */
  lemma AddRemoveRestores(c: Config, r: Ring, peers: seq<string>)
    ensures RemovePeers(c, AddPeers(c, r, peers), peers).bag == r.bag
    ensures RemovePeers(c, AddPeers(c, r, peers), peers) == r <==>
            forall x :: AnyPoint(c, peers, x) ==> x !in r.owner
  {
    var d := RemovePeers(c, AddPeers(c, r, peers), peers);
    RestoredAt(c, r, peers, 0);
    if forall x :: AnyPoint(c, peers, x) ==> x !in r.owner {
      assert d.owner.Keys == r.owner.Keys by {
        forall x ensures x in d.owner <==> x in r.owner { RestoredAt(c, r, peers, x); }
      }
      forall x | x in r.owner ensures d.owner[x] == r.owner[x] { RestoredAt(c, r, peers, x); }
    } else {
      var x :| AnyPoint(c, peers, x) && x in r.owner;
      RestoredAt(c, r, peers, x);
    }
  }

  /** What is left of a point's ownership after adding and removing peers. */
  lemma RestoredAt(c: Config, r: Ring, peers: seq<string>, x: int)
    ensures var d := RemovePeers(c, AddPeers(c, r, peers), peers);
      && d.bag == r.bag
      && (x in d.owner <==> x in r.owner && !AnyPoint(c, peers, x))
      && (x in d.owner ==> d.owner[x] == r.owner[x])
  {
    AddPeersFacts(c, r, peers, x);
    RemovePeersFacts(c, AddPeers(c, r, peers), r.bag, peers, x);
  }

  /** What lookups answer after peers were added and removed again: as before, unless the hash leads to a
      point of one of them; then the empty name, whoever else owned that point. */
  lemma LookupAfterRemoval(c: Config, r: Ring, peers: seq<string>, h: int, x: int)
    requires Succeeds(r.bag, h, x)
    ensures Answers(RemovePeers(c, AddPeers(c, r, peers), peers), h,
                    if AnyPoint(c, peers, x) then "" else OwnerOf(r, x))
  {
    RestoredAt(c, r, peers, x);
  }

  // ----- agreement between nodes

  /** No two different peers of the list share a point. */
  ghost predicate Apart(c: Config, peers: seq<string>) {
    forall p, q, x :: p in peers && q in peers && HasPoint(c, p, x, 0) && HasPoint(c, q, x, 0) ==> p == q
  }

  /** The ring has exactly the points of `peers`, each owned by a peer whose point it is. */
  ghost predicate BuiltAt(c: Config, r: Ring, peers: seq<string>, x: int) {
    && (x in r.bag <==> x in r.owner)
    && (x in r.owner ==> r.owner[x] in peers && HasPoint(c, r.owner[x], x, 0))
    && (forall p :: p in peers && HasPoint(c, p, x, 0) ==> x in r.owner)
  }

  lemma {:induction false} AddPeersBuilds(c: Config, r: Ring, done: seq<string>, peers: seq<string>, x: int)
    requires BuiltAt(c, r, done, x)
    ensures BuiltAt(c, AddPeers(c, r, peers), done + peers, x)
    decreases |peers|
  {
    if peers == [] {
      assert done + peers == done;
    } else {
      var p := peers[0];
      AddFromFacts(c, r, p, 0, x);
      var done' := done + [p];
      assert forall q :: q in done' <==> q in done || q == p;
      assert BuiltAt(c, AddPeer(c, r, p), done', x);
      AddPeersBuilds(c, AddPeer(c, r, p), done', peers[1..], x);
      assert done' + peers[1..] == done + peers;
    }
  }

  function Build(c: Config, peers: seq<string>): Ring { AddPeers(c, EMPTY, peers) }

  lemma Built(c: Config, peers: seq<string>, x: int)
    ensures BuiltAt(c, Build(c, peers), peers, x)
  {
    AddPeersBuilds(c, EMPTY, [], peers, x);
    assert [] + peers == peers;
  }

  /** Rings built from lists with the same peers, in any order and with any repetitions, have the same
      points and owners, if points of different peers do not collide. */
  lemma SameRing(c: Config, ps: seq<string>, qs: seq<string>)
    requires Apart(c, ps) && forall p :: p in ps <==> p in qs
    ensures Build(c, ps).owner == Build(c, qs).owner
    ensures forall x :: x in Build(c, ps).bag <==> x in Build(c, qs).bag
  {
    var a, b := Build(c, ps), Build(c, qs);
    forall x
      ensures (x in a.owner <==> x in b.owner) && (x in a.bag <==> x in b.bag)
      ensures x in a.owner && x in b.owner ==> a.owner[x] == b.owner[x]
    {
      Built(c, ps, x);
      Built(c, qs, x);
    }
  }

  /** So every key has the same owner on all of them. */
  lemma SameOwner(c: Config, ps: seq<string>, qs: seq<string>, h: int, p: string, q: string)
    requires Apart(c, ps) && forall x :: x in ps <==> x in qs
    requires Answers(Build(c, ps), h, p) && Answers(Build(c, qs), h, q)
    ensures p == q
  {
    SameRing(c, ps, qs);
    var a, b := Build(c, ps), Build(c, qs);
    if a.bag != multiset{} {
      var x :| Succeeds(a.bag, h, x) && p == OwnerOf(a, x);
      assert x in b.bag;
      var y :| Succeeds(b.bag, h, y) && q == OwnerOf(b, y);
      assert Succeeds(b.bag, h, x);
      SuccessorUnique(b.bag, h, x, y);
    }
  }

  // ----- and no agreement without it

  /** The list with one occurrence of `p` moved to its end. */
  function ToEnd(ps: seq<string>, p: string): seq<string>
    requires p in ps
  {
    if ps[0] == p then ps[1..] + [p] else [ps[0]] + ToEnd(ps[1..], p)
  }

  lemma {:induction false} ToEndFacts(ps: seq<string>, p: string)
    requires p in ps
    ensures var r := ToEnd(ps, p);
      multiset(r) == multiset(ps) && r != [] && r == r[..|r| - 1] + [p]
  {
    assert ps == [ps[0]] + ps[1..];
    if ps[0] != p {
      ToEndFacts(ps[1..], p);
      assert ToEnd(ps, p)[1..] == ToEnd(ps[1..], p);
    }
  }

  lemma {:induction false} AddPeersAppend(c: Config, r: Ring, a: seq<string>, p: string)
    ensures AddPeers(c, r, a + [p]) == AddPeer(c, AddPeers(c, r, a), p)
    decreases |a|
  {
    if a == [] {
      assert a + [p] == [p] && [p][1..] == [];
    } else {
      AddPeersAppend(c, AddPeer(c, r, a[0]), a[1..], p);
      assert (a + [p])[1..] == a[1..] + [p];
    }
  }

  /** A reordered list gives the same points. */
  lemma SamePoints(c: Config, ps: seq<string>, qs: seq<string>, h: int, x: int)
    requires (forall p :: p in ps <==> p in qs) && Succeeds(Build(c, ps).bag, h, x)
    ensures Succeeds(Build(c, qs).bag, h, x)
  {
    forall y ensures y in Build(c, ps).bag <==> y in Build(c, qs).bag {
      Built(c, ps, y);
      Built(c, qs, y);
    }
  }

  lemma SameMembers(ps: seq<string>, qs: seq<string>)
    requires multiset(ps) == multiset(qs)
    ensures forall p :: p in ps <==> p in qs
  {
    assert forall p :: p in ps <==> p in multiset(ps);
    assert forall p :: p in qs <==> p in multiset(qs);
  }

  /** Of the peers that share a point, the one listed last answers there. */
  lemma LastAnswers(c: Config, ps: seq<string>, p: string, h: int, x: int)
    requires p in ps && HasPoint(c, p, x, 0) && Succeeds(Build(c, ps).bag, h, x)
    ensures multiset(ToEnd(ps, p)) == multiset(ps) && Answers(Build(c, ToEnd(ps, p)), h, p)
  {
    var qs := ToEnd(ps, p);
    ToEndFacts(ps, p);
    SameMembers(ps, qs);
    SamePoints(c, ps, qs, h, x);
    AddPeersAppend(c, EMPTY, qs[..|qs| - 1], p);
    AddFromFacts(c, AddPeers(c, EMPTY, qs[..|qs| - 1]), p, 0, x);
  }

  /** The name of a virtual node is a key that hashes to its point. */
  lemma PointKey(c: Config, p: string, x: int, i: nat) returns (key: string)
    requires i <= c.replicas && HasPoint(c, p, x, i)
    ensures c.hash(key) == x
    decreases c.replicas - i
  {
    if c.Point(i, p) == x { key := FormatInt(i) + p; } else { key := PointKey(c, p, x, i + 1); }
  }

  /** A shared point, and a key that leads to it. */
  lemma SharedPoint(c: Config, ps: seq<string>, p: string, x: int) returns (key: string)
    requires p in ps && HasPoint(c, p, x, 0)
    ensures Succeeds(Build(c, ps).bag, c.hash(key), x)
  {
    key := PointKey(c, p, x, 0);
    Built(c, ps, x);
  }

  /** Every reordering of a list of peers gives every key the same owner if and only if different peers of
      the list share no point. */
  lemma SameOwnerExactly(c: Config, ps: seq<string>)
    ensures Apart(c, ps) <==>
            forall qs, key, a, b ::
              (multiset(qs) == multiset(ps) && Answers(Build(c, ps), c.hash(key), a)
               && Answers(Build(c, qs), c.hash(key), b))
              ==> a == b
  {
    if Apart(c, ps) {
      forall qs, key, a, b | multiset(qs) == multiset(ps) && Answers(Build(c, ps), c.hash(key), a)
          && Answers(Build(c, qs), c.hash(key), b)
        ensures a == b
      {
        SameMembers(ps, qs);
        SameOwner(c, ps, qs, c.hash(key), a, b);
      }
    } else {
      var p, q, x :| p in ps && q in ps && HasPoint(c, p, x, 0) && HasPoint(c, q, x, 0) && p != q;
      var key := SharedPoint(c, ps, p, x);
      LastAnswers(c, ps, p, c.hash(key), x);
      LastAnswers(c, ps, q, c.hash(key), x);
      assert Answers(Build(c, ps), c.hash(key), OwnerOf(Build(c, ps), x));
    }
  }
}

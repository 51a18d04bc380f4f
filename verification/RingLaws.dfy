/** What a ring built from a list of peers is (internal/consistenthash/consistenthash.go:34-71), point by point. */
module RingLaws {
  import opened Decimal
  import opened RingModel

  lemma {:induction false} PointsFrom(c: Config, peer: string, x: int, i: nat)
    requires i <= c.replicas
    ensures HasPoint(c, peer, x, i) <==> exists j: nat :: i <= j < c.replicas && c.hash(FormatInt(j) + peer) == x
    decreases c.replicas - i
  {
    if i < c.replicas {
      PointsFrom(c, peer, x, i + 1);
      if exists j: nat :: i <= j < c.replicas && c.hash(FormatInt(j) + peer) == x {
        var j: nat :| i <= j < c.replicas && c.hash(FormatInt(j) + peer) == x;
        assert j == i || (i + 1 <= j < c.replicas && c.hash(FormatInt(j) + peer) == x);
      }
    }
  }

  /** The points of a peer are the hashes of its name behind each number below the number of replicas. */
  lemma PointsExactly(c: Config, peer: string, x: int)
    ensures HasPoint(c, peer, x, 0) <==> exists j: nat :: j < c.replicas && c.hash(FormatInt(j) + peer) == x
  {
    PointsFrom(c, peer, x, 0);
  }

  /** The points of the ring are those of the listed peers; each belongs to the last listed one that has it. */
  lemma {:induction false} BuildExactly(c: Config, peers: seq<string>, x: int)
    ensures var r := Build(c, peers);
      && (x in r.bag <==> x in r.owner)
      && (x in r.bag <==> exists p :: p in peers && HasPoint(c, p, x, 0))
      && (x in r.bag ==> exists j: nat :: LastAt(c, peers, x, j) && r.owner[x] == peers[j])
    decreases |peers|
  {
    if peers != [] {
      var n := |peers| - 1;
      var front, p := peers[..n], peers[n];
      assert peers == front + [p];
      BuildExactly(c, front, x);
      AddPeersAppend(c, EMPTY, front, p);
      AddFromFacts(c, Build(c, front), p, 0, x);
      if HasPoint(c, p, x, 0) {
        assert LastAt(c, peers, x, n);
      } else if x in Build(c, front).bag {
        var j: nat :| LastAt(c, front, x, j) && Build(c, front).owner[x] == front[j];
        assert LastAt(c, peers, x, j);
      }
    }
  }

  /** Peer number `j` has the point, and none after it. */
  ghost predicate LastAt(c: Config, peers: seq<string>, x: int, j: nat) {
    j < |peers| && HasPoint(c, peers[j], x, 0) && forall i :: j < i < |peers| ==> !HasPoint(c, peers[i], x, 0)
  }

  /** A lookup answers the last listed peer that has the first point at or after the hash, going round. */
  lemma LookupExactly(c: Config, peers: seq<string>, h: int, peer: string)
    ensures Answers(Build(c, peers), h, peer) <==>
            if Build(c, peers).bag == multiset{} then peer == ""
            else exists x, j: nat :: Succeeds(Build(c, peers).bag, h, x) && LastAt(c, peers, x, j) && peer == peers[j]
  {
    var r := Build(c, peers);
    if r.bag != multiset{} {
      if Answers(r, h, peer) {
        var x :| Succeeds(r.bag, h, x) && peer == OwnerOf(r, x);
        BuildExactly(c, peers, x);
        var j: nat :| LastAt(c, peers, x, j) && r.owner[x] == peers[j];
      }
      if x: int, j: nat :| Succeeds(r.bag, h, x) && LastAt(c, peers, x, j) && peer == peers[j] {
        BuildExactly(c, peers, x);
        var i: nat :| LastAt(c, peers, x, i) && r.owner[x] == peers[i];
        assert i == j;
      }
    }
  }
}

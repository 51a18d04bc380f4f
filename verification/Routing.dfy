/**
 Peer routing (http.go `Set` and `pickPeer`, groupcache.go `loadFromPeer`): each node builds a ring from
 its own list of peers and forwards a key to the ring's owner unless that is the node itself. A node
 that serves a forwarded Get decides again in the same way.
 */
module Routing {
  import opened RingModel

  datatype Node = Node(self: string, peers: seq<string>)

  /** The nodes that can be reached, by address. */
  type Cluster = map<string, Node>

  /** The ring's answer for the key on this node. */
  ghost predicate Owner(c: Config, n: Node, key: string, peer: string) {
    Answers(Build(c, n.peers), c.hash(key), peer)
  }

  /** `pickPeer` on node `n` chooses `peer`. */
  ghost predicate Picks(c: Config, n: Node, key: string, peer: string) {
    Owner(c, n, key, peer) && peer != "" && peer != n.self
  }

  /** A Get for `key` at address `a` is forwarded to address `b`. */
  ghost predicate Forwards(c: Config, cl: Cluster, key: string, a: string, b: string) {
    a in cl && Picks(c, cl[a], key, b)
  }

  /** A chain of forwards. */
  ghost predicate Chain(c: Config, cl: Cluster, key: string, path: seq<string>) {
    path != [] && forall i :: 0 <= i < |path| - 1 ==> Forwards(c, cl, key, path[i], path[i + 1])
  }

  /** Every node answers under its own address and lists the peers `ps`, in whatever order and with
      whatever repetitions. */
  ghost predicate Listing(cl: Cluster, ps: seq<string>) {
    forall a :: a in cl ==> cl[a].self == a && forall p :: p in cl[a].peers <==> p in ps
  }

  /** If points of different peers do not collide, all nodes agree on every key's owner. */
  lemma OwnersAgree(c: Config, ps: seq<string>, cl: Cluster, key: string, a: string, b: string, p: string, q: string)
    requires Apart(c, ps) && Listing(cl, ps) && a in cl && b in cl
    requires Owner(c, cl[a], key, p) && Owner(c, cl[b], key, q)
    ensures p == q
  {
    SameOwner(c, cl[a].peers, cl[b].peers, c.hash(key), p, q);
  }

  /** The peer a node picks is in its list, so the getter that `Set` made for it exists; and it has a virtual
      node at the point the key leads to. */
  lemma PickedIsListed(c: Config, n: Node, key: string, peer: string) returns (x: int)
    requires Picks(c, n, key, peer)
    ensures peer in n.peers
    ensures Succeeds(Build(c, n.peers).bag, c.hash(key), x) && HasPoint(c, peer, x, 0)
  {
    x :| Succeeds(Build(c, n.peers).bag, c.hash(key), x) && peer == OwnerOf(Build(c, n.peers), x);
    Built(c, n.peers, x);
  }

  /** No two different peers of the list share a point; the empty name is never picked. */
  ghost predicate Separate(c: Config, ps: seq<string>) {
    forall p, q, x ::
      p in ps && q in ps && p != "" && q != "" && HasPoint(c, p, x, 0) && HasPoint(c, q, x, 0) ==> p == q
  }

  /** The node a key is forwarded to never forwards it again. */
  lemma OwnerServes(c: Config, ps: seq<string>, cl: Cluster, key: string, a: string, b: string, d: string)
    requires Separate(c, ps) && Listing(cl, ps) && Forwards(c, cl, key, a, b)
    ensures !Forwards(c, cl, key, b, d)
  {
    if Forwards(c, cl, key, b, d) {
      var x := PickedIsListed(c, cl[a], key, b);
      var y := PickedIsListed(c, cl[b], key, d);
      SamePoints(c, cl[a].peers, cl[b].peers, c.hash(key), x);
      SuccessorUnique(Build(c, cl[b].peers).bag, c.hash(key), x, y);
    }
  }

  /** Any Get takes at most one peer hop. */
  lemma AtMostOneHop(c: Config, ps: seq<string>, cl: Cluster, key: string, path: seq<string>)
    requires Separate(c, ps) && Listing(cl, ps) && Chain(c, cl, key, path)
    ensures |path| <= 2
  {
    if |path| > 2 {
      assert Forwards(c, cl, key, path[0], path[1]) && Forwards(c, cl, key, path[1], path[2]);
      OwnerServes(c, ps, cl, key, path[0], path[1], path[2]);
    }
  }

  // ----- and only then

  /** Two nodes, each of which lists the other last. */
  function Crossed(ps: seq<string>, p: string, q: string): Cluster
    requires p in ps && q in ps
  {
    map[p := Node(p, ToEnd(ps, q)), q := Node(q, ToEnd(ps, p))]
  }

  lemma CrossedListing(ps: seq<string>, p: string, q: string)
    requires p in ps && q in ps
    ensures Listing(Crossed(ps, p, q), ps)
  {
    ToEndFacts(ps, p);
    ToEndFacts(ps, q);
    SameMembers(ps, ToEnd(ps, p));
    SameMembers(ps, ToEnd(ps, q));
  }

  /** When two peers share a point, nodes that list the same peers in different orders forward any key that
      leads to that point to each other. */
  lemma CollisionsReturn(c: Config, ps: seq<string>, p: string, q: string, x: int, key: string)
    requires p in ps && q in ps && p != q && p != "" && q != ""
    requires HasPoint(c, p, x, 0) && HasPoint(c, q, x, 0) && Succeeds(Build(c, ps).bag, c.hash(key), x)
    ensures var cl := Crossed(ps, p, q);
      Listing(cl, ps) && Forwards(c, cl, key, p, q) && Forwards(c, cl, key, q, p)
  {
    LastAnswers(c, ps, p, c.hash(key), x);
    LastAnswers(c, ps, q, c.hash(key), x);
    CrossedListing(ps, p, q);
    assert Picks(c, Node(p, ToEnd(ps, q)), key, q) && Picks(c, Node(q, ToEnd(ps, p)), key, p);
  }

  /** So they do for some key as soon as two peers share a point. */
  lemma SharedReturns(c: Config, ps: seq<string>) returns (cl: Cluster, p: string, q: string, key: string)
    requires !Separate(c, ps)
    ensures p != q && Listing(cl, ps) && Forwards(c, cl, key, p, q) && Forwards(c, cl, key, q, p)
    ensures p in cl && q in cl
  {
    var x;
    p, q, x :| p in ps && q in ps && p != "" && q != "" && HasPoint(c, p, x, 0) && HasPoint(c, q, x, 0) && p != q;
    cl := Crossed(ps, p, q);
    key := SharedPoint(c, ps, p, x);
    CollisionsReturn(c, ps, p, q, x, key);
  }

  /** Gets take at most one hop in every cluster that lists the peers `ps`, in any orders, if and only if
      different peers share no point. */
  lemma OneHopExactly(c: Config, ps: seq<string>)
    ensures Separate(c, ps) <==>
            forall cl, key, path :: Listing(cl, ps) && Chain(c, cl, key, path) ==> |path| <= 2
  {
    if Separate(c, ps) {
      forall cl, key, path | Listing(cl, ps) && Chain(c, cl, key, path) ensures |path| <= 2 {
        AtMostOneHop(c, ps, cl, key, path);
      }
    } else {
      var cl, p, q, key := SharedReturns(c, ps);
      assert Chain(c, cl, key, [p, q, p]);
    }
  }
}

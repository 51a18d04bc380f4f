/** The peer pool (http.go `HTTPPool`): its ring and its getters, replaced together by `Set`. */
module Pools {
  import opened RingModel
  import opened HashRings
  import opened Routing

  datatype Pick = NoPeer | Peer(address: string, baseURL: string)

  class HTTPPool {
    const self: string
    const basePath: string
    const c: Config
    var peers: HashRing?
    var httpGetters: map<string, string>
    ghost var listed: seq<string>

    ghost predicate Valid()
      reads this, peers
    {
      && (peers == null ==> listed == [])
      && (peers != null ==> peers.Valid() && peers.c == c && peers.Model() == Build(c, listed))
      && (forall p :: p in listed ==> p in httpGetters && httpGetters[p] == p + basePath)
    }

    ghost function AsNode(): Node reads this { Node(self, listed) }

    constructor (self: string, basePath: string, c: Config)
      ensures Valid() && AsNode() == Node(self, []) && this.c == c
    {
      this.self, this.basePath, this.c := self, basePath, c;
      peers, httpGetters, listed := null, map[], [];
    }

    /** Afterwards the pool routes as a node with exactly this peer list. */
    method Set(ps: seq<string>)
      requires Valid()
      modifies this
      ensures Valid() && AsNode() == Node(self, ps)
    {
      var ring := new HashRing(c);
      ring.Add(ps);
      peers := ring;
      var getters: map<string, string> := map[];
      var i := 0;
      while i < |ps|
        invariant 0 <= i <= |ps|
        invariant forall p :: p in ps[..i] ==> p in getters && getters[p] == p + basePath
        invariant peers == ring && ring.Valid() && ring.c == c && ring.Model() == Build(c, ps)
        modifies {}
      {
        getters := getters[ps[i] := ps[i] + basePath];
        i := i + 1;
      }
      assert ps[..|ps|] == ps;
      httpGetters, listed := getters, ps;
    }

    /** Picks the ring's owner with its getter, unless that is this node or there is none. */
    method PickPeer(key: string) returns (r: Pick)
      requires Valid()
      ensures r.Peer? ==> Picks(c, AsNode(), key, r.address) && r.baseURL == r.address + basePath
      ensures r.NoPeer? ==> forall p :: !Picks(c, AsNode(), key, p)
    {
      if peers == null {
        assert Answers(Build(c, []), c.hash(key), "");
        forall p ensures !Picks(c, AsNode(), key, p) {
          if Owner(c, AsNode(), key, p) { AnswerUnique(Build(c, []), c.hash(key), p, ""); }
        }
        return NoPeer;
      }
      var peer := peers.Get(key);
      if peer != "" && peer != self {
        var _ := PickedIsListed(c, AsNode(), key, peer);
        return Peer(peer, httpGetters[peer]);
      }
      forall p ensures !Picks(c, AsNode(), key, p) {
        if Owner(c, AsNode(), key, p) { AnswerUnique(Build(c, listed), c.hash(key), p, peer); }
      }
      return NoPeer;
    }
  }
}

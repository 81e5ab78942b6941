/**
 * The peer registry shared by both implementations: a map from device id
 * to the last peer record seen for it, and the rule that decides, for one
 * incoming record, whether the observer has discovered a new peer, seen a
 * change of that peer's grab state, or neither.
 */
module Peers {

  /** A discovered device (Go `Peer`, Rust `Peer`: the same five fields). */
  datatype Peer = Peer(id: string, ip: string, name: string, isHolding: bool, heldFile: string)

  /** The registry, keyed by device id. */
  type Registry = map<string, Peer>

  /** What reconciling one incoming record means for the observer. */
  datatype Change = Discovered | GrabChanged | Silent

  /** The stored and the incoming record disagree on the grab state. */
  predicate GrabDiffers(stored: Peer, incoming: Peer) {
    stored.isHolding != incoming.isHolding || stored.heldFile != incoming.heldFile
  }

  /** Classifies an incoming record against the registry as it was before the write. */
  function Classify(peers: Registry, p: Peer): Change {
    if p.id !in peers then Discovered
    else if GrabDiffers(peers[p.id], p) then GrabChanged
    else Silent
  }

  /** Last writer wins: the entry for `p.id` becomes `p`. */
  function Upsert(peers: Registry, p: Peer): Registry {
    peers[p.id := p]
  }

  /** The write stores `p` under its id, adds no other key and touches no other entry. */
  lemma UpsertStores(peers: Registry, p: Peer)
    ensures Upsert(peers, p).Keys == peers.Keys + {p.id}
    ensures Upsert(peers, p)[p.id] == p
    ensures forall k :: k in peers && k != p.id ==> Upsert(peers, p)[k] == peers[k]
  {
  }

  /** The key count grows by one exactly when the id was new, and stays otherwise. */
  lemma UpsertSize(peers: Registry, p: Peer)
    ensures |Upsert(peers, p)| == if p.id in peers then |peers| else |peers| + 1
  {
    var r := Upsert(peers, p);
    if p.id in peers {
      assert r.Keys == peers.Keys;
    } else {
      assert r.Keys == peers.Keys + {p.id};
      assert |r.Keys| == |peers.Keys| + 1;
    }
  }

  /** Seeing the same record again right after storing it changes nothing. */
  lemma ReconcileIdempotent(peers: Registry, p: Peer)
    ensures Classify(Upsert(peers, p), p) == Silent
    ensures Upsert(Upsert(peers, p), p) == Upsert(peers, p)
  {
  }

  /** Classification by cases: new id, changed grab state, or unchanged. */
  lemma ClassifyCases(peers: Registry, p: Peer)
    ensures Classify(peers, p) == Discovered <==> p.id !in peers
    ensures Classify(peers, p) == GrabChanged <==> p.id in peers && GrabDiffers(peers[p.id], p)
    ensures Classify(peers, p) == Silent <==> p.id in peers && !GrabDiffers(peers[p.id], p)
  {
  }
}

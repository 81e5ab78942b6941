/**
 * The desktop client's discovery state (clients/desktop/src-tauri/src/discovery.rs):
 * the same reconciliation rule as the Go engine, except that the peer's IP is
 * copied from the beacon payload and the sender's address is ignored, and
 * that events are delivered by calling a callback with `(peer, isGrabUpdate)`.
 */
module RustDiscovery {
  import opened Common
  import opened Peers

  /** The beacon payload (`BeaconPacket`): it carries the sender's own idea of its IP. */
  datatype BeaconPacket = BeaconPacket(id: string, ip: string, name: string, isHolding: bool, heldFile: string)

  /**
   * One received datagram: the payload (`None` when it is not UTF-8 or not a
   * beacon in JSON) and the sender's address, which the listener receives
   * but does not use.
   */
  datatype Datagram = Datagram(payload: Option<BeaconPacket>, source: string)

  /** One call `on_peer(peer, isGrabUpdate)`. */
  datatype Notification = Notification(peer: Peer, isGrabUpdate: bool)

  /** The peer copied field for field from the payload, including its `ip`. */
  function PeerOf(packet: BeaconPacket): Peer {
    Peer(packet.id, packet.ip, packet.name, packet.isHolding, packet.heldFile)
  }

  /** The packet `start_beacon` builds from the current state. */
  function BeaconOf(deviceId: string, localIp: string, deviceName: string, isHolding: bool, heldFile: string): BeaconPacket {
    BeaconPacket(deviceId, localIp, deviceName, isHolding, heldFile)
  }

  /** The registry after a step and the callback calls made by that step. */
  datatype Step = Step(peers: Registry, calls: seq<Notification>)

  /** The callback call, if any, for a record classified against the old table. */
  function CallsFor(change: Change, peer: Peer): seq<Notification> {
    match change
    case Discovered => [Notification(peer, false)]
    case GrabChanged => [Notification(peer, true)]
    case Silent => []
  }

  /** The body of the `start_listener` loop for one datagram. */
  function Receive(localId: string, peers: Registry, d: Datagram): Step {
    match d.payload
    case None => Step(peers, [])
    case Some(packet) =>
      if packet.id == localId then Step(peers, [])
      else
        var peer := PeerOf(packet);
        Step(Upsert(peers, peer), CallsFor(Classify(peers, peer), peer))
  }

  /** The Tauri event the application's callback emits for one call. */
  function EventName(n: Notification): string {
    if n.isGrabUpdate then "grab-update" else "peer-discovered"
  }

  /** A payload that does not decode, or one carrying the local id, touches nothing and calls nothing. */
  lemma IgnoredDatagrams(localId: string, peers: Registry, d: Datagram)
    requires d.payload.None? || d.payload.value.id == localId
    ensures Receive(localId, peers, d) == Step(peers, [])
  {
  }

  /**
   * Any other beacon stores exactly the peer copied from the payload,
   * including the payload's `ip`, and leaves every other entry as it was.
   */
  lemma ReceiveStores(localId: string, peers: Registry, d: Datagram)
    requires d.payload.Some? && d.payload.value.id != localId
    ensures var p := d.payload.value;
      var r := Receive(localId, peers, d).peers;
      && r.Keys == peers.Keys + {p.id}
      && r[p.id] == Peer(p.id, p.ip, p.name, p.isHolding, p.heldFile)
      && forall k :: k in peers && k != p.id ==> r[k] == peers[k]
  {
    UpsertStores(peers, PeerOf(d.payload.value));
  }

  /**
   * The callback is called with `(peer, false)` exactly when the id was new,
   * with `(peer, true)` exactly when the id was known and `is_holding` or
   * `held_file` differed, and not at all otherwise; the Tauri event is
   * "peer-discovered" or "grab-update" accordingly.
   */
  lemma ReceiveCalls(localId: string, peers: Registry, d: Datagram)
    requires d.payload.Some? && d.payload.value.id != localId
    ensures var p := d.payload.value;
      var peer := PeerOf(p);
      var s := Receive(localId, peers, d);
      && (s.calls == [Notification(peer, false)] <==> p.id !in peers)
      && (s.calls == [Notification(peer, true)] <==>
            p.id in peers && (peers[p.id].isHolding != p.isHolding || peers[p.id].heldFile != p.heldFile))
      && (s.calls == [] <==> p.id in peers && !GrabDiffers(peers[p.id], peer))
      && (s.calls != [] ==> (EventName(s.calls[0]) == "peer-discovered" <==> p.id !in peers))
  {
  }

  /** A repeated identical packet produces no callback and leaves the table as it is. */
  lemma ReceiveTwice(localId: string, peers: Registry, d: Datagram)
    ensures var s := Receive(localId, peers, d);
      Receive(localId, s.peers, d) == Step(s.peers, [])
  {
    if d.payload.Some? && d.payload.value.id != localId {
      ReconcileIdempotent(peers, PeerOf(d.payload.value));
    }
  }

  /** The sender's address plays no part: only the payload decides the outcome. */
  lemma SourceIgnored(localId: string, peers: Registry, payload: Option<BeaconPacket>, a1: string, a2: string)
    ensures Receive(localId, peers, Datagram(payload, a1)) == Receive(localId, peers, Datagram(payload, a2))
  {
  }

  /** `DiscoveryState`: identity, grab state, peer table, and the callback calls made so far. */
  class DiscoveryState {
    const deviceId: string
    const deviceName: string
    const localIp: string
    var isHolding: bool
    var heldFile: string
    var peers: Registry
    var calls: seq<Notification>

    /** The self-packet filter keeps the local id out of the table. */
    ghost predicate Valid()
      reads this
    {
      deviceId !in peers
    }

    /**
     * `DiscoveryState::new`: the id, host name and local IP are OS queries and
     * are given; a failed host-name query yields "Unknown" and a failed IP
     * query "127.0.0.1".
     */
    constructor (id: string, hostname: Option<string>, ip: Option<string>)
      ensures Valid()
      ensures deviceId == id
      ensures deviceName == (if hostname.Some? then hostname.value else "Unknown")
      ensures localIp == (if ip.Some? then ip.value else "127.0.0.1")
      ensures !isHolding && heldFile == "" && peers == map[] && calls == []
    {
      deviceId := id;
      deviceName := if hostname.Some? then hostname.value else "Unknown";
      localIp := if ip.Some? then ip.value else "127.0.0.1";
      isHolding := false;
      heldFile := "";
      peers := map[];
      calls := [];
    }

    /** `set_grab`. */
    method SetGrab(filename: string)
      modifies this
      ensures isHolding && heldFile == filename
      ensures peers == old(peers) && calls == old(calls)
    {
      isHolding := true;
      heldFile := filename;
    }

    /** `clear_grab`: `held_file.clear()` leaves the empty string. */
    method ClearGrab()
      modifies this
      ensures !isHolding && heldFile == ""
      ensures peers == old(peers) && calls == old(calls)
    {
      isHolding := false;
      heldFile := [];
    }

    /** The packet `start_beacon` copies from the state under the read lock. */
    function Beacon(): BeaconPacket
      reads this
    {
      BeaconOf(deviceId, localIp, deviceName, isHolding, heldFile)
    }

    /** The listener loop body for one received datagram. */
    method HandleDatagram(d: Datagram)
      requires Valid()
      modifies this
      ensures Valid()
      ensures peers == Receive(deviceId, old(peers), d).peers
      ensures calls == old(calls) + Receive(deviceId, old(peers), d).calls
      ensures isHolding == old(isHolding) && heldFile == old(heldFile)
    {
      if d.payload.None? {
        return;
      }
      var packet := d.payload.value;
      if packet.id == deviceId {
        return;
      }
      var peer := Peer(packet.id, packet.ip, packet.name, packet.isHolding, packet.heldFile);
      var isNew := peer.id !in peers;
      var isGrabUpdate := if peer.id in peers
        then peers[peer.id].isHolding != peer.isHolding || peers[peer.id].heldFile != peer.heldFile
        else false;
      peers := peers[peer.id := peer];
      if isNew {
        calls := calls + [Notification(peer, false)];
      } else if isGrabUpdate {
        calls := calls + [Notification(peer, true)];
      }
    }
  }

  /** A fresh state holds nothing and knows no peer; a beacon built next copies it. */
  method FreshBeacon(id: string, hostname: Option<string>, ip: Option<string>, file: string)
    returns (idle: BeaconPacket, holding: BeaconPacket)
    ensures idle == BeaconPacket(id, if ip.Some? then ip.value else "127.0.0.1",
                                 if hostname.Some? then hostname.value else "Unknown", false, "")
    ensures holding == idle.(isHolding := true, heldFile := file)
  {
    var s := new DiscoveryState(id, hostname, ip);
    idle := s.Beacon();
    s.SetGrab(file);
    holding := s.Beacon();
  }
}

/**
 * The Go engine's discovery state (engine/discovery/discovery.go): the local
 * identity, the grab state, the peer table, and the listener step that
 * reconciles one received beacon into the table and prints at most one
 * event line. The peer's IP is the transport's source address.
 */
module GoDiscovery {
  import opened Common
  import opened Peers

  const DiscoveryPort := 9988
  const ServicePort := 8080

  /** The beacon payload (`BeaconPacket`). */
  datatype BeaconPacket = BeaconPacket(
    deviceId: string,
    deviceName: string,
    servicePort: int,
    isHolding: bool,
    heldFile: string)

  /**
   * One datagram as the listener sees it: the decoded payload (`None` when
   * the JSON does not decode) and the IP of the sender's address.
   */
  datatype Datagram = Datagram(payload: Option<BeaconPacket>, sourceIp: string)

  /** The two event lines, `[PEER_FOUND] {peer}` and `[GRAB_UPDATE] {peer}`. */
  datatype Event = PeerFound(peer: Peer) | GrabUpdate(peer: Peer)

  /** The peer record built from a packet: the IP comes from the transport. */
  function PeerOf(packet: BeaconPacket, sourceIp: string): Peer {
    Peer(packet.deviceId, sourceIp, packet.deviceName, packet.isHolding, packet.heldFile)
  }

  /** The beacon broadcast on each tick for the given identity and grab state. */
  function BeaconOf(deviceId: string, deviceName: string, isHolding: bool, heldFile: string): BeaconPacket {
    BeaconPacket(deviceId, deviceName, ServicePort, isHolding, heldFile)
  }

  /** The registry after a step and the event lines that step printed. */
  datatype Step = Step(peers: Registry, events: seq<Event>)

  /** The event line, if any, for a record classified against the old table. */
  function EventFor(change: Change, peer: Peer): seq<Event> {
    match change
    case Discovered => [PeerFound(peer)]
    case GrabChanged => [GrabUpdate(peer)]
    case Silent => []
  }

  /** The listener's handling of one datagram, under the peer lock. */
  function Receive(localId: string, peers: Registry, d: Datagram): Step {
    match d.payload
    case None => Step(peers, [])
    case Some(packet) =>
      if packet.deviceId == localId then Step(peers, [])
      else
        var peer := PeerOf(packet, d.sourceIp);
        Step(Upsert(peers, peer), EventFor(Classify(peers, peer), peer))
  }

  /** The listener's handling of a sequence of datagrams, in arrival order. */
  function ReceiveAll(localId: string, peers: Registry, ds: seq<Datagram>): Step
    decreases |ds|
  {
    if ds == [] then Step(peers, [])
    else
      var s := ReceiveAll(localId, peers, ds[..|ds| - 1]);
      var t := Receive(localId, s.peers, ds[|ds| - 1]);
      Step(t.peers, s.events + t.events)
  }

  /** `d` carries a decodable beacon sent by device `x`. */
  predicate IsFrom(d: Datagram, x: string) {
    d.payload.Some? && d.payload.value.deviceId == x
  }

  /** Some datagram of `ds` carries a decodable beacon from `x`. */
  predicate SentBy(ds: seq<Datagram>, x: string) {
    exists i :: 0 <= i < |ds| && IsFrom(ds[i], x)
  }

  /** How many `[PEER_FOUND]` lines in `events` are about device `x`. */
  function FoundCount(events: seq<Event>, x: string): nat {
    if events == [] then 0
    else FoundCount(events[..|events| - 1], x) + (if events[|events| - 1].PeerFound? && events[|events| - 1].peer.id == x then 1 else 0)
  }

  // ---------------------------------------------------------------------
  // Properties of one step

  /** A payload that does not decode, or one from the local device, changes nothing and prints nothing. */
  lemma IgnoredDatagrams(localId: string, peers: Registry, d: Datagram)
    requires d.payload.None? || d.payload.value.deviceId == localId
    ensures Receive(localId, peers, d) == Step(peers, [])
  {
  }

  /**
   * A beacon from another device X stores exactly the peer built from the
   * packet and the source IP under X, and leaves every other key as it was.
   */
  lemma ReceiveStores(localId: string, peers: Registry, d: Datagram)
    requires d.payload.Some? && d.payload.value.deviceId != localId
    ensures var x := d.payload.value.deviceId;
      var r := Receive(localId, peers, d).peers;
      && r.Keys == peers.Keys + {x}
      && r[x] == Peer(x, d.sourceIp, d.payload.value.deviceName, d.payload.value.isHolding, d.payload.value.heldFile)
      && forall k :: k in peers && k != x ==> r[k] == peers[k]
  {
    UpsertStores(peers, PeerOf(d.payload.value, d.sourceIp));
  }

  /**
   * `[PEER_FOUND]` is printed exactly when the sender was absent, and then
   * the table grows by one key; `[GRAB_UPDATE]` is printed exactly when the
   * sender was present and its stored grab state differs from the packet.
   */
  lemma ReceiveEvents(localId: string, peers: Registry, d: Datagram)
    requires d.payload.Some? && d.payload.value.deviceId != localId
    ensures var packet := d.payload.value;
      var peer := PeerOf(packet, d.sourceIp);
      var s := Receive(localId, peers, d);
      && (s.events == [PeerFound(peer)] <==> packet.deviceId !in peers)
      && (packet.deviceId !in peers ==> |s.peers| == |peers| + 1)
      && (s.events == [GrabUpdate(peer)] <==>
            packet.deviceId in peers
            && (peers[packet.deviceId].isHolding != packet.isHolding
                || peers[packet.deviceId].heldFile != packet.heldFile))
      && (s.events == [] <==> packet.deviceId in peers && !GrabDiffers(peers[packet.deviceId], peer))
  {
    UpsertSize(peers, PeerOf(d.payload.value, d.sourceIp));
  }

  /** At most one event line per datagram. */
  lemma AtMostOneEvent(localId: string, peers: Registry, d: Datagram)
    ensures |Receive(localId, peers, d).events| <= 1
  {
  }

  /** The same datagram handled twice in a row: the second time prints nothing and changes nothing. */
  lemma ReceiveTwice(localId: string, peers: Registry, d: Datagram)
    ensures var s := Receive(localId, peers, d);
      Receive(localId, s.peers, d) == Step(s.peers, [])
  {
    if d.payload.Some? && d.payload.value.deviceId != localId {
      ReconcileIdempotent(peers, PeerOf(d.payload.value, d.sourceIp));
    }
  }

  /** The local id never becomes a key, and no key is ever removed. */
  lemma ReceivePreserves(localId: string, peers: Registry, d: Datagram)
    requires localId !in peers
    ensures localId !in Receive(localId, peers, d).peers
    ensures peers.Keys <= Receive(localId, peers, d).peers.Keys
  {
  }

  /** A beacon built from a grab state reaches the receiver with that state and the sender's identity. */
  lemma BeaconRoundTrip(deviceId: string, deviceName: string, isHolding: bool, heldFile: string, ip: string)
    ensures var b := BeaconOf(deviceId, deviceName, isHolding, heldFile);
      && b.servicePort == 8080
      && PeerOf(b, ip) == Peer(deviceId, ip, deviceName, isHolding, heldFile)
  {
  }

  // ---------------------------------------------------------------------
  // Properties of a run of the listener

  lemma {:induction false} ReceiveAllKeys(localId: string, peers: Registry, ds: seq<Datagram>, x: string)
    ensures x in ReceiveAll(localId, peers, ds).peers <==> x in peers || (x != localId && SentBy(ds, x))
    decreases |ds|
  {
    if ds != [] {
      var init := ds[..|ds| - 1];
      var last := ds[|ds| - 1];
      ReceiveAllKeys(localId, peers, init, x);
      SentBySplit(ds, x);
    }
  }

  lemma {:induction false} FoundCountAppend(a: seq<Event>, b: seq<Event>, x: string)
    ensures FoundCount(a + b, x) == FoundCount(a, x) + FoundCount(b, x)
    decreases |b|
  {
    if b == [] {
      assert a + b == a;
    } else {
      assert (a + b)[..|a + b| - 1] == a + b[..|b| - 1];
      FoundCountAppend(a, b[..|b| - 1], x);
    }
  }

  /** One step prints `[PEER_FOUND]` for X once when X is new, not local, and the sender; never otherwise. */
  lemma FoundInStep(localId: string, peers: Registry, d: Datagram, x: string)
    ensures FoundCount(Receive(localId, peers, d).events, x)
         == if x !in peers && x != localId && IsFrom(d, x) then 1 else 0
  {
    var events := Receive(localId, peers, d).events;
    if events != [] {
      assert events[..0] == [];
    }
  }

  /** X sent something in a run exactly when it sent something before the last datagram, or the last one. */
  lemma SentBySplit(ds: seq<Datagram>, x: string)
    requires ds != []
    ensures SentBy(ds, x) <==> SentBy(ds[..|ds| - 1], x) || IsFrom(ds[|ds| - 1], x)
  {
    var init := ds[..|ds| - 1];
    if SentBy(ds, x) && !IsFrom(ds[|ds| - 1], x) {
      var i :| 0 <= i < |ds| && IsFrom(ds[i], x);
      assert init[i] == ds[i];
    }
    if SentBy(init, x) {
      var i :| 0 <= i < |init| && IsFrom(init[i], x);
      assert ds[i] == init[i];
    }
  }

  /**
   * Over any run, `[PEER_FOUND]` is printed for device X exactly once if X
   * was not yet known, is not the local device and sent a decodable beacon,
   * and never otherwise.
   */
  lemma {:induction false} FoundExactlyOnce(localId: string, peers: Registry, ds: seq<Datagram>, x: string)
    ensures FoundCount(ReceiveAll(localId, peers, ds).events, x)
         == if x !in peers && x != localId && SentBy(ds, x) then 1 else 0
    decreases |ds|
  {
    if ds != [] {
      var init := ds[..|ds| - 1];
      var last := ds[|ds| - 1];
      var s := ReceiveAll(localId, peers, init);
      var t := Receive(localId, s.peers, last);
      FoundExactlyOnce(localId, peers, init, x);
      ReceiveAllKeys(localId, peers, init, x);
      SentBySplit(ds, x);
      FoundCountAppend(s.events, t.events, x);
      FoundInStep(localId, s.peers, last, x);
    }
  }

  /**
   * Last writer wins: after a run, the entry for X is the peer built from
   * the last beacon X sent, whatever came before it.
   */
  lemma {:induction false} LastWriterWins(localId: string, peers: Registry, ds: seq<Datagram>, x: string, i: nat)
    requires i < |ds| && IsFrom(ds[i], x) && x != localId
    requires forall j :: i < j < |ds| ==> !IsFrom(ds[j], x)
    ensures var r := ReceiveAll(localId, peers, ds).peers;
      x in r && r[x] == PeerOf(ds[i].payload.value, ds[i].sourceIp)
    decreases |ds|
  {
    var init := ds[..|ds| - 1];
    if i < |ds| - 1 {
      forall j | i < j < |init| ensures !IsFrom(init[j], x) {
        assert init[j] == ds[j];
      }
      LastWriterWins(localId, peers, init, x, i);
    }
  }

  // ---------------------------------------------------------------------
  // The Discovery object

  /** `Discovery`: identity, peer table, grab state, and the lines printed so far. */
  class Discovery {
    const deviceId: string
    const deviceName: string
    var peers: Registry
    var isHolding: bool
    var heldFile: string
    var output: seq<Event>

    /** The self-packet filter keeps the local id out of the table. */
    ghost predicate Valid()
      reads this
    {
      deviceId !in peers
    }

    /** `New`: the id and host name are OS queries, so they are given; a failed host-name query yields "Unknown". */
    constructor (id: string, hostname: Option<string>)
      ensures Valid()
      ensures deviceId == id
      ensures deviceName == (if hostname.Some? then hostname.value else "Unknown")
      ensures peers == map[] && !isHolding && heldFile == "" && output == []
    {
      deviceId := id;
      deviceName := if hostname.Some? then hostname.value else "Unknown";
      peers := map[];
      isHolding := false;
      heldFile := "";
      output := [];
    }

    /** `SetGrab`: start holding `filename`, replacing any file held before. */
    method SetGrab(filename: string)
      modifies this
      ensures isHolding && heldFile == filename
      ensures peers == old(peers) && output == old(output)
    {
      isHolding := true;
      heldFile := filename;
    }

    /** `ClearGrab`: hold nothing. */
    method ClearGrab()
      modifies this
      ensures !isHolding && heldFile == ""
      ensures peers == old(peers) && output == old(output)
    {
      isHolding := false;
      heldFile := "";
    }

    /** `IsHolding`: the current grab state. */
    method IsHolding() returns (holding: bool, file: string)
      ensures holding == isHolding && file == heldFile
    {
      holding, file := isHolding, heldFile;
    }

    /** The packet `startBeacon` builds on a tick from the current state. */
    function Beacon(): BeaconPacket
      reads this
    {
      BeaconOf(deviceId, deviceName, isHolding, heldFile)
    }

    /** The body of the `startListener` loop for one received datagram. */
    method HandleDatagram(d: Datagram)
      requires Valid()
      modifies this
      ensures Valid()
      ensures peers == Receive(deviceId, old(peers), d).peers
      ensures output == old(output) + Receive(deviceId, old(peers), d).events
      ensures isHolding == old(isHolding) && heldFile == old(heldFile)
    {
      if d.payload.None? {
        return;
      }
      var packet := d.payload.value;
      if packet.deviceId == deviceId {
        return;
      }
      var existing: Option<Peer> := if packet.deviceId in peers then Some(peers[packet.deviceId]) else None;
      var peer := Peer(packet.deviceId, d.sourceIp, packet.deviceName, packet.isHolding, packet.heldFile);
      peers := peers[packet.deviceId := peer];
      if existing.None? {
        output := output + [PeerFound(peer)];
      } else if existing.value.isHolding != packet.isHolding || existing.value.heldFile != packet.heldFile {
        output := output + [GrabUpdate(peer)];
      }
    }

    /** The `startListener` loop over the datagrams it receives before it is stopped. */
    method Listen(ds: seq<Datagram>)
      requires Valid()
      modifies this
      ensures Valid()
      ensures peers == ReceiveAll(deviceId, old(peers), ds).peers
      ensures output == old(output) + ReceiveAll(deviceId, old(peers), ds).events
      ensures isHolding == old(isHolding) && heldFile == old(heldFile)
    {
      var i := 0;
      while i < |ds|
        invariant 0 <= i <= |ds|
        invariant Valid()
        invariant peers == ReceiveAll(deviceId, old(peers), ds[..i]).peers
        invariant output == old(output) + ReceiveAll(deviceId, old(peers), ds[..i]).events
        invariant isHolding == old(isHolding) && heldFile == old(heldFile)
      {
        assert ds[..i + 1][..i] == ds[..i];
        HandleDatagram(ds[i]);
        i := i + 1;
      }
      assert ds[..|ds|] == ds;
    }
  }

  /**
   * Device A is seen by device B, then grabs `file`: B prints `[PEER_FOUND]`
   * for A not holding, then `[GRAB_UPDATE]` for A holding `file`. A device
   * never sees itself.
   */
  method GrabHandoff(aId: string, bId: string, file: string, ip: string) returns (seen: seq<Event>)
    ensures seen == if aId == bId then []
                    else [PeerFound(Peer(aId, ip, "A", false, "")), GrabUpdate(Peer(aId, ip, "A", true, file))]
  {
    var a := new Discovery(aId, Some("A"));
    var b := new Discovery(bId, Some("B"));
    b.HandleDatagram(Datagram(Some(a.Beacon()), ip));
    a.SetGrab(file);
    b.HandleDatagram(Datagram(Some(a.Beacon()), ip));
    seen := b.output;
  }
}

/** The three commands that drive a node: peer.add, peer.remove and peers.sync. */
module Reconciler {
  import opened Options
  import opened Names
  import opened Host

  // ---------------------------------------------------------------- peer.add

  datatype AddPayload = AddPayload(
    id: string, asn: int, pubkey: string, endpoint: string, lla: string,
    listenPort: int, iface: string, mtu: Option<int>, psk: Option<string>)

  datatype AddReply =
    | Added | AlreadyActive
    | WgAddFailed(wg: WgResult) | BirdAddFailed(bird: BirdResult) | StorePutFailed

  function IfaceOr(iface: string, asn: int): string {
    if iface == "" then InterfaceName(asn) else iface
  }

  function AddIface(p: AddPayload): string {
    IfaceOr(p.iface, p.asn)
  }

  function AddWgSettings(p: AddPayload): WgSettings {
    WgSettings(p.asn, p.listenPort, p.pubkey, p.endpoint, p.mtu, p.psk)
  }

  function AddBirdSettings(p: AddPayload): BirdSettings {
    BirdSettings(p.asn, p.lla, AddIface(p))
  }

  function AddRecord(p: AddPayload): PeerInfo {
    PeerInfo(p.asn, p.lla, AddIface(p), ProtocolName(p.asn), BirdFileName(p.asn))
  }

  /** handlePeerAdd */
  function Add(w: World, n: Node, p: AddPayload): (Node, AddReply) {
    var iface := AddIface(p);
    if p.id in n.peers && iface in n.up then (n, AlreadyActive)
    else
      var n0 := if iface in n.up then RemoveWg(w, n, iface) else n;
      var (n1, wg) := AddWg(w, n0, iface, AddWgSettings(p));
      if !wg.WgAdded? then (n1, WgAddFailed(wg))
      else
        var (n2, bird) := AddBird(w, n1, AddBirdSettings(p));
        if !bird.BirdAdded? then (RemoveWg(w, n2, iface), BirdAddFailed(bird))
        else
          var (n3, stored) := PutPeer(w, n2, p.id, AddRecord(p));
          if !stored then (RemoveWg(w, RemoveBird(w, n3, BirdFileName(p.asn)), iface), StorePutFailed)
          else (n3, Added)
  }

  // ---------------------------------------------------------------- peer.remove

  datatype RemoveReply = UnknownPeer | Removed

  function RemoveAsn(n: Node, id: string, asn: int): int {
    if asn == 0 && id in n.peers then n.peers[id].asn else asn
  }

  function RemoveFile(n: Node, id: string, asn: int): string {
    if id in n.peers && n.peers[id].birdFile != "" then n.peers[id].birdFile else BirdFileName(RemoveAsn(n, id, asn))
  }

  function RemoveIface(n: Node, id: string, asn: int): string {
    if id in n.peers && n.peers[id].iface != "" then n.peers[id].iface else InterfaceName(RemoveAsn(n, id, asn))
  }

  /** handlePeerRemove: teardown errors are logged, never reported. */
  function Remove(w: World, n: Node, id: string, asn: int): (Node, RemoveReply) {
    if RemoveAsn(n, id, asn) == 0 then (n, UnknownPeer)
    else
      var n1 := RemoveBird(w, n, RemoveFile(n, id, asn));
      var n2 := RemoveWg(w, n1, RemoveIface(n, id, asn));
      (DeletePeer(w, n2, id), Removed)
  }

  // ---------------------------------------------------------------- peers.sync

  datatype SyncPeer = SyncPeer(
    id: string, asn: int, endpoint: string, pubkey: string, lla: string, listenPort: int,
    iface: string, proto: string, birdFile: string, mtu: Option<int>, psk: Option<string>)
  {
    predicate Valid() { asn > 0 && id != "" }

    function Iface(): string { IfaceOr(iface, asn) }

    /** The BIRD file the peer is looked up by; AddBird always writes the default one. */
    function BirdFile(): string { if birdFile == "" then BirdFileName(asn) else birdFile }

    function Wg(): WgSettings { WgSettings(asn, listenPort, pubkey, endpoint, mtu, psk) }

    function Bird(): BirdSettings { BirdSettings(asn, lla, Iface()) }

    function Record(): PeerInfo {
      PeerInfo(asn, lla, Iface(), if proto == "" then ProtocolName(asn) else proto, BirdFile())
    }
  }

  /** The peers a sync acts on: the others are malformed, or have neither a key nor a WireGuard file. */
  predicate Kept(n: Node, p: SyncPeer) {
    p.Valid() && (p.pubkey != "" || p.Iface() in n.wg)
  }

  predicate NeedsWg(n: Node, p: SyncPeer) {
    p.pubkey != "" && (p.Iface() !in n.wg || p.Iface() !in n.up)
  }

  predicate NeedsBird(n: Node, p: SyncPeer) {
    p.BirdFile() !in n.bird
  }

  /** The WireGuard half of one round of the sync loop. */
  function SyncWg(w: World, n: Node, p: SyncPeer): (Node, bool) {
    if NeedsWg(n, p) then
      var (n1, r) := AddWg(w, n, p.Iface(), p.Wg());
      (n1, r.WgAdded?)
    else (n, true)
  }

  /** The BIRD half. */
  function SyncBird(w: World, n: Node, p: SyncPeer): (Node, bool) {
    if NeedsBird(n, p) then
      var (n1, r) := AddBird(w, n, p.Bird());
      (n1, r.BirdAdded?)
    else (n, true)
  }

  datatype SyncState = SyncState(node: Node, desired: map<string, PeerInfo>, applied: seq<string>, failed: seq<string>)

  /** One round of the loop over the payload. */
  function SyncOne(w: World, a: SyncState, p: SyncPeer): SyncState {
    if !Kept(a.node, p) then a
    else
      var (n1, wgOk) := SyncWg(w, a.node, p);
      var (n2, birdOk) := SyncBird(w, n1, p);
      SyncState(n2, a.desired[p.id := p.Record()],
                if wgOk && birdOk then a.applied + [p.id] else a.applied,
                if wgOk && birdOk then a.failed else a.failed + [p.id])
  }

  function Create(w: World, n: Node, peers: seq<SyncPeer>): SyncState {
    if peers == [] then SyncState(n, map[], [], [])
    else SyncOne(w, Create(w, n, peers[..|peers| - 1]), peers[|peers| - 1])
  }

  /** The records of the store that the desired map no longer has, in cursor order. */
  function Stale(keys: seq<string>, peers: map<string, PeerInfo>, desired: map<string, PeerInfo>): (r: seq<PeerInfo>)
    requires forall k :: k in keys ==> k in peers
  {
    if keys == [] then []
    else
      var rest := Stale(keys[..|keys| - 1], peers, desired);
      var k := keys[|keys| - 1];
      if k in desired then rest else rest + [peers[k]]
  }

  function StaleIface(info: PeerInfo): string {
    IfaceOr(info.iface, info.asn)
  }

  function StaleFile(info: PeerInfo): string {
    if info.birdFile != "" then info.birdFile else BirdFileName(info.asn)
  }

  function TeardownOne(w: World, n: Node, info: PeerInfo): Node {
    RemoveWg(w, RemoveBird(w, n, StaleFile(info)), StaleIface(info))
  }

  function Teardown(w: World, n: Node, stale: seq<PeerInfo>): Node {
    if stale == [] then n
    else TeardownOne(w, Teardown(w, n, stale[..|stale| - 1]), stale[|stale| - 1])
  }

  /** The stale records as a walk of the store with the cursor collects them. */
  function StaleOf(w: World, peers: map<string, PeerInfo>, desired: map<string, PeerInfo>): seq<PeerInfo>
    requires Enumerates(w.cursor(peers.Keys), peers.Keys)
  {
    Stale(w.cursor(peers.Keys), peers, desired)
  }

  /** handlePeersSync. The result of ReplaceAll is not looked at. */
  ghost function Sync(w: World, n: Node, peers: seq<SyncPeer>): SyncState
    requires Lawful(w)
  {
    var a := Create(w, n, peers);
    var stale := StaleOf(w, a.node.peers, a.desired);
    var (n1, _) := ReplaceAll(w, a.node, a.desired);
    a.(node := Teardown(w, n1, stale))
  }

  /** The process starts again. */
  function Restart(n: Node): Node {
    n.(dead := false)
  }
}

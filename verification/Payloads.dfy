/** What a node holds of a peer, field by field from the payload that announced it. */
module Payloads {
  import opened Options
  import opened Decimal
  import opened Host
  import opened Reconciler

  /** The payload's interface, or the default one of its AS number. */
  function IfaceFor(given: string, asn: int): string {
    if given != "" then given else "dn42" + Print(asn)
  }

  function FileFor(given: string, asn: int): string {
    if given != "" then given else "dn42_" + Print(asn) + ".conf"
  }

  predicate Tunnel(s: WgSettings, asn: int, port: int, key: string, endpoint: string, mtu: Option<int>,
                   psk: Option<string>) {
    && s.asn == asn && s.listenPort == port && s.pubkey == key && s.endpoint == endpoint && s.mtu == mtu
    && s.psk == psk
  }

  /** The interface has a whole WireGuard file for this remote end. */
  predicate Tunnelled(n: Node, iface: string, asn: int, port: int, key: string, endpoint: string, mtu: Option<int>,
                      psk: Option<string>) {
    iface in n.wg && n.wg[iface].Whole? && Tunnel(n.wg[iface].settings, asn, port, key, endpoint, mtu, psk)
  }

  /** The default BIRD file of the AS number is a whole one for this session. */
  predicate Routed(n: Node, asn: int, lla: string, iface: string) {
    var f := "dn42_" + Print(asn) + ".conf";
    && f in n.bird && n.bird[f].Whole?
    && n.bird[f].settings.asn == asn && n.bird[f].settings.lla == lla && n.bird[f].settings.iface == iface
  }

  predicate Recorded(r: PeerInfo, asn: int, lla: string, iface: string, proto: string, file: string) {
    && r.asn == asn && r.lla == lla && r.iface == iface
    && r.proto == (if proto != "" then proto else "dn42_" + Print(asn)) && r.birdFile == FileFor(file, asn)
  }

  /** All of an added peer. */
  predicate HoldsAdded(n: Node, p: AddPayload) {
    var iface := IfaceFor(p.iface, p.asn);
    && Tunnelled(n, iface, p.asn, p.listenPort, p.pubkey, p.endpoint, p.mtu, p.psk) && iface in n.up
    && Routed(n, p.asn, p.lla, iface)
    && p.id in n.peers && Recorded(n.peers[p.id], p.asn, p.lla, iface, "", "")
  }

  /** The record of a synced peer. */
  predicate RecordsSynced(r: PeerInfo, p: SyncPeer) {
    Recorded(r, p.asn, p.lla, IfaceFor(p.iface, p.asn), p.proto, p.birdFile)
  }

  /** A sync acts on the peer: it has an AS number and an id, and a key or a WireGuard file. */
  predicate ActsOn(n: Node, p: SyncPeer) {
    p.asn > 0 && p.id != "" && (p.pubkey == "" ==> IfaceFor(p.iface, p.asn) in n.wg)
  }
}

/** The promises of peers.sync: what holds under arbitrary failures, what holds when commands succeed, and
    exactly when a peer reported as applied is still there at the end. */
module SyncTheorems {
  import opened Names
  import opened Host
  import opened Reconciler
  import opened SyncSteps
  import opened PeersSync
  import opened Payloads

  /** The store swap of this sync succeeds. */
  ghost predicate Commits(w: World, n: Node, peers: seq<SyncPeer>) {
    var a := Create(w, n, peers);
    ReplaceAll(w, a.node, a.desired).1
  }

  /** A stored record that the sync drops names this interface, or this BIRD file. */
  ghost predicate StaleIfaceIn(n: Node, desired: map<string, PeerInfo>, k: string) {
    exists id :: id in n.peers && id !in desired && StaleIface(n.peers[id]) == k
  }

  ghost predicate StaleFileIn(n: Node, desired: map<string, PeerInfo>, f: string) {
    exists id :: id in n.peers && id !in desired && StaleFile(n.peers[id]) == f
  }

  /** The BIRD file a sync relies on for a peer: the one it finds the peer by, or else the default one it writes. */
  function OwnFile(n: Node, p: SyncPeer): string {
    if p.BirdFile() in n.bird then p.BirdFile() else BirdFileName(p.asn)
  }

  /** No record to be dropped names the interface of the peer, or its BIRD file. */
  ghost predicate ApartFrom(n: Node, desired: map<string, PeerInfo>, p: SyncPeer) {
    !StaleIfaceIn(n, desired, p.Iface()) && !StaleFileIn(n, desired, OwnFile(n, p))
  }

  /** No dropped record shares a name with a peer that stays. */
  ghost predicate StaleApart(n: Node, peers: seq<SyncPeer>) {
    forall j :: 0 <= j < |peers| && Kept(n, peers[j]) ==> ApartFrom(n, DesiredMap(n, peers), peers[j])
  }

  /** The end of a sync, seen from the state after its creation loop. */
  ghost predicate Ending(n: Node, a: SyncState, m: Node, committed: bool) {
    && m.peers == (if committed then a.desired else n.peers)
    && (a.node.dead ==> m == a.node)
    && (forall k :: k in m.wg ==> k in a.node.wg && m.wg[k] == a.node.wg[k])
    && (forall k :: k in m.up ==> k in a.node.up)
    && (forall f :: f in m.bird ==> f in a.node.bird && m.bird[f] == a.node.bird[f])
    && (forall k :: k in a.node.wg && !StaleIfaceIn(n, a.desired, k) ==> k in m.wg)
    && (forall k :: k in a.node.up && !StaleIfaceIn(n, a.desired, k) ==> k in m.up)
    && (forall f :: f in a.node.bird && !StaleFileIn(n, a.desired, f) ==> f in m.bird)
  }

  ghost predicate Swept(n: Node, a: SyncState, m: Node) {
    && !m.dead
    && (forall k :: StaleIfaceIn(n, a.desired, k) ==> k !in m.wg && k !in m.up)
    && (forall f :: StaleFileIn(n, a.desired, f) ==> f !in m.bird)
  }

  lemma StaleNames(n: Node, desired: map<string, PeerInfo>, stale: seq<PeerInfo>)
    requires forall info :: info in stale <==> exists id :: id in n.peers && id !in desired && n.peers[id] == info
    ensures forall k :: NamesIface(stale, k) <==> StaleIfaceIn(n, desired, k)
    ensures forall f :: NamesFile(stale, f) <==> StaleFileIn(n, desired, f)
  {
    forall id | id in n.peers && id !in desired
      ensures NamesIface(stale, StaleIface(n.peers[id])) && NamesFile(stale, StaleFile(n.peers[id]))
    {
      assert n.peers[id] in stale;
    }
    forall i | 0 <= i < |stale|
      ensures StaleIfaceIn(n, desired, StaleIface(stale[i])) && StaleFileIn(n, desired, StaleFile(stale[i]))
    {
      assert stale[i] in stale;
    }
  }

  /** How a sync ends, in any world. */
  lemma SyncEnds(w: World, n: Node, peers: seq<SyncPeer>)
    requires Lawful(w)
    ensures var a, s := Create(w, n, peers), Sync(w, n, peers);
            && s.desired == a.desired && s.applied == a.applied && s.failed == a.failed
            && Ending(n, a, s.node, Commits(w, n, peers))
            && (Smooth(w) && !n.dead ==> Commits(w, n, peers) && Swept(n, a, s.node))
  {
    var a := Create(w, n, peers);
    CreateKeepsStore(w, n, peers);
    var keys := w.cursor(n.peers.Keys);
    assert Enumerates(keys, n.peers.Keys);
    var stale := Stale(keys, n.peers, a.desired);
    forall info ensures info in stale <==> exists id :: id in n.peers && id !in a.desired && n.peers[id] == info {
      StaleSound(keys, n.peers, a.desired, info);
    }
    StaleNames(n, a.desired, stale);
    var n1 := ReplaceAll(w, a.node, a.desired).0;
    TeardownTearsDown(w, n1, stale);
    if Smooth(w) && !n.dead {
      SmoothCreate(w, n, peers);
      SmoothTeardown(w, n1, stale);
    }
  }

  lemma {:induction false} NoneStale(keys: seq<string>, peers: map<string, PeerInfo>, desired: map<string, PeerInfo>)
    requires forall k :: k in keys ==> k in peers && k in desired
    ensures Stale(keys, peers, desired) == []
  {
    if keys != [] {
      NoneStale(keys[..|keys| - 1], peers, desired);
    }
  }

  /** A sync that drops no record ends where its creation loop does, but for the store. */
  lemma NothingDropped(w: World, n: Node, peers: seq<SyncPeer>)
    requires Lawful(w) && n.peers.Keys <= Create(w, n, peers).desired.Keys
    ensures var a, m := Create(w, n, peers), Sync(w, n, peers).node;
            && m == a.node.(peers := m.peers, clock := m.clock, dead := m.dead)
            && m.peers == (if Commits(w, n, peers) then a.desired else n.peers)
            && (!a.node.dead && w.outcome(StoreReplace, a.node.clock).Ok? ==> !m.dead && Commits(w, n, peers))
  {
    CreateKeepsStore(w, n, peers);
    var keys := w.cursor(n.peers.Keys);
    assert Enumerates(keys, n.peers.Keys);
    NoneStale(keys, n.peers, Create(w, n, peers).desired);
  }

  // ---------------------------------------------------------------- the store and the report

  ghost predicate NoDuplicates(ids: seq<string>) {
    forall i, j :: 0 <= i < j < |ids| ==> ids[i] != ids[j]
  }

  /** Every id in the desired map is that of a valid peer of the payload and is in the report, and the other way
      round. */
  lemma {:induction false} DesiredIsReported(w: World, n: Node, peers: seq<SyncPeer>, id: string)
    ensures var a := Create(w, n, peers);
            && (id in a.desired <==> id in a.applied || id in a.failed)
            && (id in a.desired ==> exists j :: 0 <= j < |peers| && peers[j].Valid() && peers[j].id == id)
  {
    if peers != [] {
      var front, last := peers[..|peers| - 1], peers[|peers| - 1];
      DesiredIsReported(w, n, front, id);
      var a := Create(w, n, front);
      if id in a.desired {
        var j :| 0 <= j < |front| && front[j].Valid() && front[j].id == id;
        assert peers[j] == front[j];
      }
    }
  }

  lemma {:induction false} ReportedOnce(w: World, n: Node, peers: seq<SyncPeer>)
    requires DistinctIds(peers)
    ensures var a := Create(w, n, peers);
            NoDuplicates(a.applied) && NoDuplicates(a.failed) && forall id :: id in a.applied ==> id !in a.failed
  {
    if peers != [] {
      var front, last := peers[..|peers| - 1], peers[|peers| - 1];
      ReportedOnce(w, n, front);
      var a := Create(w, n, front);
      if Kept(a.node, last) {
        DesiredIsReported(w, n, front, last.id);
        var _, _ := SyncOneRound(w, a, last);
      }
    }
  }

  /** Whatever commands fail and whatever names the payload's peers share, once the swap commits `applied` and
      `failed` partition the ids of the store, and every one of them is the id of a valid peer of the payload. */
  lemma ReportPartitionsStore(w: World, n: Node, peers: seq<SyncPeer>)
    requires Lawful(w) && DistinctIds(peers) && Commits(w, n, peers)
    ensures var s := Sync(w, n, peers);
            && (forall id :: id in s.node.peers <==> id in s.applied || id in s.failed)
            && (forall id :: id in s.applied ==> id !in s.failed)
            && NoDuplicates(s.applied) && NoDuplicates(s.failed)
            && (forall id :: id in s.node.peers ==>
                  exists j :: 0 <= j < |peers| && peers[j].Valid() && peers[j].id == id)
  {
    SyncEnds(w, n, peers);
    ReportedOnce(w, n, peers);
    var a := Create(w, n, peers);
    forall id
      ensures id in a.desired <==> id in a.applied || id in a.failed
      ensures id in a.desired ==> exists j :: 0 <= j < |peers| && peers[j].Valid() && peers[j].id == id
    {
      DesiredIsReported(w, n, peers, id);
    }
  }

  lemma KeptPayload(n: Node, p: SyncPeer)
    ensures (ActsOn(n, p) <==> Kept(n, p)) && RecordsSynced(p.Record(), p)
  {
  }

  /** The store is exactly the peers a sync acts on, each under a record with the fields of its payload. */
  ghost predicate StoresSynced(n: Node, peers: seq<SyncPeer>, store: map<string, PeerInfo>) {
    && (forall j :: 0 <= j < |peers| && ActsOn(n, peers[j]) ==>
          peers[j].id in store && RecordsSynced(store[peers[j].id], peers[j]))
    && (forall id :: id in store ==> exists j :: 0 <= j < |peers| && ActsOn(n, peers[j]) && peers[j].id == id)
  }

  lemma DesiredFromPayload(n: Node, peers: seq<SyncPeer>)
    requires DistinctIds(peers)
    ensures StoresSynced(n, peers, DesiredMap(n, peers))
  {
    var d := DesiredMap(n, peers);
    forall j | 0 <= j < |peers| && ActsOn(n, peers[j])
      ensures peers[j].id in d && RecordsSynced(d[peers[j].id], peers[j])
    {
      KeptPayload(n, peers[j]);
      DesiredHolds(n, peers, j);
    }
    forall id | id in d ensures exists j :: 0 <= j < |peers| && ActsOn(n, peers[j]) && peers[j].id == id {
      var j := DesiredFrom(n, peers, id);
      KeptPayload(n, peers[j]);
    }
  }

  /** With distinct interfaces, which peers stay is decided by the node before the sync, whatever BIRD files they name:
      whatever commands fail, once the swap commits the store holds exactly the peers the sync acts on, each under a
      record with the fields of its payload. */
  lemma StoreIsDesired(w: World, n: Node, peers: seq<SyncPeer>)
    requires Lawful(w) && DistinctIfaces(peers) && DistinctIds(peers) && Commits(w, n, peers)
    ensures var s := Sync(w, n, peers); s.node.peers == DesiredMap(n, peers) && StoresSynced(n, peers, s.node.peers)
  {
    SyncEnds(w, n, peers);
    DesiredIsDecided(w, n, peers);
    DesiredFromPayload(n, peers);
  }

  // ---------------------------------------------------------------- what an applied peer has

  /** In any world a peer that the sync reports as applied has its WireGuard file and is up if it carries a key, unless
      a dropped record names its interface; and with separate BIRD files it has its own, unless a dropped record names
      that. A file that was there is as it was, and one that is written holds what the payload says. */
  lemma AppliedMeansApplied(w: World, n: Node, peers: seq<SyncPeer>, j: nat)
    requires Lawful(w) && DistinctIfaces(peers) && DistinctIds(peers)
    requires j < |peers| && Kept(n, peers[j]) && peers[j].id in Sync(w, n, peers).applied
    ensures var p, m, d := peers[j], Sync(w, n, peers).node, DesiredMap(n, peers);
            var i, f := IfaceFor(p.iface, p.asn), OwnFile(n, p);
            && (!StaleIfaceIn(n, d, i) ==> i in m.wg && (p.pubkey != "" ==> i in m.up))
            && (!StaleIfaceIn(n, d, i) ==>
                  if p.pubkey != "" && !(i in n.wg && i in n.up)
                  then Tunnelled(m, i, p.asn, p.listenPort, p.pubkey, p.endpoint, p.mtu, p.psk)
                  else SameAt(n.wg, m.wg, i))
            && (FilesApart(peers) && !StaleFileIn(n, d, f) ==>
                  if FileFor(p.birdFile, p.asn) in n.bird then SameAt(n.bird, m.bird, f)
                  else Routed(m, p.asn, p.lla, i))
  {
    SyncEnds(w, n, peers);
    DesiredIsDecided(w, n, peers);
    var _, _ := WgOutcome(w, n, peers, j);
    if FilesApart(peers) {
      var _, _ := PeerOutcome(w, n, peers, j);
    }
  }

  /** Teardown runs after creation. When commands succeed, an applied peer ends with its WireGuard file, and up if it
      carries a key, if and only if no record to be dropped names its interface; with the BIRD file it was found by if
      and only if none names that; and, with separate BIRD files, with the default one written for it if and only if
      none names that. */
  lemma AppliedSurvivesIff(w: World, n: Node, peers: seq<SyncPeer>, j: nat)
    requires Smooth(w) && !n.dead && DistinctIfaces(peers) && DistinctIds(peers)
    requires j < |peers| && Kept(n, peers[j]) && peers[j].id in Sync(w, n, peers).applied
    ensures var p, m, d := peers[j], Sync(w, n, peers).node, DesiredMap(n, peers);
            var i, f, own := p.Iface(), p.BirdFile(), BirdFileName(p.asn);
            && (i in m.wg <==> !StaleIfaceIn(n, d, i))
            && (p.pubkey != "" ==> (i in m.up <==> !StaleIfaceIn(n, d, i)))
            && (f in n.bird ==> (f in m.bird <==> !StaleFileIn(n, d, f)))
            && (FilesApart(peers) && f !in n.bird ==> (own in m.bird <==> !StaleFileIn(n, d, own)))
  {
    SyncEnds(w, n, peers);
    DesiredIsDecided(w, n, peers);
    assert peers[..0] == [];
    SmoothGrows(w, n, peers, 0);
    var _, _ := WgOutcome(w, n, peers, j);
    if FilesApart(peers) {
      var _, _ := PeerOutcome(w, n, peers, j);
    }
  }

  /** When commands succeed the creation loop removes nothing. */
  /** Rounds in which commands succeed remove no BIRD file. */
  lemma {:induction false} SmoothGrows(w: World, n: Node, peers: seq<SyncPeer>, k: nat)
    requires Smooth(w) && !n.dead && k <= |peers|
    ensures Create(w, n, peers[..k]).node.bird.Keys <= Create(w, n, peers).node.bird.Keys
    decreases |peers|
  {
    if k == |peers| {
      assert peers[..k] == peers;
    } else {
      var last := |peers| - 1;
      assert peers[..last][..k] == peers[..k] && peers[..last + 1] == peers;
      SmoothGrows(w, n, peers[..last], k);
      var _, _, _, _ := RoundAt(w, n, peers, last);
    }
  }

  /** The failing family: a peer announced again under a new id with the same AS number and default names is
      reported as applied, and both its files are gone. */
  lemma RenamedPeerIsLost(w: World, n: Node, formerId: string, p: SyncPeer)
    requires Smooth(w) && !n.dead
    requires p.Valid() && p.pubkey != "" && p.endpoint != "" && p.iface == "" && p.birdFile == ""
    requires n.peers ==
               map[formerId := PeerInfo(p.asn, p.lla, InterfaceName(p.asn), ProtocolName(p.asn), BirdFileName(p.asn))]
    requires formerId != p.id
    ensures var s := Sync(w, n, [p]);
            s.applied == [p.id] && p.Iface() !in s.node.wg && p.Iface() !in s.node.up && p.BirdFile() !in s.node.bird
  {
    AppliedAlone(w, n, p);
    FormerIsStale(n, formerId, p);
    StaleIsLost(w, n, [p], p.Iface(), p.BirdFile());
  }

  lemma StaleIsLost(w: World, n: Node, peers: seq<SyncPeer>, k: string, f: string)
    requires Smooth(w) && !n.dead && DistinctIfaces(peers)
    requires StaleIfaceIn(n, DesiredMap(n, peers), k) && StaleFileIn(n, DesiredMap(n, peers), f)
    ensures var m := Sync(w, n, peers).node; k !in m.wg && k !in m.up && f !in m.bird
  {
    DesiredIsDecided(w, n, peers);
    SyncEnds(w, n, peers);
  }

  lemma FormerIsStale(n: Node, formerId: string, p: SyncPeer)
    requires Kept(n, p) && p.iface == "" && p.birdFile == "" && formerId != p.id
    requires n.peers ==
               map[formerId := PeerInfo(p.asn, p.lla, InterfaceName(p.asn), ProtocolName(p.asn), BirdFileName(p.asn))]
    ensures StaleIfaceIn(n, DesiredMap(n, [p]), p.Iface()) && StaleFileIn(n, DesiredMap(n, [p]), p.BirdFile())
  {
    var peers := [p];
    assert peers[..0] == [] && DesiredMap(n, peers[..0]) == map[] && DesiredMap(n, peers) == map[p.id := p.Record()];
    assert formerId in n.peers && |InterfaceName(p.asn)| > 0 && |BirdFileName(p.asn)| > 0;
  }

  lemma AppliedAlone(w: World, n: Node, p: SyncPeer)
    requires Smooth(w) && !n.dead && Kept(n, p) && p.endpoint != ""
    ensures Sync(w, n, [p]).applied == [p.id]
  {
    var peers := [p];
    assert peers[..0] == [] && peers[..1] == peers;
    var _, _, _, _ := RoundAt(w, n, peers, 0);
    SyncEnds(w, n, peers);
  }

  // ---------------------------------------------------------------- what a sync leaves alone

  /** A sync, in any world, leaves alone every interface that neither its payload nor a stored record names. */
  lemma SyncLeavesAlone(w: World, n: Node, peers: seq<SyncPeer>, k: string)
    requires Lawful(w)
    requires forall j :: 0 <= j < |peers| && peers[j].Valid() ==> peers[j].Iface() != k
    requires forall id :: id in n.peers ==> StaleIface(n.peers[id]) != k
    ensures SameAt(n.wg, Sync(w, n, peers).node.wg, k) && (k in n.up <==> k in Sync(w, n, peers).node.up)
  {
    assert peers[..0] == [];
    CreateKeepsWg(w, n, peers, 0, k);
    SyncEnds(w, n, peers);
    var a := Create(w, n, peers);
    assert !StaleIfaceIn(n, a.desired, k);
    EndingKeepsIface(n, a, Sync(w, n, peers).node, Commits(w, n, peers), k);
  }

  /** And every BIRD file that is neither the default file of a peer of the payload nor named by a stored record. */
  lemma SyncLeavesFileAlone(w: World, n: Node, peers: seq<SyncPeer>, f: string)
    requires Lawful(w)
    requires forall j :: 0 <= j < |peers| && peers[j].Valid() ==> BirdFileName(peers[j].asn) != f
    requires forall id :: id in n.peers ==> StaleFile(n.peers[id]) != f
    ensures SameAt(n.bird, Sync(w, n, peers).node.bird, f)
  {
    assert peers[..0] == [];
    CreateKeepsBird(w, n, peers, 0, f);
    SyncEnds(w, n, peers);
    var a := Create(w, n, peers);
    assert !StaleFileIn(n, a.desired, f);
    EndingKeepsFile(n, a, Sync(w, n, peers).node, Commits(w, n, peers), f);
  }

  lemma EndingKeepsIface(n: Node, a: SyncState, m: Node, committed: bool, k: string)
    requires Ending(n, a, m, committed) && !StaleIfaceIn(n, a.desired, k)
    ensures SameAt(a.node.wg, m.wg, k) && (k in a.node.up <==> k in m.up)
  {
  }

  lemma EndingKeepsFile(n: Node, a: SyncState, m: Node, committed: bool, f: string)
    requires Ending(n, a, m, committed) && !StaleFileIn(n, a.desired, f)
    ensures SameAt(a.node.bird, m.bird, f)
  {
  }
}

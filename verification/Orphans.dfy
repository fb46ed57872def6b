/** Files that no record names: exactly when a sync leaves the two directories in step with the store. */
module Orphans {
  import opened Names
  import opened Host
  import opened Reconciler
  import opened SyncSteps
  import opened PeersSync
  import opened SyncTheorems
  import opened SyncFixpoint
  import opened Reloading
  import opened Retention

  /** Some record names this interface, or this BIRD file. */
  ghost predicate NamedIface(peers: map<string, PeerInfo>, k: string) {
    exists id :: id in peers && StaleIface(peers[id]) == k
  }

  ghost predicate NamedFile(peers: map<string, PeerInfo>, f: string) {
    exists id :: id in peers && StaleFile(peers[id]) == f
  }

  /** The WireGuard files, or the BIRD files, are those the store names. */
  ghost predicate WgMatchesStore(n: Node) {
    forall k :: k in n.wg <==> NamedIface(n.peers, k)
  }

  ghost predicate BirdMatchesStore(n: Node) {
    forall f :: f in n.bird <==> NamedFile(n.peers, f)
  }

  // ---------------------------------------------------------------- what the desired records name

  ghost predicate KeptIface(n: Node, peers: seq<SyncPeer>, k: string) {
    exists j :: 0 <= j < |peers| && Kept(n, peers[j]) && peers[j].Iface() == k
  }

  ghost predicate KeptFile(n: Node, peers: seq<SyncPeer>, f: string) {
    exists j :: 0 <= j < |peers| && Kept(n, peers[j]) && peers[j].BirdFile() == f
  }

  lemma RecordNames(p: SyncPeer)
    ensures StaleIface(p.Record()) == p.Iface() && StaleFile(p.Record()) == p.BirdFile()
  {
    assert |InterfaceName(p.asn)| > 0 && |BirdFileName(p.asn)| > 0;
  }

  lemma DesiredNamesIface(n: Node, peers: seq<SyncPeer>, k: string)
    requires DistinctIds(peers)
    ensures NamedIface(DesiredMap(n, peers), k) <==> KeptIface(n, peers, k)
  {
    var d := DesiredMap(n, peers);
    if id :| id in d && StaleIface(d[id]) == k {
      var j := DesiredFrom(n, peers, id);
      RecordNames(peers[j]);
    }
    if j :| 0 <= j < |peers| && Kept(n, peers[j]) && peers[j].Iface() == k {
      DesiredHolds(n, peers, j);
      RecordNames(peers[j]);
    }
  }

  lemma DesiredNamesFile(n: Node, peers: seq<SyncPeer>, f: string)
    requires DistinctIds(peers)
    ensures NamedFile(DesiredMap(n, peers), f) <==> KeptFile(n, peers, f)
  {
    var d := DesiredMap(n, peers);
    if id :| id in d && StaleFile(d[id]) == f {
      var j := DesiredFrom(n, peers, id);
      RecordNames(peers[j]);
    }
    if j :| 0 <= j < |peers| && Kept(n, peers[j]) && peers[j].BirdFile() == f {
      DesiredHolds(n, peers, j);
      RecordNames(peers[j]);
    }
  }

  // ---------------------------------------------------------------- what a sync leaves, name by name

  /** A sync of a payload with distinct ids and interfaces that meets no failure and reports none. */
  ghost predicate RunsSmoothly(w: World, n: Node, peers: seq<SyncPeer>) {
    Smooth(w) && !n.dead && DistinctIfaces(peers) && DistinctIds(peers) && Sync(w, n, peers).failed == []
  }

  lemma IfaceAfter(w: World, n: Node, peers: seq<SyncPeer>, k: string)
    requires RunsSmoothly(w, n, peers)
    ensures var m, d := Sync(w, n, peers).node, DesiredMap(n, peers);
            && (k in m.wg <==> (k in n.wg || KeptIface(n, peers, k)) && !StaleIfaceIn(n, d, k))
            && ((k in n.up <==> k in n.wg) ==> (k in m.up <==> k in m.wg))
  {
    SyncEnds(w, n, peers);
    DesiredIsDecided(w, n, peers);
    if j :| 0 <= j < |peers| && peers[j].Valid() && peers[j].Iface() == k {
      var _, _ := WgOutcome(w, n, peers, j);
      assert KeptIface(n, peers, k) <==> Kept(n, peers[j]);
    } else {
      assert peers[..0] == [];
      CreateKeepsWg(w, n, peers, 0, k);
      assert !KeptIface(n, peers, k);
    }
  }

  lemma FileAfter(w: World, n: Node, peers: seq<SyncPeer>, f: string)
    requires Smooth(w) && !n.dead && Separate(peers)
    ensures var m, d := Sync(w, n, peers).node, DesiredMap(n, peers);
            f in m.bird <==> (f in n.bird || WritesFile(n, peers, f)) && !StaleFileIn(n, d, f)
  {
    SyncEnds(w, n, peers);
    DesiredIsDecided(w, n, peers);
    if j :| 0 <= j < |peers| && peers[j].Valid() && BirdFileName(peers[j].asn) == f {
      var _, _ := PeerOutcome(w, n, peers, j);
      assert WritesFile(n, peers, f) <==> Kept(n, peers[j]) && NeedsBird(n, peers[j]);
    } else {
      assert peers[..0] == [];
      CreateKeepsBird(w, n, peers, 0, f);
      assert !WritesFile(n, peers, f);
    }
  }

  // ---------------------------------------------------------------- exactly when the directories stay in step

  /** No record to be dropped names the interface, or the BIRD file, of a peer that stays. */
  ghost predicate IfacesSpared(n: Node, peers: seq<SyncPeer>) {
    forall j :: 0 <= j < |peers| && Kept(n, peers[j]) ==> !StaleIfaceIn(n, DesiredMap(n, peers), peers[j].Iface())
  }

  ghost predicate FilesSpared(n: Node, peers: seq<SyncPeer>) {
    forall j :: 0 <= j < |peers| && Kept(n, peers[j]) ==> !StaleFileIn(n, DesiredMap(n, peers), peers[j].BirdFile())
  }

  /** What a record that stays named before is named by some record after, or is torn down with a dropped one. */
  ghost predicate IfacesInherited(n: Node, peers: seq<SyncPeer>) {
    var d := DesiredMap(n, peers);
    forall id :: id in n.peers && id in d ==>
        StaleIfaceIn(n, d, StaleIface(n.peers[id])) || NamedIface(d, StaleIface(n.peers[id]))
  }

  ghost predicate FilesInherited(n: Node, peers: seq<SyncPeer>) {
    var d := DesiredMap(n, peers);
    forall id :: id in n.peers && id in d ==>
        StaleFileIn(n, d, StaleFile(n.peers[id])) || NamedFile(d, StaleFile(n.peers[id]))
  }

  /** From a node whose WireGuard files are those its store names, a sync that reports no failure ends in one if and
      only if no dropped record names the interface of a peer that stays and every peer that moved leaves its old
      interface to another. The interfaces that are up stay those with a file. */
  lemma WgStaysInStepIff(w: World, n: Node, peers: seq<SyncPeer>)
    requires RunsSmoothly(w, n, peers) && WgMatchesStore(n)
    ensures WgMatchesStore(Sync(w, n, peers).node) <==> IfacesSpared(n, peers) && IfacesInherited(n, peers)
    ensures n.up == n.wg.Keys ==> Sync(w, n, peers).node.up == Sync(w, n, peers).node.wg.Keys
  {
    var m, d := Sync(w, n, peers).node, DesiredMap(n, peers);
    SyncEnds(w, n, peers);
    DesiredIsDecided(w, n, peers);
    forall k
      ensures k in m.wg <==> (NamedIface(n.peers, k) || NamedIface(d, k)) && !StaleIfaceIn(n, d, k)
      ensures NamedIface(d, k) <==> KeptIface(n, peers, k)
      ensures (k in n.up <==> k in n.wg) ==> (k in m.up <==> k in m.wg)
    {
      IfaceAfter(w, n, peers, k);
      DesiredNamesIface(n, peers, k);
    }
    WgBalance(n, peers, m);
  }

  lemma WgBalance(n: Node, peers: seq<SyncPeer>, m: Node)
    requires m.peers == DesiredMap(n, peers)
    requires forall k :: NamedIface(m.peers, k) <==> KeptIface(n, peers, k)
    requires forall k :: k in m.wg <==>
               (NamedIface(n.peers, k) || NamedIface(m.peers, k)) && !StaleIfaceIn(n, m.peers, k)
    ensures WgMatchesStore(m) <==> IfacesSpared(n, peers) && IfacesInherited(n, peers)
  {
    var d := m.peers;
    if WgMatchesStore(m) {
      forall j | 0 <= j < |peers| && Kept(n, peers[j]) ensures !StaleIfaceIn(n, d, peers[j].Iface()) {
        assert KeptIface(n, peers, peers[j].Iface());
      }
      forall id | id in n.peers && id in d
        ensures StaleIfaceIn(n, d, StaleIface(n.peers[id])) || NamedIface(d, StaleIface(n.peers[id]))
      {
        assert NamedIface(n.peers, StaleIface(n.peers[id]));
      }
    }
    if IfacesSpared(n, peers) && IfacesInherited(n, peers) {
      forall k ensures k in m.wg <==> NamedIface(d, k) {
        if KeptIface(n, peers, k) {
          var j :| 0 <= j < |peers| && Kept(n, peers[j]) && peers[j].Iface() == k;
        }
        if NamedIface(n.peers, k) && !StaleIfaceIn(n, d, k) {
          var id :| id in n.peers && StaleIface(n.peers[id]) == k;
          assert id in d;
        }
      }
    }
  }

  /** The same for the BIRD files, whether or not a peer without an endpoint is reported as failed. A custom file name
      that was missing is a third way out of step: the sync writes the default file and records the custom one. */
  lemma BirdStaysInStepIff(w: World, n: Node, peers: seq<SyncPeer>)
    requires Smooth(w) && !n.dead && Separate(peers) && DistinctIds(peers) && BirdMatchesStore(n)
    ensures BirdMatchesStore(Sync(w, n, peers).node) <==>
              FilesSpared(n, peers) && FilesInherited(n, peers) && FilesFound(n, peers)
  {
    var m, d := Sync(w, n, peers).node, DesiredMap(n, peers);
    SyncEnds(w, n, peers);
    DesiredIsDecided(w, n, peers);
    forall f
      ensures f in m.bird <==> (NamedFile(n.peers, f) || WritesFile(n, peers, f)) && !StaleFileIn(n, d, f)
      ensures NamedFile(d, f) <==> KeptFile(n, peers, f)
    {
      FileAfter(w, n, peers, f);
      DesiredNamesFile(n, peers, f);
    }
    if BirdMatchesStore(m) {
      BirdBalanced(n, peers, m);
    }
    if FilesSpared(n, peers) && FilesInherited(n, peers) && FilesFound(n, peers) {
      BirdBalances(n, peers, m);
    }
  }

  ghost predicate BirdLedger(n: Node, peers: seq<SyncPeer>, m: Node) {
    && Separate(peers) && m.peers == DesiredMap(n, peers)
    && (forall f :: f in n.bird <==> NamedFile(n.peers, f))
    && (forall f :: NamedFile(m.peers, f) <==> KeptFile(n, peers, f))
    && (forall f :: f in m.bird <==> (NamedFile(n.peers, f) || WritesFile(n, peers, f)) && !StaleFileIn(n, m.peers, f))
  }

  lemma BirdBalanced(n: Node, peers: seq<SyncPeer>, m: Node)
    requires BirdLedger(n, peers, m) && BirdMatchesStore(m)
    ensures FilesSpared(n, peers) && FilesInherited(n, peers) && FilesFound(n, peers)
  {
    var d := m.peers;
    forall j | 0 <= j < |peers| && Kept(n, peers[j])
      ensures !StaleFileIn(n, d, peers[j].BirdFile())
      ensures peers[j].BirdFile() in n.bird || peers[j].BirdFile() == BirdFileName(peers[j].asn)
    {
      var f := peers[j].BirdFile();
      assert KeptFile(n, peers, f);
      if f !in n.bird {
        var i :| 0 <= i < |peers| && Kept(n, peers[i]) && BirdFileName(peers[i].asn) == f;
      }
    }
    forall id | id in n.peers && id in d
      ensures StaleFileIn(n, d, StaleFile(n.peers[id])) || NamedFile(d, StaleFile(n.peers[id]))
    {
      assert NamedFile(n.peers, StaleFile(n.peers[id]));
    }
  }

  lemma BirdBalances(n: Node, peers: seq<SyncPeer>, m: Node)
    requires BirdLedger(n, peers, m) && FilesSpared(n, peers) && FilesInherited(n, peers) && FilesFound(n, peers)
    ensures BirdMatchesStore(m)
  {
    var d := m.peers;
    forall f ensures f in m.bird <==> NamedFile(d, f) {
      if KeptFile(n, peers, f) {
        var j :| 0 <= j < |peers| && Kept(n, peers[j]) && peers[j].BirdFile() == f;
        assert f in n.bird || WritesFile(n, peers, f);
      }
      if WritesFile(n, peers, f) {
        var j :| 0 <= j < |peers| && Kept(n, peers[j]) && NeedsBird(n, peers[j]) && BirdFileName(peers[j].asn) == f;
        assert KeptFile(n, peers, f);
      }
      if NamedFile(n.peers, f) && !StaleFileIn(n, d, f) {
        var id :| id in n.peers && StaleFile(n.peers[id]) == f;
        assert id in d;
      }
    }
  }

  // ---------------------------------------------------------------- the failing families

  /** A peer that moves to another interface keeps its id, so nothing is stale: the old interface stays up with its
      file, and no record names it any more. */
  lemma MovedPeerOrphansInterface(w: World, n: Node, p: SyncPeer)
    requires Smooth(w) && !n.dead && p.Valid() && p.pubkey != "" && p.endpoint != ""
    requires n.peers.Keys == {p.id} && StaleIface(n.peers[p.id]) != p.Iface()
    requires StaleIface(n.peers[p.id]) in n.wg && StaleIface(n.peers[p.id]) in n.up
    ensures var s, left := Sync(w, n, [p]).node, StaleIface(n.peers[p.id]);
            left in s.wg && left in s.up && !NamedIface(s.peers, left)
  {
    var peers := [p];
    SyncEnds(w, n, peers);
    assert peers[..0] == [] && peers[..1] == peers;
    var a, b, _, _ := RoundAt(w, n, peers, 0);
    CreateKeepsWg(w, n, peers, 0, StaleIface(n.peers[p.id]));
    assert !StaleIfaceIn(n, b.desired, StaleIface(n.peers[p.id]));
    RecordNames(p);
  }

  /** A peer that changes its AS number leaves its old BIRD file in the same way. */
  lemma RenumberedPeerOrphansFile(w: World, n: Node, p: SyncPeer)
    requires Smooth(w) && !n.dead && Kept(n, p) && p.birdFile == ""
    requires n.peers.Keys == {p.id} && StaleFile(n.peers[p.id]) != BirdFileName(p.asn)
    requires StaleFile(n.peers[p.id]) in n.bird
    ensures var s, left := Sync(w, n, [p]).node, StaleFile(n.peers[p.id]);
            left in s.bird && !NamedFile(s.peers, left)
  {
    var peers := [p];
    SyncEnds(w, n, peers);
    assert peers[..0] == [] && peers[..1] == peers;
    var a, b, _, _ := RoundAt(w, n, peers, 0);
    CreateKeepsBird(w, n, peers, 0, StaleFile(n.peers[p.id]));
    assert !StaleFileIn(n, b.desired, StaleFile(n.peers[p.id]));
    RecordNames(p);
  }

  lemma AnnouncedAlone(w: World, n: Node, p: SyncPeer) returns (m: Node)
    requires Smooth(w) && !n.dead && Kept(n, p) && n.peers.Keys <= {p.id} && BirdFileName(p.asn) !in n.bird
    ensures m == Sync(w, n, [p]).node && !m.dead && m.peers == map[p.id := p.Record()]
    ensures BirdFileName(p.asn) in m.bird <==> p.BirdFile() !in n.bird
  {
    var peers, own := [p], BirdFileName(p.asn);
    m := Sync(w, n, peers).node;
    assert peers[..0] == [];
    assert DesiredMap(n, peers[..0]) == map[] && DesiredMap(n, peers) == map[p.id := p.Record()];
    SyncEnds(w, n, peers);
    DesiredIsDecided(w, n, peers);
    FileAfter(w, n, peers, own);
    assert peers[0] == p && (WritesFile(n, peers, own) <==> NeedsBird(n, p));
  }

  lemma DroppedAlone(w: World, m: Node, p: SyncPeer) returns (last: Node)
    requires Smooth(w) && !m.dead && m.peers == map[p.id := p.Record()]
    ensures last == Sync(w, m, []).node && last.peers == map[] && last.loaded == last.bird
    ensures BirdFileName(p.asn) in last.bird <==> BirdFileName(p.asn) in m.bird && p.BirdFile() != BirdFileName(p.asn)
  {
    var own := BirdFileName(p.asn);
    last := Sync(w, m, []).node;
    SyncEnds(w, m, []);
    FileAfter(w, m, [], own);
    SyncReloads(w, m, []);
    RecordNames(p);
    assert p.id in m.peers;
    assert StaleFileIn(m, map[], own) <==> p.BirdFile() == own;
  }

  /** A peer announced and then dropped, by two syncs that meet no failure, leaves the default BIRD file of its AS
      number behind, loaded and named by no record, if and only if it asked for a custom file that was missing: the
      first sync wrote the default file, the second removes the custom one. */
  lemma DroppedPeerLeavesDefaultIff(w: World, n: Node, p: SyncPeer)
    requires Smooth(w) && !n.dead && Kept(n, p) && n.peers.Keys <= {p.id} && BirdFileName(p.asn) !in n.bird
    ensures var last := Sync(w, Sync(w, n, [p]).node, []).node;
            && last.peers == map[] && last.loaded == last.bird
            && (BirdFileName(p.asn) in last.bird <==> p.BirdFile() != BirdFileName(p.asn) && p.BirdFile() !in n.bird)
  {
    var m := AnnouncedAlone(w, n, p);
    var _ := DroppedAlone(w, m, p);
  }
}

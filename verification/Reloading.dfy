/** What BIRD has loaded after a sync. */
module Reloading {
  import opened Names
  import opened Host
  import opened Reconciler
  import opened SyncSteps
  import opened PeersSync
  import opened SyncTheorems

  /** Some kept peer has no BIRD file. */
  ghost predicate Writes(n: Node, peers: seq<SyncPeer>) {
    exists j :: 0 <= j < |peers| && Kept(n, peers[j]) && NeedsBird(n, peers[j])
  }

  lemma WritesMore(n: Node, peers: seq<SyncPeer>)
    requires peers != []
    ensures var k := |peers| - 1;
            Writes(n, peers) <==> Writes(n, peers[..k]) || (Kept(n, peers[k]) && NeedsBird(n, peers[k]))
  {
    var k := |peers| - 1;
    assert forall j :: 0 <= j < k ==> peers[..k][j] == peers[j];
  }

  /** The sync writes some BIRD file or tears some record down. */
  ghost predicate Reloads(n: Node, peers: seq<SyncPeer>) {
    Writes(n, peers) || (exists id :: id in n.peers && id !in DesiredMap(n, peers))
  }

  /** A creation loop with no BIRD file to write issues no BIRD command, in any world. */
  lemma {:induction false} QuietBird(w: World, n: Node, peers: seq<SyncPeer>)
    requires DistinctIfaces(peers) && !Writes(n, peers)
    ensures var m := Create(w, n, peers).node; m.bird == n.bird && m.loaded == n.loaded
  {
    if peers != [] {
      var k := |peers| - 1;
      WritesMore(n, peers);
      QuietBird(w, n, peers[..k]);
      assert peers[..k + 1] == peers;
      IfaceBefore(w, n, peers, k);
      var _, _, _, _ := RoundAt(w, n, peers, k);
    }
  }

  /** When commands succeed it loads all BIRD files exactly if it has one to write. */
  lemma {:induction false} CreateReloads(w: World, n: Node, peers: seq<SyncPeer>)
    requires Smooth(w) && !n.dead && DistinctIfaces(peers)
    ensures var m := Create(w, n, peers).node;
            if Writes(n, peers) then m.loaded == m.bird else m.loaded == n.loaded && m.bird == n.bird
  {
    if peers != [] {
      var k := |peers| - 1;
      CreateReloads(w, n, peers[..k]);
      WritesMore(n, peers);
      assert peers[..k + 1] == peers;
      IfaceBefore(w, n, peers, k);
      var _, _, _, _ := RoundAt(w, n, peers, k);
    }
  }

  /** A sync never retries a failed `birdc configure`: when commands succeed, BIRD ends with its files loaded if
      and only if it had them loaded before or the sync had a BIRD file to write or a record to tear down. */
  lemma SyncReloads(w: World, n: Node, peers: seq<SyncPeer>)
    requires Smooth(w) && !n.dead && DistinctIfaces(peers)
    ensures var m := Sync(w, n, peers).node;
            && (m.loaded == m.bird <==> n.loaded == n.bird || Reloads(n, peers))
            && (!Reloads(n, peers) ==> m.loaded == n.loaded && m.bird == n.bird)
  {
    var a := Create(w, n, peers);
    DesiredIsDecided(w, n, peers);
    CreateReloads(w, n, peers);
    CreateKeepsStore(w, n, peers);
    SmoothCreate(w, n, peers);
    var n1 := ReplaceAll(w, a.node, a.desired).0;
    var keys := w.cursor(n.peers.Keys);
    assert Enumerates(keys, n.peers.Keys);
    var stale := Stale(keys, n.peers, a.desired);
    SmoothTeardown(w, n1, stale);
    if stale != [] {
      StaleSound(keys, n.peers, a.desired, stale[0]);
    } else if id :| id in n.peers && id !in a.desired {
      StaleSound(keys, n.peers, a.desired, n.peers[id]);
    }
  }

  /** A world in which only `birdc configure` fails. */
  function Unloading(w: World): World {
    World((c: Command, t: nat) => if c.BirdConfigure? then Fail(0) else Ok, w.cursor)
  }

  lemma UnloadingWg(w: World, n: Node, p: SyncPeer)
    requires !n.dead && Kept(n, p) && p.endpoint != ""
    ensures var m := SyncWg(Unloading(w), n, p).0; !m.dead && p.Iface() in m.wg
  {
  }

  lemma UnloadingBird(w: World, n: Node, p: SyncPeer)
    requires !n.dead && NeedsBird(n, p)
    ensures var m := SyncBird(Unloading(w), n, p).0;
            !m.dead && m.bird == n.bird[BirdFileName(p.asn) := Whole(p.Bird())] && m.loaded == n.loaded
  {
  }

  lemma UnloadingCreate(w: World, n: Node, p: SyncPeer) returns (a: SyncState)
    requires !n.dead && Kept(n, p) && p.endpoint != "" && NeedsBird(n, p)
    ensures a == Create(Unloading(w), n, [p]) && a.desired == map[p.id := p.Record()] && !a.node.dead
    ensures a.node.bird == n.bird[BirdFileName(p.asn) := Whole(p.Bird())] && a.node.loaded == n.loaded
    ensures Kept(a.node, p)
  {
    var w', peers := Unloading(w), [p];
    assert peers[..0] == [];
    assert Create(w', n, peers) == SyncOne(w', Create(w', n, []), p);
    UnloadingWg(w, n, p);
    SyncWgRound(w', n, p);
    UnloadingBird(w, SyncWg(w', n, p).0, p);
    SyncBirdRound(w', SyncWg(w', n, p).0, p);
    a := Create(w', n, peers);
  }

  /** The sync whose `birdc configure` fails: the file is written, BIRD has not loaded it, and the record is stored. */
  lemma LeftUnloadedBy(w: World, n: Node, p: SyncPeer) returns (m: Node)
    requires Lawful(w) && !n.dead && n.peers.Keys <= {p.id} && Kept(n, p) && p.endpoint != "" && NeedsBird(n, p)
    ensures Lawful(Unloading(w)) && m == Sync(Unloading(w), n, [p]).node && !m.dead && m.peers.Keys == {p.id}
    ensures m.bird == n.bird[BirdFileName(p.asn) := Whole(p.Bird())] && m.loaded == n.loaded && Kept(m, p)
  {
    UnloadingIsLawful(w);
    var a := UnloadingCreate(w, n, p);
    m := UnloadingEnds(Unloading(w), n, [p], a);
  }

  lemma UnloadingIsLawful(w: World)
    requires Lawful(w)
    ensures Lawful(Unloading(w))
  {
    assert forall s :: Unloading(w).cursor(s) == w.cursor(s);
  }

  lemma UnloadingEnds(w: World, n: Node, peers: seq<SyncPeer>, a: SyncState) returns (m: Node)
    requires Lawful(w) && a == Create(w, n, peers) && n.peers.Keys <= a.desired.Keys
    requires !a.node.dead && w.outcome(StoreReplace, a.node.clock).Ok?
    ensures m == Sync(w, n, peers).node && !m.dead && m.peers == a.desired
    ensures m.wg == a.node.wg && m.up == a.node.up && m.bird == a.node.bird && m.loaded == a.node.loaded
  {
    NothingDropped(w, n, peers);
    m := Sync(w, n, peers).node;
  }

  /** A sync of a peer that is found, with nothing to drop, loads nothing. */
  lemma FoundIsNotLoaded(w: World, m: Node, p: SyncPeer)
    requires Smooth(w) && !m.dead && m.peers.Keys == {p.id} && Kept(m, p) && p.endpoint != "" && !NeedsBird(m, p)
    ensures var s := Sync(w, m, [p]); s.applied == [p.id] && s.node.bird == m.bird && s.node.loaded == m.loaded
  {
    NothingToLoad(m, p);
    SyncReloads(w, m, [p]);
    AppliedAlone(w, m, p);
  }

  lemma NothingToLoad(m: Node, p: SyncPeer)
    requires m.peers.Keys <= {p.id} && Kept(m, p) && !NeedsBird(m, p)
    ensures !Reloads(m, [p])
  {
    var peers := [p];
    assert peers[..0] == [] && DesiredMap(m, peers[..0]) == map[] && p.id in DesiredMap(m, peers);
  }

  /** The failing family: after a sync whose `birdc configure` failed, the same sync with commands that succeed reports
      the peer as applied, and BIRD still has not loaded its file. */
  lemma ConfigureIsNotRetried(w: World, w': World, n: Node, p: SyncPeer)
    requires Lawful(w) && Smooth(w') && !n.dead && n.peers.Keys <= {p.id}
    requires Kept(n, p) && p.endpoint != "" && p.birdFile == ""
    requires BirdFileName(p.asn) !in n.bird && BirdFileName(p.asn) !in n.loaded
    ensures Lawful(Unloading(w))
    ensures var s := Sync(w', Sync(Unloading(w), n, [p]).node, [p]);
            s.applied == [p.id] && BirdFileName(p.asn) in s.node.bird && BirdFileName(p.asn) !in s.node.loaded
  {
    var m := LeftUnloadedBy(w, n, p);
    FoundIsNotLoaded(w', m, p);
  }
}

/** A sync interrupted by a crash is completed by the next one, and what is not. */
module CrashRestart {
  import opened Names
  import opened Host
  import opened Reconciler
  import opened SyncSteps
  import opened PeersSync
  import opened SyncTheorems
  import opened Reloading
  import opened Retention

  // ---------------------------------------------------------------- a crash before the store swap

  /** The process dies during the creation loop or at the store swap itself. */
  ghost predicate DiesBeforeCommit(w: World, n: Node, peers: seq<SyncPeer>) {
    var a := Create(w, n, peers);
    ReplaceAll(w, a.node, a.desired).0.dead
  }

  /** The node after such a crash is the creation loop's, store and all. */
  lemma CrashedNode(w: World, n: Node, peers: seq<SyncPeer>)
    requires Lawful(w) && DiesBeforeCommit(w, n, peers)
    ensures var c, m := Sync(w, n, peers).node, Create(w, n, peers).node;
            c == m.(clock := c.clock, dead := true) && c.peers == n.peers
  {
    CreateKeepsStore(w, n, peers);
    var a := Create(w, n, peers);
    var n1 := ReplaceAll(w, a.node, a.desired).0;
    assert Enumerates(w.cursor(n.peers.Keys), n.peers.Keys);
    TeardownTearsDown(w, n1, StaleOf(w, n.peers, a.desired));
  }

  /** The crash left the peer's BIRD file, missing before, in a state other than whole. */
  ghost predicate Torn(n: Node, c: Node, p: SyncPeer) {
    NeedsBird(n, p) && p.BirdFile() in c.bird && c.bird[p.BirdFile()] != Whole(p.Bird())
  }

  /** Its WireGuard twin: the crash left the file of an interface that was up without one, and left it not whole. */
  ghost predicate WgTorn(n: Node, c: Node, p: SyncPeer) {
    var i := p.Iface();
    NeedsWg(n, p) && i in n.up && i !in n.wg && i in c.wg && c.wg[i] != Whole(p.Wg())
  }

  lemma RerunWg(n: Node, p: SyncPeer, c: Node, mr: Node, mn: Node, ok: bool, okR: bool, okN: bool)
    requires Kept(n, p)
    requires AtWg(n, p, c, ok)
    requires AtWg(c, p, mr, okR) && (okR <==> (NeedsWg(c, p) ==> p.endpoint != ""))
    requires AtWg(n, p, mn, okN) && (okN <==> (NeedsWg(n, p) ==> p.endpoint != ""))
    ensures Kept(c, p) && (p.Iface() in mr.up <==> p.Iface() in mn.up)
    ensures SameAt(mr.wg, mn.wg, p.Iface()) <==> !WgTorn(n, c, p)
  {
  }

  lemma RerunBird(n: Node, p: SyncPeer, c: Node, mr: Node, mn: Node, ok: bool)
    requires AtBird(n, p, c, ok) && AtBird(c, p, mr, true) && AtBird(n, p, mn, true)
    ensures SameAt(mr.bird, mn.bird, BirdFileName(p.asn)) <==> !Torn(n, c, p)
  {
  }

  /** The node of an interrupted creation loop, restarted. */
  ghost predicate Interrupted(w: World, n: Node, peers: seq<SyncPeer>, c: Node) {
    c == Create(w, n, peers).node.(clock := c.clock, dead := false)
  }

  lemma SameKept(w: World, n: Node, peers: seq<SyncPeer>, c: Node, j: nat)
    requires DistinctIfaces(peers) && Interrupted(w, n, peers, c) && j < |peers|
    ensures Kept(c, peers[j]) <==> Kept(n, peers[j])
  {
    if peers[j].Valid() {
      var _, _ := WgOutcome(w, n, peers, j);
    }
  }

  /** Some kept peer's WireGuard file is torn, and this is its interface. */
  ghost predicate WgTornAt(n: Node, c: Node, peers: seq<SyncPeer>, k: string) {
    exists j :: 0 <= j < |peers| && Kept(n, peers[j]) && peers[j].Iface() == k && WgTorn(n, c, peers[j])
  }

  /** The rerun of the creation loop against the uninterrupted one, at one interface: the file agrees exactly when the
      crash did not tear it. */
  lemma RerunWgAt(w: World, w': World, n: Node, peers: seq<SyncPeer>, c: Node, k: string)
    requires Smooth(w') && !n.dead && DistinctIfaces(peers) && Interrupted(w, n, peers, c)
    ensures var mr, mn := Create(w', c, peers).node, Create(w', n, peers).node;
            (SameAt(mr.wg, mn.wg, k) <==> !WgTornAt(n, c, peers, k)) && (k in mr.up <==> k in mn.up)
  {
    if j :| 0 <= j < |peers| && peers[j].Valid() && peers[j].Iface() == k {
      SameKept(w, n, peers, c, j);
      var ok, _ := WgOutcome(w, n, peers, j);
      var okR, _ := WgOutcome(w', c, peers, j);
      var okN, _ := WgOutcome(w', n, peers, j);
      if Kept(n, peers[j]) {
        RerunWg(n, peers[j], c, Create(w', c, peers).node, Create(w', n, peers).node, ok, okR, okN);
      }
      assert WgTornAt(n, c, peers, k) <==> Kept(n, peers[j]) && WgTorn(n, c, peers[j]);
    } else {
      assert peers[..0] == [];
      CreateKeepsWg(w, n, peers, 0, k);
      CreateKeepsWg(w', c, peers, 0, k);
      CreateKeepsWg(w', n, peers, 0, k);
    }
  }

  /** Some kept peer's default file is torn, and this is its name. */
  ghost predicate TornAt(n: Node, c: Node, peers: seq<SyncPeer>, f: string) {
    exists j :: 0 <= j < |peers| && Kept(n, peers[j]) && BirdFileName(peers[j].asn) == f && Torn(n, c, peers[j])
  }

  /** The same at one BIRD file: it agrees exactly when the crash did not tear it. */
  lemma RerunBirdAt(w: World, w': World, n: Node, peers: seq<SyncPeer>, c: Node, f: string)
    requires Smooth(w') && !n.dead && Separate(peers) && Interrupted(w, n, peers, c)
    ensures SameAt(Create(w', c, peers).node.bird, Create(w', n, peers).node.bird, f) <==> !TornAt(n, c, peers, f)
  {
    if j :| 0 <= j < |peers| && peers[j].Valid() && BirdFileName(peers[j].asn) == f {
      SameKept(w, n, peers, c, j);
      var _, ok := PeerOutcome(w, n, peers, j);
      var _, okR := PeerOutcome(w', c, peers, j);
      var _, okN := PeerOutcome(w', n, peers, j);
      if Kept(n, peers[j]) {
        RerunBird(n, peers[j], c, Create(w', c, peers).node, Create(w', n, peers).node, ok);
      }
      assert TornAt(n, c, peers, f) <==> Kept(n, peers[j]) && Torn(n, c, peers[j]);
    } else {
      assert peers[..0] == [];
      CreateKeepsBird(w, n, peers, 0, f);
      CreateKeepsBird(w', c, peers, 0, f);
      CreateKeepsBird(w', n, peers, 0, f);
    }
  }

  lemma RerunDesired(w: World, w': World, n: Node, peers: seq<SyncPeer>, c: Node)
    requires DistinctIfaces(peers) && Interrupted(w, n, peers, c)
    ensures Create(w', c, peers).desired == Create(w', n, peers).desired
  {
    forall j | 0 <= j < |peers| ensures Kept(c, peers[j]) <==> Kept(n, peers[j]) {
      SameKept(w, n, peers, c, j);
    }
    DesiredIsDecided(w', c, peers);
    DesiredIsDecided(w', n, peers);
    DesiredAgrees(n, c, peers);
  }

  lemma UpAgrees(n: Node, c: Node, a: SyncState, b: SyncState, r: Node, u: Node)
    requires c.peers == n.peers && a.desired == b.desired
    requires Ending(c, a, r, true) && Swept(c, a, r) && Ending(n, b, u, true) && Swept(n, b, u)
    requires forall k :: k in a.node.up <==> k in b.node.up
    ensures r.up == u.up
  {
    assert forall k :: StaleIfaceIn(c, a.desired, k) <==> StaleIfaceIn(n, b.desired, k);
    assert forall k :: k in r.up <==> k in u.up;
  }

  /** What two sweeps of the same stale names leave agrees if and only if every file that did not agree is swept. */
  lemma WgAgrees(n: Node, c: Node, peers: seq<SyncPeer>, a: SyncState, b: SyncState, r: Node, u: Node)
    requires c.peers == n.peers && a.desired == b.desired
    requires Ending(c, a, r, true) && Swept(c, a, r) && Ending(n, b, u, true) && Swept(n, b, u)
    requires forall k :: SameAt(a.node.wg, b.node.wg, k) <==> !WgTornAt(n, c, peers, k)
    ensures r.wg == u.wg <==> forall k :: WgTornAt(n, c, peers, k) ==> StaleIfaceIn(n, b.desired, k)
  {
    assert forall k :: StaleIfaceIn(c, a.desired, k) <==> StaleIfaceIn(n, b.desired, k);
    assert forall k :: k in r.wg <==> k in a.node.wg && !StaleIfaceIn(n, b.desired, k);
    assert forall k :: k in u.wg <==> k in b.node.wg && !StaleIfaceIn(n, b.desired, k);
    if k :| WgTornAt(n, c, peers, k) && !StaleIfaceIn(n, b.desired, k) {
      assert !SameAt(a.node.wg, b.node.wg, k);
      assert !SameAt(r.wg, u.wg, k);
    } else {
      forall k ensures SameAt(r.wg, u.wg, k) {
        assert StaleIfaceIn(n, b.desired, k) || SameAt(a.node.wg, b.node.wg, k);
      }
      MapsAgree(r.wg, u.wg);
    }
  }

  lemma BirdAgrees(n: Node, c: Node, peers: seq<SyncPeer>, a: SyncState, b: SyncState, r: Node, u: Node)
    requires c.peers == n.peers && a.desired == b.desired
    requires Ending(c, a, r, true) && Swept(c, a, r) && Ending(n, b, u, true) && Swept(n, b, u)
    requires forall f :: SameAt(a.node.bird, b.node.bird, f) <==> !TornAt(n, c, peers, f)
    ensures r.bird == u.bird <==> forall f :: TornAt(n, c, peers, f) ==> StaleFileIn(n, b.desired, f)
  {
    assert forall f :: StaleFileIn(c, a.desired, f) <==> StaleFileIn(n, b.desired, f);
    assert forall f :: f in r.bird <==> f in a.node.bird && !StaleFileIn(n, b.desired, f);
    assert forall f :: f in u.bird <==> f in b.node.bird && !StaleFileIn(n, b.desired, f);
    if f :| TornAt(n, c, peers, f) && !StaleFileIn(n, b.desired, f) {
      assert !SameAt(a.node.bird, b.node.bird, f);
      assert !SameAt(r.bird, u.bird, f);
    } else {
      forall f ensures SameAt(r.bird, u.bird, f) {
        assert StaleFileIn(n, b.desired, f) || SameAt(a.node.bird, b.node.bird, f);
      }
      MapsAgree(r.bird, u.bird);
    }
  }

  /** A rerun has nothing to write or tear down that the sync did not have. */
  lemma ReloadsLess(w: World, n: Node, peers: seq<SyncPeer>, c: Node)
    requires DistinctIfaces(peers) && Interrupted(w, n, peers, c) && Reloads(c, peers)
    ensures Reloads(n, peers)
  {
    forall j | 0 <= j < |peers| ensures Kept(c, peers[j]) <==> Kept(n, peers[j]) {
      SameKept(w, n, peers, c, j);
    }
    DesiredAgrees(n, c, peers);
    CreateKeepsStore(w, n, peers);
    if !Writes(n, peers) {
      QuietBird(w, n, peers);
    }
  }

  /** What BIRD has loaded after the rerun, given the same files: what an uninterrupted sync loads, unless the crash
      came between writing the last file and loading it, and the rerun has no file to write and no record to tear
      down. */
  lemma RerunLoaded(w: World, w': World, n: Node, peers: seq<SyncPeer>, c: Node)
    requires Smooth(w') && !n.dead && DistinctIfaces(peers) && Interrupted(w, n, peers, c)
    requires Sync(w', c, peers).node.bird == Sync(w', n, peers).node.bird
    ensures Sync(w', c, peers).node.loaded == Sync(w', n, peers).node.loaded <==> !LeftUnloaded(n, peers, c)
  {
    SyncReloads(w', c, peers);
    SyncReloads(w', n, peers);
    if Reloads(c, peers) {
      ReloadsLess(w, n, peers, c);
    } else if !Reloads(n, peers) {
      QuietBird(w, n, peers);
    }
  }

  /** The crash left a file that BIRD has not loaded, and the next sync has no reason to load it. */
  ghost predicate LeftUnloaded(n: Node, peers: seq<SyncPeer>, c: Node) {
    Reloads(n, peers) && !Reloads(c, peers) && c.loaded != c.bird
  }

  lemma RerunAtInterfaces(w: World, w': World, n: Node, peers: seq<SyncPeer>, c: Node)
    requires Smooth(w') && !n.dead && DistinctIfaces(peers)
    requires Interrupted(w, n, peers, c) && c.peers == n.peers
    ensures var r, u, d := Sync(w', c, peers).node, Sync(w', n, peers).node, DesiredMap(n, peers);
            && r.up == u.up && r.peers == u.peers
            && (r.wg == u.wg <==> forall k :: WgTornAt(n, c, peers, k) ==> StaleIfaceIn(n, d, k))
  {
    RerunDesired(w, w', n, peers, c);
    DesiredIsDecided(w', n, peers);
    var a, b := Create(w', c, peers), Create(w', n, peers);
    forall k
      ensures SameAt(a.node.wg, b.node.wg, k) <==> !WgTornAt(n, c, peers, k)
      ensures k in a.node.up <==> k in b.node.up
    {
      RerunWgAt(w, w', n, peers, c, k);
    }
    SyncEnds(w', c, peers);
    SyncEnds(w', n, peers);
    UpAgrees(n, c, a, b, Sync(w', c, peers).node, Sync(w', n, peers).node);
    WgAgrees(n, c, peers, a, b, Sync(w', c, peers).node, Sync(w', n, peers).node);
  }

  lemma RerunAtFiles(w: World, w': World, n: Node, peers: seq<SyncPeer>, c: Node)
    requires Smooth(w') && !n.dead && Separate(peers)
    requires Interrupted(w, n, peers, c) && c.peers == n.peers
    ensures var r, u, d := Sync(w', c, peers).node, Sync(w', n, peers).node, DesiredMap(n, peers);
            r.bird == u.bird <==> forall f :: TornAt(n, c, peers, f) ==> StaleFileIn(n, d, f)
  {
    RerunDesired(w, w', n, peers, c);
    DesiredIsDecided(w', n, peers);
    var a, b := Create(w', c, peers), Create(w', n, peers);
    forall f ensures SameAt(a.node.bird, b.node.bird, f) <==> !TornAt(n, c, peers, f) {
      RerunBirdAt(w, w', n, peers, c, f);
    }
    SyncEnds(w', c, peers);
    SyncEnds(w', n, peers);
    var r, u := Sync(w', c, peers).node, Sync(w', n, peers).node;
    BirdAgrees(n, c, peers, a, b, r, u);
  }

  /** No kept peer has a torn WireGuard file, or a torn BIRD file, that no dropped record names. */
  ghost predicate NoWgTorn(n: Node, c: Node, peers: seq<SyncPeer>) {
    forall j :: 0 <= j < |peers| && Kept(n, peers[j]) && WgTorn(n, c, peers[j]) ==>
      StaleIfaceIn(n, DesiredMap(n, peers), peers[j].Iface())
  }

  ghost predicate NoneTorn(n: Node, c: Node, peers: seq<SyncPeer>) {
    forall j :: 0 <= j < |peers| && Kept(n, peers[j]) && Torn(n, c, peers[j]) ==>
      StaleFileIn(n, DesiredMap(n, peers), BirdFileName(peers[j].asn))
  }

  lemma TornSomewhere(n: Node, c: Node, peers: seq<SyncPeer>)
    ensures var d := DesiredMap(n, peers);
            && (NoWgTorn(n, c, peers) <==> forall k :: WgTornAt(n, c, peers, k) ==> StaleIfaceIn(n, d, k))
            && (NoneTorn(n, c, peers) <==> forall f :: TornAt(n, c, peers, f) ==> StaleFileIn(n, d, f))
  {
    var d := DesiredMap(n, peers);
    if j :| 0 <= j < |peers| && Kept(n, peers[j]) && WgTorn(n, c, peers[j]) && !StaleIfaceIn(n, d, peers[j].Iface()) {
      assert WgTornAt(n, c, peers, peers[j].Iface());
    }
    if j :| 0 <= j < |peers| && Kept(n, peers[j]) && Torn(n, c, peers[j]) &&
            !StaleFileIn(n, d, BirdFileName(peers[j].asn)) {
      assert TornAt(n, c, peers, BirdFileName(peers[j].asn));
    }
  }

  /** Crash and restart. A sync may fail anywhere and die at any command before the store swap; run again with
      commands that succeed, it reaches the interfaces and the store of a sync that was never interrupted, the
      WireGuard files if and only if the crash tore none of an interface that was up without its file, and, where
      BIRD files are separate, the BIRD files if and only if it tore none: a BIRD file that exists is never written
      again. Files that a dropped record names do not matter, since they are torn down. If the BIRD files agree, what
      BIRD has loaded agrees too if and only if the crash did not leave a file unloaded that the rerun does not
      touch. */
  lemma CrashThenSync(w: World, w': World, n: Node, peers: seq<SyncPeer>)
    requires Lawful(w) && Smooth(w') && !n.dead && DistinctIfaces(peers)
    requires DiesBeforeCommit(w, n, peers)
    ensures var c := Restart(Sync(w, n, peers).node);
            var r, u := Sync(w', c, peers).node, Sync(w', n, peers).node;
            && r.up == u.up && r.peers == u.peers && (r.wg == u.wg <==> NoWgTorn(n, c, peers))
            && (FilesApart(peers) ==> (r.bird == u.bird <==> NoneTorn(n, c, peers)))
            && (r.bird == u.bird ==> (r.loaded == u.loaded <==> !LeftUnloaded(n, peers, c)))
  {
    var c := Restart(Sync(w, n, peers).node);
    CrashedNode(w, n, peers);
    TornSomewhere(n, c, peers);
    RerunAtInterfaces(w, w', n, peers, c);
    if FilesApart(peers) {
      RerunAtFiles(w, w', n, peers, c);
    }
    if Sync(w', c, peers).node.bird == Sync(w', n, peers).node.bird {
      RerunLoaded(w, w', n, peers, c);
    }
  }

  // ---------------------------------------------------------------- crashes between manager calls

  /** Nothing fails, and the process can only die where a manager call begins or at the store swap. */
  ghost predicate DiesBetweenCalls(w: World) {
    && Lawful(w)
    && (forall c, t :: w.outcome(c, t).Ok? || w.outcome(c, t).Crash?)
    && (forall c, t :: w.outcome(c, t).Crash? ==> c.WgOpen? || c.BirdOpen? || c.StoreReplace?)
  }

  lemma WholeOrUntouched(w: World, n: Node, s: BirdSettings)
    requires DiesBetweenCalls(w)
    ensures var m := AddBird(w, n, s).0;
            || (m.bird == n.bird && m.loaded == n.loaded && m.dead)
            || (m.bird == n.bird[BirdFileName(s.asn) := Whole(s)] && m.loaded == m.bird)
  {
  }

  lemma SyncBirdWhole(w: World, a: SyncState, p: SyncPeer)
    requires DiesBetweenCalls(w)
    ensures var m := SyncOne(w, a, p).node;
            || (m.bird == a.node.bird && m.loaded == a.node.loaded &&
                (Kept(a.node, p) && NeedsBird(a.node, p) ==> m.dead))
            || (m.bird == a.node.bird[BirdFileName(p.asn) := Whole(p.Bird())] && m.loaded == m.bird)
  {
    if Kept(a.node, p) {
      var n1 := SyncWg(w, a.node, p).0;
      SyncWgRound(w, a.node, p);
      WholeOrUntouched(w, n1, p.Bird());
    }
  }

  lemma {:induction false} LoadedOrUntouched(w: World, n: Node, peers: seq<SyncPeer>)
    requires DiesBetweenCalls(w)
    ensures var m := Create(w, n, peers).node; m.loaded == m.bird || (m.bird == n.bird && m.loaded == n.loaded)
  {
    if peers != [] {
      LoadedOrUntouched(w, n, peers[..|peers| - 1]);
      SyncBirdWhole(w, Create(w, n, peers[..|peers| - 1]), peers[|peers| - 1]);
    }
  }

  lemma WgWholeOrUntouched(w: World, n: Node, iface: string, s: WgSettings)
    requires DiesBetweenCalls(w)
    ensures var m := AddWg(w, n, iface, s).0; m.wg == n.wg || m.wg == n.wg[iface := Whole(s)]
  {
  }

  lemma SyncWgWhole(w: World, a: SyncState, p: SyncPeer)
    requires DiesBetweenCalls(w)
    ensures var m := SyncOne(w, a, p).node; m.wg == a.node.wg || m.wg == a.node.wg[p.Iface() := Whole(p.Wg())]
  {
    if Kept(a.node, p) {
      WgWholeOrUntouched(w, a.node, p.Iface(), p.Wg());
      SyncBirdRound(w, SyncWg(w, a.node, p).0, p);
    }
  }

  lemma NotWgTorn(w: World, n: Node, peers: seq<SyncPeer>, j: nat)
    requires DiesBetweenCalls(w) && DistinctIfaces(peers) && j < |peers| && peers[j].Valid()
    ensures !WgTorn(n, Create(w, n, peers).node, peers[j])
  {
    IfaceBefore(w, n, peers, j);
    CreateKeepsWg(w, n, peers, j + 1, peers[j].Iface());
    assert peers[..j + 1][..j] == peers[..j];
    SyncWgWhole(w, Create(w, n, peers[..j]), peers[j]);
  }

  lemma NothingLeftUnloaded(w: World, n: Node, peers: seq<SyncPeer>, c: Node)
    requires DiesBetweenCalls(w) && DistinctIfaces(peers) && Interrupted(w, n, peers, c)
    ensures !LeftUnloaded(n, peers, c)
  {
    LoadedOrUntouched(w, n, peers);
    if c.bird == n.bird {
      forall j | 0 <= j < |peers| ensures Kept(c, peers[j]) <==> Kept(n, peers[j]) {
        SameKept(w, n, peers, c, j);
      }
      DesiredAgrees(n, c, peers);
      CreateKeepsStore(w, n, peers);
      assert Writes(n, peers) ==> Writes(c, peers);
    }
  }

  lemma RoundOfDying(w: World, w': World, a: SyncState, b: SyncState, p: SyncPeer)
    requires DiesBetweenCalls(w) && Smooth(w') && !a.node.dead && !b.node.dead
    requires a.node.bird == b.node.bird && (Kept(a.node, p) <==> Kept(b.node, p))
    ensures var a', b' := SyncOne(w, a, p).node, SyncOne(w', b, p).node;
            a'.bird == b'.bird || (a'.dead && a'.bird == a.node.bird)
  {
    if Kept(a.node, p) {
      SyncBirdWhole(w, a, p);
      var _, _ := SyncOneRound(w, a, p);
      SmoothRound(w', b, p);
    }
  }

  /** The BIRD files that a process dying between calls leaves are those of an undisturbed loop over the first so many
      peers, over all of them if it did not die. */
  lemma {:induction false} StopsAt(w: World, w': World, n: Node, peers: seq<SyncPeer>) returns (d: nat)
    requires DiesBetweenCalls(w) && Smooth(w') && !n.dead && DistinctIfaces(peers)
    ensures d <= |peers| && (!Create(w, n, peers).node.dead ==> d == |peers|)
    ensures Create(w, n, peers).node.bird == Create(w', n, peers[..d]).node.bird
  {
    if peers == [] {
      d := 0;
    } else {
      var k := |peers| - 1;
      var a, b := Create(w, n, peers[..k]), Create(w', n, peers[..k]);
      d := StopsAt(w, w', n, peers[..k]);
      assert peers[..k][..d] == peers[..d] && peers[..k + 1] == peers;
      if a.node.dead {
        DeadIsDone(w, n, peers[..k], peers);
      } else {
        IfaceBefore(w, n, peers, k);
        IfaceBefore(w', n, peers, k);
        SmoothCreate(w', n, peers[..k]);
        RoundOfDying(w, w', a, b, peers[k]);
        d := if Create(w, n, peers).node.bird == Create(w', n, peers).node.bird then k + 1 else k;
      }
    }
  }

  lemma DeadIsDone(w: World, n: Node, front: seq<SyncPeer>, peers: seq<SyncPeer>)
    requires peers != [] && front == peers[..|peers| - 1] && Create(w, n, front).node.dead
    ensures Create(w, n, peers).node == Create(w, n, front).node
  {
    var a, p := Create(w, n, front), peers[|peers| - 1];
    if Kept(a.node, p) {
      var _, _ := SyncOneRound(w, a, p);
    }
  }

  /** A peer that is not found after an undisturbed loop had its default file written whole, and with distinct default
      files it still is. */
  lemma WroteItsDefault(w: World, n: Node, peers: seq<SyncPeer>, k: nat)
    requires Smooth(w) && !n.dead && DistinctIfaces(peers) && DistinctDefaults(peers)
    requires k < |peers| && Kept(n, peers[k]) && NeedsBird(Create(w, n, peers).node, peers[k])
    ensures var m, f := Create(w, n, peers).node, BirdFileName(peers[k].asn);
            f in m.bird && m.bird[f] == Whole(peers[k].Bird())
  {
    IfaceBefore(w, n, peers, k);
    SmoothGrows(w, n, peers, k);
    var _, _, _, _ := RoundAt(w, n, peers, k);
    CreateKeepsBird(w, n, peers, k + 1, BirdFileName(peers[k].asn));
  }

  /** The rerun catches up: after `k` rounds it has the BIRD files of the undisturbed loop after `k` rounds, or after as
      many as were finished before the crash if those are more. */
  lemma {:induction false} CatchesUp(w: World, n: Node, c: Node, peers: seq<SyncPeer>, d: nat, k: nat)
    requires Smooth(w) && !n.dead && !c.dead && DistinctIfaces(peers) && DistinctDefaults(peers)
    requires forall j :: 0 <= j < |peers| ==> (Kept(c, peers[j]) <==> Kept(n, peers[j]))
    requires d <= |peers| && k <= |peers| && c.bird == Create(w, n, peers[..d]).node.bird
    ensures Create(w, c, peers[..k]).node.bird == Create(w, n, peers[..if k < d then d else k]).node.bird
  {
    if k == 0 {
      assert peers[..0] == [];
    } else {
      var j := k - 1;
      CatchesUp(w, n, c, peers, d, j);
      FiledAt(w, c, peers, j);
      if j >= d {
        FiledAt(w, n, peers, j);
      } else if Kept(n, peers[j]) && peers[j].BirdFile() !in c.bird {
        WroteItsDefault(w, n, peers[..d], j);
      }
    }
  }

  lemma SweepsAgree(n: Node, c: Node, a: SyncState, b: SyncState, r: Node, u: Node)
    requires c.peers == n.peers && a.desired == b.desired && a.node.bird == b.node.bird
    requires Ending(c, a, r, true) && Swept(c, a, r) && Ending(n, b, u, true) && Swept(n, b, u)
    ensures r.bird == u.bird
  {
    assert forall f :: StaleFileIn(c, a.desired, f) <==> StaleFileIn(n, b.desired, f);
    forall f ensures SameAt(r.bird, u.bird, f) {
      assert StaleFileIn(n, b.desired, f) || !StaleFileIn(n, b.desired, f);
    }
    MapsAgree(r.bird, u.bird);
  }

  lemma RerunBetweenCalls(w: World, w': World, n: Node, peers: seq<SyncPeer>, c: Node)
    requires DiesBetweenCalls(w) && Smooth(w') && !n.dead && DistinctIfaces(peers) && DistinctDefaults(peers)
    requires Interrupted(w, n, peers, c) && c.peers == n.peers
    ensures Sync(w', c, peers).node.bird == Sync(w', n, peers).node.bird
  {
    var d := StopsAt(w, w', n, peers);
    forall j | 0 <= j < |peers| ensures Kept(c, peers[j]) <==> Kept(n, peers[j]) {
      SameKept(w, n, peers, c, j);
    }
    CatchesUp(w', n, c, peers, d, |peers|);
    assert peers[..|peers|] == peers;
    RerunDesired(w, w', n, peers, c);
    SyncEnds(w', c, peers);
    SyncEnds(w', n, peers);
    SweepsAgree(n, c, Create(w', c, peers), Create(w', n, peers), Sync(w', c, peers).node, Sync(w', n, peers).node);
  }

  /** A crash between any two manager calls before the swap, followed by the same sync, reaches the uninterrupted final
      state, what BIRD has loaded included. It takes the naming assumptions of a fixpoint, distinct interfaces and
      distinct default files; a peer may be looked up under the default file of another. */
  lemma CrashBetweenCalls(w: World, w': World, n: Node, peers: seq<SyncPeer>)
    requires DiesBetweenCalls(w) && Smooth(w') && !n.dead && DistinctIfaces(peers) && DistinctDefaults(peers)
    requires DiesBeforeCommit(w, n, peers)
    ensures var r, u := Sync(w', Restart(Sync(w, n, peers).node), peers).node, Sync(w', n, peers).node;
            r.wg == u.wg && r.up == u.up && r.bird == u.bird && r.loaded == u.loaded && r.peers == u.peers
  {
    var c := Restart(Sync(w, n, peers).node);
    CrashThenSync(w, w', n, peers);
    CrashedNode(w, n, peers);
    forall j | 0 <= j < |peers| && Kept(n, peers[j]) ensures !WgTorn(n, c, peers[j]) {
      NotWgTorn(w, n, peers, j);
    }
    RerunBetweenCalls(w, w', n, peers, c);
    NothingLeftUnloaded(w, n, peers, c);
  }

  // ---------------------------------------------------------------- crashes inside a manager call

  /** A world in which the process dies at its first such command, a write leaving nothing. */
  function DyingAt(c: Command, w: World): World {
    World((d: Command, t: nat) => if d == c then Crash(0) else Ok, w.cursor)
  }

  lemma DyingLawful(c: Command, w: World)
    requires Lawful(w)
    ensures Lawful(DyingAt(c, w))
  {
    assert forall s :: DyingAt(c, w).cursor(s) == w.cursor(s);
  }

  lemma CreateAlone(w: World, n: Node, p: SyncPeer)
    requires Kept(n, p)
    ensures Create(w, n, [p]).node == SyncBird(w, SyncWg(w, n, p).0, p).0
  {
    var peers := [p];
    assert peers[..0] == [];
    assert Create(w, n, peers) == SyncOne(w, Create(w, n, []), p);
  }

  lemma DeadStaysDead(w: World, n: Node, p: SyncPeer)
    requires Lawful(w) && Kept(n, p) && SyncBird(w, SyncWg(w, n, p).0, p).0.dead
    ensures DiesBeforeCommit(w, n, [p])
    ensures var c, m := Restart(Sync(w, n, [p]).node), SyncBird(w, SyncWg(w, n, p).0, p).0;
            c.wg == m.wg && c.up == m.up && c.bird == m.bird && c.loaded == m.loaded && c.peers == n.peers
  {
    CreateAlone(w, n, p);
    CrashedNode(w, n, [p]);
  }

  lemma PastWg(c: Command, w: World, n: Node, p: SyncPeer)
    requires !n.dead && (c.BirdWrite? || c.BirdConfigure?)
    ensures !SyncWg(DyingAt(c, w), n, p).0.dead
  {
  }

  lemma DyingWg(w: World, n: Node, p: SyncPeer)
    requires !n.dead && NeedsWg(n, p) && p.Valid() && p.endpoint != ""
    ensures var m := SyncWg(DyingAt(WgWrite, w), n, p).0;
            m.dead && m.up == n.up && p.Iface() in m.wg && m.wg[p.Iface()] == Cut(p.Wg(), 0)
  {
  }

  lemma DyingBird(c: Command, w: World, n: Node, p: SyncPeer)
    requires !n.dead && (c.BirdWrite? || c.BirdConfigure?) && NeedsBird(n, p)
    ensures var m, f := SyncBird(DyingAt(c, w), n, p).0, BirdFileName(p.asn);
            m.dead && m.loaded == n.loaded && f in m.bird &&
            m.bird[f] == if c.BirdWrite? then Cut(p.Bird(), 0) else Whole(p.Bird())
  {
  }

  /** Dying while a missing BIRD file is written leaves it torn. */
  lemma CrashCanTear(w: World, n: Node, p: SyncPeer)
    requires Lawful(w) && !n.dead && Kept(n, p) && p.birdFile == "" && BirdFileName(p.asn) !in n.bird
    ensures var d := DyingAt(BirdWrite, w);
            Lawful(d) && DiesBeforeCommit(d, n, [p]) && Torn(n, Restart(Sync(d, n, [p]).node), p)
  {
    var d := DyingAt(BirdWrite, w);
    DyingLawful(BirdWrite, w);
    PastWg(BirdWrite, w, n, p);
    SyncWgRound(d, n, p);
    DyingBird(BirdWrite, w, SyncWg(d, n, p).0, p);
    DeadStaysDead(d, n, p);
  }

  /** Dying while BIRD is to load a file leaves the file, and no later sync of the peer loads it. */
  lemma CrashCanLeaveUnloaded(w: World, n: Node, p: SyncPeer)
    requires Lawful(w) && !n.dead && Kept(n, p) && p.birdFile == "" && n.peers.Keys <= {p.id}
    requires BirdFileName(p.asn) !in n.bird && BirdFileName(p.asn) !in n.loaded
    ensures var d := DyingAt(BirdConfigure, w);
            && Lawful(d) && DiesBeforeCommit(d, n, [p])
            && var c := Restart(Sync(d, n, [p]).node); NoneTorn(n, c, [p]) && LeftUnloaded(n, [p], c)
  {
    var d := DyingAt(BirdConfigure, w);
    DyingLawful(BirdConfigure, w);
    PastWg(BirdConfigure, w, n, p);
    SyncWgRound(d, n, p);
    DyingBird(BirdConfigure, w, SyncWg(d, n, p).0, p);
    SyncBirdRound(d, SyncWg(d, n, p).0, p);
    DeadStaysDead(d, n, p);
    var c := Restart(Sync(d, n, [p]).node);
    AloneIsKept(d, n, p, c);
    WholeButUnloaded(n, p, c);
  }

  lemma WholeButUnloaded(n: Node, p: SyncPeer, c: Node)
    requires Kept(n, p) && Kept(c, p) && p.birdFile == "" && c.peers == n.peers && n.peers.Keys <= {p.id}
    requires BirdFileName(p.asn) !in n.bird && BirdFileName(p.asn) !in n.loaded && c.loaded == n.loaded
    requires BirdFileName(p.asn) in c.bird && c.bird[BirdFileName(p.asn)] == Whole(p.Bird())
    ensures NoneTorn(n, c, [p]) && LeftUnloaded(n, [p], c)
  {
    var peers := [p];
    assert peers[0] == p && Writes(n, peers);
    NothingToLoad(c, p);
  }

  lemma AloneIsKept(w: World, n: Node, p: SyncPeer, c: Node)
    requires Kept(n, p) && c.wg == SyncBird(w, SyncWg(w, n, p).0, p).0.wg
    ensures Kept(c, p)
  {
    SyncWgRound(w, n, p);
    SyncBirdRound(w, SyncWg(w, n, p).0, p);
  }

  /** Dying while the file of an interface that is up without one is written leaves it torn: the interface is up and the
      file exists, so no later sync writes it. */
  lemma CrashCanTearWg(w: World, n: Node, p: SyncPeer)
    requires Lawful(w) && !n.dead && p.Valid() && p.pubkey != "" && p.endpoint != ""
    requires p.Iface() in n.up && p.Iface() !in n.wg
    ensures var d := DyingAt(WgWrite, w);
            && Lawful(d) && DiesBeforeCommit(d, n, [p])
            && var c := Restart(Sync(d, n, [p]).node); WgTorn(n, c, p) && Kept(c, p) && !NeedsWg(c, p)
  {
    var d := DyingAt(WgWrite, w);
    DyingLawful(WgWrite, w);
    DyingWg(w, n, p);
    SyncBirdRound(d, SyncWg(d, n, p).0, p);
    DeadStaysDead(d, n, p);
  }

  // ---------------------------------------------------------------- a torn file is never repaired

  /** Syncs one after another, each in its own world, the process restarted between them. */
  datatype Call = Call(w: World, peers: seq<SyncPeer>)

  /** The call announces the peer, among others with interfaces and ids of their own, none of them to be written over
      the file it is found by; and it drops no record that names what the peer has. */
  ghost predicate Announces(n: Node, call: Call, p: SyncPeer) {
    && Lawful(call.w) && DistinctIfaces(call.peers) && DistinctIds(call.peers) && p in call.peers
    && FilesGuarded(n, call.peers) && Spared(n, DesiredMap(n, call.peers), p)
  }

  ghost function AfterCall(n: Node, call: Call): Node
    requires Lawful(call.w)
  {
    Restart(Sync(call.w, n, call.peers).node)
  }

  /** Every call announces the peer. */
  ghost predicate Throughout(n: Node, calls: seq<Call>, p: SyncPeer)
    decreases |calls|
  {
    calls == [] || (Announces(n, calls[0], p) && Throughout(AfterCall(n, calls[0]), calls[1..], p))
  }

  ghost function AfterCalls(n: Node, calls: seq<Call>, p: SyncPeer): Node
    requires Throughout(n, calls, p)
    decreases |calls|
  {
    if calls == [] then n else AfterCalls(AfterCall(n, calls[0]), calls[1..], p)
  }

  /** Every call reports the peer as applied. */
  ghost predicate AppliedThroughout(n: Node, calls: seq<Call>, p: SyncPeer)
    requires Throughout(n, calls, p)
    decreases |calls|
  {
    calls == [] ||
    (p.id in Sync(calls[0].w, n, calls[0].peers).applied && AppliedThroughout(AfterCall(n, calls[0]), calls[1..], p))
  }

  /** The peer is in place, as far as a sync looks: whatever its BIRD file holds. */
  predicate InPlace(n: Node, p: SyncPeer) {
    p.Valid() && p.Iface() in n.wg && p.Iface() in n.up && p.BirdFile() in n.bird
  }

  lemma InPlaceStays(n: Node, call: Call, p: SyncPeer)
    requires Announces(n, call, p) && InPlace(n, p)
    ensures var m := AfterCall(n, call);
            InPlace(m, p) && m.bird[p.BirdFile()] == n.bird[p.BirdFile()] && p.id in Sync(call.w, n, call.peers).applied
  {
    var j :| 0 <= j < |call.peers| && call.peers[j] == p;
    RetainedSurvive(call.w, n, call.peers, j);
    NothingToDo(call.w, n, call.peers, j);
    SyncEnds(call.w, n, call.peers);
  }

  /** A peer in place is applied in any world: no command is issued for it. */
  lemma NothingToDo(w: World, n: Node, peers: seq<SyncPeer>, j: nat)
    requires DistinctIfaces(peers) && DistinctIds(peers) && FilesGuarded(n, peers)
    requires j < |peers| && InPlace(n, peers[j])
    ensures peers[j].id in Create(w, n, peers).applied
  {
    IfaceBefore(w, n, peers, j);
    GuardedStay(w, n, peers, j);
    assert peers[..j + 1][..j] == peers[..j];
    assert SyncOne(w, Create(w, n, peers[..j]), peers[j]).applied == Create(w, n, peers[..j]).applied + [peers[j].id];
    CreateKeepsReport(w, n, peers, j + 1, peers[j].id);
  }

  /** A torn file is never repaired: whatever other peers are announced and whatever fails or dies, every later sync
      reports a peer in place as applied and leaves its BIRD file, whole or cut short, as it is. */
  lemma {:induction false} TornFileIsNeverRepaired(n: Node, calls: seq<Call>, p: SyncPeer)
    requires InPlace(n, p) && Throughout(n, calls, p)
    ensures AppliedThroughout(n, calls, p)
    ensures var m := AfterCalls(n, calls, p); InPlace(m, p) && m.bird[p.BirdFile()] == n.bird[p.BirdFile()]
    decreases |calls|
  {
    if calls != [] {
      InPlaceStays(n, calls[0], p);
      TornFileIsNeverRepaired(AfterCall(n, calls[0]), calls[1..], p);
    }
  }

  // ---------------------------------------------------------------- a crash after the store swap

  /** The node differs from what the creation loop left only in names of dropped records, and there only by their
      having been cleared. */
  ghost predicate OnlyStaleDiffers(n: Node, desired: map<string, PeerInfo>, a: Node, c: Node) {
    && (forall k :: !StaleIfaceIn(n, desired, k) ==> SameAt(a.wg, c.wg, k) && (k in a.up <==> k in c.up))
    && (forall f :: !StaleFileIn(n, desired, f) ==> SameAt(a.bird, c.bird, f))
    && (forall k :: k in c.wg ==> SameAt(a.wg, c.wg, k)) && c.up <= a.up
    && (forall f :: f in c.bird ==> SameAt(a.bird, c.bird, f))
  }

  /** A crash anywhere after the swap leaves the store as desired and, of everything else, at most stale artifacts: each
      name that no dropped record carries is as the creation loop left it, those of retained peers among them. */
  lemma CrashAfterCommit(w: World, n: Node, peers: seq<SyncPeer>)
    requires Lawful(w) && Commits(w, n, peers)
    ensures var a, c := Create(w, n, peers), Sync(w, n, peers).node;
            && c.peers == a.desired && OnlyStaleDiffers(n, a.desired, a.node, c)
            && (DistinctIfaces(peers) ==>
                  && c.peers == DesiredMap(n, peers)
                  && forall j :: 0 <= j < |peers| && Kept(n, peers[j]) &&
                                 ApartFrom(n, DesiredMap(n, peers), peers[j]) ==>
                       OwnNamesStay(n, peers[j], a.node, c))
  {
    SyncEnds(w, n, peers);
    var a, c := Create(w, n, peers), Sync(w, n, peers).node;
    EndingOnlyStale(n, a, c, true);
    if DistinctIfaces(peers) {
      DesiredIsDecided(w, n, peers);
      forall j | 0 <= j < |peers| && Kept(n, peers[j]) && ApartFrom(n, DesiredMap(n, peers), peers[j])
        ensures OwnNamesStay(n, peers[j], a.node, c)
      {
        ApartStays(n, a.desired, a.node, c, peers[j]);
      }
    }
  }

  /** The interface of the peer and the BIRD file it relies on are as they were. */
  ghost predicate OwnNamesStay(n: Node, p: SyncPeer, a: Node, c: Node) {
    && SameAt(a.wg, c.wg, p.Iface()) && (p.Iface() in a.up <==> p.Iface() in c.up)
    && SameAt(a.bird, c.bird, OwnFile(n, p))
  }

  lemma EndingOnlyStale(n: Node, a: SyncState, c: Node, committed: bool)
    requires Ending(n, a, c, committed)
    ensures OnlyStaleDiffers(n, a.desired, a.node, c)
  {
  }

  lemma ApartStays(n: Node, desired: map<string, PeerInfo>, a: Node, c: Node, p: SyncPeer)
    requires OnlyStaleDiffers(n, desired, a, c) && ApartFrom(n, desired, p)
    ensures OwnNamesStay(n, p, a, c)
  {
  }

  /** What such a crash leaves of a dropped record no later sync of the same payload clears: its interface and its file
      stay as they are, up if it was up, as long as no desired record and no peer of the payload names them. */
  lemma StaleStaysBehind(w: World, w': World, n: Node, peers: seq<SyncPeer>, info: PeerInfo)
    requires Lawful(w) && Lawful(w') && Commits(w, n, peers)
    ensures var a, c := Create(w, n, peers), Sync(w, n, peers).node;
            var m, k, f := Sync(w', Restart(c), peers).node, StaleIface(info), StaleFile(info);
            && ((forall j :: 0 <= j < |peers| && peers[j].Valid() ==> peers[j].Iface() != k) &&
                (forall id :: id in a.desired ==> StaleIface(a.desired[id]) != k) ==>
                  SameAt(c.wg, m.wg, k) && (k in c.up <==> k in m.up))
            && ((forall j :: 0 <= j < |peers| && peers[j].Valid() ==> BirdFileName(peers[j].asn) != f) &&
                (forall id :: id in a.desired ==> StaleFile(a.desired[id]) != f) ==>
                  SameAt(c.bird, m.bird, f))
  {
    SyncEnds(w, n, peers);
    var a, c, k, f := Create(w, n, peers), Restart(Sync(w, n, peers).node), StaleIface(info), StaleFile(info);
    if (forall j :: 0 <= j < |peers| && peers[j].Valid() ==> peers[j].Iface() != k) &&
       (forall id :: id in a.desired ==> StaleIface(a.desired[id]) != k) {
      SyncLeavesAlone(w', c, peers, k);
    }
    if (forall j :: 0 <= j < |peers| && peers[j].Valid() ==> BirdFileName(peers[j].asn) != f) &&
       (forall id :: id in a.desired ==> StaleFile(a.desired[id]) != f) {
      SyncLeavesFileAlone(w', c, peers, f);
    }
  }
}

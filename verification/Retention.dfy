/** Exactly when a sync, whatever fails and wherever it dies, leaves every retained peer what it had. */
module Retention {
  import opened Names
  import opened Host
  import opened Reconciler
  import opened SyncSteps
  import opened PeersSync
  import opened SyncTheorems

  /** The peer still has the WireGuard file, the interface and the BIRD file it had; the BIRD file is as it was, and so
      is the file of an interface that was up. */
  predicate Retains(n: Node, p: SyncPeer, m: Node) {
    var i, f := p.Iface(), p.BirdFile();
    && (i in n.wg ==> i in m.wg) && (i in n.up ==> i in m.up)
    && (i in n.wg && i in n.up ==> m.wg[i] == n.wg[i])
    && (f in n.bird ==> f in m.bird && m.bird[f] == n.bird[f])
  }

  /** The sync writes this default file, for a kept peer that is not found. */
  ghost predicate WritesFile(n: Node, peers: seq<SyncPeer>, f: string) {
    exists j :: 0 <= j < |peers| && Kept(n, peers[j]) && NeedsBird(n, peers[j]) && BirdFileName(peers[j].asn) == f
  }

  /** No kept peer is found by a file that is to be written for another. */
  ghost predicate FilesGuarded(n: Node, peers: seq<SyncPeer>) {
    forall i :: 0 <= i < |peers| && Kept(n, peers[i]) && peers[i].BirdFile() in n.bird ==>
      !WritesFile(n, peers, peers[i].BirdFile())
  }

  /** No record to be dropped names what the peer has. */
  ghost predicate Spared(n: Node, desired: map<string, PeerInfo>, p: SyncPeer) {
    && (p.Iface() in n.wg || p.Iface() in n.up ==> !StaleIfaceIn(n, desired, p.Iface()))
    && (p.BirdFile() in n.bird ==> !StaleFileIn(n, desired, p.BirdFile()))
  }

  ghost predicate AllSpared(n: Node, peers: seq<SyncPeer>) {
    forall j :: 0 <= j < |peers| && Kept(n, peers[j]) ==> Spared(n, DesiredMap(n, peers), peers[j])
  }

  // ---------------------------------------------------------------- files that are guarded stay

  lemma {:induction false} GuardedStay(w: World, n: Node, peers: seq<SyncPeer>, k: nat)
    requires DistinctIfaces(peers) && FilesGuarded(n, peers) && k <= |peers|
    ensures forall i :: 0 <= i < |peers| && Kept(n, peers[i]) && peers[i].BirdFile() in n.bird ==>
              SameAt(n.bird, Create(w, n, peers[..k]).node.bird, peers[i].BirdFile())
  {
    if k > 0 {
      GuardedStay(w, n, peers, k - 1);
      IfaceBefore(w, n, peers, k - 1);
      var a, b, _, _ := RoundAt(w, n, peers, k - 1);
      if Kept(n, peers[k - 1]) && NeedsBird(n, peers[k - 1]) {
        assert WritesFile(n, peers, BirdFileName(peers[k - 1].asn));
      }
    }
  }

  /** Whatever commands fail, wherever the process dies: with distinct interfaces and guarded files, no configuration
      that a retained peer already had is removed unless a dropped record names it, no BIRD file is rewritten, and no
      WireGuard file of an interface that is up. */
  lemma RetainedSurvive(w: World, n: Node, peers: seq<SyncPeer>, j: nat)
    requires Lawful(w) && DistinctIfaces(peers) && FilesGuarded(n, peers)
    requires j < |peers| && Kept(n, peers[j]) && Spared(n, DesiredMap(n, peers), peers[j])
    ensures Retains(n, peers[j], Sync(w, n, peers).node)
  {
    SyncEnds(w, n, peers);
    DesiredIsDecided(w, n, peers);
    var _, _ := WgOutcome(w, n, peers, j);
    GuardedStay(w, n, peers, |peers|);
    assert peers[..|peers|] == peers;
  }

  // ---------------------------------------------------------------- the other way

  /** A world in which only `birdc configure check` fails: every file written is removed again. */
  function Refusing(w: World): World {
    World((c: Command, t: nat) => if c.BirdCheck? then Fail(0) else Ok, w.cursor)
  }

  lemma RefusingLawful(w: World)
    requires Lawful(w)
    ensures Lawful(Refusing(w))
  {
    assert forall s :: Refusing(w).cursor(s) == w.cursor(s);
  }

  lemma RefusingWg(w: World, n: Node, p: SyncPeer)
    requires !n.dead
    ensures !SyncWg(Refusing(w), n, p).0.dead
  {
  }

  lemma RefusingBird(w: World, n: Node, p: SyncPeer)
    requires !n.dead
    ensures var (m, ok) := SyncBird(Refusing(w), n, p);
            !m.dead && m.bird == (if NeedsBird(n, p) then n.bird - {BirdFileName(p.asn)} else n.bird) &&
            (ok <==> !NeedsBird(n, p))
  {
  }

  lemma RefusingRound(w: World, a: SyncState, p: SyncPeer)
    requires !a.node.dead
    ensures var b := SyncOne(Refusing(w), a, p).node;
            && !b.dead
            && b.bird == (if Kept(a.node, p) && NeedsBird(a.node, p) then a.node.bird - {BirdFileName(p.asn)}
                          else a.node.bird)
  {
    if Kept(a.node, p) {
      RefusingWg(w, a.node, p);
      SyncWgRound(Refusing(w), a.node, p);
      RefusingBird(w, SyncWg(Refusing(w), a.node, p).0, p);
    }
  }

  /** So BIRD files only go, and the default file of every kept peer that was not found is gone. */
  lemma {:induction false} RefusedGone(w: World, n: Node, peers: seq<SyncPeer>)
    requires !n.dead && DistinctIfaces(peers)
    ensures var m := Create(Refusing(w), n, peers).node;
            !m.dead && m.bird.Keys <= n.bird.Keys && forall f :: WritesFile(n, peers, f) ==> f !in m.bird
  {
    if peers != [] {
      var k := |peers| - 1;
      var front, p := peers[..k], peers[k];
      RefusedGone(w, n, front);
      IfaceBefore(Refusing(w), n, peers, k);
      RefusingRound(w, Create(Refusing(w), n, front), p);
      forall f | WritesFile(n, peers, f) ensures f !in Create(Refusing(w), n, peers).node.bird {
        var j :| 0 <= j < |peers| && Kept(n, peers[j]) && NeedsBird(n, peers[j]) && BirdFileName(peers[j].asn) == f;
        if j < k {
          assert front[j] == peers[j];
          assert WritesFile(n, front, f);
        }
      }
    }
  }

  lemma UnguardedIsLost(w: World, n: Node, peers: seq<SyncPeer>, i: nat)
    requires Lawful(w) && !n.dead && DistinctIfaces(peers) && i < |peers|
    requires peers[i].BirdFile() in n.bird && WritesFile(n, peers, peers[i].BirdFile())
    ensures Lawful(Refusing(w)) && !Retains(n, peers[i], Sync(Refusing(w), n, peers).node)
  {
    RefusingLawful(w);
    RefusedGone(w, n, peers);
    SyncEnds(Refusing(w), n, peers);
  }

  /** The same world with every command succeeding. */
  function Smoothed(w: World): World {
    World((c: Command, t: nat) => Ok, w.cursor)
  }

  lemma UnsparedIsLost(w: World, n: Node, peers: seq<SyncPeer>, j: nat)
    requires Lawful(w) && !n.dead && DistinctIfaces(peers) && j < |peers| && !Spared(n, DesiredMap(n, peers), peers[j])
    ensures Smooth(Smoothed(w)) && !Retains(n, peers[j], Sync(Smoothed(w), n, peers).node)
  {
    assert forall s :: Smoothed(w).cursor(s) == w.cursor(s);
    SyncEnds(Smoothed(w), n, peers);
    DesiredIsDecided(Smoothed(w), n, peers);
  }

  /** The exact condition. On a live node a sync of peers with distinct interfaces leaves every retained peer what it
      had in every world if and only if no record to be dropped names what a retained peer has and no retained peer is
      found by a file that is to be written for another. Peers may otherwise share BIRD files. */
  lemma RetainedSurviveIff(cursor: World, n: Node, peers: seq<SyncPeer>)
    requires Lawful(cursor) && !n.dead && DistinctIfaces(peers)
    ensures (forall w :: Lawful(w) ==>
               forall j :: 0 <= j < |peers| && Kept(n, peers[j]) ==> Retains(n, peers[j], Sync(w, n, peers).node))
            <==> AllSpared(n, peers) && FilesGuarded(n, peers)
  {
    if AllSpared(n, peers) && FilesGuarded(n, peers) {
      forall w, j | Lawful(w) && 0 <= j < |peers| && Kept(n, peers[j])
        ensures Retains(n, peers[j], Sync(w, n, peers).node)
      {
        RetainedSurvive(w, n, peers, j);
      }
    } else if !AllSpared(n, peers) {
      var j :| 0 <= j < |peers| && Kept(n, peers[j]) && !Spared(n, DesiredMap(n, peers), peers[j]);
      UnsparedIsLost(cursor, n, peers, j);
      assert Lawful(Smoothed(cursor));
    } else {
      var i :| 0 <= i < |peers| && Kept(n, peers[i]) && peers[i].BirdFile() in n.bird &&
               WritesFile(n, peers, peers[i].BirdFile());
      UnguardedIsLost(cursor, n, peers, i);
      assert Lawful(Refusing(cursor));
    }
  }

  /** The failing family: one peer is found by a file that is the default of another AS, whose own peer asks for a
      custom file that is missing. Nothing is stale, interfaces, AS numbers and default files differ, and a
      configuration that does not check takes the first peer's file away after it was reported as applied. */
  lemma FoundFileIsLost(w: World, n: Node, p: SyncPeer, q: SyncPeer)
    requires Lawful(w) && !n.dead && n.peers == map[] && Kept(n, p) && Kept(n, q)
    requires p.Iface() != q.Iface() && p.asn != q.asn && p.Iface() in n.wg && p.Iface() in n.up
    requires p.BirdFile() == BirdFileName(q.asn) && p.BirdFile() in n.bird && q.BirdFile() !in n.bird
    ensures Lawful(Refusing(w))
    ensures var s := Sync(Refusing(w), n, [p, q]); s.applied == [p.id] && p.BirdFile() !in s.node.bird
  {
    var w', peers := Refusing(w), [p, q];
    assert peers[0] == p && peers[1] == q;
    assert WritesFile(n, peers, p.BirdFile());
    RefusedGone(w, n, peers);
    RefusingLawful(w);
    SyncEnds(w', n, peers);
    assert peers[..1] == [p] && [p][..0] == [];
    assert Create(w', n, [p]) == SyncOne(w', Create(w', n, []), p);
    assert Create(w', n, peers) == SyncOne(w', Create(w', n, [p]), q);
    RefusingWg(w, n, q);
    SyncWgRound(w', n, q);
    RefusingBird(w, SyncWg(w', n, q).0, q);
  }
}

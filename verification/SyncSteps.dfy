/** One round of the sync loop, one teardown, and what the loops made of them leave alone. */
module SyncSteps {
  import opened Names
  import opened Host
  import opened Reconciler

  // ---------------------------------------------------------------- one round

  /** What the WireGuard half of a round does: nothing, or an attempt at the peer's own interface. */
  ghost predicate WgRound(n: Node, p: SyncPeer, n': Node, ok: bool) {
    var i := p.Iface();
    && n'.peers == n.peers && (n.dead ==> n' == n)
    && (!NeedsWg(n, p) ==> n'.wg == n.wg && n'.up == n.up)
    && (ok && NeedsWg(n, p) ==> n'.wg == n.wg[i := Whole(p.Wg())] && n'.up == n.up + {i})
    && (n'.wg == n.wg || (i in n'.wg && n'.wg == n.wg[i := n'.wg[i]] && n'.wg[i].settings == p.Wg()))
    && (n'.up == n.up || (n'.wg == n.wg[i := Whole(p.Wg())] && n'.up == n.up + {i}))
    && (p.endpoint == "" ==> n'.wg == n.wg && n'.up == n.up)
  }

  /** What the BIRD half does: nothing, or an attempt at the default file of the peer's AS number. */
  ghost predicate BirdRound(n: Node, p: SyncPeer, n': Node, ok: bool) {
    var f := BirdFileName(p.asn);
    && n'.peers == n.peers && (n.dead ==> n' == n)
    && (!NeedsBird(n, p) ==> n'.bird == n.bird && n'.loaded == n.loaded)
    && (ok && NeedsBird(n, p) ==> n'.bird == n.bird[f := Whole(p.Bird())])
    && (n'.bird == n.bird || n'.bird == n.bird - {f} ||
          (f in n'.bird && n'.bird == n.bird[f := n'.bird[f]] && n'.bird[f].settings == p.Bird()))
    && (n'.loaded == n.loaded || n'.loaded == n'.bird)
    && (ok && NeedsBird(n, p) ==> n'.loaded == n'.bird)
  }

  ghost predicate Round(n: Node, p: SyncPeer, n': Node, wgOk: bool, birdOk: bool) {
    WgRound(n, p, n', wgOk) && BirdRound(n, p, n', birdOk)
  }

  lemma SyncWgRound(w: World, n: Node, p: SyncPeer)
    ensures WgRound(n, p, SyncWg(w, n, p).0, SyncWg(w, n, p).1)
    ensures SyncWg(w, n, p).0.bird == n.bird && SyncWg(w, n, p).0.loaded == n.loaded
  {
  }

  lemma SyncBirdRound(w: World, n: Node, p: SyncPeer)
    ensures BirdRound(n, p, SyncBird(w, n, p).0, SyncBird(w, n, p).1)
    ensures SyncBird(w, n, p).0.wg == n.wg && SyncBird(w, n, p).0.up == n.up
  {
  }

  /** A kept peer's round, with its two verdicts. */
  lemma SyncOneRound(w: World, a: SyncState, p: SyncPeer) returns (wgOk: bool, birdOk: bool)
    requires Kept(a.node, p)
    ensures var b := SyncOne(w, a, p);
            && Round(a.node, p, b.node, wgOk, birdOk)
            && b.desired == a.desired[p.id := p.Record()]
            && b.applied == (if wgOk && birdOk then a.applied + [p.id] else a.applied)
            && b.failed == (if wgOk && birdOk then a.failed else a.failed + [p.id])
  {
    var (n1, ok1) := SyncWg(w, a.node, p);
    SyncWgRound(w, a.node, p);
    var (n2, ok2) := SyncBird(w, n1, p);
    SyncBirdRound(w, n1, p);
    wgOk, birdOk := ok1, ok2;
  }

  /** When every command succeeds, a round fails only for want of an endpoint. */
  lemma SmoothRound(w: World, a: SyncState, p: SyncPeer)
    requires Smooth(w) && !a.node.dead && Kept(a.node, p)
    ensures var b := SyncOne(w, a, p);
            && !b.node.dead
            && Round(a.node, p, b.node, NeedsWg(a.node, p) ==> p.endpoint != "", true)
            && b.desired == a.desired[p.id := p.Record()]
            && b.applied == (if NeedsWg(a.node, p) && p.endpoint == "" then a.applied else a.applied + [p.id])
            && b.failed == (if NeedsWg(a.node, p) && p.endpoint == "" then a.failed + [p.id] else a.failed)
  {
    SmoothWg(w, a.node, p);
    var n1 := SyncWg(w, a.node, p).0;
    SmoothBird(w, n1, p);
    SyncWgRound(w, a.node, p);
    SyncBirdRound(w, n1, p);
  }

  lemma SmoothWg(w: World, n: Node, p: SyncPeer)
    requires Smooth(w) && !n.dead && p.Valid()
    ensures !SyncWg(w, n, p).0.dead && (SyncWg(w, n, p).1 <==> (NeedsWg(n, p) ==> p.endpoint != ""))
  {
  }

  lemma SmoothBird(w: World, n: Node, p: SyncPeer)
    requires Smooth(w) && !n.dead
    ensures !SyncBird(w, n, p).0.dead && SyncBird(w, n, p).1
  {
  }

  // ---------------------------------------------------------------- what the creation loop leaves alone

  lemma {:induction false} CreateKeepsStore(w: World, n: Node, peers: seq<SyncPeer>)
    ensures Create(w, n, peers).node.peers == n.peers
    ensures n.dead ==> Create(w, n, peers).node == n
  {
    if peers != [] {
      var last := peers[|peers| - 1];
      CreateKeepsStore(w, n, peers[..|peers| - 1]);
      var a := Create(w, n, peers[..|peers| - 1]);
      if Kept(a.node, last) {
        var _, _ := SyncOneRound(w, a, last);
      }
    }
  }

  /** Rounds `j` and after do not touch an interface that none of their peers names. */
  lemma {:induction false} CreateKeepsWg(w: World, n: Node, peers: seq<SyncPeer>, j: nat, k: string)
    requires j <= |peers|
    requires forall i :: j <= i < |peers| && peers[i].Valid() ==> peers[i].Iface() != k
    ensures SameAt(Create(w, n, peers[..j]).node.wg, Create(w, n, peers).node.wg, k)
    ensures k in Create(w, n, peers[..j]).node.up <==> k in Create(w, n, peers).node.up
    decreases |peers|
  {
    if j == |peers| {
      assert peers[..j] == peers;
    } else {
      var front := peers[..|peers| - 1];
      assert front[..j] == peers[..j];
      CreateKeepsWg(w, n, front, j, k);
      var a := Create(w, n, front);
      var last := peers[|peers| - 1];
      if Kept(a.node, last) {
        var _, _ := SyncOneRound(w, a, last);
      }
    }
  }

  /** Nor a BIRD file that is the default file of none of their AS numbers. */
  lemma {:induction false} CreateKeepsBird(w: World, n: Node, peers: seq<SyncPeer>, j: nat, f: string)
    requires j <= |peers|
    requires forall i :: j <= i < |peers| && peers[i].Valid() ==> BirdFileName(peers[i].asn) != f
    ensures SameAt(Create(w, n, peers[..j]).node.bird, Create(w, n, peers).node.bird, f)
    decreases |peers|
  {
    if j == |peers| {
      assert peers[..j] == peers;
    } else {
      var front := peers[..|peers| - 1];
      assert front[..j] == peers[..j];
      CreateKeepsBird(w, n, front, j, f);
      var a := Create(w, n, front);
      var last := peers[|peers| - 1];
      if Kept(a.node, last) {
        var _, _ := SyncOneRound(w, a, last);
      }
    }
  }

  // ---------------------------------------------------------------- stale records and their teardown

  ghost predicate NamesIface(stale: seq<PeerInfo>, k: string) {
    exists i :: 0 <= i < |stale| && StaleIface(stale[i]) == k
  }

  ghost predicate NamesFile(stale: seq<PeerInfo>, f: string) {
    exists i :: 0 <= i < |stale| && StaleFile(stale[i]) == f
  }

  /** The stale records are those of the stored peers that are not desired. */
  lemma {:induction false} StaleSound(keys: seq<string>, peers: map<string, PeerInfo>, desired: map<string, PeerInfo>,
                                      info: PeerInfo)
    requires forall k :: k in keys ==> k in peers
    ensures info in Stale(keys, peers, desired) <==> exists k :: k in keys && k !in desired && peers[k] == info
  {
    if keys != [] {
      var front, last := keys[..|keys| - 1], keys[|keys| - 1];
      assert keys == front + [last];
      StaleSound(front, peers, desired, info);
    }
  }

  /** Teardown may clear a name, never write one, and only a name that a stale record carries. */
  ghost predicate TornDown(n: Node, n': Node, stale: seq<PeerInfo>) {
    && n'.peers == n.peers && (n.dead ==> n' == n)
    && (forall k :: k in n'.wg ==> k in n.wg && n'.wg[k] == n.wg[k])
    && (forall k :: k in n'.up ==> k in n.up)
    && (forall f :: f in n'.bird ==> f in n.bird && n'.bird[f] == n.bird[f])
    && (forall k :: k in n.wg && !NamesIface(stale, k) ==> k in n'.wg)
    && (forall k :: k in n.up && !NamesIface(stale, k) ==> k in n'.up)
    && (forall f :: f in n.bird && !NamesFile(stale, f) ==> f in n'.bird)
  }

  ghost predicate Gone(n: Node, n': Node, info: PeerInfo) {
    var i, f := StaleIface(info), StaleFile(info);
    && n'.peers == n.peers && (n.dead ==> n' == n)
    && (n'.wg == n.wg || n'.wg == n.wg - {i})
    && (n'.up == n.up || n'.up == n.up - {i})
    && (n'.bird == n.bird || n'.bird == n.bird - {f})
  }

  lemma TeardownOneGone(w: World, n: Node, info: PeerInfo)
    ensures Gone(n, TeardownOne(w, n, info), info)
  {
  }

  lemma TornDownStep(n: Node, a: Node, b: Node, front: seq<PeerInfo>, info: PeerInfo)
    requires TornDown(n, a, front) && Gone(a, b, info)
    ensures TornDown(n, b, front + [info])
  {
    var stale := front + [info];
    assert stale[|front|] == info;
    assert forall i :: 0 <= i < |front| ==> stale[i] == front[i];
    assert forall k :: NamesIface(front, k) ==> NamesIface(stale, k);
    assert forall f :: NamesFile(front, f) ==> NamesFile(stale, f);
    assert NamesIface(stale, StaleIface(info)) && NamesFile(stale, StaleFile(info));
  }

  lemma {:induction false} TeardownTearsDown(w: World, n: Node, stale: seq<PeerInfo>)
    ensures TornDown(n, Teardown(w, n, stale), stale)
  {
    if stale != [] {
      var front, last := stale[..|stale| - 1], stale[|stale| - 1];
      TeardownTearsDown(w, n, front);
      var a := Teardown(w, n, front);
      TeardownOneGone(w, a, last);
      TornDownStep(n, a, TeardownOne(w, a, last), front, last);
      assert front + [last] == stale;
    }
  }

  lemma {:induction false} TeardownKeepsStore(w: World, n: Node, stale: seq<PeerInfo>)
    ensures Teardown(w, n, stale).peers == n.peers
  {
    if stale != [] {
      TeardownKeepsStore(w, n, stale[..|stale| - 1]);
    }
  }

  /** When every command succeeds, every name that a stale record carries is clear afterwards. */
  ghost predicate SweptClean(n': Node, stale: seq<PeerInfo>) {
    forall i :: 0 <= i < |stale| ==>
      StaleIface(stale[i]) !in n'.wg && StaleIface(stale[i]) !in n'.up && StaleFile(stale[i]) !in n'.bird
  }

  ghost predicate Cleared(n: Node, n': Node, info: PeerInfo) {
    && !n'.dead && n'.wg == n.wg - {StaleIface(info)} && n'.up == n.up - {StaleIface(info)}
    && n'.bird == n.bird - {StaleFile(info)} && n'.loaded == n'.bird
  }

  lemma SmoothTeardownOne(w: World, n: Node, info: PeerInfo)
    requires Smooth(w) && !n.dead
    ensures Cleared(n, TeardownOne(w, n, info), info)
  {
  }

  lemma SweptStep(a: Node, b: Node, front: seq<PeerInfo>, info: PeerInfo)
    requires SweptClean(a, front) && Cleared(a, b, info)
    ensures SweptClean(b, front + [info])
  {
  }

  lemma {:induction false} SmoothTeardown(w: World, n: Node, stale: seq<PeerInfo>)
    requires Smooth(w) && !n.dead
    ensures var n' := Teardown(w, n, stale);
            !n'.dead && SweptClean(n', stale) && (stale == [] ==> n' == n) && (stale != [] ==> n'.loaded == n'.bird)
  {
    if stale != [] {
      var front, last := stale[..|stale| - 1], stale[|stale| - 1];
      SmoothTeardown(w, n, front);
      var a := Teardown(w, n, front);
      SmoothTeardownOne(w, a, last);
      SweptStep(a, TeardownOne(w, a, last), front, last);
      assert stale == front + [last];
    }
  }
}

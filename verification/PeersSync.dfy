/** What a peers.sync does to a node, name by name, whatever the world answers. */
module PeersSync {
  import opened Names
  import opened Host
  import opened Reconciler
  import opened SyncSteps

  /** No two peers of the payload share an interface. */
  ghost predicate DistinctIfaces(peers: seq<SyncPeer>) {
    forall i, j :: 0 <= i < |peers| && 0 <= j < |peers| && i != j && peers[i].Valid() && peers[j].Valid() ==>
      peers[i].Iface() != peers[j].Iface()
  }

  /** No two share a default BIRD file. */
  ghost predicate DistinctDefaults(peers: seq<SyncPeer>) {
    forall i, j :: 0 <= i < |peers| && 0 <= j < |peers| && i != j && peers[i].Valid() && peers[j].Valid() ==>
      BirdFileName(peers[i].asn) != BirdFileName(peers[j].asn)
  }

  /** Nor does any look for its configuration under another's default file. */
  ghost predicate FilesApart(peers: seq<SyncPeer>) {
    && DistinctDefaults(peers)
    && (forall i, j :: 0 <= i < |peers| && 0 <= j < |peers| && i != j && peers[i].Valid() && peers[j].Valid() ==>
          peers[i].BirdFile() != BirdFileName(peers[j].asn))
  }

  ghost predicate Separate(peers: seq<SyncPeer>) {
    DistinctIfaces(peers) && FilesApart(peers)
  }

  ghost predicate DistinctIds(peers: seq<SyncPeer>) {
    forall i, j :: 0 <= i < |peers| && 0 <= j < |peers| && i != j && peers[i].Valid() && peers[j].Valid() ==>
      peers[i].id != peers[j].id
  }

  // ---------------------------------------------------------------- one peer's names after the loop

  ghost predicate Untouched(n: Node, p: SyncPeer, m: Node) {
    && SameAt(n.wg, m.wg, p.Iface()) && (p.Iface() in n.up <==> p.Iface() in m.up)
    && SameAt(n.bird, m.bird, BirdFileName(p.asn)) && SameAt(n.bird, m.bird, p.BirdFile())
  }

  ghost predicate AtWg(n: Node, p: SyncPeer, m: Node, ok: bool) {
    var i := p.Iface();
    && (!NeedsWg(n, p) || p.endpoint == "" ==> SameAt(n.wg, m.wg, i) && (i in n.up <==> i in m.up))
    && (ok && NeedsWg(n, p) ==> i in m.wg && m.wg[i] == Whole(p.Wg()) && i in m.up)
    && (SameAt(n.wg, m.wg, i) || (i in m.wg && m.wg[i].settings == p.Wg()))
    && ((i in n.up <==> i in m.up) || (i in m.up && i in m.wg && m.wg[i] == Whole(p.Wg())))
  }

  ghost predicate AtBird(n: Node, p: SyncPeer, m: Node, ok: bool) {
    var f := BirdFileName(p.asn);
    && (p.BirdFile() != f ==> SameAt(n.bird, m.bird, p.BirdFile()))
    && (!NeedsBird(n, p) ==> SameAt(n.bird, m.bird, f))
    && (ok && NeedsBird(n, p) ==> f in m.bird && m.bird[f] == Whole(p.Bird()))
    && (SameAt(n.bird, m.bird, f) || f !in m.bird || m.bird[f].settings == p.Bird())
  }

  lemma AtFile(n: Node, p: SyncPeer, a: Node, b: Node, m: Node, wgOk: bool, birdOk: bool)
    requires Untouched(n, p, a) && Round(a, p, b, wgOk, birdOk) && Untouched(b, p, m)
    ensures AtBird(n, p, m, birdOk)
  {
  }

  /** With distinct interfaces nothing but a peer's own round touches its interface, so whether it is kept is decided by
      the node before the sync. */
  lemma IfaceBefore(w: World, n: Node, peers: seq<SyncPeer>, j: nat)
    requires DistinctIfaces(peers) && j < |peers|
    ensures var a, p := Create(w, n, peers[..j]).node, peers[j];
            && (p.Valid() ==> SameAt(n.wg, a.wg, p.Iface()) && (p.Iface() in n.up <==> p.Iface() in a.up))
            && (Kept(a, p) <==> Kept(n, p))
  {
    var p, front := peers[j], peers[..j];
    if p.Valid() {
      assert front[..0] == [];
      assert Create(w, n, []).node == n;
      CreateKeepsWg(w, n, front, 0, p.Iface());
    }
  }

  lemma BeforeRound(w: World, n: Node, peers: seq<SyncPeer>, j: nat)
    requires Separate(peers) && j < |peers| && peers[j].Valid()
    ensures Untouched(n, peers[j], Create(w, n, peers[..j]).node)
  {
    var p, front := peers[j], peers[..j];
    assert front[..0] == [];
    assert Create(w, n, []).node == n;
    IfaceBefore(w, n, peers, j);
    CreateKeepsBird(w, n, front, 0, BirdFileName(p.asn));
    CreateKeepsBird(w, n, front, 0, p.BirdFile());
  }

  lemma AfterRound(w: World, n: Node, peers: seq<SyncPeer>, j: nat)
    requires Separate(peers) && j < |peers| && peers[j].Valid()
    ensures Untouched(Create(w, n, peers[..j + 1]).node, peers[j], Create(w, n, peers).node)
  {
    var p := peers[j];
    CreateKeepsWg(w, n, peers, j + 1, p.Iface());
    CreateKeepsBird(w, n, peers, j + 1, BirdFileName(p.asn));
    CreateKeepsBird(w, n, peers, j + 1, p.BirdFile());
  }

  // ---------------------------------------------------------------- one peer's report

  lemma {:induction false} CreateKeepsReport(w: World, n: Node, peers: seq<SyncPeer>, j: nat, id: string)
    requires j <= |peers|
    requires forall i :: j <= i < |peers| && peers[i].Valid() ==> peers[i].id != id
    ensures var a, b := Create(w, n, peers[..j]), Create(w, n, peers);
            SameAt(a.desired, b.desired, id) && (id in a.applied <==> id in b.applied) &&
            (id in a.failed <==> id in b.failed)
    decreases |peers|
  {
    if j == |peers| {
      assert peers[..j] == peers;
    } else {
      var front, last := peers[..|peers| - 1], peers[|peers| - 1];
      assert front[..j] == peers[..j];
      CreateKeepsReport(w, n, front, j, id);
      if Kept(Create(w, n, front).node, last) {
        var _, _ := SyncOneRound(w, Create(w, n, front), last);
      }
    }
  }

  ghost predicate Reported(a: SyncState, id: string, ok: bool) {
    (id in a.applied <==> ok) && (id in a.failed <==> !ok)
  }

  lemma {:induction false} SmoothCreate(w: World, n: Node, peers: seq<SyncPeer>)
    requires Smooth(w) && !n.dead
    ensures !Create(w, n, peers).node.dead
  {
    if peers != [] {
      var a, last := Create(w, n, peers[..|peers| - 1]), peers[|peers| - 1];
      SmoothCreate(w, n, peers[..|peers| - 1]);
      if Kept(a.node, last) {
        SmoothRound(w, a, last);
      }
    }
  }

  /** Round `j` as a step from the state before it to the state after it. */
  lemma RoundAt(w: World, n: Node, peers: seq<SyncPeer>, j: nat)
    returns (a: SyncState, b: SyncState, wgOk: bool, birdOk: bool)
    requires j < |peers|
    ensures a == Create(w, n, peers[..j]) && b == Create(w, n, peers[..j + 1])
    ensures !Kept(a.node, peers[j]) ==> b == a
    ensures Kept(a.node, peers[j]) ==>
              && Round(a.node, peers[j], b.node, wgOk, birdOk)
              && b.desired == a.desired[peers[j].id := peers[j].Record()]
              && b.applied == (if wgOk && birdOk then a.applied + [peers[j].id] else a.applied)
              && b.failed == (if wgOk && birdOk then a.failed else a.failed + [peers[j].id])
    ensures Smooth(w) && !n.dead && Kept(a.node, peers[j]) ==>
              birdOk && (wgOk <==> (NeedsWg(a.node, peers[j]) ==> peers[j].endpoint != ""))
  {
    var p := peers[j];
    assert peers[..j + 1][..j] == peers[..j];
    a := Create(w, n, peers[..j]);
    b := SyncOne(w, a, p);
    wgOk, birdOk := true, true;
    if Kept(a.node, p) {
      if Smooth(w) && !n.dead {
        SmoothCreate(w, n, peers[..j]);
        SmoothRound(w, a, p);
        wgOk := NeedsWg(a.node, p) ==> p.endpoint != "";
      } else {
        wgOk, birdOk := SyncOneRound(w, a, p);
      }
    }
  }

  /** What the creation loop does with the interface of one valid peer, and with its place in the report: skipped or
      kept is decided by the node before the sync, and nothing but the peer's own round touches its interface. */
  lemma WgOutcome(w: World, n: Node, peers: seq<SyncPeer>, j: nat) returns (wgOk: bool, birdOk: bool)
    requires DistinctIfaces(peers) && j < |peers| && peers[j].Valid()
    ensures var p, m := peers[j], Create(w, n, peers).node;
            && (!Kept(n, p) ==> SameAt(n.wg, m.wg, p.Iface()) && (p.Iface() in n.up <==> p.Iface() in m.up))
            && (Kept(n, p) ==> AtWg(n, p, m, wgOk))
    ensures Kept(n, peers[j]) ==>
              Round(Create(w, n, peers[..j]).node, peers[j], Create(w, n, peers[..j + 1]).node, wgOk, birdOk)
    ensures DistinctIds(peers) ==> Accounted(n, peers[j], Create(w, n, peers), wgOk && birdOk)
    ensures Smooth(w) && !n.dead && Kept(n, peers[j]) ==>
              birdOk && (wgOk <==> (NeedsWg(n, peers[j]) ==> peers[j].endpoint != ""))
  {
    var p := peers[j];
    IfaceBefore(w, n, peers, j);
    CreateKeepsWg(w, n, peers, j + 1, p.Iface());
    var a, b;
    a, b, wgOk, birdOk := RoundAt(w, n, peers, j);
    if Kept(n, p) {
      AtIface(n, p, a.node, b.node, Create(w, n, peers).node, wgOk, birdOk);
    }
    if DistinctIds(peers) {
      assert peers[..j][..0] == [];
      CreateKeepsReport(w, n, peers[..j], 0, p.id);
      CreateKeepsReport(w, n, peers, j + 1, p.id);
    }
  }

  /** The BIRD files after the round of a kept peer in which everything succeeds. */
  function Filed(bird: map<string, File<BirdSettings>>, p: SyncPeer): map<string, File<BirdSettings>> {
    if p.BirdFile() in bird then bird else bird[BirdFileName(p.asn) := Whole(p.Bird())]
  }

  /** With distinct interfaces and commands that succeed, that is what a round makes of them if the peer is kept. */
  lemma FiledAt(w: World, n: Node, peers: seq<SyncPeer>, j: nat)
    requires Smooth(w) && !n.dead && DistinctIfaces(peers) && j < |peers|
    ensures var a, b := Create(w, n, peers[..j]).node, Create(w, n, peers[..j + 1]).node;
            b.bird == if Kept(n, peers[j]) then Filed(a.bird, peers[j]) else a.bird
  {
    IfaceBefore(w, n, peers, j);
    var _, _, _, _ := RoundAt(w, n, peers, j);
  }

  lemma AtIface(n: Node, p: SyncPeer, a: Node, b: Node, m: Node, wgOk: bool, birdOk: bool)
    requires SameAt(n.wg, a.wg, p.Iface()) && (p.Iface() in n.up <==> p.Iface() in a.up)
    requires SameAt(b.wg, m.wg, p.Iface()) && (p.Iface() in b.up <==> p.Iface() in m.up)
    requires Round(a, p, b, wgOk, birdOk)
    ensures AtWg(n, p, m, wgOk)
  {
  }

  /** The same with its BIRD files, for a payload with separate ones. */
  lemma PeerOutcome(w: World, n: Node, peers: seq<SyncPeer>, j: nat) returns (wgOk: bool, birdOk: bool)
    requires Separate(peers) && j < |peers| && peers[j].Valid()
    ensures var p, m := peers[j], Create(w, n, peers).node;
            && (!Kept(n, p) ==> Untouched(n, p, m))
            && (Kept(n, p) ==> AtWg(n, p, m, wgOk) && AtBird(n, p, m, birdOk))
    ensures DistinctIds(peers) ==> Accounted(n, peers[j], Create(w, n, peers), wgOk && birdOk)
    ensures Smooth(w) && !n.dead && Kept(n, peers[j]) ==>
              birdOk && (wgOk <==> (NeedsWg(n, peers[j]) ==> peers[j].endpoint != ""))
  {
    var p := peers[j];
    BeforeRound(w, n, peers, j);
    AfterRound(w, n, peers, j);
    wgOk, birdOk := WgOutcome(w, n, peers, j);
    if Kept(n, p) {
      var a, b := Create(w, n, peers[..j]).node, Create(w, n, peers[..j + 1]).node;
      AtFile(n, p, a, b, Create(w, n, peers).node, wgOk, birdOk);
    } else {
      var _, _, _, _ := RoundAt(w, n, peers, j);
    }
  }

  /** The report and the desired map hold a peer exactly when it is kept, under its own record. */
  ghost predicate Accounted(n: Node, p: SyncPeer, a: SyncState, ok: bool) {
    && (p.id in a.desired <==> Kept(n, p))
    && (Kept(n, p) ==> a.desired[p.id] == p.Record() && Reported(a, p.id, ok))
    && (!Kept(n, p) ==> p.id !in a.applied && p.id !in a.failed)
  }

  // ---------------------------------------------------------------- the desired map is decided beforehand

  function DesiredMap(n: Node, peers: seq<SyncPeer>): map<string, PeerInfo> {
    if peers == [] then map[]
    else
      var m, last := DesiredMap(n, peers[..|peers| - 1]), peers[|peers| - 1];
      if Kept(n, last) then m[last.id := last.Record()] else m
  }

  lemma {:induction false} DesiredIsDecided(w: World, n: Node, peers: seq<SyncPeer>)
    requires DistinctIfaces(peers)
    ensures Create(w, n, peers).desired == DesiredMap(n, peers)
  {
    if peers != [] {
      var k := |peers| - 1;
      DesiredIsDecided(w, n, peers[..k]);
      IfaceBefore(w, n, peers, k);
      assert peers[..k + 1] == peers;
      var _, _, _, _ := RoundAt(w, n, peers, k);
    }
  }

  lemma {:induction false} DesiredAgrees(n: Node, m: Node, peers: seq<SyncPeer>)
    requires forall j :: 0 <= j < |peers| ==> (Kept(n, peers[j]) <==> Kept(m, peers[j]))
    ensures DesiredMap(n, peers) == DesiredMap(m, peers)
  {
    if peers != [] {
      DesiredAgrees(n, m, peers[..|peers| - 1]);
    }
  }

  /** Every desired record is that of a kept peer. */
  lemma {:induction false} DesiredFrom(n: Node, peers: seq<SyncPeer>, id: string) returns (j: nat)
    requires id in DesiredMap(n, peers)
    ensures j < |peers| && Kept(n, peers[j]) && peers[j].id == id && DesiredMap(n, peers)[id] == peers[j].Record()
  {
    var k := |peers| - 1;
    if Kept(n, peers[k]) && peers[k].id == id {
      j := k;
    } else {
      j := DesiredFrom(n, peers[..k], id);
    }
  }

  lemma {:induction false} DesiredHolds(n: Node, peers: seq<SyncPeer>, j: nat)
    requires DistinctIds(peers) && j < |peers| && Kept(n, peers[j])
    ensures peers[j].id in DesiredMap(n, peers) && DesiredMap(n, peers)[peers[j].id] == peers[j].Record()
  {
    var k := |peers| - 1;
    if j < k {
      DesiredHolds(n, peers[..k], j);
    }
  }
}

/** A sync that reports no failure has converged, and the same sync again changes nothing. */
module SyncFixpoint {
  import opened Names
  import opened Host
  import opened Reconciler
  import opened SyncSteps
  import opened PeersSync
  import opened SyncTheorems

  // ---------------------------------------------------------------- convergence

  /** A sync that needs nothing issues no command before its store swap. */
  lemma {:induction false} QuietCreate(w: World, n: Node, peers: seq<SyncPeer>)
    requires forall j :: 0 <= j < |peers| && Kept(n, peers[j]) ==> !NeedsWg(n, peers[j]) && !NeedsBird(n, peers[j])
    ensures Create(w, n, peers).node == n && Create(w, n, peers).failed == []
  {
    if peers != [] {
      QuietCreate(w, n, peers[..|peers| - 1]);
    }
  }

  /** Nothing that was there is missing. */
  predicate Grew(n: Node, m: Node) {
    n.wg.Keys <= m.wg.Keys && n.up <= m.up && n.bird.Keys <= m.bird.Keys
  }

  /** A creation loop that reports no failure has none in any of its rounds, and removes nothing. */
  lemma {:induction false} CleanPrefix(w: World, n: Node, peers: seq<SyncPeer>, j: nat)
    requires j <= |peers| && Create(w, n, peers).failed == []
    ensures Create(w, n, peers[..j]).failed == [] && Grew(Create(w, n, peers[..j]).node, Create(w, n, peers).node)
    decreases |peers|
  {
    if j == |peers| {
      assert peers[..j] == peers;
    } else {
      var k := |peers| - 1;
      assert peers[..k + 1] == peers && peers[..k][..j] == peers[..j];
      var a, b, _, _ := RoundAt(w, n, peers, k);
      CleanPrefix(w, n, peers[..k], j);
    }
  }

  /** The peer has a configuration: its WireGuard file, up if it carries a key, and a BIRD file, the one it is looked up
      by unless that was a custom one and missing. */
  predicate Configured(n: Node, p: SyncPeer, m: Node) {
    && p.Iface() in m.wg && (p.pubkey != "" ==> p.Iface() in m.up)
    && (p.BirdFile() in m.bird || BirdFileName(p.asn) in m.bird)
    && (p.BirdFile() in n.bird || p.BirdFile() == BirdFileName(p.asn) ==> p.BirdFile() in m.bird)
  }

  /** Some file of a kept peer is there after the creation loop, and no record to be dropped names it. */
  lemma CleanCreate(w: World, n: Node, peers: seq<SyncPeer>, j: nat) returns (f: string)
    requires DistinctIfaces(peers) && Create(w, n, peers).failed == [] && StaleApart(n, peers)
    requires j < |peers| && Kept(n, peers[j])
    ensures var p, m := peers[j], Create(w, n, peers).node;
            && p.Iface() in m.wg && (p.pubkey != "" ==> p.Iface() in m.up)
            && f in m.bird && !StaleFileIn(n, DesiredMap(n, peers), f)
            && (f == p.BirdFile() || (f == BirdFileName(p.asn) && p.BirdFile() !in n.bird))
  {
    var p := peers[j];
    IfaceBefore(w, n, peers, j);
    var a, b, _, _ := RoundAt(w, n, peers, j);
    CleanPrefix(w, n, peers, j + 1);
    assert peers[..j + 1][..j] == peers[..j];
    CleanPrefix(w, n, peers[..j + 1], j);
    assert [] == peers[..j][..0];
    CleanPrefix(w, n, peers[..j], 0);
    if p.BirdFile() in a.node.bird && p.BirdFile() !in n.bird {
      WrittenFor(w, n, peers, j, p.BirdFile());
      f := p.BirdFile();
    } else {
      f := if p.BirdFile() in n.bird then p.BirdFile() else BirdFileName(p.asn);
      assert f == OwnFile(n, p);
    }
  }

  /** A file that appears in a creation loop without failures was written for a kept peer, so no dropped record names
      it. */
  lemma {:induction false} WrittenFor(w: World, n: Node, peers: seq<SyncPeer>, k: nat, f: string)
    requires DistinctIfaces(peers) && StaleApart(n, peers) && k <= |peers| && Create(w, n, peers).failed == []
    requires f !in n.bird && f in Create(w, n, peers[..k]).node.bird
    ensures !StaleFileIn(n, DesiredMap(n, peers), f)
  {
    if k > 0 {
      IfaceBefore(w, n, peers, k - 1);
      var a, b, _, _ := RoundAt(w, n, peers, k - 1);
      CleanPrefix(w, n, peers, k);
      if f in a.node.bird {
        WrittenFor(w, n, peers, k - 1, f);
      } else {
        assert peers[..k][..k - 1] == peers[..k - 1] && peers[..k - 1][..0] == [];
        CleanPrefix(w, n, peers[..k], k - 1);
        CleanPrefix(w, n, peers[..k - 1], 0);
        assert f == OwnFile(n, peers[k - 1]);
      }
    }
  }

  /** With distinct interfaces, an empty `failed` list and no dropped record naming what a retained peer relies on,
      whatever BIRD files the peers share, whatever commands of the teardown fail and even if it dies there: every
      retained peer ends configured and the store, once swapped, as desired; and when commands succeed, every dropped
      record's names end clear. */
  lemma SyncConverges(w: World, n: Node, peers: seq<SyncPeer>)
    requires Lawful(w) && DistinctIfaces(peers) && StaleApart(n, peers) && Sync(w, n, peers).failed == []
    ensures var m := Sync(w, n, peers).node;
            && (forall j :: 0 <= j < |peers| && Kept(n, peers[j]) ==> Configured(n, peers[j], m))
            && (Commits(w, n, peers) ==> m.peers == DesiredMap(n, peers))
            && (Smooth(w) && !n.dead ==> Swept(n, Create(w, n, peers), m))
  {
    SyncEnds(w, n, peers);
    DesiredIsDecided(w, n, peers);
    forall j | 0 <= j < |peers| && Kept(n, peers[j]) ensures Configured(n, peers[j], Sync(w, n, peers).node) {
      var f := CleanCreate(w, n, peers, j);
    }
  }

  lemma SkippedStaySkipped(w: World, n: Node, peers: seq<SyncPeer>)
    requires Lawful(w) && DistinctIfaces(peers) && StaleApart(n, peers) && Sync(w, n, peers).failed == []
    ensures forall j :: 0 <= j < |peers| ==> (Kept(n, peers[j]) <==> Kept(Sync(w, n, peers).node, peers[j]))
  {
    SyncConverges(w, n, peers);
    SyncEnds(w, n, peers);
    forall j | 0 <= j < |peers| && peers[j].Valid() && !Kept(n, peers[j])
      ensures !Kept(Sync(w, n, peers).node, peers[j])
    {
      var _, _ := WgOutcome(w, n, peers, j);
    }
  }

  /** With separate BIRD files as well, what the peer's files hold and what the next sync would find to do for it: a
      BIRD file, exactly for a custom file name that was missing. */
  ghost predicate Settled(n: Node, p: SyncPeer, m: Node) {
    && Configured(n, p, m) && !NeedsWg(m, p)
    && (p.BirdFile() !in n.bird ==> BirdFileName(p.asn) in m.bird && m.bird[BirdFileName(p.asn)] == Whole(p.Bird()))
    && (NeedsBird(m, p) <==> p.BirdFile() !in n.bird && p.BirdFile() != BirdFileName(p.asn))
  }

  lemma SettledBy(n: Node, p: SyncPeer, a: Node, b: Node, c: Node)
    requires Untouched(n, p, a) && Round(a, p, b, true, true) && Untouched(b, p, c)
    ensures p.BirdFile() !in n.bird ==> BirdFileName(p.asn) in c.bird && c.bird[BirdFileName(p.asn)] == Whole(p.Bird())
    ensures p.BirdFile() in c.bird <==> p.BirdFile() in n.bird || p.BirdFile() == BirdFileName(p.asn)
  {
  }

  lemma SettledInLoop(w: World, n: Node, peers: seq<SyncPeer>, j: nat)
    requires Separate(peers) && Create(w, n, peers).failed == [] && j < |peers| && Kept(n, peers[j])
    ensures var p, c := peers[j], Create(w, n, peers).node;
            var f := BirdFileName(p.asn);
            && (p.BirdFile() !in n.bird ==> f in c.bird && c.bird[f] == Whole(p.Bird()))
            && (p.BirdFile() in c.bird <==> p.BirdFile() in n.bird || p.BirdFile() == f)
  {
    IfaceBefore(w, n, peers, j);
    var a, b, _, _ := RoundAt(w, n, peers, j);
    CleanPrefix(w, n, peers, j + 1);
    BeforeRound(w, n, peers, j);
    AfterRound(w, n, peers, j);
    SettledBy(n, peers[j], a.node, b.node, Create(w, n, peers).node);
  }

  /** Such a sync settles every retained peer. */
  lemma SyncSettles(w: World, n: Node, peers: seq<SyncPeer>, j: nat)
    requires Lawful(w) && Separate(peers) && StaleApart(n, peers) && Sync(w, n, peers).failed == []
    requires j < |peers| && Kept(n, peers[j])
    ensures Settled(n, peers[j], Sync(w, n, peers).node)
  {
    SyncConverges(w, n, peers);
    SyncEnds(w, n, peers);
    DesiredIsDecided(w, n, peers);
    SettledInLoop(w, n, peers, j);
  }

  // ---------------------------------------------------------------- a second sync

  /** A sync of this payload has run, whatever failed in its teardown, with nothing to report as failed. */
  ghost predicate RanClean(w: World, n: Node, peers: seq<SyncPeer>) {
    && Lawful(w) && Commits(w, n, peers) && Sync(w, n, peers).failed == []
    && DistinctIfaces(peers) && StaleApart(n, peers)
  }

  /** No retained peer asks for a custom BIRD file that is missing. */
  predicate FilesFound(n: Node, peers: seq<SyncPeer>) {
    forall j :: 0 <= j < |peers| && Kept(n, peers[j]) ==>
      peers[j].BirdFile() in n.bird || peers[j].BirdFile() == BirdFileName(peers[j].asn)
  }

  /** The desired map of the second sync is the store the first one left. */
  lemma DesiredAgain(w: World, w': World, n: Node, peers: seq<SyncPeer>)
    requires RanClean(w, n, peers)
    ensures var m := Restart(Sync(w, n, peers).node);
            && Create(w', m, peers).desired == m.peers
            && (forall j :: 0 <= j < |peers| ==> (Kept(n, peers[j]) <==> Kept(m, peers[j])))
  {
    var m := Restart(Sync(w, n, peers).node);
    SyncConverges(w, n, peers);
    SkippedStaySkipped(w, n, peers);
    DesiredIsDecided(w', m, peers);
    DesiredAgrees(n, m, peers);
  }

  /** Every retained peer is found by its BIRD file. */
  predicate AllFound(n: Node, peers: seq<SyncPeer>) {
    forall j :: 0 <= j < |peers| && Kept(n, peers[j]) ==> peers[j].BirdFile() in n.bird
  }

  /** After a sync they are, if no custom file was missing; and only then, where BIRD files are separate. */
  lemma FoundAgain(w: World, n: Node, peers: seq<SyncPeer>)
    requires RanClean(w, n, peers)
    ensures FilesFound(n, peers) ==> AllFound(Sync(w, n, peers).node, peers)
    ensures FilesApart(peers) && AllFound(Sync(w, n, peers).node, peers) ==> FilesFound(n, peers)
  {
    SyncConverges(w, n, peers);
    SkippedStaySkipped(w, n, peers);
    if FilesApart(peers) {
      forall j | 0 <= j < |peers| && Kept(n, peers[j]) ensures Settled(n, peers[j], Sync(w, n, peers).node) {
        SyncSettles(w, n, peers, j);
      }
    }
  }

  /** Where every retained peer is found, a second identical sync changes nothing: after a restart or not, whatever its
      own commands would answer and whatever ids and BIRD files the peers share, it issues only the store swap, which
      puts back the map there. */
  lemma SyncIsFixpoint(w: World, w': World, n: Node, peers: seq<SyncPeer>)
    requires RanClean(w, n, peers) && Lawful(w')
    requires FilesFound(n, peers) || AllFound(Sync(w, n, peers).node, peers)
    ensures var m := Restart(Sync(w, n, peers).node);
            var s := Sync(w', m, peers);
            s.node == m.(clock := s.node.clock, dead := s.node.dead) && s.failed == []
  {
    var m := Restart(Sync(w, n, peers).node);
    SyncConverges(w, n, peers);
    FoundAgain(w, n, peers);
    DesiredAgain(w, w', n, peers);
    QuietCreate(w', m, peers);
    NothingStale(w', m, peers);
  }

  /** If the store already holds what the sync wants, nothing is stale. */
  lemma NothingStale(w: World, n: Node, peers: seq<SyncPeer>)
    requires Lawful(w) && Create(w, n, peers).desired == n.peers
    ensures var a, s := Create(w, n, peers).node, Sync(w, n, peers).node; s == a.(clock := s.clock, dead := s.dead)
  {
    CreateKeepsStore(w, n, peers);
    NothingDropped(w, n, peers);
  }

  // ---------------------------------------------------------------- with a custom file missing

  /** The second creation loop at one interface and at one BIRD file. */
  lemma AgainAtIface(w: World, w': World, n: Node, peers: seq<SyncPeer>, k: string)
    requires RanClean(w, n, peers)
    ensures var m := Restart(Sync(w, n, peers).node);
            var r := Create(w', m, peers).node;
            SameAt(m.wg, r.wg, k) && (k in m.up <==> k in r.up)
  {
    var m := Restart(Sync(w, n, peers).node);
    SyncConverges(w, n, peers);
    DesiredAgain(w, w', n, peers);
    if j :| 0 <= j < |peers| && peers[j].Valid() && peers[j].Iface() == k {
      var _, _ := WgOutcome(w', m, peers, j);
    } else {
      assert peers[..0] == [];
      CreateKeepsWg(w', m, peers, 0, k);
    }
  }

  /** A retained peer that is not found after a clean sync was not found in it either, and its default file is there. */
  lemma StillMissing(w: World, n: Node, peers: seq<SyncPeer>, j: nat)
    requires RanClean(w, n, peers) && j < |peers| && Kept(n, peers[j])
    requires peers[j].BirdFile() !in Sync(w, n, peers).node.bird
    ensures var a, m, f := Create(w, n, peers).node, Sync(w, n, peers).node, BirdFileName(peers[j].asn);
            peers[j].BirdFile() !in a.bird && f in m.bird && f in a.bird && m.bird[f] == a.bird[f]
  {
    var p := peers[j];
    SyncEnds(w, n, peers);
    DesiredIsDecided(w, n, peers);
    SyncConverges(w, n, peers);
    assert peers[..|peers|] == peers;
    if p.BirdFile() in Create(w, n, peers).node.bird && p.BirdFile() !in n.bird {
      WrittenFor(w, n, peers, |peers|, p.BirdFile());
    }
  }

  /** Its round wrote that file whole. */
  lemma WrittenWhole(w: World, n: Node, peers: seq<SyncPeer>, j: nat)
    requires DistinctIfaces(peers) && Create(w, n, peers).failed == []
    requires j < |peers| && Kept(n, peers[j]) && peers[j].BirdFile() !in Create(w, n, peers).node.bird
    ensures var b, f := Create(w, n, peers[..j + 1]).node, BirdFileName(peers[j].asn);
            f in b.bird && b.bird[f] == Whole(peers[j].Bird())
  {
    IfaceBefore(w, n, peers, j);
    var _, _, _, _ := RoundAt(w, n, peers, j);
    CleanPrefix(w, n, peers, j);
    CleanPrefix(w, n, peers, j + 1);
  }

  /** The rounds of a clean loop write only whole files. */
  lemma {:induction false} WholeStays(w: World, n: Node, peers: seq<SyncPeer>, j: nat, f: string)
    requires j <= |peers| && Create(w, n, peers).failed == []
    requires f in Create(w, n, peers[..j]).node.bird && Create(w, n, peers[..j]).node.bird[f].Whole?
    ensures f in Create(w, n, peers).node.bird && Create(w, n, peers).node.bird[f].Whole?
    decreases |peers|
  {
    if j == |peers| {
      assert peers[..j] == peers;
    } else {
      var k := |peers| - 1;
      assert peers[..k + 1] == peers && peers[..k][..j] == peers[..j];
      CleanPrefix(w, n, peers, k);
      WholeStays(w, n, peers[..k], j, f);
      var _, _, _, _ := RoundAt(w, n, peers, k);
    }
  }

  /** The peer is kept and not found, and this is its default file: a sync writes it. */
  predicate WritesAt(m: Node, p: SyncPeer, f: string) {
    Kept(m, p) && NeedsBird(m, p) && BirdFileName(p.asn) == f
  }

  /** Of the first `k` peers `j` is the last one this file is written for, and it holds what that peer puts there; or it
      is written for none and holds what it held. */
  ghost predicate LastAt(m: Node, peers: seq<SyncPeer>, k: nat, bird: map<string, File<BirdSettings>>, f: string,
                         j: int)
    requires k <= |peers|
  {
    && -1 <= j < k && (forall i :: j < i < k ==> !WritesAt(m, peers[i], f))
    && (j < 0 ==> SameAt(m.bird, bird, f))
    && (j >= 0 ==> WritesAt(m, peers[j], f) && f in bird && bird[f] == Whole(peers[j].Bird()))
  }

  lemma FiledStep(m: Node, p: SyncPeer, a: map<string, File<BirdSettings>>, b: map<string, File<BirdSettings>>,
                  f: string)
    requires a.Keys == m.bird.Keys && b == if Kept(m, p) then Filed(a, p) else a
    requires Kept(m, p) && NeedsBird(m, p) ==> BirdFileName(p.asn) in m.bird
    ensures b.Keys == m.bird.Keys
    ensures if WritesAt(m, p, f) then f in b && b[f] == Whole(p.Bird()) else SameAt(a, b, f)
  {
  }

  /** The second creation loop at one BIRD file, if the default files it writes are there: no file appears, and the file
      holds what the last peer it is written for puts there. */
  lemma {:induction false} LastWrite(w: World, m: Node, peers: seq<SyncPeer>, k: nat, f: string) returns (j: int)
    requires Smooth(w) && !m.dead && DistinctIfaces(peers) && k <= |peers|
    requires forall i :: 0 <= i < |peers| && Kept(m, peers[i]) && NeedsBird(m, peers[i]) ==>
               BirdFileName(peers[i].asn) in m.bird
    ensures Create(w, m, peers[..k]).node.bird.Keys == m.bird.Keys
    ensures LastAt(m, peers, k, Create(w, m, peers[..k]).node.bird, f, j)
  {
    if k == 0 {
      assert peers[..0] == [];
      j := -1;
    } else {
      var p := peers[k - 1];
      var i := LastWrite(w, m, peers, k - 1, f);
      FiledAt(w, m, peers, k - 1);
      FiledStep(m, p, Create(w, m, peers[..k - 1]).node.bird, Create(w, m, peers[..k]).node.bird, f);
      j := if WritesAt(m, p, f) then k - 1 else i;
    }
  }

  /** The file, if a sync would write it again, is as the last peer it is written for would write it. */
  ghost predicate WrittenLastAt(m: Node, peers: seq<SyncPeer>, f: string) {
    forall j :: 0 <= j < |peers| && WritesAt(m, peers[j], f)
                && (forall i :: j < i < |peers| ==> !WritesAt(m, peers[i], f)) ==>
      f in m.bird && m.bird[f] == Whole(peers[j].Bird())
  }

  ghost predicate WrittenLast(m: Node, peers: seq<SyncPeer>) {
    forall f :: WrittenLastAt(m, peers, f)
  }

  lemma LastDecides(m: Node, peers: seq<SyncPeer>, bird: map<string, File<BirdSettings>>, f: string, j: int)
    requires LastAt(m, peers, |peers|, bird, f, j) && bird.Keys == m.bird.Keys
    ensures SameAt(m.bird, bird, f) <==> WrittenLastAt(m, peers, f)
  {
  }

  lemma AgainAtFiles(w: World, w': World, n: Node, peers: seq<SyncPeer>)
    requires RanClean(w, n, peers) && Smooth(w')
    ensures var m := Restart(Sync(w, n, peers).node);
            Create(w', m, peers).node.bird == m.bird <==> WrittenLast(m, peers)
  {
    var m := Restart(Sync(w, n, peers).node);
    var b := Create(w', m, peers).node.bird;
    DefaultsAreThere(w, n, peers);
    assert peers[..|peers|] == peers;
    forall f ensures SameAt(m.bird, b, f) <==> WrittenLastAt(m, peers, f) {
      var j := LastWrite(w', m, peers, |peers|, f);
      LastDecides(m, peers, b, f, j);
    }
    if WrittenLast(m, peers) {
      MapsAgree(m.bird, b);
    }
  }

  lemma DefaultsAreThere(w: World, n: Node, peers: seq<SyncPeer>)
    requires RanClean(w, n, peers)
    ensures var m := Restart(Sync(w, n, peers).node);
            forall i :: 0 <= i < |peers| && Kept(m, peers[i]) && NeedsBird(m, peers[i]) ==>
              BirdFileName(peers[i].asn) in m.bird
  {
    SkippedStaySkipped(w, n, peers);
    var m := Restart(Sync(w, n, peers).node);
    forall i | 0 <= i < |peers| && Kept(m, peers[i]) && NeedsBird(m, peers[i])
      ensures BirdFileName(peers[i].asn) in m.bird
    {
      StillMissing(w, n, peers, i);
    }
  }

  /** Where a retained peer is not found the second sync writes its default file again. With commands that succeed it
      changes no interface, no WireGuard file and no record, and no BIRD file if and only if each file it writes again
      is as the last peer it is written for would write it. */
  lemma SmoothFixpointIff(w: World, w': World, n: Node, peers: seq<SyncPeer>)
    requires RanClean(w, n, peers) && Smooth(w')
    ensures var m := Restart(Sync(w, n, peers).node);
            var s := Sync(w', m, peers).node;
            s.wg == m.wg && s.up == m.up && s.peers == m.peers && (s.bird == m.bird <==> WrittenLast(m, peers))
  {
    var m := Restart(Sync(w, n, peers).node);
    var r := Create(w', m, peers).node;
    forall k ensures SameAt(m.wg, r.wg, k) && (k in m.up <==> k in r.up) {
      AgainAtIface(w, w', n, peers, k);
    }
    MapsAgree(m.wg, r.wg);
    AgainAtFiles(w, w', n, peers);
    DesiredAgain(w, w', n, peers);
    NothingStale(w', m, peers);
    CreateKeepsStore(w', m, peers);
  }

  /** With distinct default files it is as it was: whatever custom files are missing and whoever's default files their
      names are, with commands that succeed the second sync changes no file, no interface and no record. */
  lemma SyncIsFixpointWhenSmooth(w: World, w': World, n: Node, peers: seq<SyncPeer>)
    requires RanClean(w, n, peers) && DistinctDefaults(peers) && Smooth(w')
    ensures var m := Restart(Sync(w, n, peers).node);
            var s := Sync(w', m, peers).node;
            s.wg == m.wg && s.up == m.up && s.bird == m.bird && s.peers == m.peers
  {
    var m := Restart(Sync(w, n, peers).node);
    SmoothFixpointIff(w, w', n, peers);
    SkippedStaySkipped(w, n, peers);
    forall j | 0 <= j < |peers| && Kept(m, peers[j]) && NeedsBird(m, peers[j])
      ensures var f := BirdFileName(peers[j].asn); f in m.bird && m.bird[f] == Whole(peers[j].Bird())
    {
      AsWritten(w, n, peers, j);
    }
    AllAsWritten(m, peers);
  }

  lemma AllAsWritten(m: Node, peers: seq<SyncPeer>)
    requires forall j :: 0 <= j < |peers| && Kept(m, peers[j]) && NeedsBird(m, peers[j]) ==>
               var f := BirdFileName(peers[j].asn); f in m.bird && m.bird[f] == Whole(peers[j].Bird())
    ensures WrittenLast(m, peers)
  {
  }

  lemma AsWritten(w: World, n: Node, peers: seq<SyncPeer>, j: nat)
    requires RanClean(w, n, peers) && DistinctDefaults(peers) && j < |peers| && Kept(n, peers[j])
    requires peers[j].BirdFile() !in Sync(w, n, peers).node.bird
    ensures var m, f := Sync(w, n, peers).node, BirdFileName(peers[j].asn);
            f in m.bird && m.bird[f] == Whole(peers[j].Bird())
  {
    StillMissing(w, n, peers, j);
    SyncEnds(w, n, peers);
    WrittenWhole(w, n, peers, j);
    CreateKeepsBird(w, n, peers, j + 1, BirdFileName(peers[j].asn));
  }

  /** A world in which only writing a BIRD file fails. */
  function Cutting(w: World): World {
    World((c: Command, t: nat) => if c.BirdWrite? then Fail(0) else Ok, w.cursor)
  }

  lemma CuttingRound(w: World, a: SyncState, p: SyncPeer)
    requires !a.node.dead
    ensures var b := SyncOne(Cutting(w), a, p).node;
            && !b.dead && (Kept(a.node, p) && NeedsBird(a.node, p) ==> CutShort(b, BirdFileName(p.asn)))
            && (forall f :: CutShort(a.node, f) ==> CutShort(b, f))
  {
    if Kept(a.node, p) {
      CuttingWg(w, a.node, p);
      SyncWgRound(Cutting(w), a.node, p);
      CuttingBird(w, SyncWg(Cutting(w), a.node, p).0, p);
    }
  }

  predicate CutShort(n: Node, f: string) {
    f in n.bird && n.bird[f].Cut?
  }

  lemma CuttingWg(w: World, n: Node, p: SyncPeer)
    requires !n.dead
    ensures !SyncWg(Cutting(w), n, p).0.dead
  {
  }

  lemma CuttingBird(w: World, n: Node, p: SyncPeer)
    requires !n.dead
    ensures var m := SyncBird(Cutting(w), n, p).0;
            && !m.dead && (NeedsBird(n, p) ==> CutShort(m, BirdFileName(p.asn)))
            && (forall f :: CutShort(n, f) ==> CutShort(m, f))
  {
  }

  /** In that world a file that is cut short stays so. */
  lemma {:induction false} CutStays(w: World, m: Node, peers: seq<SyncPeer>, j: nat, f: string)
    requires j <= |peers| && !Create(Cutting(w), m, peers[..j]).node.dead
    requires CutShort(Create(Cutting(w), m, peers[..j]).node, f)
    ensures var b := Create(Cutting(w), m, peers).node; !b.dead && CutShort(b, f)
    decreases |peers|
  {
    if j == |peers| {
      assert peers[..j] == peers;
    } else {
      var k := |peers| - 1;
      assert peers[..k][..j] == peers[..j];
      CutStays(w, m, peers[..k], j, f);
      CuttingRound(w, Create(Cutting(w), m, peers[..k]), peers[k]);
    }
  }

  lemma {:induction false} FirstMissing(m: Node, peers: seq<SyncPeer>) returns (j: nat)
    requires !AllFound(m, peers)
    ensures j < |peers| && Kept(m, peers[j]) && NeedsBird(m, peers[j]) && AllFound(m, peers[..j])
  {
    var k := |peers| - 1;
    if AllFound(m, peers[..k]) {
      j := k;
      assert forall i :: 0 <= i < k ==> peers[..k][i] == peers[i];
    } else {
      j := FirstMissing(m, peers[..k]);
      assert peers[..k][..j] == peers[..j];
    }
  }

  /** A loop in which the first peer that is not found has its file cut short. */
  lemma CutInLoop(w: World, m: Node, peers: seq<SyncPeer>, j: nat)
    requires !m.dead && j < |peers| && Kept(m, peers[j]) && NeedsBird(m, peers[j]) && AllFound(m, peers[..j])
    requires forall i :: 0 <= i < |peers| && Kept(m, peers[i]) ==> !NeedsWg(m, peers[i])
    ensures CutShort(Create(Cutting(w), m, peers).node, BirdFileName(peers[j].asn))
  {
    QuietCreate(Cutting(w), m, peers[..j]);
    CuttingRound(w, Create(Cutting(w), m, peers[..j]), peers[j]);
    assert peers[..j + 1][..j] == peers[..j];
    CutStays(w, m, peers, j + 1, BirdFileName(peers[j].asn));
  }

  /** With commands that fail it is no fixpoint: the second sync may cut a file short. So a second sync leaves the BIRD
      files alone in every world if and only if every retained peer is found by its file when it starts. */
  lemma FixpointIffFound(w: World, n: Node, peers: seq<SyncPeer>)
    requires RanClean(w, n, peers)
    ensures var m := Restart(Sync(w, n, peers).node);
            AllFound(m, peers) <==> forall w' :: Lawful(w') ==> Sync(w', m, peers).node.bird == m.bird
  {
    var m := Restart(Sync(w, n, peers).node);
    if AllFound(m, peers) {
      forall w' | Lawful(w') ensures Sync(w', m, peers).node.bird == m.bird {
        SyncIsFixpoint(w, w', n, peers);
      }
    } else {
      CutsAgain(w, n, peers);
      assert Lawful(Cutting(w));
    }
  }

  lemma CutsAgain(w: World, n: Node, peers: seq<SyncPeer>)
    requires RanClean(w, n, peers) && !AllFound(Sync(w, n, peers).node, peers)
    ensures Lawful(Cutting(w))
    ensures Sync(Cutting(w), Restart(Sync(w, n, peers).node), peers).node.bird != Sync(w, n, peers).node.bird
  {
    var m, w' := Restart(Sync(w, n, peers).node), Cutting(w);
    assert forall s :: w'.cursor(s) == w.cursor(s);
    SyncConverges(w, n, peers);
    DesiredAgain(w, w', n, peers);
    var j := FirstMissing(m, peers);
    CutInLoop(w, m, peers, j);
    NothingStale(w', m, peers);
    WasWhole(w, n, peers, j);
  }

  lemma WasWhole(w: World, n: Node, peers: seq<SyncPeer>, j: nat)
    requires RanClean(w, n, peers) && j < |peers| && Kept(n, peers[j])
    requires peers[j].BirdFile() !in Sync(w, n, peers).node.bird
    ensures !CutShort(Sync(w, n, peers).node, BirdFileName(peers[j].asn))
  {
    StillMissing(w, n, peers, j);
    SyncEnds(w, n, peers);
    WrittenWhole(w, n, peers, j);
    WholeStays(w, n, peers, j + 1, BirdFileName(peers[j].asn));
  }

  /** Where BIRD files are separate, that is to say that no custom file was missing before the first sync. */
  lemma FixpointIffFilesFound(w: World, n: Node, peers: seq<SyncPeer>)
    requires RanClean(w, n, peers) && FilesApart(peers)
    ensures FilesFound(n, peers) <==>
              forall w' :: Lawful(w') ==>
                  Sync(w', Restart(Sync(w, n, peers).node), peers).node.bird == Sync(w, n, peers).node.bird
  {
    FoundAgain(w, n, peers);
    FixpointIffFound(w, n, peers);
  }
}

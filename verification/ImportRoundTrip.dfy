/** Writing peers and importing them again: exactly when the two managers' files, scanned and joined, give every peer
    back. */
module ImportRoundTrip {
  import opened Options
  import opened Decimal
  import opened Names
  import H = Host
  import opened Regex
  import opened BirdConfig
  import opened Scanning
  import opened Import

  datatype Peer = Peer(wg: H.WgSettings, bird: H.BirdSettings)

  predicate WellFormed(p: Peer) {
    H.ValidSettings(p.wg) && p.wg.asn == p.bird.asn <= MAX_INT64 && LinkLocal(p.bird.lla) && Word(p.bird.iface)
  }

  predicate AllWellFormed(ps: seq<Peer>) {
    forall j :: 0 <= j < |ps| ==> WellFormed(ps[j])
  }

  ghost predicate DistinctIfaces(ps: seq<Peer>) {
    forall i, j :: 0 <= i < |ps| && 0 <= j < |ps| && i != j ==> ps[i].bird.iface != ps[j].bird.iface
  }

  ghost predicate DistinctAsns(ps: seq<Peer>) {
    forall i, j :: 0 <= i < |ps| && 0 <= j < |ps| && i != j ==> ps[i].bird.asn != ps[j].bird.asn
  }

  /** The last peer of this one's AS: the one whose settings the AS's BIRD file holds. */
  function LastOf(ps: seq<Peer>, j: nat): (h: nat)
    requires j < |ps|
    ensures j <= h < |ps| && ps[h].bird.asn == ps[j].bird.asn
    ensures forall i :: h < i < |ps| ==> ps[i].bird.asn != ps[j].bird.asn
  {
    var last := |ps| - 1;
    if ps[last].bird.asn == ps[j].bird.asn then last else LastOf(ps[..last], j)
  }

  // ---------------------------------------------------------------- writing

  /** AddPeerWithIface and AddPeer, for one peer. */
  function Install(w: H.World, n: H.Node, p: Peer): H.Node {
    H.AddBird(w, H.AddWg(w, n, p.bird.iface, p.wg).0, p.bird).0
  }

  predicate Step(w: H.World, ns: seq<H.Node>, ps: seq<Peer>, i: nat)
    requires |ns| == |ps| + 1 && i < |ps|
  {
    ns[i + 1] == Install(w, ns[i], ps[i])
  }

  /** The nodes that installing the peers one after another on an empty node passes through. */
  ghost predicate Installs(w: H.World, ns: seq<H.Node>, ps: seq<Peer>) {
    |ns| == |ps| + 1 && ns[0] == H.EMPTY_NODE && forall i :: 0 <= i < |ps| ==> Step(w, ns, ps, i)
  }

  ghost predicate NamesWg(ps: seq<Peer>, k: string) {
    exists j :: 0 <= j < |ps| && ps[j].bird.iface == k
  }

  ghost predicate NamesBird(ps: seq<Peer>, f: string) {
    exists j :: 0 <= j < |ps| && BirdFileName(ps[j].bird.asn) == f
  }

  /** The WireGuard files are those of the peers, whole, and no others. */
  ghost predicate HoldsWg(n: H.Node, ps: seq<Peer>) {
    && (forall j :: 0 <= j < |ps| ==> ps[j].bird.iface in n.wg && n.wg[ps[j].bird.iface] == H.Whole(ps[j].wg))
    && (forall k :: k in n.wg ==> NamesWg(ps, k))
  }

  predicate HoldsLast(n: H.Node, ps: seq<Peer>, j: nat)
    requires j < |ps|
  {
    var f := BirdFileName(ps[j].bird.asn);
    f in n.bird && n.bird[f] == H.Whole(ps[LastOf(ps, j)].bird)
  }

  /** The BIRD files are those of the peers' ASes, each with the settings of the last peer of its AS, and no others. */
  ghost predicate HoldsBird(n: H.Node, ps: seq<Peer>) {
    && (forall j :: 0 <= j < |ps| ==> HoldsLast(n, ps, j))
    && (forall f :: f in n.bird ==> NamesBird(ps, f))
  }

  predicate Wrote(n: H.Node, p: Peer, n': H.Node) {
    n'.wg == n.wg[p.bird.iface := H.Whole(p.wg)] && n'.bird == n.bird[BirdFileName(p.bird.asn) := H.Whole(p.bird)]
  }

  lemma Installed(w: H.World, n: H.Node, p: Peer) returns (n': H.Node)
    requires H.Smooth(w) && !n.dead && H.ValidSettings(p.wg)
    ensures n' == Install(w, n, p)
    ensures !n'.dead && Wrote(n, p, n')
  {
    n' := Install(w, n, p);
  }

  lemma NamesWgGrow(front: seq<Peer>, p: Peer, k: string)
    ensures NamesWg(front, k) ==> NamesWg(front + [p], k)
    ensures NamesWg(front + [p], p.bird.iface)
  {
    assert (front + [p])[|front|] == p;
    if NamesWg(front, k) {
      var j :| 0 <= j < |front| && front[j].bird.iface == k;
      assert (front + [p])[j] == front[j];
    }
  }

  lemma NamesBirdGrow(front: seq<Peer>, p: Peer, f: string)
    ensures NamesBird(front, f) ==> NamesBird(front + [p], f)
    ensures NamesBird(front + [p], BirdFileName(p.bird.asn))
  {
    assert (front + [p])[|front|] == p;
    if NamesBird(front, f) {
      var j :| 0 <= j < |front| && BirdFileName(front[j].bird.asn) == f;
      assert (front + [p])[j] == front[j];
    }
  }

  lemma HoldsWgStep(n: H.Node, n': H.Node, front: seq<Peer>, p: Peer)
    requires HoldsWg(n, front) && DistinctIfaces(front + [p]) && Wrote(n, p, n')
    ensures HoldsWg(n', front + [p])
  {
    var ps := front + [p];
    forall j | 0 <= j < |ps| ensures ps[j].bird.iface in n'.wg && n'.wg[ps[j].bird.iface] == H.Whole(ps[j].wg) {
      if j < |front| {
        assert ps[j] == front[j] && ps[|front|] == p;
      }
    }
    forall k | k in n'.wg ensures NamesWg(ps, k) {
      NamesWgGrow(front, p, k);
    }
  }

  lemma HoldsLastStep(n: H.Node, n': H.Node, front: seq<Peer>, p: Peer, j: nat)
    requires j <= |front| && (j < |front| ==> HoldsLast(n, front, j)) && Wrote(n, p, n')
    ensures HoldsLast(n', front + [p], j)
  {
    var ps := front + [p];
    assert ps[..|front|] == front && ps[|front|] == p;
    if ps[j].bird.asn != p.bird.asn {
      if BirdFileName(ps[j].bird.asn) == BirdFileName(p.bird.asn) {
        NamesInjective(ps[j].bird.asn, p.bird.asn);
      }
    }
  }

  lemma HoldsBirdStep(n: H.Node, n': H.Node, front: seq<Peer>, p: Peer)
    requires HoldsBird(n, front) && Wrote(n, p, n')
    ensures HoldsBird(n', front + [p])
  {
    forall j | 0 <= j < |front + [p]| ensures HoldsLast(n', front + [p], j) {
      HoldsLastStep(n, n', front, p, j);
    }
    forall f | f in n'.bird ensures NamesBird(front + [p], f) {
      NamesBirdGrow(front, p, f);
    }
  }

  lemma {:induction false} Alive(w: H.World, ns: seq<H.Node>, ps: seq<Peer>, i: nat)
    requires H.Smooth(w) && Installs(w, ns, ps) && i < |ns| && forall j :: 0 <= j < |ps| ==> H.ValidSettings(ps[j].wg)
    ensures !ns[i].dead
  {
    if i > 0 {
      Alive(w, ns, ps, i - 1);
      assert Step(w, ns, ps, i - 1);
      var _ := Installed(w, ns[i - 1], ps[i - 1]);
    }
  }

  lemma InstallWrites(w: H.World, ns: seq<H.Node>, ps: seq<Peer>, i: nat)
    requires H.Smooth(w) && Installs(w, ns, ps) && i < |ps| && forall j :: 0 <= j < |ps| ==> H.ValidSettings(ps[j].wg)
    ensures Wrote(ns[i], ps[i], ns[i + 1])
  {
    Alive(w, ns, ps, i);
    assert Step(w, ns, ps, i);
    var _ := Installed(w, ns[i], ps[i]);
  }

  lemma {:induction false} TraceHolds(ns: seq<H.Node>, ps: seq<Peer>)
    requires |ns| == |ps| + 1 && ns[0] == H.EMPTY_NODE && DistinctIfaces(ps)
    requires forall i :: 0 <= i < |ps| ==> Wrote(ns[i], ps[i], ns[i + 1])
    ensures HoldsWg(ns[|ps|], ps) && HoldsBird(ns[|ps|], ps)
  {
    if ps != [] {
      var front, p := ps[..|ps| - 1], ps[|ps| - 1];
      TraceHolds(ns[..|ps|], front);
      assert front + [p] == ps;
      assert Wrote(ns[|front|], ps[|front|], ns[|front| + 1]);
      HoldsWgStep(ns[|front|], ns[|ps|], front, p);
      HoldsBirdStep(ns[|front|], ns[|ps|], front, p);
    }
  }

  // ---------------------------------------------------------------- what the directories read as

  /** The text of a file, `body` rendering everything after the first line of a WireGuard file. */
  function BirdText(f: H.File<H.BirdSettings>): string {
    var t := Render(f.settings.asn, f.settings.lla, f.settings.iface);
    if f.Whole? then t else t[..f.bytes % |t|]
  }

  function WgText(f: H.File<H.WgSettings>, body: H.WgSettings -> string): string {
    var t := RenderWg(f.settings.asn, body(f.settings));
    if f.Whole? then t else t[..f.bytes % |t|]
  }

  function WgEntryOf(k: string): DirEntry {
    DirEntry(k + SUFFIX, false)
  }

  /** Listings of both directories in any order, and the text of every file. */
  ghost predicate Lists(n: H.Node, body: H.WgSettings -> string, ks: seq<string>, wgTexts: map<string, string>,
                        fs: seq<string>, birdTexts: map<string, string>) {
    && H.Enumerates(ks, n.wg.Keys) && H.Enumerates(fs, n.bird.Keys)
    && (forall k :: k in n.wg ==> k + SUFFIX in wgTexts && wgTexts[k + SUFFIX] == WgText(n.wg[k], body))
    && (forall f :: f in n.bird ==> f in birdTexts && birdTexts[f] == BirdText(n.bird[f]))
  }

  function WgListing(ks: seq<string>): seq<DirEntry> {
    seq(|ks|, i requires 0 <= i < |ks| => WgEntryOf(ks[i]))
  }

  function BirdListing(fs: seq<string>): seq<DirEntry> {
    seq(|fs|, i requires 0 <= i < |fs| => DirEntry(fs[i], false))
  }

  function BgpRowFor(p: Peer): BgpRow {
    BgpRow(BirdFileName(p.bird.asn), p.bird.asn, p.bird.lla, p.bird.iface, ProtocolName(p.bird.asn))
  }

  lemma StemOf(k: string)
    ensures IsConf(WgEntryOf(k)) && Stem(k + SUFFIX) == k
  {
  }

  lemma BirdFileIsConf(asn: int)
    ensures IsConf(DirEntry(BirdFileName(asn), false))
  {
  }

  /** The row shows the interface and what `wg show` says of it; its AS number is whatever the name or file said. */
  predicate ShownAs(row: WgRow, k: string, d: Dump) {
    row.iface == k && row.pubkey == d.pubkey && row.endpoint == d.endpoint && row.port == d.port
  }

  /** The interface's name has no number, or the AS number itself. */
  predicate NameAgrees(iface: string, asn: int) {
    AsnFromName(iface) == NotANumber || AsnFromName(iface) == Number(asn)
  }

  /** A written WireGuard file gives a row for its interface, and the row has the AS number exactly if the interface's
      name does not say otherwise. */
  lemma WgRowWritten(p: Peer, body: H.WgSettings -> string, texts: map<string, string>,
                     dumps: map<string, seq<seq<string>>>)
    requires WellFormed(p)
    requires p.bird.iface + SUFFIX in texts && texts[p.bird.iface + SUFFIX] == WgText(H.Whole(p.wg), body)
    requires p.bird.iface in dumps && ReadDump(dumps[p.bird.iface]).pubkey != ""
    ensures var row, d := WgRowOf(WgEntryOf(p.bird.iface), texts, dumps), ReadDump(dumps[p.bird.iface]);
            && row.Some? && ShownAs(row.value, p.bird.iface, d)
            && (row.value.asn == p.bird.asn <==> NameAgrees(p.bird.iface, p.bird.asn))
  {
    StemOf(p.bird.iface);
    WgRoundTrip(p.wg.asn, body(p.wg));
  }

  lemma BgpRowWritten(p: Peer, texts: map<string, string>)
    requires WellFormed(p) && BirdFileName(p.bird.asn) in texts
    requires texts[BirdFileName(p.bird.asn)] == BirdText(H.Whole(p.bird))
    ensures BgpRowOf(DirEntry(BirdFileName(p.bird.asn), false), texts) == Some(BgpRowFor(p))
  {
    BirdFileIsConf(p.bird.asn);
    RoundTrip(p.bird.asn, p.bird.lla, p.bird.iface);
  }

  // ---------------------------------------------------------------- scans without a gap

  lemma {:induction false} AllFound<T>(xs: seq<Option<T>>)
    requires forall i :: 0 <= i < |xs| ==> xs[i].Some?
    ensures |Found(xs)| == |xs| && forall i :: 0 <= i < |xs| ==> xs[i] == Some(Found(xs)[i])
  {
    if xs != [] {
      AllFound(xs[..|xs| - 1]);
    }
  }

  lemma {:induction false} FoundAt<T>(xs: seq<Option<T>>, x: T) returns (i: nat)
    requires x in Found(xs)
    ensures i < |xs| && xs[i] == Some(x)
  {
    var last := |xs| - 1;
    if xs[last] == Some(x) {
      i := last;
    } else {
      i := FoundAt(xs[..last], x);
    }
  }

  lemma AllWgRows(entries: seq<DirEntry>, texts: map<string, string>, dumps: map<string, seq<seq<string>>>)
    requires forall i :: 0 <= i < |entries| ==> WgRowOf(entries[i], texts, dumps).Some?
    ensures var rows := WgRows(entries, texts, dumps);
            |rows| == |entries| && forall i :: 0 <= i < |rows| ==> Some(rows[i]) == WgRowOf(entries[i], texts, dumps)
  {
    AllFound(seq(|entries|, i requires 0 <= i < |entries| => WgRowOf(entries[i], texts, dumps)));
  }

  lemma AllBgpRows(entries: seq<DirEntry>, texts: map<string, string>)
    requires forall i :: 0 <= i < |entries| ==> BgpRowOf(entries[i], texts).Some?
    ensures var rows := BgpRows(entries, texts);
            |rows| == |entries| && forall i :: 0 <= i < |rows| ==> Some(rows[i]) == BgpRowOf(entries[i], texts)
  {
    AllFound(seq(|entries|, i requires 0 <= i < |entries| => BgpRowOf(entries[i], texts)));
  }

  lemma {:induction false} AllWgEntries(ix: Index, tracked: set<int>, wg: seq<WgRow>)
    requires forall i :: 0 <= i < |wg| ==> Entry(ix, wg[i]).asn !in tracked
    ensures var es := WgEntries(ix, tracked, wg);
            |es| == |wg| && forall i :: 0 <= i < |es| ==> es[i] == Entry(ix, wg[i])
  {
    if wg != [] {
      AllWgEntries(ix, tracked, wg[..|wg| - 1]);
    }
  }

  lemma {:induction false} NoBgpEntries(matched: set<string>, tracked: set<int>, bgp: seq<BgpRow>)
    requires forall i :: 0 <= i < |bgp| ==> bgp[i].iface in matched
    ensures BgpEntries(matched, tracked, bgp) == []
  {
    if bgp != [] {
      NoBgpEntries(matched, tracked, bgp[..|bgp| - 1]);
    }
  }

  // ---------------------------------------------------------------- the rows of both scans

  /** What the center should be told about a peer. */
  function Expected(p: Peer, d: Dump): Imported {
    Imported(p.bird.asn, d.pubkey, d.endpoint, p.bird.lla, d.port, p.bird.iface, ProtocolName(p.bird.asn),
             BirdFileName(p.bird.asn), true)
  }

  /** The row is that of a peer which is the last of its AS. */
  ghost predicate IsHeldRow(ps: seq<Peer>, b: BgpRow) {
    exists h :: 0 <= h < |ps| && LastOf(ps, h) == h && b == BgpRowFor(ps[h])
  }

  /** The BIRD rows are exactly those of the last peers of their ASes. */
  ghost predicate HeldRows(ps: seq<Peer>, rows: seq<BgpRow>) {
    && (forall b :: b in rows ==> IsHeldRow(ps, b))
    && (forall j :: 0 <= j < |ps| ==> BgpRowFor(ps[LastOf(ps, j)]) in rows)
  }

  lemma BgpRowHeld(n: H.Node, ps: seq<Peer>, j: nat, texts: map<string, string>)
    requires j < |ps| && HoldsLast(n, ps, j) && AllWellFormed(ps)
    requires forall f :: f in n.bird ==> f in texts && texts[f] == BirdText(n.bird[f])
    ensures BgpRowOf(DirEntry(BirdFileName(ps[j].bird.asn), false), texts) == Some(BgpRowFor(ps[LastOf(ps, j)]))
  {
    BgpRowWritten(ps[LastOf(ps, j)], texts);
  }

  lemma LastIsLast(ps: seq<Peer>, j: nat)
    requires j < |ps|
    ensures LastOf(ps, LastOf(ps, j)) == LastOf(ps, j)
  {
  }

  lemma BgpRowAt(n: H.Node, ps: seq<Peer>, f: string, texts: map<string, string>)
    requires HoldsBird(n, ps) && AllWellFormed(ps) && f in n.bird
    requires forall f :: f in n.bird ==> f in texts && texts[f] == BirdText(n.bird[f])
    ensures var row := BgpRowOf(DirEntry(f, false), texts); row.Some? && IsHeldRow(ps, row.value)
  {
    assert NamesBird(ps, f);
    var j :| 0 <= j < |ps| && BirdFileName(ps[j].bird.asn) == f;
    BgpRowHeld(n, ps, j, texts);
    LastIsLast(ps, j);
  }

  lemma BgpRowsHeld(n: H.Node, ps: seq<Peer>, fs: seq<string>, texts: map<string, string>) returns (rows: seq<BgpRow>)
    requires HoldsBird(n, ps) && AllWellFormed(ps)
    requires H.Enumerates(fs, n.bird.Keys) && forall f :: f in n.bird ==> f in texts && texts[f] == BirdText(n.bird[f])
    ensures rows == BgpRows(BirdListing(fs), texts) && HeldRows(ps, rows)
  {
    var entries := BirdListing(fs);
    forall i | 0 <= i < |entries|
      ensures BgpRowOf(entries[i], texts).Some? && IsHeldRow(ps, BgpRowOf(entries[i], texts).value)
    {
      assert fs[i] in fs;
      BgpRowAt(n, ps, fs[i], texts);
    }
    AllBgpRows(entries, texts);
    rows := BgpRows(entries, texts);
    forall j | 0 <= j < |ps| ensures BgpRowFor(ps[LastOf(ps, j)]) in rows {
      var i := ListedAt(n, ps, fs, j);
      BgpRowHeld(n, ps, j, texts);
      assert rows[i] == BgpRowFor(ps[LastOf(ps, j)]);
    }
  }

  lemma ListedAt(n: H.Node, ps: seq<Peer>, fs: seq<string>, j: nat) returns (i: nat)
    requires j < |ps| && HoldsLast(n, ps, j) && H.Enumerates(fs, n.bird.Keys)
    ensures i < |fs| && fs[i] == BirdFileName(ps[j].bird.asn)
  {
    assert BirdFileName(ps[j].bird.asn) in fs;
    i :| 0 <= i < |fs| && fs[i] == BirdFileName(ps[j].bird.asn);
  }

  /** The row of a listed interface shows its peer. */
  ghost predicate ShowsPeer(ps: seq<Peer>, row: WgRow, k: string, d: Dump) {
    ShownAs(row, k, d) && exists j :: 0 <= j < |ps| && ps[j].bird.iface == k && SaysAsn(ps[j], row)
  }

  predicate SaysAsn(p: Peer, row: WgRow) {
    row.asn == p.bird.asn <==> NameAgrees(p.bird.iface, p.bird.asn)
  }

  lemma WgRowAt(n: H.Node, ps: seq<Peer>, body: H.WgSettings -> string, ks: seq<string>, texts: map<string, string>,
                dumps: map<string, seq<seq<string>>>, i: nat)
    requires HoldsWg(n, ps) && AllWellFormed(ps)
    requires i < |ks| && ks[i] in n.wg && ks[i] + SUFFIX in texts && texts[ks[i] + SUFFIX] == WgText(n.wg[ks[i]], body)
    requires ks[i] in dumps && ReadDump(dumps[ks[i]]).pubkey != ""
    ensures var row := WgRowOf(WgListing(ks)[i], texts, dumps);
            row.Some? && ShowsPeer(ps, row.value, ks[i], ReadDump(dumps[ks[i]]))
  {
    assert NamesWg(ps, ks[i]);
    var j :| 0 <= j < |ps| && ps[j].bird.iface == ks[i];
    WgRowWritten(ps[j], body, texts, dumps);
  }

  /** Scanning the written WireGuard files, in listing order. */
  lemma WgRowsShow(n: H.Node, ps: seq<Peer>, body: H.WgSettings -> string, ks: seq<string>, texts: map<string, string>,
                   dumps: map<string, seq<seq<string>>>) returns (rows: seq<WgRow>)
    requires HoldsWg(n, ps) && AllWellFormed(ps) && H.Enumerates(ks, n.wg.Keys)
    requires forall k :: k in n.wg ==> k + SUFFIX in texts && texts[k + SUFFIX] == WgText(n.wg[k], body)
    requires forall k :: k in ks ==> k in dumps && ReadDump(dumps[k]).pubkey != ""
    ensures rows == WgRows(WgListing(ks), texts, dumps) && |rows| == |ks|
    ensures forall i :: 0 <= i < |ks| ==> ShowsPeer(ps, rows[i], ks[i], ReadDump(dumps[ks[i]]))
  {
    forall i | 0 <= i < |ks|
      ensures var row := WgRowOf(WgListing(ks)[i], texts, dumps);
              row.Some? && ShowsPeer(ps, row.value, ks[i], ReadDump(dumps[ks[i]]))
    {
      assert ks[i] in ks;
      WgRowAt(n, ps, body, ks, texts, dumps, i);
    }
    AllWgRows(WgListing(ks), texts, dumps);
    rows := WgRows(WgListing(ks), texts, dumps);
  }

  // ---------------------------------------------------------------- the round trip

  /** The peer is the last of its AS, or has the address of the last one and an interface whose name does not hide the
      AS number: then the last one's row is joined to it and says the same. */
  predicate Recovered(ps: seq<Peer>, j: nat)
    requires j < |ps|
  {
    var h := LastOf(ps, j);
    h == j || (ps[h].bird.lla == ps[j].bird.lla && NameAgrees(ps[j].bird.iface, ps[j].bird.asn))
  }

  ghost predicate AllRecovered(ps: seq<Peer>) {
    forall j :: 0 <= j < |ps| ==> Recovered(ps, j)
  }

  lemma JoinsItsOwn(ps: seq<Peer>, rows: seq<BgpRow>, j: nat, w: WgRow)
    requires DistinctIfaces(ps) && HeldRows(ps, rows) && j < |ps| && w.iface == ps[j].bird.iface && LastOf(ps, j) == j
    ensures Join(IndexOf(rows), w) == Some(BgpRowFor(ps[j]))
  {
    IndexSound(rows);
    assert BgpRowFor(ps[LastOf(ps, j)]) in rows;
    var b := IndexOf(rows).byIface[w.iface];
    assert IsHeldRow(ps, b);
  }

  lemma NoRowOfItsOwn(ps: seq<Peer>, rows: seq<BgpRow>, j: nat)
    requires DistinctIfaces(ps) && HeldRows(ps, rows) && j < |ps| && LastOf(ps, j) != j
    ensures forall b :: b in rows ==> b.iface != ps[j].bird.iface
  {
    forall b | b in rows ensures b.iface != ps[j].bird.iface {
      var h :| 0 <= h < |ps| && LastOf(ps, h) == h && b == BgpRowFor(ps[h]);
    }
  }

  lemma SameLast(ps: seq<Peer>, g: nat, h: nat)
    requires g < |ps| && h < |ps| && LastOf(ps, g) == g && LastOf(ps, h) == h && ps[g].bird.asn == ps[h].bird.asn
    ensures g == h
  {
  }

  lemma HeldRowOf(ps: seq<Peer>, b: BgpRow, j: nat)
    requires j < |ps| && IsHeldRow(ps, b) && b.asn == ps[j].bird.asn
    ensures b == BgpRowFor(ps[LastOf(ps, j)])
  {
    var g :| 0 <= g < |ps| && LastOf(ps, g) == g && b == BgpRowFor(ps[g]);
    LastIsLast(ps, j);
    SameLast(ps, g, LastOf(ps, j));
  }

  lemma RowOfItsAs(ps: seq<Peer>, rows: seq<BgpRow>, j: nat)
    requires HeldRows(ps, rows) && j < |ps|
    ensures var ix := IndexOf(rows);
            ps[j].bird.asn in ix.byAsn && ix.byAsn[ps[j].bird.asn] == BgpRowFor(ps[LastOf(ps, j)])
  {
    IndexSound(rows);
    assert BgpRowFor(ps[LastOf(ps, j)]) in rows;
    HeldRowOf(ps, IndexOf(rows).byAsn[ps[j].bird.asn], j);
  }

  lemma JoinsByAsn(rows: seq<BgpRow>, w: WgRow)
    requires forall b :: b in rows ==> b.iface != w.iface
    ensures var ix, b := IndexOf(rows), Join(IndexOf(rows), w);
            (b.Some? ==> b.value.asn == w.asn) && (w.asn in ix.byAsn ==> b == Some(ix.byAsn[w.asn]))
  {
    IndexSound(rows);
  }

  /** A peer that is not the last of its AS has no row of its own: it is joined, if at all, by the number its WireGuard
      row says. */
  lemma JoinsTheLast(ps: seq<Peer>, rows: seq<BgpRow>, j: nat, w: WgRow)
    requires DistinctIfaces(ps) && HeldRows(ps, rows) && j < |ps| && w.iface == ps[j].bird.iface && LastOf(ps, j) != j
    ensures var b := Join(IndexOf(rows), w);
            && (b.Some? ==> b.value.asn == w.asn)
            && (w.asn == ps[j].bird.asn ==> b == Some(BgpRowFor(ps[LastOf(ps, j)])))
  {
    NoRowOfItsOwn(ps, rows, j);
    JoinsByAsn(rows, w);
    if w.asn == ps[j].bird.asn {
      RowOfItsAs(ps, rows, j);
    }
  }

  /** What the import says of a peer is right exactly when the peer is recovered. */
  lemma EntryIff(ps: seq<Peer>, rows: seq<BgpRow>, j: nat, w: WgRow, d: Dump)
    requires DistinctIfaces(ps) && AllWellFormed(ps) && HeldRows(ps, rows) && j < |ps|
    requires ShownAs(w, ps[j].bird.iface, d) && SaysAsn(ps[j], w)
    ensures Entry(IndexOf(rows), w) == Expected(ps[j], d) <==> Recovered(ps, j)
  {
    assert WellFormed(ps[j]);
    if LastOf(ps, j) == j {
      JoinsItsOwn(ps, rows, j, w);
    } else {
      JoinsTheLast(ps, rows, j, w);
    }
  }

  /** One entry for each interface listed, in that order; every peer is listed; each entry is what it should be. */
  ghost predicate GivesBack(report: seq<Imported>, ps: seq<Peer>, ks: seq<string>,
                            dumps: map<string, seq<seq<string>>>) {
    && |report| == |ks|
    && (forall k :: k in ks ==> k in dumps && NamesWg(ps, k))
    && (forall j :: 0 <= j < |ps| ==> ps[j].bird.iface in ks)
    && (forall i, j :: 0 <= i < |ks| && 0 <= j < |ps| && ps[j].bird.iface == ks[i] ==>
          report[i] == Expected(ps[j], ReadDump(dumps[ks[i]])))
  }

  /** Both scans of the written files: a row for every interface listed, and the BIRD rows held. */
  ghost predicate Scanned(ps: seq<Peer>, ks: seq<string>, dumps: map<string, seq<seq<string>>>, wg: seq<WgRow>,
                          bgp: seq<BgpRow>) {
    && DistinctIfaces(ps) && AllWellFormed(ps) && HeldRows(ps, bgp) && |wg| == |ks|
    && (forall k :: k in ks ==> k in dumps && NamesWg(ps, k))
    && (forall j :: 0 <= j < |ps| ==> ps[j].bird.iface in ks)
    && (forall i, j :: 0 <= i < |ks| && 0 <= j < |ps| && ps[j].bird.iface == ks[i] ==>
          ShownAs(wg[i], ks[i], ReadDump(dumps[ks[i]])) && SaysAsn(ps[j], wg[i]))
  }

  lemma ReportGivesBack(ps: seq<Peer>, tracked: set<int>, ks: seq<string>, dumps: map<string, seq<seq<string>>>,
                        wg: seq<WgRow>, bgp: seq<BgpRow>)
    requires Scanned(ps, ks, dumps, wg, bgp) && AllRecovered(ps)
    requires forall j :: 0 <= j < |ps| ==> ps[j].bird.asn !in tracked
    ensures GivesBack(Report(tracked, wg, bgp), ps, ks, dumps)
  {
    var ix := IndexOf(bgp);
    forall i, j | 0 <= i < |ks| && 0 <= j < |ps| && ps[j].bird.iface == ks[i]
      ensures Entry(ix, wg[i]) == Expected(ps[j], ReadDump(dumps[ks[i]]))
    {
      EntryIff(ps, bgp, j, wg[i], ReadDump(dumps[ks[i]]));
    }
    forall i | 0 <= i < |wg| ensures Entry(ix, wg[i]).asn !in tracked {
      assert ks[i] in ks;
      var j :| 0 <= j < |ps| && ps[j].bird.iface == ks[i];
    }
    AllWgEntries(ix, tracked, wg);
    AllMatched(ps, ks, dumps, wg, bgp);
    NoBgpEntries(Matched(ix, wg), tracked, bgp);
  }

  lemma AllMatched(ps: seq<Peer>, ks: seq<string>, dumps: map<string, seq<seq<string>>>, wg: seq<WgRow>,
                   bgp: seq<BgpRow>)
    requires Scanned(ps, ks, dumps, wg, bgp)
    ensures forall k :: 0 <= k < |bgp| ==> bgp[k].iface in Matched(IndexOf(bgp), wg)
  {
    forall k | 0 <= k < |bgp| ensures bgp[k].iface in Matched(IndexOf(bgp), wg) {
      assert bgp[k] in bgp;
      var h :| 0 <= h < |ps| && LastOf(ps, h) == h && bgp[k] == BgpRowFor(ps[h]);
      var i :| 0 <= i < |ks| && ks[i] == ps[h].bird.iface;
      JoinsItsOwn(ps, bgp, h, wg[i]);
      MatchedAre(IndexOf(bgp), wg, bgp[k].iface);
      assert wg[i] in wg;
    }
  }

  lemma GivenBackIsRecovered(ps: seq<Peer>, tracked: set<int>, ks: seq<string>, dumps: map<string, seq<seq<string>>>,
                             wg: seq<WgRow>, bgp: seq<BgpRow>, j: nat)
    requires Scanned(ps, ks, dumps, wg, bgp) && GivesBack(Report(tracked, wg, bgp), ps, ks, dumps) && j < |ps|
    ensures Recovered(ps, j)
  {
    var ix := IndexOf(bgp);
    var i :| 0 <= i < |ks| && ks[i] == ps[j].bird.iface;
    var e := Report(tracked, wg, bgp)[i];
    assert e in Report(tracked, wg, bgp) && e == Expected(ps[j], ReadDump(dumps[ks[i]]));
    BgpEntriesAre(Matched(ix, wg), tracked, bgp, e);
    WgEntriesAre(ix, tracked, wg, e);
    var w :| w in wg && Entry(ix, w) == e;
    var m :| 0 <= m < |wg| && wg[m] == w;
    assert ks[m] in ks && NamesWg(ps, ks[m]);
    EntryIff(ps, bgp, j, w, ReadDump(dumps[ks[m]]));
  }

  lemma ScansOfHeld(n: H.Node, ps: seq<Peer>, body: H.WgSettings -> string, ks: seq<string>,
                    wgTexts: map<string, string>, fs: seq<string>, birdTexts: map<string, string>,
                    dumps: map<string, seq<seq<string>>>)
    requires DistinctIfaces(ps) && AllWellFormed(ps) && HoldsWg(n, ps) && HoldsBird(n, ps)
    requires Lists(n, body, ks, wgTexts, fs, birdTexts)
    requires forall k :: k in ks ==> k in dumps && ReadDump(dumps[k]).pubkey != ""
    ensures Scanned(ps, ks, dumps, WgRows(WgListing(ks), wgTexts, dumps), BgpRows(BirdListing(fs), birdTexts))
  {
    var bgp := BgpRowsHeld(n, ps, fs, birdTexts);
    var wg := WgRowsShow(n, ps, body, ks, wgTexts, dumps);
    forall i, j | 0 <= i < |ks| && 0 <= j < |ps| && ps[j].bird.iface == ks[i]
      ensures ShownAs(wg[i], ks[i], ReadDump(dumps[ks[i]])) && SaysAsn(ps[j], wg[i])
    {
      assert ShowsPeer(ps, wg[i], ks[i], ReadDump(dumps[ks[i]]));
    }
  }

  /** A BIRD file is named for its AS alone, so of two peers of one AS the later one's settings stay. Install any
      well-formed peers with interfaces of their own on an empty node and list both directories in any order; if the
      store tracks none of them and `wg show` names each peer's key, the import gives every peer back, exactly one entry
      each with its true AS number, address, interface, protocol and file name, if and only if each is the last of its
      AS, or shares its address with the last one and has an interface whose name does not hide the AS number. */
  lemma GivesBackIff(w: H.World, ns: seq<H.Node>, ps: seq<Peer>, tracked: set<int>, body: H.WgSettings -> string,
                     ks: seq<string>, wgTexts: map<string, string>, fs: seq<string>, birdTexts: map<string, string>,
                     dumps: map<string, seq<seq<string>>>)
    requires H.Smooth(w) && DistinctIfaces(ps) && AllWellFormed(ps)
    requires forall j :: 0 <= j < |ps| ==> ps[j].bird.asn !in tracked
    requires Installs(w, ns, ps) && Lists(ns[|ps|], body, ks, wgTexts, fs, birdTexts)
    requires forall k :: k in ks ==> k in dumps && ReadDump(dumps[k]).pubkey != ""
    ensures GivesBack(Report(tracked, WgRows(WgListing(ks), wgTexts, dumps), BgpRows(BirdListing(fs), birdTexts)),
                      ps, ks, dumps)
            <==> AllRecovered(ps)
  {
    forall i | 0 <= i < |ps| ensures Wrote(ns[i], ps[i], ns[i + 1]) {
      InstallWrites(w, ns, ps, i);
    }
    TraceHolds(ns, ps);
    ScansOfHeld(ns[|ps|], ps, body, ks, wgTexts, fs, birdTexts, dumps);
    var wg, bgp := WgRows(WgListing(ks), wgTexts, dumps), BgpRows(BirdListing(fs), birdTexts);
    if AllRecovered(ps) {
      ReportGivesBack(ps, tracked, ks, dumps, wg, bgp);
    }
    if GivesBack(Report(tracked, wg, bgp), ps, ks, dumps) {
      forall j | 0 <= j < |ps| ensures Recovered(ps, j) {
        GivenBackIsRecovered(ps, tracked, ks, dumps, wg, bgp, j);
      }
    }
  }

  /** Write-then-import: of peers with interfaces and AS numbers of their own the import gives every one back, although
      the number read from a default interface name is never the AS number. */
  lemma WriteThenImport(w: H.World, ns: seq<H.Node>, ps: seq<Peer>, tracked: set<int>, body: H.WgSettings -> string,
                        ks: seq<string>, wgTexts: map<string, string>, fs: seq<string>, birdTexts: map<string, string>,
                        dumps: map<string, seq<seq<string>>>)
    requires H.Smooth(w) && DistinctIfaces(ps) && DistinctAsns(ps) && AllWellFormed(ps)
    requires forall j :: 0 <= j < |ps| ==> ps[j].bird.asn !in tracked
    requires Installs(w, ns, ps) && Lists(ns[|ps|], body, ks, wgTexts, fs, birdTexts)
    requires forall k :: k in ks ==> k in dumps && ReadDump(dumps[k]).pubkey != ""
    ensures GivesBack(Report(tracked, WgRows(WgListing(ks), wgTexts, dumps), BgpRows(BirdListing(fs), birdTexts)),
                      ps, ks, dumps)
  {
    GivesBackIff(w, ns, ps, tracked, body, ks, wgTexts, fs, birdTexts, dumps);
  }

  /** Where the peers of one AS have addresses of their own, that is to say that no two are of one AS. */
  lemma OwnAddresses(ps: seq<Peer>)
    requires forall i, j :: 0 <= i < |ps| && 0 <= j < |ps| && i != j && ps[i].bird.asn == ps[j].bird.asn ==>
               ps[i].bird.lla != ps[j].bird.lla
    ensures AllRecovered(ps) <==> DistinctAsns(ps)
  {
    if AllRecovered(ps) {
      forall i, j | 0 <= i < j < |ps| ensures ps[i].bird.asn != ps[j].bird.asn {
        assert Recovered(ps, i);
      }
    }
  }

  /** An earlier peer of an AS on its default interface is lost whatever its address is, if the number in that name is
      an int64: it is then joined to no row of its AS. */
  lemma DefaultNameHides(ps: seq<Peer>, j: nat)
    requires j < |ps| && WellFormed(ps[j]) && ps[j].bird.iface == InterfaceName(ps[j].bird.asn)
    requires 42 * Pow10(|Print(ps[j].bird.asn)|) + ps[j].bird.asn <= MAX_INT64
    ensures Recovered(ps, j) <==> LastOf(ps, j) == j
  {
    DefaultNameMisreads(ps[j].bird.asn);
  }
}

/** peers.import: the join of the WireGuard and BIRD rows of a node, less what the store already tracks. */
module Import {
  import opened Options
  import opened Regex
  import opened Scanning

  datatype Imported = Imported(
    asn: int, pubkey: string, endpoint: string, lla: string, port: int,
    iface: string, proto: string, file: string, managed: bool)

  /** Rows by interface and by AS number; a later row replaces an earlier one. */
  datatype Index = Index(byIface: map<string, BgpRow>, byAsn: map<int, BgpRow>)

  function IndexOf(bgp: seq<BgpRow>): Index {
    if bgp == [] then Index(map[], map[])
    else
      var ix, row := IndexOf(bgp[..|bgp| - 1]), bgp[|bgp| - 1];
      Index(ix.byIface[row.iface := row], ix.byAsn[row.asn := row])
  }

  /** The BIRD row a WireGuard row is joined to: by interface, else by the AS number of its name. */
  function Join(ix: Index, w: WgRow): Option<BgpRow> {
    if w.iface in ix.byIface then Some(ix.byIface[w.iface])
    else if w.asn in ix.byAsn then Some(ix.byAsn[w.asn])
    else None
  }

  function Entry(ix: Index, w: WgRow): Imported {
    match Join(ix, w)
    case Some(b) => Imported(b.asn, w.pubkey, w.endpoint, b.lla, w.port, w.iface, b.proto, b.file, true)
    case None => Imported(w.asn, w.pubkey, w.endpoint, "", w.port, w.iface, "", "", true)
  }

  function Unmanaged(b: BgpRow): Imported {
    Imported(b.asn, "", "", b.lla, 0, b.iface, b.proto, b.file, false)
  }

  /** Entries of the WireGuard rows whose AS number the store does not track. */
  function WgEntries(ix: Index, tracked: set<int>, wg: seq<WgRow>): seq<Imported> {
    if wg == [] then []
    else
      var rest, e := WgEntries(ix, tracked, wg[..|wg| - 1]), Entry(ix, wg[|wg| - 1]);
      if e.asn in tracked then rest else rest + [e]
  }

  /** Interfaces of the BIRD rows that some WireGuard row was joined to, tracked or not. */
  function Matched(ix: Index, wg: seq<WgRow>): set<string> {
    if wg == [] then {}
    else
      var rest, j := Matched(ix, wg[..|wg| - 1]), Join(ix, wg[|wg| - 1]);
      if j.Some? then rest + {j.value.iface} else rest
  }

  function BgpEntries(matched: set<string>, tracked: set<int>, bgp: seq<BgpRow>): seq<Imported> {
    if bgp == [] then []
    else
      var rest, b := BgpEntries(matched, tracked, bgp[..|bgp| - 1]), bgp[|bgp| - 1];
      if b.asn in tracked || b.iface in matched then rest else rest + [Unmanaged(b)]
  }

  function Report(tracked: set<int>, wg: seq<WgRow>, bgp: seq<BgpRow>): seq<Imported> {
    var ix := IndexOf(bgp);
    WgEntries(ix, tracked, wg) + BgpEntries(Matched(ix, wg), tracked, bgp)
  }

  method BuildIndex(bgp: seq<BgpRow>) returns (byIface: map<string, BgpRow>, byAsn: map<int, BgpRow>)
    ensures Index(byIface, byAsn) == IndexOf(bgp)
  {
    byIface, byAsn := map[], map[];
    for i := 0 to |bgp|
      invariant Index(byIface, byAsn) == IndexOf(bgp[..i])
    {
      assert bgp[..i + 1][..i] == bgp[..i];
      byIface := byIface[bgp[i].iface := bgp[i]];
      byAsn := byAsn[bgp[i].asn := bgp[i]];
    }
    assert bgp[..|bgp|] == bgp;
  }

  /** handlePeersImportCommand, after the scans. */
  method ImportPeers(tracked: set<int>, wg: seq<WgRow>, bgp: seq<BgpRow>) returns (imported: seq<Imported>)
    ensures imported == Report(tracked, wg, bgp)
  {
    var byIface, byAsn := BuildIndex(bgp);
    ghost var ix := IndexOf(bgp);
    imported := [];
    var matched: set<string> := {};
    for i := 0 to |wg|
      invariant imported == WgEntries(ix, tracked, wg[..i]) && matched == Matched(ix, wg[..i])
    {
      assert wg[..i + 1][..i] == wg[..i];
      var w := wg[i];
      var asn, lla, proto, file := w.asn, "", "", "";
      if w.iface in byIface {
        var b := byIface[w.iface];
        asn, lla, proto, file := b.asn, b.lla, b.proto, b.file;
        matched := matched + {b.iface};
      } else if w.asn in byAsn {
        var b := byAsn[w.asn];
        asn, lla, proto, file := b.asn, b.lla, b.proto, b.file;
        matched := matched + {b.iface};
      }
      if asn !in tracked {
        imported := imported + [Imported(asn, w.pubkey, w.endpoint, lla, w.port, w.iface, proto, file, true)];
      }
    }
    assert wg[..|wg|] == wg;
    ghost var managed := imported;
    for i := 0 to |bgp|
      invariant imported == managed + BgpEntries(matched, tracked, bgp[..i])
    {
      assert bgp[..i + 1][..i] == bgp[..i];
      if bgp[i].asn !in tracked && bgp[i].iface !in matched {
        imported := imported + [Unmanaged(bgp[i])];
      }
    }
    assert bgp[..|bgp|] == bgp;
  }

  // ---------------------------------------------------------------- what the index holds

  predicate DistinctIfaces(bgp: seq<BgpRow>) {
    forall i, j :: 0 <= i < j < |bgp| ==> bgp[i].iface != bgp[j].iface
  }

  predicate DistinctFiles(bgp: seq<BgpRow>) {
    forall i, j :: 0 <= i < j < |bgp| ==> bgp[i].file != bgp[j].file
  }

  lemma {:induction false} IndexSound(bgp: seq<BgpRow>)
    ensures var ix := IndexOf(bgp);
            && (forall k :: k in ix.byIface ==> ix.byIface[k] in bgp && ix.byIface[k].iface == k)
            && (forall a :: a in ix.byAsn ==> ix.byAsn[a] in bgp && ix.byAsn[a].asn == a)
            && (forall b :: b in bgp ==> b.iface in ix.byIface && b.asn in ix.byAsn)
  {
    if bgp != [] {
      IndexSound(bgp[..|bgp| - 1]);
      assert bgp == bgp[..|bgp| - 1] + [bgp[|bgp| - 1]];
    }
  }

  /** Both indexes have the last row of an interface, and of an AS number. */
  lemma {:induction false} IndexHasLast(bgp: seq<BgpRow>, i: nat)
    requires i < |bgp|
    ensures (forall j :: i < j < |bgp| ==> bgp[j].iface != bgp[i].iface) ==>
              bgp[i].iface in IndexOf(bgp).byIface && IndexOf(bgp).byIface[bgp[i].iface] == bgp[i]
    ensures (forall j :: i < j < |bgp| ==> bgp[j].asn != bgp[i].asn) ==>
              bgp[i].asn in IndexOf(bgp).byAsn && IndexOf(bgp).byAsn[bgp[i].asn] == bgp[i]
  {
    var last := |bgp| - 1;
    if i < last {
      IndexHasLast(bgp[..last], i);
      assert bgp[last] == bgp[..][last];
    }
  }

  lemma {:induction false} WgEntriesAre(ix: Index, tracked: set<int>, wg: seq<WgRow>, e: Imported)
    ensures e in WgEntries(ix, tracked, wg) <==> exists w :: w in wg && Entry(ix, w) == e && e.asn !in tracked
  {
    if wg != [] {
      var front, last := wg[..|wg| - 1], wg[|wg| - 1];
      assert wg == front + [last];
      WgEntriesAre(ix, tracked, front, e);
    }
  }

  lemma {:induction false} MatchedAre(ix: Index, wg: seq<WgRow>, k: string)
    ensures k in Matched(ix, wg) <==> exists w :: w in wg && Join(ix, w).Some? && Join(ix, w).value.iface == k
  {
    if wg != [] {
      var front, last := wg[..|wg| - 1], wg[|wg| - 1];
      assert wg == front + [last];
      MatchedAre(ix, front, k);
    }
  }

  lemma {:induction false} BgpEntriesAre(matched: set<string>, tracked: set<int>, bgp: seq<BgpRow>, e: Imported)
    ensures e in BgpEntries(matched, tracked, bgp) <==>
              exists b :: b in bgp && Unmanaged(b) == e && b.asn !in tracked && b.iface !in matched
  {
    if bgp != [] {
      var front, last := bgp[..|bgp| - 1], bgp[|bgp| - 1];
      assert bgp == front + [last];
      BgpEntriesAre(matched, tracked, front, e);
    }
  }

  // ---------------------------------------------------------------- soundness and completeness of the join

  /** The WireGuard row is joined to this BIRD row. */
  predicate JoinedTo(bgp: seq<BgpRow>, w: WgRow, b: BgpRow) {
    Join(IndexOf(bgp), w) == Some(b)
  }

  /** The entry reports this BIRD row. */
  predicate Carries(e: Imported, b: BgpRow) {
    && e.asn == b.asn && e.lla == b.lla && e.proto == b.proto && e.file == b.file
    && (!e.managed ==> e.iface == b.iface && e.pubkey == "" && e.endpoint == "" && e.port == 0)
  }

  /** No reported entry has a tracked AS number. */
  lemma NothingTracked(tracked: set<int>, wg: seq<WgRow>, bgp: seq<BgpRow>, e: Imported)
    requires e in Report(tracked, wg, bgp)
    ensures e.asn !in tracked
  {
    var ix := IndexOf(bgp);
    WgEntriesAre(ix, tracked, wg, e);
    BgpEntriesAre(Matched(ix, wg), tracked, bgp, e);
  }

  lemma JoinedIsCarried(tracked: set<int>, wg: seq<WgRow>, bgp: seq<BgpRow>, b: BgpRow, w: WgRow)
    requires b.asn !in tracked && w in wg && JoinedTo(bgp, w, b)
    ensures Entry(IndexOf(bgp), w) in Report(tracked, wg, bgp) && Carries(Entry(IndexOf(bgp), w), b)
  {
    WgEntriesAre(IndexOf(bgp), tracked, wg, Entry(IndexOf(bgp), w));
  }

  /** A WireGuard row is reported, if its AS number is not tracked, as managed, on its interface, with its key, endpoint
      and port. The AS number is that of the row it is joined to, and if it is joined to none its own, without an
      address. */
  lemma WgRowReported(tracked: set<int>, wg: seq<WgRow>, bgp: seq<BgpRow>, w: WgRow) returns (e: Imported)
    requires w in wg
    ensures e.managed && e.iface == w.iface && e.pubkey == w.pubkey && e.endpoint == w.endpoint && e.port == w.port
    ensures match Join(IndexOf(bgp), w)
            case Some(b) => Carries(e, b)
            case None => e.asn == w.asn && e.lla == "" && e.proto == "" && e.file == ""
    ensures e in Report(tracked, wg, bgp) <==> e.asn !in tracked
  {
    e := Entry(IndexOf(bgp), w);
    WgEntriesAre(IndexOf(bgp), tracked, wg, e);
    BgpEntriesAre(Matched(IndexOf(bgp), wg), tracked, bgp, e);
  }

  lemma UnmatchedIsCarried(tracked: set<int>, wg: seq<WgRow>, bgp: seq<BgpRow>, b: BgpRow)
    requires b in bgp && b.asn !in tracked && b.iface !in Matched(IndexOf(bgp), wg)
    ensures Unmanaged(b) in Report(tracked, wg, bgp) && Carries(Unmanaged(b), b)
  {
    BgpEntriesAre(Matched(IndexOf(bgp), wg), tracked, bgp, Unmanaged(b));
  }

  /** An entry that carries a row comes from a WireGuard row joined to it, or is the row itself, unmatched. */
  lemma CarriedFrom(tracked: set<int>, wg: seq<WgRow>, bgp: seq<BgpRow>, b: BgpRow, e: Imported)
    requires DistinctFiles(bgp) && b in bgp && b.file != "" && e in Report(tracked, wg, bgp) && Carries(e, b)
    ensures (exists w :: w in wg && JoinedTo(bgp, w, b)) || b.iface !in Matched(IndexOf(bgp), wg)
  {
    var ix := IndexOf(bgp);
    if e in WgEntries(ix, tracked, wg) {
      WgEntriesAre(ix, tracked, wg, e);
      var w :| w in wg && Entry(ix, w) == e;
      JoinInRows(bgp, w);
      SameFile(bgp, Join(ix, w).value, b);
      assert JoinedTo(bgp, w, b);
    } else {
      BgpEntriesAre(Matched(ix, wg), tracked, bgp, e);
      var x :| x in bgp && Unmanaged(x) == e && x.iface !in Matched(ix, wg);
      SameFile(bgp, x, b);
    }
  }

  lemma JoinInRows(bgp: seq<BgpRow>, w: WgRow)
    ensures Join(IndexOf(bgp), w).Some? ==> Join(IndexOf(bgp), w).value in bgp
  {
    IndexSound(bgp);
  }

  /** An untracked BIRD row is carried by some entry if and only if a WireGuard row is joined to it, or none is
      joined to any row on its interface. */
  lemma CarriedIff(tracked: set<int>, wg: seq<WgRow>, bgp: seq<BgpRow>, b: BgpRow)
    requires b in bgp && b.asn !in tracked && DistinctFiles(bgp) && b.file != ""
    ensures (exists e :: e in Report(tracked, wg, bgp) && Carries(e, b)) <==>
              (exists w :: w in wg && JoinedTo(bgp, w, b)) || b.iface !in Matched(IndexOf(bgp), wg)
  {
    if w :| w in wg && JoinedTo(bgp, w, b) {
      JoinedIsCarried(tracked, wg, bgp, b, w);
    } else if b.iface !in Matched(IndexOf(bgp), wg) {
      UnmatchedIsCarried(tracked, wg, bgp, b);
    } else if e :| e in Report(tracked, wg, bgp) && Carries(e, b) {
      CarriedFrom(tracked, wg, bgp, b, e);
    }
  }

  lemma SameFile(bgp: seq<BgpRow>, a: BgpRow, b: BgpRow)
    requires DistinctFiles(bgp) && a in bgp && b in bgp && a.file == b.file
    ensures a == b
  {
  }

  lemma SameIface(bgp: seq<BgpRow>, a: BgpRow, b: BgpRow)
    requires DistinctIfaces(bgp) && a in bgp && b in bgp && a.iface == b.iface
    ensures a == b
  {
  }

  lemma {:induction false} UnmanagedCount(matched: set<string>, tracked: set<int>, bgp: seq<BgpRow>, b: BgpRow)
    requires DistinctIfaces(bgp) && b.asn !in tracked
    ensures multiset(BgpEntries(matched, tracked, bgp))[Unmanaged(b)] ==
              if b in bgp && b.iface !in matched then 1 else 0
  {
    if bgp != [] {
      var front, last := bgp[..|bgp| - 1], bgp[|bgp| - 1];
      assert bgp == front + [last];
      UnmanagedCount(matched, tracked, front, b);
      var rest := BgpEntries(matched, tracked, front);
      assert multiset(rest + [Unmanaged(last)]) == multiset(rest) + multiset{Unmanaged(last)};
      if last == b {
        assert b !in front;
      } else {
        assert Unmanaged(last) != Unmanaged(b) by {
          assert Unmanaged(last).file == last.file;
        }
      }
    }
  }

  lemma ManagedCount(ix: Index, tracked: set<int>, wg: seq<WgRow>, b: BgpRow)
    ensures multiset(WgEntries(ix, tracked, wg))[Unmanaged(b)] == 0
  {
    WgEntriesAre(ix, tracked, wg, Unmanaged(b));
  }

  lemma MatchedIffJoined(wg: seq<WgRow>, bgp: seq<BgpRow>, b: BgpRow)
    requires DistinctIfaces(bgp) && b in bgp
    ensures b.iface in Matched(IndexOf(bgp), wg) <==> exists w :: w in wg && JoinedTo(bgp, w, b)
  {
    var ix := IndexOf(bgp);
    MatchedAre(ix, wg, b.iface);
    if w :| w in wg && Join(ix, w).Some? && Join(ix, w).value.iface == b.iface {
      JoinInRows(bgp, w);
      SameIface(bgp, Join(ix, w).value, b);
      assert JoinedTo(bgp, w, b);
    }
  }

  /** With BIRD rows on distinct interfaces every untracked row is reported, and it is reported as not managed by
      WireGuard exactly once if no WireGuard row is joined to it, and not at all otherwise. */
  lemma JoinComplete(tracked: set<int>, wg: seq<WgRow>, bgp: seq<BgpRow>, b: BgpRow)
    requires DistinctIfaces(bgp) && b in bgp && b.asn !in tracked
    ensures exists e :: e in Report(tracked, wg, bgp) && Carries(e, b)
    ensures multiset(Report(tracked, wg, bgp))[Unmanaged(b)] ==
              if exists w :: w in wg && JoinedTo(bgp, w, b) then 0 else 1
  {
    MatchedIffJoined(wg, bgp, b);
    if w :| w in wg && JoinedTo(bgp, w, b) {
      JoinedIsCarried(tracked, wg, bgp, b, w);
    } else {
      UnmatchedIsCarried(tracked, wg, bgp, b);
    }
    var ix := IndexOf(bgp);
    UnmanagedCount(Matched(ix, wg), tracked, bgp, b);
    ManagedCount(ix, tracked, wg, b);
    assert multiset(Report(tracked, wg, bgp)) ==
        multiset(WgEntries(ix, tracked, wg)) + multiset(BgpEntries(Matched(ix, wg), tracked, bgp));
  }
}

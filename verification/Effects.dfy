/** What peer.remove, one teardown and one sync do command by command, in every world, said in terms of payloads and
    records. */
module Effects {
  import opened Names
  import opened Host
  import opened Reconciler
  import opened SyncSteps
  import opened PeersSync
  import opened SyncTheorems
  import opened Payloads
  import opened PeerAdd

  // ---------------------------------------------------------------- removing a BIRD file and an interface

  predicate Lives(w: World, c: Command, t: nat) {
    !w.outcome(c, t).Crash?
  }

  /** The commands of a removal, issued one after another from this time on: to remove the BIRD file, to reload, to stop
      the interface, to remove its file. The process lives through the first `k`. */
  predicate Past(w: World, t: nat, k: nat) {
    && (k >= 1 ==> Lives(w, BirdRemove, t)) && (k >= 2 ==> Lives(w, BirdConfigure, t + 1))
    && (k >= 3 ==> Lives(w, WgDown, t + 2)) && (k >= 4 ==> Lives(w, WgRemove, t + 3))
  }

  /** What they come to: each takes effect if it is reached and succeeds, whatever became of those before it. */
  ghost predicate Cleans(w: World, n: Node, m: Node, file: string, iface: string) {
    var t := n.clock;
    && m.bird == (if w.outcome(BirdRemove, t).Ok? then n.bird - {file} else n.bird)
    && m.loaded == (if Past(w, t, 1) && w.outcome(BirdConfigure, t + 1).Ok? then m.bird else n.loaded)
    && m.up == (if Past(w, t, 2) && w.outcome(WgDown, t + 2).Ok? then n.up - {iface} else n.up)
    && m.wg == (if Past(w, t, 3) && w.outcome(WgRemove, t + 3).Ok? then n.wg - {iface} else n.wg)
  }

  lemma CleansBird(w: World, n: Node, file: string) returns (m: Node)
    requires !n.dead
    ensures m == RemoveBird(w, n, file) && m == n.(bird := m.bird, loaded := m.loaded, clock := m.clock, dead := m.dead)
    ensures m.bird == (if w.outcome(BirdRemove, n.clock).Ok? then n.bird - {file} else n.bird)
    ensures m.loaded ==
              (if Past(w, n.clock, 1) && w.outcome(BirdConfigure, n.clock + 1).Ok? then m.bird else n.loaded)
    ensures !m.dead <==> Past(w, n.clock, 2)
    ensures !m.dead ==> m.clock == n.clock + 2
  {
    m := RemoveBird(w, n, file);
  }

  lemma CleansWg(w: World, n: Node, iface: string) returns (m: Node)
    requires !n.dead
    ensures m == RemoveWg(w, n, iface) && m == n.(up := m.up, wg := m.wg, clock := m.clock, dead := m.dead)
    ensures m.up == (if w.outcome(WgDown, n.clock).Ok? then n.up - {iface} else n.up)
    ensures m.wg == (if Lives(w, WgDown, n.clock) && w.outcome(WgRemove, n.clock + 1).Ok? then n.wg - {iface} else n.wg)
    ensures !m.dead <==> Lives(w, WgDown, n.clock) && Lives(w, WgRemove, n.clock + 1)
    ensures !m.dead ==> m.clock == n.clock + 2
  {
    m := RemoveWg(w, n, iface);
  }

  lemma CleansBoth(w: World, n: Node, file: string, iface: string) returns (m: Node)
    requires !n.dead
    ensures m == RemoveWg(w, RemoveBird(w, n, file), iface) && Cleans(w, n, m, file, iface) && m.peers == n.peers
    ensures !m.dead <==> Past(w, n.clock, 4)
    ensures !m.dead ==> m.clock == n.clock + 4
  {
    var n1 := CleansBird(w, n, file);
    if n1.dead {
      m := n1;
    } else {
      m := CleansWg(w, n1, iface);
    }
  }

  // ---------------------------------------------------------------- peer.remove

  /** The AS number a remove goes by: the one it carries, or else the stored one; 0 if there is none. */
  function AsnFor(n: Node, id: string, asn: int): int {
    if asn != 0 then asn else if id in n.peers then n.peers[id].asn else 0
  }

  lemma RemoveNames(n: Node, id: string, asn: int)
    ensures RemoveAsn(n, id, asn) == AsnFor(n, id, asn)
    ensures RemoveFile(n, id, asn) == FileFor(if id in n.peers then n.peers[id].birdFile else "", AsnFor(n, id, asn))
    ensures RemoveIface(n, id, asn) == IfaceFor(if id in n.peers then n.peers[id].iface else "", AsnFor(n, id, asn))
  {
  }

  lemma DeletesLast(w: World, n: Node, id: string, asn: int) returns (n2: Node)
    requires RemoveAsn(n, id, asn) != 0
    ensures n2 == RemoveWg(w, RemoveBird(w, n, RemoveFile(n, id, asn)), RemoveIface(n, id, asn))
    ensures var (m, reply) := Remove(w, n, id, asn);
            && reply.Removed? && m == n2.(peers := m.peers, clock := m.clock, dead := m.dead)
            && m.peers == (if !n2.dead && w.outcome(StoreDelete, n2.clock).Ok? then n2.peers - {id} else n2.peers)
            && (!m.dead ==> !n2.dead)
  {
    n2 := RemoveWg(w, RemoveBird(w, n, RemoveFile(n, id, asn)), RemoveIface(n, id, asn));
  }

  /** In every world, a remove on a live node is refused exactly if neither payload nor store has an AS number, and then
      changes nothing. Otherwise it tries to remove the BIRD file, to reload, to stop the interface, to remove its file
      and to delete the record, in this order, each whatever became of those before, unless the process died. The names
      are those of the record, or else the defaults of the AS number. */
  lemma RemoveDoes(w: World, n: Node, id: string, asn: int)
    requires !n.dead
    ensures var (m, reply) := Remove(w, n, id, asn);
            var a := AsnFor(n, id, asn);
            var file := FileFor(if id in n.peers then n.peers[id].birdFile else "", a);
            var iface := IfaceFor(if id in n.peers then n.peers[id].iface else "", a);
            && (reply.UnknownPeer? <==> a == 0) && (a == 0 ==> m == n)
            && (a != 0 ==>
                  && Cleans(w, n, m, file, iface)
                  && m.peers == if Past(w, n.clock, 4) && w.outcome(StoreDelete, n.clock + 4).Ok? then n.peers - {id}
                                else n.peers)
  {
    RemoveNames(n, id, asn);
    if AsnFor(n, id, asn) != 0 {
      var n2 := CleansBoth(w, n, RemoveFile(n, id, asn), RemoveIface(n, id, asn));
      var n2' := DeletesLast(w, n, id, asn);
    }
  }

  /** So whatever BIRD answers, a remove of a stored peer with `wg-quick down`, the removal of its file and the store
      working and the process alive leaves no interface up, no WireGuard file and no record; and whatever WireGuard
      answers, with the removal working, no BIRD file. */
  lemma RemoveClears(w: World, n: Node, id: string, asn: int)
    requires !Remove(w, n, id, asn).0.dead && AsnFor(n, id, asn) != 0 && id in n.peers
    ensures var m := Remove(w, n, id, asn).0;
            var iface := IfaceFor(n.peers[id].iface, AsnFor(n, id, asn));
            && (AlwaysOk(w, WgDown) ==> iface !in m.up) && (AlwaysOk(w, WgRemove) ==> iface !in m.wg)
            && (AlwaysOk(w, BirdRemove) ==> FileFor(n.peers[id].birdFile, AsnFor(n, id, asn)) !in m.bird)
            && (AlwaysOk(w, StoreDelete) ==> id !in m.peers)
  {
    RemoveNames(n, id, asn);
    var n2 := DeletesLast(w, n, id, asn);
    if !n.dead {
      var n2' := CleansBoth(w, n, RemoveFile(n, id, asn), RemoveIface(n, id, asn));
    }
  }

  // ---------------------------------------------------------------- teardown

  lemma StaleNamed(info: PeerInfo)
    ensures StaleFile(info) == FileFor(info.birdFile, info.asn) && StaleIface(info) == IfaceFor(info.iface, info.asn)
  {
  }

  /** In every world, the teardown of one record tries the same four commands on the names it carries. */
  lemma TeardownDoes(w: World, n: Node, info: PeerInfo)
    requires !n.dead
    ensures var m := TeardownOne(w, n, info);
            && Cleans(w, n, m, FileFor(info.birdFile, info.asn), IfaceFor(info.iface, info.asn))
            && (!m.dead <==> Past(w, n.clock, 4))
  {
    StaleNamed(info);
    var m := CleansBoth(w, n, StaleFile(info), StaleIface(info));
  }

  /** What is left of a record by the commands that work: whatever BIRD answers, its interface is down and without its
      file; whatever WireGuard answers, its BIRD file is gone. */
  ghost predicate ClearedBy(w: World, m: Node, info: PeerInfo) {
    && (AlwaysOk(w, WgDown) ==> IfaceFor(info.iface, info.asn) !in m.up)
    && (AlwaysOk(w, WgRemove) ==> IfaceFor(info.iface, info.asn) !in m.wg)
    && (AlwaysOk(w, BirdRemove) ==> FileFor(info.birdFile, info.asn) !in m.bird)
  }

  lemma ClearsOne(w: World, a: Node, last: PeerInfo, info: PeerInfo)
    requires !TeardownOne(w, a, last).dead && (!a.dead && info != last ==> ClearedBy(w, a, info))
    ensures !a.dead && ClearedBy(w, TeardownOne(w, a, last), info)
  {
    TeardownOneGone(w, a, last);
    if info == last {
      TeardownDoes(w, a, last);
    }
  }

  /** A teardown that the process lives through clears every record it was given. */
  lemma {:induction false} TeardownClears(w: World, n: Node, stale: seq<PeerInfo>, info: PeerInfo)
    requires !Teardown(w, n, stale).dead && info in stale
    ensures ClearedBy(w, Teardown(w, n, stale), info)
  {
    var front, last := stale[..|stale| - 1], stale[|stale| - 1];
    if info != last && !Teardown(w, n, front).dead {
      assert stale == front + [last];
      TeardownClears(w, n, front, info);
    }
    ClearsOne(w, Teardown(w, n, front), last, info);
  }

  /** So at the end of a sync that the process lives through: whatever else fails, the swap included, the interface of a
      stored peer that is not desired is down and without its file if `wg-quick down` and the removal work, and its BIRD
      file is gone if that removal works. */
  lemma DroppedEndClear(w: World, n: Node, peers: seq<SyncPeer>, id: string)
    requires Lawful(w) && !Sync(w, n, peers).node.dead && id in n.peers && id !in Create(w, n, peers).desired
    ensures var m, iface := Sync(w, n, peers).node, IfaceFor(n.peers[id].iface, n.peers[id].asn);
            && (AlwaysOk(w, WgDown) ==> iface !in m.up) && (AlwaysOk(w, WgRemove) ==> iface !in m.wg)
            && (AlwaysOk(w, BirdRemove) ==> FileFor(n.peers[id].birdFile, n.peers[id].asn) !in m.bird)
  {
    var a := Create(w, n, peers);
    CreateKeepsStore(w, n, peers);
    var keys := w.cursor(n.peers.Keys);
    assert Enumerates(keys, n.peers.Keys);
    var stale := Stale(keys, n.peers, a.desired);
    StaleSound(keys, n.peers, a.desired, n.peers[id]);
    assert n.peers[id] in stale;
    TeardownClears(w, ReplaceAll(w, a.node, a.desired).0, stale, n.peers[id]);
  }

  // ---------------------------------------------------------------- the report

  /** Where commands succeed, of peers with distinct ids and interfaces exactly those a sync acts on are reported, and
      as failed exactly those that carry a key and no endpoint and whose interface has no file or is not up. */
  lemma SmoothReport(w: World, n: Node, peers: seq<SyncPeer>, j: nat)
    requires Smooth(w) && !n.dead && DistinctIfaces(peers) && DistinctIds(peers) && j < |peers| && peers[j].Valid()
    ensures var p, s := peers[j], Sync(w, n, peers);
            var iface := IfaceFor(p.iface, p.asn);
            var fails := p.pubkey != "" && p.endpoint == "" && !(iface in n.wg && iface in n.up);
            && (p.id in s.applied <==> ActsOn(n, p) && !fails)
            && (p.id in s.failed <==> ActsOn(n, p) && fails)
  {
    SyncEnds(w, n, peers);
    var _, _ := WgOutcome(w, n, peers, j);
  }

  /** The WireGuard half of a round comes first: dying at its first command leaves the BIRD files alone. */
  lemma TunnelFirst(w: World, n: Node, p: SyncPeer)
    requires !n.dead && ActsOn(n, p) && p.pubkey != "" && p.endpoint != "" && IfaceFor(p.iface, p.asn) !in n.wg
    requires w.outcome(WgOpen, n.clock).Crash?
    ensures Create(w, n, [p]).node == n.(dead := true)
  {
    var peers := [p];
    assert peers[..0] == [];
    assert Create(w, n, peers) == SyncOne(w, Create(w, n, []), p);
  }

  // ---------------------------------------------------------------- a sync of one peer and an add

  /** The payload of an add, as a sync announces the same peer. */
  function Announced(p: AddPayload): SyncPeer {
    SyncPeer(p.id, p.asn, p.endpoint, p.pubkey, p.lla, p.listenPort, p.iface, "", "", p.mtu, p.psk)
  }

  lemma SameSettings(p: AddPayload)
    ensures Announced(p).Record() == AddRecord(p) && Announced(p).Wg() == AddWgSettings(p)
    ensures Announced(p).Bird() == AddBirdSettings(p) && Announced(p).Iface() == AddIface(p)
    ensures Announced(p).BirdFile() == BirdFileName(p.asn)
  {
  }

  predicate SameButClock(a: Node, b: Node) {
    a.wg == b.wg && a.up == b.up && a.bird == b.bird && a.loaded == b.loaded && a.peers == b.peers
  }

  /** Where commands succeed and the names are free, announcing a peer in a sync does to a node what adding it does. */
  lemma SyncAloneIsAdd(w: World, n: Node, p: AddPayload)
    requires Smooth(w) && !n.dead && Fresh(n, p) && n.peers.Keys <= {p.id}
    requires ValidSettings(AddWgSettings(p)) && p.id != ""
    ensures var s := Sync(w, n, [Announced(p)]); s.applied == [p.id] && SameButClock(s.node, Add(w, n, p).0)
    ensures Add(w, n, p).1.Added?
  {
    var m := AddSmooth(w, n, p);
    SameSettings(p);
    AnnouncedSmooth(w, n, p, Announced(p), m);
  }

  lemma AddSmooth(w: World, n: Node, p: AddPayload) returns (m: Node)
    requires Smooth(w) && !n.dead && AddIface(p) !in n.up && ValidSettings(AddWgSettings(p)) && p.id != ""
    ensures (m, Added) == Add(w, n, p) && m.wg == n.wg[AddIface(p) := Whole(AddWgSettings(p))]
    ensures m.up == n.up + {AddIface(p)} && m.peers == n.peers[p.id := AddRecord(p)]
    ensures m.bird == n.bird[BirdFileName(p.asn) := Whole(AddBirdSettings(p))] && m.loaded == m.bird
  {
    m := Add(w, n, p).0;
    SmoothAdd(w, n, p);
    AddIsConfined(w, n, p);
  }

  lemma OnlyKey<T>(m: map<string, T>, k: string, v: T)
    requires m.Keys <= {k}
    ensures m[k := v] == map[k := v]
  {
  }

  lemma AnnouncedSmooth(w: World, n: Node, p: AddPayload, q: SyncPeer, m: Node)
    requires Smooth(w) && !n.dead && NeedsWg(n, q) && NeedsBird(n, q) && n.peers.Keys <= {q.id}
    requires q.Valid() && q.endpoint != "" && q.id == p.id
    requires m.wg == n.wg[q.Iface() := Whole(q.Wg())] && m.up == n.up + {q.Iface()}
    requires m.peers == n.peers[q.id := q.Record()]
    requires m.bird == n.bird[BirdFileName(q.asn) := Whole(q.Bird())] && m.loaded == m.bird
    ensures var s := Sync(w, n, [q]); s.applied == [p.id] && SameButClock(s.node, m)
  {
    SyncSmooth(w, n, q);
    OnlyKey(n.peers, q.id, q.Record());
  }

  lemma SyncSmooth(w: World, n: Node, p: SyncPeer)
    requires Smooth(w) && !n.dead && p.Valid() && p.endpoint != "" && NeedsWg(n, p) && NeedsBird(n, p)
    requires n.peers.Keys <= {p.id}
    ensures var s, i, f := Sync(w, n, [p]), p.Iface(), BirdFileName(p.asn);
            && s.applied == [p.id] && s.node.wg == n.wg[i := Whole(p.Wg())] && s.node.up == n.up + {i}
            && s.node.bird == n.bird[f := Whole(p.Bird())] && s.node.loaded == s.node.bird
            && s.node.peers == map[p.id := p.Record()]
  {
    var peers := [p];
    assert peers[..0] == [] && peers[..1] == peers;
    var a, b, _, _ := RoundAt(w, n, peers, 0);
    SmoothCreate(w, n, peers);
    NothingDropped(w, n, peers);
  }
}

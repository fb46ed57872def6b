/** Every run of peer.add, peer.remove and peers.sync that follows one naming plan, when commands succeed, keeps
    the WireGuard files, the interfaces, the BIRD files and the store in step. */
module Runs {
  import opened Options
  import opened Names
  import opened Host
  import opened Reconciler
  import opened PeerAdd
  import opened SyncSteps
  import opened PeersSync

  // ---------------------------------------------------------------- naming plans

  /** A bijection between ids and names. */
  datatype Naming = Naming(of: map<string, string>, owner: map<string, string>)

  ghost predicate Bijective(nm: Naming) {
    && (forall id :: id in nm.of ==> nm.of[id] in nm.owner && nm.owner[nm.of[id]] == id)
    && (forall k :: k in nm.owner ==> nm.owner[k] in nm.of && nm.of[nm.owner[k]] == k)
  }

  /** `keys` are exactly the names of the ids in `live`. */
  ghost predicate Exactly(keys: set<string>, nm: Naming, live: set<string>) {
    forall k :: k in keys <==> k in nm.owner && nm.owner[k] in live
  }

  lemma Grows(keys: set<string>, nm: Naming, live: set<string>, id: string)
    requires Bijective(nm) && Exactly(keys, nm, live) && id in nm.of
    ensures Exactly(keys + {nm.of[id]}, nm, live + {id})
  {
  }

  lemma Shrinks(keys: set<string>, nm: Naming, live: set<string>, id: string)
    requires Bijective(nm) && Exactly(keys, nm, live) && id in nm.of
    ensures Exactly(keys - {nm.of[id]}, nm, live - {id})
  {
  }

  lemma IsImage(keys: set<string>, nm: Naming, live: set<string>)
    requires Bijective(nm) && Exactly(keys, nm, live) && live <= nm.of.Keys
    ensures keys == set id | id in live :: nm.of[id]
  {
  }

  /** For every id its AS number, its interface and its BIRD file. */
  datatype Scheme = Scheme(asn: map<string, int>, iface: Naming, file: Naming)

  ghost predicate Usable(c: Scheme) {
    Bijective(c.iface) && Bijective(c.file) && c.asn.Keys == c.iface.of.Keys == c.file.of.Keys
  }

  /** AS numbers are positive, ids and interfaces are not empty, and the BIRD file is the default one. */
  predicate Named(c: Scheme, id: string) {
    && id in c.asn && id in c.iface.of && id in c.file.of
    && id != "" && c.asn[id] > 0 && c.iface.of[id] != "" && c.file.of[id] == BirdFileName(c.asn[id])
  }

  /** Nobody uses the default interface of another's AS number. */
  predicate DefaultIsOwn(c: Scheme, id: string)
    requires id in c.asn
  {
    var k := InterfaceName(c.asn[id]);
    k in c.iface.owner ==> c.iface.owner[k] == id
  }

  ghost predicate Conventional(c: Scheme) {
    forall id {:trigger Named(c, id)} :: id in c.asn ==> Named(c, id) && DefaultIsOwn(c, id)
  }

  // ---------------------------------------------------------------- messages and runs

  datatype Message =
    | PeerAddMsg(p: AddPayload)
    | PeerRemoveMsg(id: string, asn: int)
    | PeersSyncMsg(peers: seq<SyncPeer>)

  ghost function Handle(w: World, n: Node, msg: Message): Node
    requires Lawful(w)
  {
    match msg
    case PeerAddMsg(p) => Add(w, n, p).0
    case PeerRemoveMsg(id, asn) => Remove(w, n, id, asn).0
    case PeersSyncMsg(peers) => Sync(w, n, peers).node
  }

  ghost function RunAll(w: World, n: Node, msgs: seq<Message>): Node
    requires Lawful(w)
  {
    if msgs == [] then n else Handle(w, RunAll(w, n, msgs[..|msgs| - 1]), msgs[|msgs| - 1])
  }

  predicate PeerFollows(c: Scheme, p: SyncPeer) {
    p.Valid() ==>
      && p.id in c.asn && p.id in c.iface.of && p.id in c.file.of
      && p.asn == c.asn[p.id] && p.Iface() == c.iface.of[p.id] && p.BirdFile() == c.file.of[p.id]
      && (p.pubkey != "" ==> p.endpoint != "")
  }

  predicate Follows(c: Scheme, msg: Message) {
    match msg
    case PeerAddMsg(p) =>
      && p.id in c.asn && p.id in c.iface.of && p.asn == c.asn[p.id] && AddIface(p) == c.iface.of[p.id]
      && p.pubkey != "" && p.endpoint != ""
    case PeerRemoveMsg(id, asn) => id in c.asn && (asn == 0 || asn == c.asn[id])
    case PeersSyncMsg(peers) => forall j :: 0 <= j < |peers| ==> PeerFollows(c, peers[j])
  }

  // ---------------------------------------------------------------- the invariant

  predicate OwnWg(c: Scheme, k: string, f: File<WgSettings>) {
    k in c.iface.owner && c.iface.owner[k] in c.asn && f.Whole? && f.settings.asn == c.asn[c.iface.owner[k]]
  }

  predicate OwnBird(c: Scheme, k: string, f: File<BirdSettings>) {
    && k in c.file.owner && c.file.owner[k] in c.asn && c.file.owner[k] in c.iface.of && f.Whole?
    && f.settings.asn == c.asn[c.file.owner[k]] && f.settings.iface == c.iface.of[c.file.owner[k]]
  }

  ghost predicate WgInStep(c: Scheme, wg: map<string, File<WgSettings>>, live: set<string>) {
    Exactly(wg.Keys, c.iface, live) && forall k :: k in wg ==> OwnWg(c, k, wg[k])
  }

  ghost predicate BirdInStep(c: Scheme, bird: map<string, File<BirdSettings>>, live: set<string>) {
    Exactly(bird.Keys, c.file, live) && forall k :: k in bird ==> OwnBird(c, k, bird[k])
  }

  /** Exactly the ids of `live` have their WireGuard file, interface and BIRD file, all whole and their own. */
  ghost predicate InStep(c: Scheme, n: Node, live: set<string>) {
    && !n.dead && n.loaded == n.bird && n.up == n.wg.Keys && live <= c.asn.Keys
    && WgInStep(c, n.wg, live) && BirdInStep(c, n.bird, live)
  }

  /** Every record of the store carries the scheme's names. */
  ghost predicate Recorded(c: Scheme, peers: map<string, PeerInfo>) {
    forall id :: id in peers ==>
      && id in c.asn && id in c.iface.of && id in c.file.of
      && peers[id].asn == c.asn[id] && peers[id].iface == c.iface.of[id] && peers[id].birdFile == c.file.of[id]
  }

  ghost predicate Inv(c: Scheme, n: Node) {
    InStep(c, n, n.peers.Keys) && Recorded(c, n.peers)
  }

  /** One id's names are there exactly when the id is live. */
  lemma Placed(c: Scheme, n: Node, live: set<string>, id: string)
    requires Usable(c) && InStep(c, n, live) && id in c.asn
    ensures c.iface.of[id] in n.wg <==> id in live
    ensures c.iface.of[id] in n.up <==> id in live
    ensures c.file.of[id] in n.bird <==> id in live
  {
    assert c.iface.owner[c.iface.of[id]] == id && c.file.owner[c.file.of[id]] == id;
  }

  lemma WgGains(c: Scheme, wg: map<string, File<WgSettings>>, live: set<string>, id: string, s: WgSettings)
    requires Usable(c) && WgInStep(c, wg, live) && id in c.asn && s.asn == c.asn[id]
    ensures WgInStep(c, wg[c.iface.of[id] := Whole(s)], live + {id})
  {
    Grows(wg.Keys, c.iface, live, id);
    assert wg[c.iface.of[id] := Whole(s)].Keys == wg.Keys + {c.iface.of[id]};
  }

  lemma BirdGains(c: Scheme, bird: map<string, File<BirdSettings>>, live: set<string>, id: string, s: BirdSettings)
    requires Usable(c) && BirdInStep(c, bird, live) && id in c.asn && s.asn == c.asn[id] && s.iface == c.iface.of[id]
    ensures BirdInStep(c, bird[c.file.of[id] := Whole(s)], live + {id})
  {
    Grows(bird.Keys, c.file, live, id);
    assert bird[c.file.of[id] := Whole(s)].Keys == bird.Keys + {c.file.of[id]};
  }

  lemma Gain(c: Scheme, n: Node, n': Node, live: set<string>, id: string, s: WgSettings, b: BirdSettings)
    requires Usable(c) && InStep(c, n, live) && id in c.asn && !n'.dead
    requires s.asn == c.asn[id] && b.asn == c.asn[id] && b.iface == c.iface.of[id]
    requires n'.wg == n.wg[c.iface.of[id] := Whole(s)] && n'.up == n.up + {c.iface.of[id]}
    requires n'.bird == n.bird[c.file.of[id] := Whole(b)] && n'.loaded == n'.bird
    ensures InStep(c, n', live + {id})
  {
    WgGains(c, n.wg, live, id, s);
    BirdGains(c, n.bird, live, id, b);
  }

  lemma WgLoses(c: Scheme, wg: map<string, File<WgSettings>>, live: set<string>, id: string)
    requires Usable(c) && WgInStep(c, wg, live) && id in c.asn
    ensures WgInStep(c, wg - {c.iface.of[id]}, live - {id})
  {
    Shrinks(wg.Keys, c.iface, live, id);
  }

  lemma BirdLoses(c: Scheme, bird: map<string, File<BirdSettings>>, live: set<string>, id: string)
    requires Usable(c) && BirdInStep(c, bird, live) && id in c.asn
    ensures BirdInStep(c, bird - {c.file.of[id]}, live - {id})
  {
    Shrinks(bird.Keys, c.file, live, id);
  }

  lemma Lose(c: Scheme, n: Node, n': Node, live: set<string>, id: string)
    requires Usable(c) && InStep(c, n, live) && id in c.asn && !n'.dead
    requires n'.wg == n.wg - {c.iface.of[id]} && n'.up == n.up - {c.iface.of[id]}
    requires n'.bird == n.bird - {c.file.of[id]} && n'.loaded == n'.bird
    ensures InStep(c, n', live - {id})
  {
    WgLoses(c, n.wg, live, id);
    BirdLoses(c, n.bird, live, id);
  }

  // ---------------------------------------------------------------- each message keeps it

  lemma AddKeeps(w: World, c: Scheme, n: Node, p: AddPayload)
    requires Smooth(w) && Usable(c) && Conventional(c) && Inv(c, n) && Follows(c, PeerAddMsg(p))
    ensures Inv(c, Add(w, n, p).0)
  {
    AddIsConfined(w, n, p);
    Placed(c, n, n.peers.Keys, p.id);
    if p.id !in n.peers {
      assert Named(c, p.id);
      SmoothAdd(w, n, p);
      AddedPayload(w, n, p);
      AddGains(c, n, p, Add(w, n, p).0);
    }
  }

  lemma RecordedGains(c: Scheme, peers: map<string, PeerInfo>, id: string, info: PeerInfo)
    requires Recorded(c, peers) && id in c.asn && id in c.iface.of && id in c.file.of
    requires info.asn == c.asn[id] && info.iface == c.iface.of[id] && info.birdFile == c.file.of[id]
    ensures Recorded(c, peers[id := info]) && peers[id := info].Keys == peers.Keys + {id}
  {
  }

  lemma AddGains(c: Scheme, n: Node, p: AddPayload, n': Node)
    requires Usable(c) && Inv(c, n) && Named(c, p.id) && p.asn == c.asn[p.id] && AddIface(p) == c.iface.of[p.id]
    requires !n'.dead
    requires n'.wg == n.wg[AddIface(p) := Whole(AddWgSettings(p))] && n'.up == n.up + {AddIface(p)}
    requires n'.bird == n.bird[BirdFileName(p.asn) := Whole(AddBirdSettings(p))] && n'.loaded == n'.bird
    requires n'.peers == n.peers[p.id := AddRecord(p)]
    ensures Inv(c, n')
  {
    Gain(c, n, n', n.peers.Keys, p.id, AddWgSettings(p), AddBirdSettings(p));
    RecordedGains(c, n.peers, p.id, AddRecord(p));
  }

  /** A remove that meets no failure. */
  ghost predicate Removed(n: Node, id: string, asn: int, n': Node) {
    && !n'.dead && n'.wg == n.wg - {RemoveIface(n, id, asn)} && n'.up == n.up - {RemoveIface(n, id, asn)}
    && n'.bird == n.bird - {RemoveFile(n, id, asn)} && n'.loaded == n'.bird && n'.peers == n.peers - {id}
  }

  lemma SmoothRemove(w: World, n: Node, id: string, asn: int)
    requires Smooth(w) && !n.dead && RemoveAsn(n, id, asn) != 0
    ensures Removed(n, id, asn, Remove(w, n, id, asn).0)
  {
  }

  /** The names a remove clears are the id's own, or nobody's. */
  lemma RemoveNames(c: Scheme, n: Node, id: string, asn: int)
    requires Usable(c) && Inv(c, n) && id in c.asn && Named(c, id) && DefaultIsOwn(c, id)
    requires (asn == 0 || asn == c.asn[id])
    requires RemoveAsn(n, id, asn) != 0
    ensures n.wg - {RemoveIface(n, id, asn)} == n.wg - {c.iface.of[id]}
    ensures n.up - {RemoveIface(n, id, asn)} == n.up - {c.iface.of[id]}
    ensures RemoveFile(n, id, asn) == c.file.of[id]
  {
    if id in n.peers {
      assert |c.file.of[id]| > 0;
    } else {
      Placed(c, n, n.peers.Keys, id);
      NoStrayDefault(c, n, id);
      assert n.wg - {RemoveIface(n, id, asn)} == n.wg && n.up - {RemoveIface(n, id, asn)} == n.up;
    }
  }

  lemma RecordedLoses(c: Scheme, peers: map<string, PeerInfo>, id: string)
    requires Recorded(c, peers)
    ensures Recorded(c, peers - {id}) && (peers - {id}).Keys == peers.Keys - {id}
  {
  }

  lemma RemoveLoses(c: Scheme, n: Node, id: string, asn: int, n': Node)
    requires Usable(c) && Inv(c, n) && id in c.asn && Named(c, id) && DefaultIsOwn(c, id)
    requires (asn == 0 || asn == c.asn[id])
    requires RemoveAsn(n, id, asn) != 0 && Removed(n, id, asn, n')
    ensures Inv(c, n')
  {
    RemoveNames(c, n, id, asn);
    RecordedLoses(c, n.peers, id);
    Lose(c, n, n', n.peers.Keys, id);
  }

  /** The default interface of an id that is not stored is nobody's. */
  lemma NoStrayDefault(c: Scheme, n: Node, id: string)
    requires id in c.asn && Usable(c) && DefaultIsOwn(c, id) && Inv(c, n) && id !in n.peers
    ensures InterfaceName(c.asn[id]) !in n.wg && InterfaceName(c.asn[id]) !in n.up
  {
  }

  lemma RemoveKeeps(w: World, c: Scheme, n: Node, id: string, asn: int)
    requires Smooth(w) && Usable(c) && Conventional(c) && Inv(c, n) && Follows(c, PeerRemoveMsg(id, asn))
    ensures Inv(c, Remove(w, n, id, asn).0)
  {
    if RemoveAsn(n, id, asn) != 0 {
      assert Named(c, id);
      SmoothRemove(w, n, id, asn);
      RemoveLoses(c, n, id, asn, Remove(w, n, id, asn).0);
    }
  }

  // ---------------------------------------------------------------- peers.sync keeps it

  /** A round either finds the peer in place or puts it there. */
  lemma RoundKeeps(c: Scheme, n: Node, p: SyncPeer, n': Node, live: set<string>)
    requires Usable(c) && (p.Valid() ==> Named(c, p.id)) && InStep(c, n, live) && PeerFollows(c, p) && Kept(n, p)
    requires !n'.dead
    requires Round(n, p, n', NeedsWg(n, p) ==> p.endpoint != "", true)
    ensures InStep(c, n', live + {p.id})
  {
    Placed(c, n, live, p.id);
    if p.id in live {
      assert live + {p.id} == live;
    } else {
      assert NeedsWg(n, p) && NeedsBird(n, p);
      Gain(c, n, n', live, p.id, p.Wg(), p.Bird());
    }
  }

  lemma CreateStep(c: Scheme, stored: set<string>, a: SyncState, p: SyncPeer, b: SyncState)
    requires Usable(c) && Named(c, p.id) && PeerFollows(c, p) && Kept(a.node, p) && !b.node.dead
    requires InStep(c, a.node, stored + a.desired.Keys) && Recorded(c, a.desired)
    requires Round(a.node, p, b.node, NeedsWg(a.node, p) ==> p.endpoint != "", true)
    requires b.desired == a.desired[p.id := p.Record()]
    ensures InStep(c, b.node, stored + b.desired.Keys) && Recorded(c, b.desired)
  {
    assert stored + b.desired.Keys == (stored + a.desired.Keys) + {p.id};
    CreateStepIn(c, stored + a.desired.Keys, stored + b.desired.Keys, a, p, b);
  }

  lemma CreateStepIn(c: Scheme, live: set<string>, live': set<string>, a: SyncState, p: SyncPeer, b: SyncState)
    requires Usable(c) && Named(c, p.id) && PeerFollows(c, p) && Kept(a.node, p) && !b.node.dead
    requires InStep(c, a.node, live) && Recorded(c, a.desired) && live' == live + {p.id}
    requires Round(a.node, p, b.node, NeedsWg(a.node, p) ==> p.endpoint != "", true)
    requires b.desired == a.desired[p.id := p.Record()]
    ensures InStep(c, b.node, live') && Recorded(c, b.desired)
  {
    RoundKeeps(c, a.node, p, b.node, live);
    RecordedGains(c, a.desired, p.id, p.Record());
  }

  lemma {:induction false} CreateKeeps(w: World, c: Scheme, n: Node, peers: seq<SyncPeer>)
    requires Smooth(w) && Usable(c) && Conventional(c) && Inv(c, n)
    requires forall j :: 0 <= j < |peers| ==> PeerFollows(c, peers[j])
    ensures var a := Create(w, n, peers);
            InStep(c, a.node, n.peers.Keys + a.desired.Keys) && Recorded(c, a.desired)
  {
    if peers == [] {
      var a := Create(w, n, peers);
      assert n.peers.Keys + a.desired.Keys == n.peers.Keys;
    } else {
      var front, p := peers[..|peers| - 1], peers[|peers| - 1];
      CreateKeeps(w, c, n, front);
      var a := Create(w, n, front);
      if Kept(a.node, p) {
        assert Named(c, p.id);
        SmoothRound(w, a, p);
        CreateStep(c, n.peers.Keys, a, p, SyncOne(w, a, p));
      }
    }
  }

  function Dropped(keys: seq<string>, desired: map<string, PeerInfo>): set<string> {
    set k | k in keys && k !in desired
  }

  lemma TeardownLoses(c: Scheme, n: Node, info: PeerInfo, n': Node, live: set<string>, id: string)
    requires Usable(c) && Named(c, id) && InStep(c, n, live) && Recorded(c, map[id := info])
    requires SyncSteps.Cleared(n, n', info)
    ensures InStep(c, n', live - {id})
  {
    var one := map[id := info];
    assert id in one && one[id] == info;
    assert |c.file.of[id]| > 0;
    Lose(c, n, n', live, id);
  }

  lemma SmoothTeardownLast(w: World, n: Node, rest: seq<PeerInfo>, info: PeerInfo)
    requires Smooth(w) && !Teardown(w, n, rest).dead
    ensures SyncSteps.Cleared(Teardown(w, n, rest), Teardown(w, n, rest + [info]), info)
  {
    assert (rest + [info])[..|rest|] == rest;
    SmoothTeardownOne(w, Teardown(w, n, rest), info);
  }

  lemma DroppedStep(front: seq<string>, k: string, desired: map<string, PeerInfo>, live: set<string>)
    ensures live - Dropped(front + [k], desired) ==
              if k in desired then live - Dropped(front, desired) else live - Dropped(front, desired) - {k}
  {
  }

  lemma {:induction false} TeardownKeeps(w: World, c: Scheme, n: Node, keys: seq<string>, peers: map<string, PeerInfo>,
                                         desired: map<string, PeerInfo>, live: set<string>)
    requires Smooth(w) && Usable(c) && Conventional(c) && InStep(c, n, live) && Recorded(c, peers)
    requires forall k :: k in keys ==> k in peers
    ensures InStep(c, Teardown(w, n, Stale(keys, peers, desired)), live - Dropped(keys, desired))
  {
    if keys == [] {
      assert live - Dropped(keys, desired) == live;
    } else {
      var front, k := keys[..|keys| - 1], keys[|keys| - 1];
      assert keys == front + [k];
      TeardownKeeps(w, c, n, front, peers, desired, live);
      DroppedStep(front, k, desired, live);
      if k !in desired {
        var rest := Stale(front, peers, desired);
        assert Named(c, k);
        SmoothTeardownLast(w, n, rest, peers[k]);
        TeardownLoses(c, Teardown(w, n, rest), peers[k], Teardown(w, n, rest + [peers[k]]),
                      live - Dropped(front, desired), k);
      }
    }
  }

  lemma KeysLeft(stored: set<string>, keys: seq<string>, desired: map<string, PeerInfo>)
    requires forall k :: k in stored <==> k in keys
    ensures stored + desired.Keys - Dropped(keys, desired) == desired.Keys
  {
  }

  lemma SyncKeeps(w: World, c: Scheme, n: Node, peers: seq<SyncPeer>)
    requires Smooth(w) && Usable(c) && Conventional(c) && Inv(c, n)
    requires forall j :: 0 <= j < |peers| ==> PeerFollows(c, peers[j])
    ensures Inv(c, Sync(w, n, peers).node)
  {
    CreateKeeps(w, c, n, peers);
    var a := Create(w, n, peers);
    var n1, stale := SyncIsTeardown(w, n, peers);
    var keys := w.cursor(n.peers.Keys);
    TeardownKeeps(w, c, n1, keys, n.peers, a.desired, n.peers.Keys + a.desired.Keys);
    KeysLeft(n.peers.Keys, keys, a.desired);
    TeardownKeepsStore(w, n1, stale);
  }

  /** The second half of a sync that commits. */
  lemma SyncIsTeardown(w: World, n: Node, peers: seq<SyncPeer>) returns (n1: Node, stale: seq<PeerInfo>)
    requires Smooth(w) && !Create(w, n, peers).node.dead
    ensures var a, keys := Create(w, n, peers), w.cursor(n.peers.Keys);
            && Enumerates(keys, n.peers.Keys) && stale == Stale(keys, n.peers, a.desired)
            && n1 == a.node.(peers := a.desired, clock := n1.clock)
            && Sync(w, n, peers).node == Teardown(w, n1, stale)
  {
    CreateKeepsStore(w, n, peers);
    var a := Create(w, n, peers);
    n1 := ReplaceAll(w, a.node, a.desired).0;
    assert Enumerates(w.cursor(n.peers.Keys), n.peers.Keys);
    stale := StaleOf(w, n.peers, a.desired);
  }

  // ---------------------------------------------------------------- all runs

  lemma {:induction false} RunKeeps(w: World, c: Scheme, msgs: seq<Message>)
    requires Smooth(w) && Usable(c) && Conventional(c) && forall i :: 0 <= i < |msgs| ==> Follows(c, msgs[i])
    ensures Inv(c, RunAll(w, EMPTY_NODE, msgs))
  {
    if msgs == [] {
      assert EMPTY_NODE.peers.Keys == {};
    } else {
      RunKeeps(w, c, msgs[..|msgs| - 1]);
      var n := RunAll(w, EMPTY_NODE, msgs[..|msgs| - 1]);
      match msgs[|msgs| - 1] {
        case PeerAddMsg(p) => AddKeeps(w, c, n, p);
        case PeerRemoveMsg(id, asn) => RemoveKeeps(w, c, n, id, asn);
        case PeersSyncMsg(peers) => SyncKeeps(w, c, n, peers);
      }
    }
  }

  lemma StoreNames(c: Scheme, n: Node)
    requires Usable(c) && Inv(c, n)
    ensures n.wg.Keys == (set id | id in n.peers :: n.peers[id].iface)
    ensures n.up == (set id | id in n.peers :: n.peers[id].iface)
    ensures n.bird.Keys == (set id | id in n.peers :: n.peers[id].birdFile)
    ensures forall id :: id in n.peers ==> Consistent(n, n.peers[id])
  {
    IsImage(n.wg.Keys, c.iface, n.peers.Keys);
    IsImage(n.bird.Keys, c.file, n.peers.Keys);
    assert (set id | id in n.peers.Keys :: c.iface.of[id]) == (set id | id in n.peers :: n.peers[id].iface);
    assert (set id | id in n.peers.Keys :: c.file.of[id]) == (set id | id in n.peers :: n.peers[id].birdFile);
    forall id | id in n.peers ensures Consistent(n, n.peers[id]) {
      Placed(c, n, n.peers.Keys, id);
      assert OwnWg(c, c.iface.of[id], n.wg[c.iface.of[id]]) && OwnBird(c, c.file.of[id], n.bird[c.file.of[id]]);
    }
  }

  // ---------------------------------------------------------------- the theorem, for a plain plan

  datatype Entry = Entry(asn: int, iface: string)

  type Plan = map<string, Entry>

  /** One AS number and one interface per id, and nobody's are another's. */
  ghost predicate Injective(plan: Plan) {
    && "" !in plan
    && (forall a :: a in plan ==> plan[a].asn > 0 && plan[a].iface != "")
    && (forall a, b :: a in plan && b in plan && a != b ==>
          plan[a].asn != plan[b].asn && plan[a].iface != plan[b].iface)
  }

  /** Nobody's interface is the default one of another's AS number. */
  ghost predicate DefaultsAreOwn(plan: Plan) {
    forall a, b :: a in plan && b in plan && a != b ==> plan[a].iface != InterfaceName(plan[b].asn)
  }

  predicate AddFollowsPlan(plan: Plan, p: AddPayload) {
    p.id in plan && p.asn == plan[p.id].asn && AddIface(p) == plan[p.id].iface && p.pubkey != "" && p.endpoint != ""
  }

  predicate PeerFollowsPlan(plan: Plan, p: SyncPeer) {
    p.Valid() ==>
      && p.id in plan && p.asn == plan[p.id].asn && p.Iface() == plan[p.id].iface
      && p.BirdFile() == BirdFileName(p.asn) && (p.pubkey != "" ==> p.endpoint != "")
  }

  /** The message is well formed and names peers as the plan does. A sync may repeat a peer, leave out the key of
      one that is already configured, and carry malformed entries. */
  predicate FollowsPlan(plan: Plan, msg: Message) {
    match msg
    case PeerAddMsg(p) => AddFollowsPlan(plan, p)
    case PeerRemoveMsg(id, asn) => id in plan && (asn == 0 || asn == plan[id].asn)
    case PeersSyncMsg(peers) => forall j :: 0 <= j < |peers| ==> PeerFollowsPlan(plan, peers[j])
  }

  lemma FilesDiffer(plan: Plan)
    requires Injective(plan)
    ensures forall a, b :: a in plan && b in plan && BirdFileName(plan[a].asn) == BirdFileName(plan[b].asn) ==> a == b
  {
    forall a, b | a in plan && b in plan && BirdFileName(plan[a].asn) == BirdFileName(plan[b].asn) ensures a == b {
      NamesInjective(plan[a].asn, plan[b].asn);
    }
  }

  /** An injective map of names and its inverse. */
  lemma NamingFor(of: map<string, string>) returns (nm: Naming)
    requires forall a, b :: a in of && b in of && of[a] == of[b] ==> a == b
    ensures nm.of == of && Bijective(nm)
  {
    nm := Naming(of, map id | id in of :: of[id] := id);
  }

  /** The scheme says of one id what the plan says. */
  predicate Agrees(plan: Plan, c: Scheme, id: string)
    requires id in plan
  {
    && id in c.asn && id in c.iface.of && id in c.file.of
    && c.asn[id] == plan[id].asn && c.iface.of[id] == plan[id].iface && c.file.of[id] == BirdFileName(plan[id].asn)
  }

  lemma SchemeFor(plan: Plan) returns (c: Scheme)
    requires Injective(plan)
    ensures Usable(c) && c.asn.Keys == plan.Keys && forall id :: id in plan ==> Agrees(plan, c, id)
  {
    FilesDiffer(plan);
    var iface := NamingFor(map id | id in plan :: plan[id].iface);
    var file := NamingFor(map id | id in plan :: BirdFileName(plan[id].asn));
    c := Scheme(map id | id in plan :: plan[id].asn, iface, file);
  }

  lemma SchemeIsConventional(plan: Plan, c: Scheme)
    requires Injective(plan) && DefaultsAreOwn(plan) && Usable(c) && c.asn.Keys == plan.Keys
    requires forall id :: id in plan ==> Agrees(plan, c, id)
    ensures Conventional(c)
  {
    forall id | id in c.asn ensures Named(c, id) && DefaultIsOwn(c, id) {
      assert id in plan && Agrees(plan, c, id);
      var k := InterfaceName(c.asn[id]);
      if k in c.iface.owner {
        assert Agrees(plan, c, c.iface.owner[k]);
      }
    }
  }

  lemma PeerFollowsScheme(plan: Plan, c: Scheme, p: SyncPeer)
    requires PeerFollowsPlan(plan, p) && (p.id in plan ==> Agrees(plan, c, p.id))
    ensures PeerFollows(c, p)
  {
  }

  lemma FollowsScheme(plan: Plan, c: Scheme, msg: Message)
    requires FollowsPlan(plan, msg) && forall id :: id in plan ==> Agrees(plan, c, id)
    ensures Follows(c, msg)
  {
    match msg {
      case PeerAddMsg(p) =>
      case PeerRemoveMsg(id, asn) =>
      case PeersSyncMsg(peers) =>
        forall j | 0 <= j < |peers| ensures PeerFollows(c, peers[j]) {
          PeerFollowsScheme(plan, c, peers[j]);
        }
    }
  }

  /** The record's files are whole and carry its AS number and interface. */
  predicate Consistent(n: Node, info: PeerInfo) {
    && info.iface in n.wg && n.wg[info.iface].Whole? && n.wg[info.iface].settings.asn == info.asn
    && info.birdFile in n.bird && n.bird[info.birdFile].Whole?
    && n.bird[info.birdFile].settings.asn == info.asn && n.bird[info.birdFile].settings.iface == info.iface
  }

  /** The WireGuard files, the interfaces that are up and the BIRD files are exactly those the store records name, BIRD
      has loaded exactly its files, and each file is whole and holds the record's AS number and interface. */
  ghost predicate MatchesStore(n: Node) {
    && n.wg.Keys == (set id | id in n.peers :: n.peers[id].iface)
    && n.up == (set id | id in n.peers :: n.peers[id].iface)
    && n.bird.Keys == (set id | id in n.peers :: n.peers[id].birdFile)
    && n.loaded == n.bird
    && forall id :: id in n.peers ==> Consistent(n, n.peers[id])
  }

  ghost predicate AllFollow(plan: Plan, msgs: seq<Message>) {
    forall i :: 0 <= i < |msgs| ==> FollowsPlan(plan, msgs[i])
  }

  /** The run invariant: from an empty node, with commands that succeed, after any sequence of messages that follow an
      injective plan in which nobody's interface is the default of another's AS number, the node matches its store. */
  lemma RunInvariant(w: World, plan: Plan, msgs: seq<Message>)
    requires Smooth(w) && Injective(plan) && DefaultsAreOwn(plan) && AllFollow(plan, msgs)
    ensures MatchesStore(RunAll(w, EMPTY_NODE, msgs))
  {
    var c := SchemeFor(plan);
    SchemeIsConventional(plan, c);
    forall i | 0 <= i < |msgs| ensures Follows(c, msgs[i]) {
      FollowsScheme(plan, c, msgs[i]);
    }
    RunKeeps(w, c, msgs);
    StoreNames(c, RunAll(w, EMPTY_NODE, msgs));
  }

  // ---------------------------------------------------------------- the condition is exact

  function MinimalAdd(id: string, e: Entry): AddPayload {
    AddPayload(id, e.asn, "key", "endpoint", "", 0, e.iface, None, None)
  }

  lemma RunThen(w: World, n: Node, msgs: seq<Message>, msg: Message)
    requires Lawful(w)
    ensures RunAll(w, n, msgs + [msg]) == Handle(w, RunAll(w, n, msgs), msg)
  {
    assert (msgs + [msg])[..|msgs|] == msgs;
  }

  lemma FirstAdd(w: World, id: string, e: Entry) returns (n: Node)
    requires Smooth(w) && id != "" && e.asn > 0 && e.iface != ""
    ensures n == Add(w, EMPTY_NODE, MinimalAdd(id, e)).0 && !n.dead
    ensures n.peers.Keys == {id} && n.peers[id].iface == e.iface
  {
    var p := MinimalAdd(id, e);
    SmoothAdd(w, EMPTY_NODE, p);
    AddIsConfined(w, EMPTY_NODE, p);
    AddedPayload(w, EMPTY_NODE, p);
    n := Add(w, EMPTY_NODE, p).0;
  }

  lemma StrayFollows(plan: Plan, a: string, b: string)
    requires Injective(plan) && a in plan && b in plan
    ensures FollowsPlan(plan, PeerAddMsg(MinimalAdd(a, plan[a]))) && FollowsPlan(plan, PeerRemoveMsg(b, plan[b].asn))
  {
  }

  lemma StrayTeardown(w: World, n: Node, a: string, b: string, asn: int) returns (m: Node)
    requires Smooth(w) && !n.dead && n.peers.Keys == {a} && b != "" && a != b && asn > 0
    requires n.peers[a].iface == InterfaceName(asn)
    ensures m == Remove(w, n, b, asn).0 && a in m.peers && m.peers[a].iface !in m.wg && !MatchesStore(m)
  {
    SmoothRemove(w, n, b, asn);
    m := Remove(w, n, b, asn).0;
    assert m.peers[a].iface in (set id | id in m.peers :: m.peers[id].iface);
  }

  /** The failing family: add one peer on the default interface of another's AS number, then remove that other, which
      was never added, by its AS number. The first peer's interface is torn down and its record stays. */
  lemma StrayRemove(w: World, plan: Plan, a: string, b: string) returns (msgs: seq<Message>)
    requires Smooth(w) && Injective(plan) && a in plan && b in plan && a != b
    requires plan[a].iface == InterfaceName(plan[b].asn)
    ensures |msgs| == 2 && AllFollow(plan, msgs)
    ensures var n := RunAll(w, EMPTY_NODE, msgs); a in n.peers && n.peers[a].iface !in n.wg && !MatchesStore(n)
  {
    var add, remove := PeerAddMsg(MinimalAdd(a, plan[a])), PeerRemoveMsg(b, plan[b].asn);
    msgs := [] + [add] + [remove];
    StrayFollows(plan, a, b);
    RunThen(w, EMPTY_NODE, [], add);
    RunThen(w, EMPTY_NODE, [] + [add], remove);
    var n := FirstAdd(w, a, plan[a]);
    var m := StrayTeardown(w, n, a, b, plan[b].asn);
  }

  /** The exact condition: an injective plan keeps the node in step with its store over every run that follows it if and
      only if nobody's interface is the default of another's AS number. */
  lemma RunInvariantIff(w: World, plan: Plan)
    requires Smooth(w) && Injective(plan)
    ensures (forall msgs :: AllFollow(plan, msgs) ==> MatchesStore(RunAll(w, EMPTY_NODE, msgs)))
            <==> DefaultsAreOwn(plan)
  {
    if DefaultsAreOwn(plan) {
      forall msgs | AllFollow(plan, msgs) ensures MatchesStore(RunAll(w, EMPTY_NODE, msgs)) {
        RunInvariant(w, plan, msgs);
      }
    } else {
      var a, b :| a in plan && b in plan && a != b && plan[a].iface == InterfaceName(plan[b].asn);
      var msgs := StrayRemove(w, plan, a, b);
    }
  }
}

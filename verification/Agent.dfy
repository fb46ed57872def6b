/** The agent as it runs: fields updated command by command, each method proved to do exactly what the
    functions of Host and Reconciler say. */
module AgentProcess {
  import opened Options
  import opened Names
  import opened Host
  import opened Reconciler

  class Agent {
    const world: World
    var wg: map<string, File<WgSettings>>
    var up: set<string>
    var bird: map<string, File<BirdSettings>>
    var loaded: map<string, File<BirdSettings>>
    var peers: map<string, PeerInfo>
    var clock: nat
    var dead: bool

    constructor (world: World)
      ensures this.world == world && State() == EMPTY_NODE
    {
      this.world := world;
      wg, up, bird, loaded, peers, clock, dead := map[], {}, map[], map[], map[], 0, false;
    }

    function State(): Node
      reads this
    {
      Node(wg, up, bird, loaded, peers, clock, dead)
    }

    /** Issue one command. */
    method Issue(c: Command) returns (ok: bool)
      modifies this`clock, this`dead
      ensures (State(), ok) == Attempt(world, c, old(State()))
    {
      if dead {
        return false;
      }
      match world.outcome(c, clock) {
        case Ok =>
          clock := clock + 1;
          return true;
        case Fail(_) =>
          clock := clock + 1;
          return false;
        case Crash(_) =>
          dead := true;
          return false;
      }
    }

    method AddPeerWithIface(iface: string, s: WgSettings) returns (r: WgResult)
      modifies this
      ensures (State(), r) == AddWg(world, old(State()), iface, s)
    {
      if s.asn <= 0 || s.pubkey == "" || s.endpoint == "" {
        return WgInvalid;
      }
      var ok := Issue(WgOpen);
      if !ok {
        return WgOpenFailed;
      }
      wg := wg[iface := Cut(s, 0)];
      var bytes := Written(world, WgWrite, State());
      ok := Issue(WgWrite);
      if !ok {
        wg := wg[iface := Cut(s, bytes)];
        return WgWriteFailed;
      }
      wg := wg[iface := Whole(s)];
      ok := Issue(WgUp);
      if !ok {
        return WgUpFailed;
      }
      up := up + {iface};
      return WgAdded;
    }

    method RemovePeerByIface(iface: string)
      modifies this
      ensures State() == RemoveWg(world, old(State()), iface)
    {
      var ok := Issue(WgDown);
      if ok {
        up := up - {iface};
      }
      ok := Issue(WgRemove);
      if ok {
        wg := wg - {iface};
      }
    }

    method ReloadBird() returns (ok: bool)
      modifies this
      ensures (State(), ok) == Reload(world, old(State()))
    {
      ok := Issue(BirdConfigure);
      if ok {
        loaded := bird;
      }
    }

    method AddBirdPeer(s: BirdSettings) returns (r: BirdResult)
      modifies this
      ensures (State(), r) == AddBird(world, old(State()), s)
    {
      var file := BirdFileName(s.asn);
      var ok := Issue(BirdOpen);
      if !ok {
        return BirdOpenFailed;
      }
      bird := bird[file := Cut(s, 0)];
      var bytes := Written(world, BirdWrite, State());
      ok := Issue(BirdWrite);
      if !ok {
        bird := bird[file := Cut(s, bytes)];
        return BirdWriteFailed;
      }
      bird := bird[file := Whole(s)];
      ok := Issue(BirdCheck);
      if !ok {
        ok := Issue(BirdRemove);
        if ok {
          bird := bird - {file};
        }
        return BirdCheckFailed;
      }
      ok := ReloadBird();
      return if ok then BirdAdded else BirdReloadFailed;
    }

    method RemoveBirdPeer(file: string)
      modifies this
      ensures State() == RemoveBird(world, old(State()), file)
    {
      var ok := Issue(BirdRemove);
      if ok {
        bird := bird - {file};
      }
      ok := ReloadBird();
    }

    method HandlePeerAdd(p: AddPayload) returns (reply: AddReply)
      modifies this
      ensures (State(), reply) == Add(world, old(State()), p)
    {
      var iface := if p.iface == "" then InterfaceName(p.asn) else p.iface;
      if p.id in peers && iface in up {
        return AlreadyActive;
      }
      if iface in up {
        RemovePeerByIface(iface);
      }
      var wgResult := AddPeerWithIface(iface, AddWgSettings(p));
      if !wgResult.WgAdded? {
        return WgAddFailed(wgResult);
      }
      var birdResult := AddBirdPeer(BirdSettings(p.asn, p.lla, iface));
      if !birdResult.BirdAdded? {
        RemovePeerByIface(iface);
        return BirdAddFailed(birdResult);
      }
      var stored := false;
      if p.id != "" {
        stored := Issue(StorePut);
      }
      if !stored {
        RemoveBirdPeer(BirdFileName(p.asn));
        RemovePeerByIface(iface);
        return StorePutFailed;
      }
      peers := peers[p.id := PeerInfo(p.asn, p.lla, iface, ProtocolName(p.asn), BirdFileName(p.asn))];
      return Added;
    }

    method HandlePeerRemove(id: string, asn: int) returns (reply: RemoveReply)
      modifies this
      ensures (State(), reply) == Remove(world, old(State()), id, asn)
    {
      var resolved := asn;
      if asn == 0 && id in peers {
        resolved := peers[id].asn;
      }
      if resolved == 0 {
        return UnknownPeer;
      }
      var stored := if id in peers then Some(peers[id]) else None;
      if stored.Some? && stored.value.birdFile != "" {
        RemoveBirdPeer(stored.value.birdFile);
      } else {
        RemoveBirdPeer(BirdFileName(resolved));
      }
      if stored.Some? && stored.value.iface != "" {
        RemovePeerByIface(stored.value.iface);
      } else {
        RemovePeerByIface(InterfaceName(resolved));
      }
      var ok := Issue(StoreDelete);
      if ok {
        peers := peers - {id};
      }
      return Removed;
    }

    /** One round of the sync loop. */
    method SyncPeerRound(p: SyncPeer, ghost a: SyncState) returns (kept: bool, ok: bool)
      requires a.node == State()
      modifies this
      ensures State() == SyncOne(world, a, p).node
      ensures kept == Kept(a.node, p)
      ensures kept ==> SyncOne(world, a, p) == SyncState(State(), a.desired[p.id := p.Record()],
                                                         if ok then a.applied + [p.id] else a.applied,
                                                         if ok then a.failed else a.failed + [p.id])
    {
      if p.asn <= 0 || p.id == "" {
        return false, false;
      }
      var iface := p.Iface();
      var wgExists := iface in wg;
      ok := true;
      if p.pubkey != "" {
        if !wgExists || iface !in up {
          var r := AddPeerWithIface(iface, p.Wg());
          ok := r.WgAdded?;
        }
      } else if !wgExists {
        return false, false;
      }
      assert (State(), ok) == SyncWg(world, a.node, p);
      if p.BirdFile() !in bird {
        var r := AddBirdPeer(p.Bird());
        ok := ok && r.BirdAdded?;
      }
      return true, ok;
    }

    method TeardownPeer(info: PeerInfo)
      modifies this
      ensures State() == TeardownOne(world, old(State()), info)
    {
      var iface := if info.iface == "" then InterfaceName(info.asn) else info.iface;
      if info.birdFile != "" {
        RemoveBirdPeer(info.birdFile);
      } else {
        RemoveBirdPeer(BirdFileName(info.asn));
      }
      RemovePeerByIface(iface);
    }

    /** The loop over the payload. */
    method CreatePeers(payload: seq<SyncPeer>)
      returns (desired: map<string, PeerInfo>, applied: seq<string>, failed: seq<string>)
      modifies this
      ensures SyncState(State(), desired, applied, failed) == Create(world, old(State()), payload)
    {
      desired, applied, failed := map[], [], [];
      for i := 0 to |payload|
        invariant SyncState(State(), desired, applied, failed) == Create(world, old(State()), payload[..i])
      {
        assert payload[..i + 1][..i] == payload[..i];
        ghost var a := SyncState(State(), desired, applied, failed);
        var kept, ok := SyncPeerRound(payload[i], a);
        if kept {
          desired := desired[payload[i].id := payload[i].Record()];
          if ok {
            applied := applied + [payload[i].id];
          } else {
            failed := failed + [payload[i].id];
          }
        }
      }
      assert payload[..|payload|] == payload;
    }

    /** The walk of the store that collects the stale records. */
    method CollectStale(desired: map<string, PeerInfo>) returns (stale: seq<PeerInfo>)
      requires Lawful(world)
      ensures Enumerates(world.cursor(peers.Keys), peers.Keys)
      ensures stale == StaleOf(world, peers, desired)
    {
      var keys := world.cursor(peers.Keys);
      assert Enumerates(keys, peers.Keys);
      stale := [];
      for i := 0 to |keys|
        invariant stale == Stale(keys[..i], peers, desired)
      {
        assert keys[..i + 1][..i] == keys[..i];
        if keys[i] !in desired {
          stale := stale + [peers[keys[i]]];
        }
      }
      assert keys[..|keys|] == keys;
    }

    method TeardownPeers(stale: seq<PeerInfo>)
      modifies this
      ensures State() == Teardown(world, old(State()), stale)
    {
      for i := 0 to |stale|
        invariant State() == Teardown(world, old(State()), stale[..i])
      {
        assert stale[..i + 1][..i] == stale[..i];
        TeardownPeer(stale[i]);
      }
      assert stale[..|stale|] == stale;
    }

    method HandlePeersSync(payload: seq<SyncPeer>) returns (applied: seq<string>, failed: seq<string>)
      requires Lawful(world)
      modifies this
      ensures var s := Sync(world, old(State()), payload);
              State() == s.node && applied == s.applied && failed == s.failed
    {
      var desired;
      desired, applied, failed := CreatePeers(payload);
      var stale := CollectStale(desired);
      var committed := Issue(StoreReplace);
      if committed {
        peers := desired;
      }
      TeardownPeers(stale);
    }
  }
}

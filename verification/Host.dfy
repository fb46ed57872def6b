/** The state of one node and the world that answers the agent's commands. */
module Host {
  import opened Options
  import opened Names

  /** Every step of the agent that reaches outside the process and can fail. */
  datatype Command =
    | WgOpen | WgWrite | WgUp | WgDown | WgRemove
    | BirdOpen | BirdWrite | BirdCheck | BirdRemove | BirdConfigure
    | StorePut | StoreDelete | StoreReplace

  /** What the world answers. `Crash` ends the process before the command has any effect, except that
      a write that fails or is cut short by a crash has already put some bytes into the file. */
  datatype Outcome = Ok | Fail(bytes: nat) | Crash(bytes: nat)

  /** The answers, by command and by the number of commands issued before, and the order in which the
      store's cursor walks a set of keys. */
  datatype World = World(outcome: (Command, nat) -> Outcome, cursor: set<string> -> seq<string>)

  ghost predicate Enumerates(keys: seq<string>, s: set<string>) {
    && (forall k :: k in s <==> k in keys)
    && (forall i, j :: 0 <= i < j < |keys| ==> keys[i] != keys[j])
  }

  ghost predicate Lawful(w: World) {
    forall s :: Enumerates(w.cursor(s), s)
  }

  /** A world in which every command succeeds. */
  ghost predicate Smooth(w: World) {
    Lawful(w) && forall c, t :: w.outcome(c, t) == Ok
  }

  /** This command always succeeds. */
  ghost predicate AlwaysOk(w: World, c: Command) {
    forall t :: w.outcome(c, t) == Ok
  }

  datatype WgSettings = WgSettings(
    asn: int, listenPort: int, pubkey: string, endpoint: string, mtu: Option<int>, psk: Option<string>)

  datatype BirdSettings = BirdSettings(asn: int, lla: string, iface: string)

  /** A configuration file: the whole rendering of its settings, or a proper prefix of it. */
  datatype File<T> = Whole(settings: T) | Cut(settings: T, bytes: nat)

  datatype PeerInfo = PeerInfo(asn: int, lla: string, iface: string, proto: string, birdFile: string)

  /** `wg` and `bird` are the configuration directories, keyed by interface and by file name; `up` the
      interfaces that are up; `loaded` the BIRD directory as `birdc configure` last read it; `peers` the
      store. A dead node issues no further command. */
  datatype Node = Node(
    wg: map<string, File<WgSettings>>,
    up: set<string>,
    bird: map<string, File<BirdSettings>>,
    loaded: map<string, File<BirdSettings>>,
    peers: map<string, PeerInfo>,
    clock: nat,
    dead: bool)

  const EMPTY_NODE := Node(map[], {}, map[], map[], map[], 0, false)

  /** At most the entry at `k` was written or removed. */
  ghost predicate Edit<T>(a: map<string, T>, b: map<string, T>, k: string) {
    b == a || b == a - {k} || (k in b && b == a[k := b[k]])
  }

  ghost predicate Flip(a: set<string>, b: set<string>, k: string) {
    b == a || b == a - {k} || b == a + {k}
  }

  lemma EditTwice<T>(a: map<string, T>, b: map<string, T>, c: map<string, T>, k: string)
    requires Edit(a, b, k) && Edit(b, c, k)
    ensures Edit(a, c, k)
  {
    assert c == b - {k} ==> c == a - {k};
    assert k in c && c == b[k := c[k]] ==> c == a[k := c[k]];
  }

  ghost predicate SameAt<T>(a: map<string, T>, b: map<string, T>, k: string) {
    (k in a <==> k in b) && (k in a && k in b ==> a[k] == b[k])
  }

  lemma MapsAgree<T>(a: map<string, T>, b: map<string, T>)
    requires forall k :: SameAt(a, b, k)
    ensures a == b
  {
    assert forall k :: k in a ==> SameAt(a, b, k);
    assert forall k :: k in b ==> SameAt(a, b, k);
  }

  /** One command: what is left of the node, and whether the command succeeded. */
  function Attempt(w: World, c: Command, n: Node): (r: (Node, bool))
    ensures r.0 == n.(clock := r.0.clock, dead := r.0.dead)
    ensures n.clock <= r.0.clock
    ensures n.dead || r.0.dead ==> !r.1
    ensures n.dead ==> r.0 == n
    ensures !n.dead && w.outcome(c, n.clock).Ok? ==> r.1 && r.0 == n.(clock := n.clock + 1)
  {
    if n.dead then (n, false)
    else match w.outcome(c, n.clock)
      case Ok => (n.(clock := n.clock + 1), true)
      case Fail(_) => (n.(clock := n.clock + 1), false)
      case Crash(_) => (n.(dead := true), false)
  }

  /** Bytes that a failed write at this point has left in the file. */
  function Written(w: World, c: Command, n: Node): nat {
    match w.outcome(c, n.clock) case Ok => 0 case Fail(k) => k case Crash(k) => k
  }

  // ---------------------------------------------------------------- WireGuard manager

  datatype WgResult = WgAdded | WgInvalid | WgOpenFailed | WgWriteFailed | WgUpFailed

  predicate ValidSettings(s: WgSettings) {
    s.asn > 0 && s.pubkey != "" && s.endpoint != ""
  }

  /** Only the file and the state of one interface differ. */
  ghost predicate OnlyWg(n: Node, n': Node, iface: string) {
    && n'.bird == n.bird && n'.loaded == n.loaded && n'.peers == n.peers
    && Edit(n.wg, n'.wg, iface) && Flip(n.up, n'.up, iface)
    && (n.dead ==> n' == n)
  }

  /** What adding a WireGuard peer leaves behind, by the stage it reached. */
  ghost predicate WgAdding(n: Node, iface: string, s: WgSettings, n': Node, r: WgResult) {
    && OnlyWg(n, n', iface)
    && n'.up == (if r.WgAdded? then n.up + {iface} else n.up)
    && (r.WgInvalid? <==> !ValidSettings(s))
    && (r.WgInvalid? || r.WgOpenFailed? ==> n'.wg == n.wg)
    && (r.WgWriteFailed? ==> iface in n'.wg && n'.wg[iface].Cut? && n'.wg == n.wg[iface := Cut(s, n'.wg[iface].bytes)])
    && (r.WgUpFailed? || r.WgAdded? ==> n'.wg == n.wg[iface := Whole(s)])
    && (r.WgAdded? ==> !n'.dead)
  }

  /** What removing one leaves behind. */
  ghost predicate WgRemoving(n: Node, iface: string, n': Node, stopped: bool, removed: bool) {
    && OnlyWg(n, n', iface)
    && n'.up == (if stopped then n.up - {iface} else n.up)
    && n'.wg == (if removed then n.wg - {iface} else n.wg)
  }

  /** AddPeerWithIface */
  function AddWg(w: World, n: Node, iface: string, s: WgSettings): (r: (Node, WgResult))
    ensures WgAdding(n, iface, s, r.0, r.1)
  {
    if !ValidSettings(s) then (n, WgInvalid)
    else
      var (n1, created) := Attempt(w, WgOpen, n);
      if !created then (n1, WgOpenFailed)
      else
        var n2 := n1.(wg := n1.wg[iface := Cut(s, 0)]);
        var (n3, written) := Attempt(w, WgWrite, n2);
        if !written then (n3.(wg := n3.wg[iface := Cut(s, Written(w, WgWrite, n2))]), WgWriteFailed)
        else
          var n4 := n3.(wg := n3.wg[iface := Whole(s)]);
          var (n5, started) := Attempt(w, WgUp, n4);
          if !started then (n5, WgUpFailed)
          else (n5.(up := n5.up + {iface}), WgAdded)
  }

  /** RemovePeerByIface: both commands may fail, neither failure is reported. */
  function RemoveWg(w: World, n: Node, iface: string): (r: Node)
    ensures exists stopped, removed :: WgRemoving(n, iface, r, stopped, removed)
    ensures !n.dead && w.outcome(WgDown, n.clock).Ok? ==> r.up == n.up - {iface}
    ensures !n.dead && w.outcome(WgDown, n.clock).Ok? && w.outcome(WgRemove, n.clock + 1).Ok?
            ==> r == n.(up := n.up - {iface}, wg := n.wg - {iface}, clock := n.clock + 2)
  {
    var (n1, stopped) := Attempt(w, WgDown, n);
    var n2 := if stopped then n1.(up := n1.up - {iface}) else n1;
    var (n3, removed) := Attempt(w, WgRemove, n2);
    var r := if removed then n3.(wg := n3.wg - {iface}) else n3;
    assert WgRemoving(n, iface, r, stopped, removed);
    r
  }

  // ---------------------------------------------------------------- BIRD manager

  datatype BirdResult = BirdAdded | BirdOpenFailed | BirdWriteFailed | BirdCheckFailed | BirdReloadFailed

  /** Only one BIRD file, and what BIRD has loaded, differ. */
  ghost predicate OnlyBird(n: Node, n': Node, file: string) {
    && n'.wg == n.wg && n'.up == n.up && n'.peers == n.peers
    && Edit(n.bird, n'.bird, file)
    && (n'.loaded == n.loaded || n'.loaded == n'.bird)
    && (n.dead ==> n' == n)
  }

  /** What adding a BIRD peer leaves behind, by the stage it reached. */
  ghost predicate BirdAdding(n: Node, s: BirdSettings, n': Node, r: BirdResult) {
    var file := BirdFileName(s.asn);
    && OnlyBird(n, n', file)
    && n'.loaded == (if r.BirdAdded? then n'.bird else n.loaded)
    && (r.BirdOpenFailed? ==> n'.bird == n.bird)
    && (r.BirdWriteFailed? ==>
          file in n'.bird && n'.bird[file].Cut? && n'.bird == n.bird[file := Cut(s, n'.bird[file].bytes)])
    && (r.BirdCheckFailed? ==> n'.bird == n.bird - {file} || n'.bird == n.bird[file := Whole(s)])
    && (r.BirdReloadFailed? || r.BirdAdded? ==> n'.bird == n.bird[file := Whole(s)])
    && (r.BirdAdded? ==> !n'.dead)
  }

  /** reloadLocked */
  function Reload(w: World, n: Node): (r: (Node, bool))
    ensures r.0 == n.(loaded := r.0.loaded, clock := r.0.clock, dead := r.0.dead)
    ensures r.0.loaded == if r.1 then n.bird else n.loaded
    ensures n.dead ==> r.0 == n
    ensures r.0.dead ==> !r.1
    ensures !n.dead && w.outcome(BirdConfigure, n.clock).Ok? ==> r.1 && r.0.clock == n.clock + 1
  {
    var (n1, ok) := Attempt(w, BirdConfigure, n);
    if ok then (n1.(loaded := n1.bird), true) else (n1, false)
  }

  /** The first half of AddPeer: create and write the file. */
  function WriteBird(w: World, n: Node, s: BirdSettings): (r: (Node, BirdResult))
    ensures r.0 == n.(bird := r.0.bird, clock := r.0.clock, dead := r.0.dead) && (n.dead ==> r.0 == n)
    ensures r.1.BirdOpenFailed? || r.1.BirdWriteFailed? || r.1.BirdAdded?
    ensures r.1.BirdOpenFailed? ==> r.0.bird == n.bird
    ensures r.1.BirdWriteFailed? ==> exists k :: r.0.bird == n.bird[BirdFileName(s.asn) := Cut(s, k)]
    ensures r.1.BirdAdded? ==> r.0.bird == n.bird[BirdFileName(s.asn) := Whole(s)] && !r.0.dead
  {
    var file := BirdFileName(s.asn);
    var (n1, created) := Attempt(w, BirdOpen, n);
    if !created then (n1, BirdOpenFailed)
    else
      var n2 := n1.(bird := n1.bird[file := Cut(s, 0)]);
      var (n3, written) := Attempt(w, BirdWrite, n2);
      if !written then (n3.(bird := n3.bird[file := Cut(s, Written(w, BirdWrite, n2))]), BirdWriteFailed)
      else (n3.(bird := n3.bird[file := Whole(s)]), BirdAdded)
  }

  /** The second half: check the configuration, remove the file if it is bad, reload. */
  function ActivateBird(w: World, n: Node, file: string): (r: (Node, BirdResult))
    ensures OnlyBird(n, r.0, file)
    ensures r.1.BirdCheckFailed? || r.1.BirdReloadFailed? || r.1.BirdAdded?
    ensures r.0.bird == n.bird || (r.1.BirdCheckFailed? && r.0.bird == n.bird - {file})
    ensures r.1.BirdCheckFailed? && !r.0.dead && (forall t :: w.outcome(BirdRemove, t).Ok?) ==>
              r.0.bird == n.bird - {file}
    ensures r.0.loaded == if r.1.BirdAdded? then r.0.bird else n.loaded
    ensures r.1.BirdAdded? ==> !r.0.dead
  {
    var (n1, checked) := Attempt(w, BirdCheck, n);
    if !checked then
      var (n2, removed) := Attempt(w, BirdRemove, n1);
      (if removed then n2.(bird := n2.bird - {file}) else n2, BirdCheckFailed)
    else
      var (n2, reloaded) := Reload(w, n1);
      (n2, if reloaded then BirdAdded else BirdReloadFailed)
  }

  /** AddPeer */
  function AddBird(w: World, n: Node, s: BirdSettings): (r: (Node, BirdResult))
    ensures BirdAdding(n, s, r.0, r.1)
    ensures r.1.BirdCheckFailed? && !r.0.dead && (forall t :: w.outcome(BirdRemove, t).Ok?) ==>
              r.0.bird == n.bird - {BirdFileName(s.asn)}
  {
    var (n1, written) := WriteBird(w, n, s);
    if !written.BirdAdded? then (n1, written)
    else ActivateBird(w, n1, BirdFileName(s.asn))
  }

  /** RemovePeerByFilename; RemovePeer(asn) is this with the default file name. */
  function RemoveBird(w: World, n: Node, file: string): (r: Node)
    ensures OnlyBird(n, r, file)
    ensures r.bird == n.bird || r.bird == n.bird - {file}
    ensures !n.dead && w.outcome(BirdRemove, n.clock).Ok? && w.outcome(BirdConfigure, n.clock + 1).Ok?
            ==> r == n.(bird := n.bird - {file}, loaded := n.bird - {file}, clock := n.clock + 2)
  {
    var (n1, removed) := Attempt(w, BirdRemove, n);
    var n2 := if removed then n1.(bird := n1.bird - {file}) else n1;
    Reload(w, n2).0
  }

  // ---------------------------------------------------------------- store

  /** PutPeer: a bolt bucket takes no empty key. */
  function PutPeer(w: World, n: Node, id: string, info: PeerInfo): (r: (Node, bool))
    ensures r.0 == n.(peers := r.0.peers, clock := r.0.clock, dead := r.0.dead)
    ensures r.0.peers == if r.1 then n.peers[id := info] else n.peers
    ensures r.1 ==> !r.0.dead && id != ""
    ensures n.dead ==> r.0 == n
  {
    if id == "" then (n, false)
    else
      var (n1, ok) := Attempt(w, StorePut, n);
      if ok then (n1.(peers := n1.peers[id := info]), true) else (n1, false)
  }

  function DeletePeer(w: World, n: Node, id: string): (r: Node)
    ensures r == n.(peers := r.peers, clock := r.clock, dead := r.dead)
    ensures r.peers == n.peers || r.peers == n.peers - {id}
    ensures n.dead ==> r == n
    ensures !n.dead && w.outcome(StoreDelete, n.clock).Ok? ==> r == n.(peers := n.peers - {id}, clock := n.clock + 1)
  {
    var (n1, ok) := Attempt(w, StoreDelete, n);
    if ok then n1.(peers := n1.peers - {id}) else n1
  }

  /** ReplaceAll is one transaction: the whole map or nothing. */
  function ReplaceAll(w: World, n: Node, peers: map<string, PeerInfo>): (r: (Node, bool))
    ensures r.0 == n.(peers := r.0.peers, clock := r.0.clock, dead := r.0.dead)
    ensures r.0.peers == if r.1 then peers else n.peers
    ensures n.dead ==> r.0 == n && !r.1
    ensures !n.dead && w.outcome(StoreReplace, n.clock).Ok? ==> r.1 && r.0.clock == n.clock + 1
    ensures r.0.dead ==> !r.1
  {
    var (n1, ok) := Attempt(w, StoreReplace, n);
    if ok then (n1.(peers := peers), true) else (n1, false)
  }
}

/** peer.add is transactional up to an exact residue, and peer.remove undoes it. */
module PeerAdd {
  import opened Names
  import opened Host
  import opened Reconciler
  import opened Payloads

  /** Every command that a refused add uses to clean up works. */
  ghost predicate CleansUp(w: World) {
    AlwaysOk(w, WgDown) && AlwaysOk(w, WgRemove) && AlwaysOk(w, BirdRemove)
  }

  /** The peer's names are in use by nothing on the node. */
  predicate Fresh(n: Node, p: AddPayload) {
    AddIface(p) !in n.wg && AddIface(p) !in n.up && BirdFileName(p.asn) !in n.bird
  }

  // ---------------------------------------------------------------- the stages of one run

  ghost predicate Cleared(w: World, n: Node, iface: string, n': Node) {
    && OnlyWg(n, n', iface)
    && (n'.up == n.up || n'.up == n.up - {iface})
    && (n'.wg == n.wg || n'.wg == n.wg - {iface})
    && (!n'.dead && AlwaysOk(w, WgDown) ==> n'.up == n.up - {iface})
    && (!n'.dead && CleansUp(w) ==> n'.wg == n.wg - {iface})
  }

  ghost predicate Withdrawn(w: World, n: Node, file: string, n': Node) {
    && OnlyBird(n, n', file)
    && (n'.bird == n.bird || n'.bird == n.bird - {file})
    && (!n'.dead && CleansUp(w) ==> n'.bird == n.bird - {file})
  }

  datatype Trace = Trace(cleared: Node, wired: Node, wg: WgResult, routed: Node, bird: BirdResult, refused: Node,
                         withdrawn: Node)

  /** The nodes that one run of peer.add passes through. */
  ghost predicate Run(w: World, n: Node, p: AddPayload, t: Trace, n': Node, reply: AddReply) {
    var iface, file := AddIface(p), BirdFileName(p.asn);
    if p.id in n.peers && iface in n.up then n' == n && reply.AlreadyActive?
    else
      && (if iface in n.up then Cleared(w, n, iface, t.cleared) else t.cleared == n)
      && WgAdding(t.cleared, iface, AddWgSettings(p), t.wired, t.wg)
      && if !t.wg.WgAdded? then n' == t.wired && reply == WgAddFailed(t.wg)
         else
           && BirdAdding(t.wired, AddBirdSettings(p), t.routed, t.bird)
           && (t.bird.BirdCheckFailed? && !t.routed.dead && CleansUp(w) ==> t.routed.bird == t.wired.bird - {file})
           && if !t.bird.BirdAdded? then Cleared(w, t.routed, iface, n') && reply == BirdAddFailed(t.bird)
              else
                && t.refused == t.routed.(clock := t.refused.clock, dead := t.refused.dead)
                && if reply.Added? then n' == t.refused.(peers := t.refused.peers[p.id := AddRecord(p)])
                   else
                     && reply.StorePutFailed?
                     && Withdrawn(w, t.refused, file, t.withdrawn)
                     && Cleared(w, t.withdrawn, iface, n')
  }

  lemma RemoveWgClears(w: World, n: Node, iface: string)
    ensures Cleared(w, n, iface, RemoveWg(w, n, iface))
  {
  }

  lemma RemoveBirdWithdraws(w: World, n: Node, file: string)
    ensures Withdrawn(w, n, file, RemoveBird(w, n, file))
  {
  }

  lemma AddRuns(w: World, n: Node, p: AddPayload) returns (t: Trace)
    ensures Run(w, n, p, t, Add(w, n, p).0, Add(w, n, p).1)
  {
    var iface := AddIface(p);
    var n0 := if iface in n.up then RemoveWg(w, n, iface) else n;
    RemoveWgClears(w, n, iface);
    var (n1, wg) := AddWg(w, n0, iface, AddWgSettings(p));
    var (n2, bird) := AddBird(w, n1, AddBirdSettings(p));
    RemoveWgClears(w, n2, iface);
    var n3 := PutPeer(w, n2, p.id, AddRecord(p)).0;
    var n4 := RemoveBird(w, n3, BirdFileName(p.asn));
    RemoveBirdWithdraws(w, n3, BirdFileName(p.asn));
    RemoveWgClears(w, n4, iface);
    t := Trace(n0, n1, wg, n2, bird, n3.(peers := n2.peers), n4);
  }

  // ---------------------------------------------------------------- what every run keeps

  /** What peer.add may do to a node: one interface and its file, one BIRD file, one store key; the store
      changes only on success, and success means that every layer holds the peer. */
  ghost predicate Confined(n: Node, p: AddPayload, n': Node, reply: AddReply) {
    var iface, file := AddIface(p), BirdFileName(p.asn);
    && Edit(n.wg, n'.wg, iface) && Flip(n.up, n'.up, iface) && Edit(n.bird, n'.bird, file)
    && n'.peers == (if reply.Added? then n.peers[p.id := AddRecord(p)] else n.peers)
    && (reply.Added? ==> n'.wg == n.wg[iface := Whole(AddWgSettings(p))] && n'.up == n.up + {iface})
    && (reply.Added? ==> n'.bird == n.bird[file := Whole(AddBirdSettings(p))] && n'.loaded == n'.bird)
    && (reply.AlreadyActive? <==> p.id in n.peers && iface in n.up) && (reply.AlreadyActive? ==> n' == n)
  }

  lemma RunIsConfined(w: World, n: Node, p: AddPayload, t: Trace, n': Node, reply: AddReply)
    requires Run(w, n, p, t, n', reply)
    ensures Confined(n, p, n', reply)
  {
    if !(p.id in n.peers && AddIface(p) in n.up) {
      var iface, file := AddIface(p), BirdFileName(p.asn);
      EditTwice(n.wg, t.cleared.wg, t.wired.wg, iface);
      if t.wg.WgAdded? {
        EditTwice(n.wg, t.wired.wg, n'.wg, iface);
        if t.bird.BirdAdded? {
          EditTwice(n.bird, t.routed.bird, n'.bird, file);
        }
      }
    }
  }

  /** Whatever fails and wherever the process dies, peer.add stays confined, and what a success leaves in every layer is
      the payload's, field by field. */
  lemma AddIsConfined(w: World, n: Node, p: AddPayload)
    ensures Confined(n, p, Add(w, n, p).0, Add(w, n, p).1)
    ensures Add(w, n, p).1.Added? ==> HoldsAdded(Add(w, n, p).0, p)
  {
    var t := AddRuns(w, n, p);
    RunIsConfined(w, n, p, t, Add(w, n, p).0, Add(w, n, p).1);
  }

  lemma RunEndsDown(w: World, n: Node, p: AddPayload, t: Trace, n': Node, reply: AddReply)
    requires Run(w, n, p, t, n', reply) && AlwaysOk(w, WgDown) && !n'.dead
    requires !reply.Added? && !reply.AlreadyActive?
    ensures AddIface(p) !in n'.up
  {
  }

  /** As long as `wg-quick down` works, an interface whose add was refused ends down, even one that was up before. */
  lemma RefusedAddEndsDown(w: World, n: Node, p: AddPayload)
    requires AlwaysOk(w, WgDown) && !Add(w, n, p).0.dead
    requires !Add(w, n, p).1.Added? && !Add(w, n, p).1.AlreadyActive?
    ensures AddIface(p) !in Add(w, n, p).0.up
  {
    var t := AddRuns(w, n, p);
    RunEndsDown(w, n, p, t, Add(w, n, p).0, Add(w, n, p).1);
  }

  // ---------------------------------------------------------------- what a refused add leaves behind

  predicate LeavesNothing(reply: AddReply) {
    || (reply.WgAddFailed? && (reply.wg.WgInvalid? || reply.wg.WgOpenFailed?))
    || (reply.BirdAddFailed? && (reply.bird.BirdOpenFailed? || reply.bird.BirdCheckFailed?))
    || reply.StorePutFailed?
  }

  ghost predicate Residue(n: Node, p: AddPayload, n': Node, reply: AddReply) {
    var iface, file := AddIface(p), BirdFileName(p.asn);
    && n'.up == n.up && n'.peers == n.peers
    && (LeavesNothing(reply) <==> n'.wg == n.wg && n'.bird == n.bird)
    && (reply == WgAddFailed(WgWriteFailed) ==>
          n'.bird == n.bird && exists k :: n'.wg == n.wg[iface := Cut(AddWgSettings(p), k)])
    && (reply == WgAddFailed(WgUpFailed) ==> n'.bird == n.bird && n'.wg == n.wg[iface := Whole(AddWgSettings(p))])
    && (reply == BirdAddFailed(BirdWriteFailed) ==>
          n'.wg == n.wg && exists k :: n'.bird == n.bird[file := Cut(AddBirdSettings(p), k)])
    && (reply == BirdAddFailed(BirdReloadFailed) ==>
          n'.wg == n.wg && n'.bird == n.bird[file := Whole(AddBirdSettings(p))])
  }

  lemma RunResidue(w: World, n: Node, p: AddPayload, t: Trace, n': Node, reply: AddReply)
    requires Run(w, n, p, t, n', reply) && Fresh(n, p) && CleansUp(w) && !n'.dead && !reply.Added?
    ensures Residue(n, p, n', reply)
  {
    var iface, file := AddIface(p), BirdFileName(p.asn);
    assert n.wg[iface := Whole(AddWgSettings(p))] - {iface} == n.wg;
    assert n.up + {iface} - {iface} == n.up;
    assert n.bird[file := Whole(AddBirdSettings(p))] - {file} == n.bird;
    assert n.bird - {file} == n.bird;
  }

  // The same, read off the world's answers to the commands in the order they are issued.

  predicate Succeeds(w: World, c: Command, t: nat) {
    w.outcome(c, t).Ok?
  }

  /** Starting at this time, the WireGuard half leaves a file: the file is opened, and writing it or starting the
      interface fails. */
  predicate WgLeaks(w: World, t: nat) {
    Succeeds(w, WgOpen, t) && !(Succeeds(w, WgWrite, t + 1) && Succeeds(w, WgUp, t + 2))
  }

  /** The BIRD half leaves a file: the file is opened, and writing it fails, or the configuration is good and loading it
      fails. */
  predicate BirdLeaks(w: World, t: nat) {
    Succeeds(w, BirdOpen, t) &&
    (!Succeeds(w, BirdWrite, t + 1) || (Succeeds(w, BirdCheck, t + 2) && !Succeeds(w, BirdConfigure, t + 3)))
  }

  /** The add leaves a file: it is valid, and one of its halves does. */
  predicate Leaks(w: World, n: Node, p: AddPayload) {
    && ValidSettings(AddWgSettings(p))
    && (WgLeaks(w, n.clock) || (Succeeds(w, WgOpen, n.clock) && BirdLeaks(w, n.clock + 3)))
  }

  lemma WgStage(w: World, n: Node, iface: string, s: WgSettings)
    requires !n.dead && ValidSettings(s)
    ensures var (m, r) := AddWg(w, n, iface, s);
            && (r.WgAdded? <==> Succeeds(w, WgOpen, n.clock) && !WgLeaks(w, n.clock))
            && (r.WgAdded? ==> m.clock == n.clock + 3 && !m.dead)
            && (r.WgOpenFailed? <==> !Succeeds(w, WgOpen, n.clock))
  {
  }

  lemma WriteStage(w: World, n: Node, s: BirdSettings)
    requires !n.dead
    ensures var (m, r) := WriteBird(w, n, s);
            && (r.BirdOpenFailed? <==> !Succeeds(w, BirdOpen, n.clock))
            && (r.BirdWriteFailed? <==> Succeeds(w, BirdOpen, n.clock) && !Succeeds(w, BirdWrite, n.clock + 1))
            && (r.BirdAdded? ==> m.clock == n.clock + 2 && !m.dead)
  {
  }

  lemma ActivateStage(w: World, n: Node, file: string)
    requires !n.dead
    ensures var r := ActivateBird(w, n, file).1;
            r.BirdReloadFailed? <==> Succeeds(w, BirdCheck, n.clock) && !Succeeds(w, BirdConfigure, n.clock + 1)
  {
  }

  lemma BirdStage(w: World, n: Node, s: BirdSettings)
    requires !n.dead
    ensures var r := AddBird(w, n, s).1; BirdLeaks(w, n.clock) <==> r.BirdWriteFailed? || r.BirdReloadFailed?
  {
    WriteStage(w, n, s);
    var (m, r) := WriteBird(w, n, s);
    if r.BirdAdded? {
      ActivateStage(w, m, BirdFileName(s.asn));
    }
  }

  lemma LeaksByReply(w: World, n: Node, p: AddPayload)
    requires !n.dead && AddIface(p) !in n.up && !Add(w, n, p).1.Added?
    ensures LeavesNothing(Add(w, n, p).1) <==> !Leaks(w, n, p)
  {
    if AddWg(w, n, AddIface(p), AddWgSettings(p)).1.WgAdded? {
      LeaksAtBird(w, n, p);
    } else {
      LeaksAtWg(w, n, p);
    }
  }

  lemma LeaksAtWg(w: World, n: Node, p: AddPayload)
    requires !n.dead && AddIface(p) !in n.up && !AddWg(w, n, AddIface(p), AddWgSettings(p)).1.WgAdded?
    ensures LeavesNothing(Add(w, n, p).1) <==> !Leaks(w, n, p)
  {
    if ValidSettings(AddWgSettings(p)) {
      WgStage(w, n, AddIface(p), AddWgSettings(p));
    }
  }

  lemma LeaksAtBird(w: World, n: Node, p: AddPayload)
    requires !n.dead && AddIface(p) !in n.up && AddWg(w, n, AddIface(p), AddWgSettings(p)).1.WgAdded?
    requires !Add(w, n, p).1.Added?
    ensures LeavesNothing(Add(w, n, p).1) <==> !Leaks(w, n, p)
  {
    var bird := ReplyAtBird(w, n, p);
    LeaksIffBird(w, n, p, bird);
  }

  lemma ReplyAtBird(w: World, n: Node, p: AddPayload) returns (bird: BirdResult)
    requires AddIface(p) !in n.up && AddWg(w, n, AddIface(p), AddWgSettings(p)).1.WgAdded?
    ensures bird == AddBird(w, AddWg(w, n, AddIface(p), AddWgSettings(p)).0, AddBirdSettings(p)).1
    ensures if bird.BirdAdded? then Add(w, n, p).1.Added? || Add(w, n, p).1.StorePutFailed?
            else Add(w, n, p).1 == BirdAddFailed(bird)
  {
    bird := AddBird(w, AddWg(w, n, AddIface(p), AddWgSettings(p)).0, AddBirdSettings(p)).1;
  }

  lemma LeaksIffBird(w: World, n: Node, p: AddPayload, bird: BirdResult)
    requires !n.dead && AddWg(w, n, AddIface(p), AddWgSettings(p)).1.WgAdded?
    requires bird == AddBird(w, AddWg(w, n, AddIface(p), AddWgSettings(p)).0, AddBirdSettings(p)).1
    ensures Leaks(w, n, p) <==> bird.BirdWriteFailed? || bird.BirdReloadFailed?
  {
    WgStage(w, n, AddIface(p), AddWgSettings(p));
    BirdStage(w, AddWg(w, n, AddIface(p), AddWgSettings(p)).0, AddBirdSettings(p));
  }

  /** The documented claim that no partial peering stays behind does not hold. With working cleanup commands, a refused
      add of fresh names leaves the node's files as they were if and only if the world's answers do not leak; each of
      the four stages at which they do leaves exactly one file. */
  lemma RefusedAddResidue(w: World, n: Node, p: AddPayload)
    requires Fresh(n, p) && CleansUp(w) && !Add(w, n, p).0.dead && !Add(w, n, p).1.Added?
    ensures var m := Add(w, n, p).0; m.wg == n.wg && m.bird == n.bird <==> !Leaks(w, n, p)
    ensures Residue(n, p, Add(w, n, p).0, Add(w, n, p).1)
  {
    var t := AddRuns(w, n, p);
    RunResidue(w, n, p, t, Add(w, n, p).0, Add(w, n, p).1);
    StillAlive(w, n, p);
    LeaksByReply(w, n, p);
  }

  lemma StillAlive(w: World, n: Node, p: AddPayload)
    requires !Add(w, n, p).0.dead
    ensures !n.dead
  {
  }

  /** A world in which only one command fails. */
  function Failing(c: Command, cursor: set<string> -> seq<string>): World {
    World((d: Command, t: nat) => if d == c then Fail(0) else Ok, cursor)
  }

  /** The claim's counterexample: where `wg-quick up` fails and nothing else does, every valid add of fresh names is
      refused and leaves its WireGuard file on the node. */
  lemma UpFailureLeavesFile(cursor: set<string> -> seq<string>, n: Node, p: AddPayload)
    requires Fresh(n, p) && !n.dead && ValidSettings(AddWgSettings(p))
    ensures var (m, reply) := Add(Failing(WgUp, cursor), n, p);
            reply == WgAddFailed(WgUpFailed) && m.wg == n.wg[AddIface(p) := Whole(AddWgSettings(p))] && m.wg != n.wg
  {
    UpFails(cursor, n, AddIface(p), AddWgSettings(p));
    assert AddIface(p) in n.wg[AddIface(p) := Whole(AddWgSettings(p))];
  }

  lemma UpFails(cursor: set<string> -> seq<string>, n: Node, iface: string, s: WgSettings)
    requires !n.dead && ValidSettings(s)
    ensures AddWg(Failing(WgUp, cursor), n, iface, s).1.WgUpFailed?
  {
  }

  /** Where `wg-quick down` fails and nothing else does, removing an interface leaves it up without its file. */
  lemma DownFailureLeavesUp(cursor: set<string> -> seq<string>, n: Node, iface: string)
    requires !n.dead && iface in n.up
    ensures var m := RemoveWg(Failing(WgDown, cursor), n, iface); iface in m.up && iface !in m.wg
  {
  }

  // ---------------------------------------------------------------- remove undoes add

  lemma RemoveUndoes(w: World, n: Node, p: AddPayload, n1: Node, asn: int)
    requires Fresh(n, p) && p.id !in n.peers && p.asn != 0 && !n1.dead
    requires Confined(n, p, n1, Added)
    requires forall c, t :: w.outcome(c, t) == Ok
    ensures var (n', reply) := Remove(w, n1, p.id, asn);
            reply.Removed? && n'.wg == n.wg && n'.up == n.up && n'.bird == n.bird && n'.peers == n.peers &&
            n'.loaded == n'.bird
  {
    assert |AddIface(p)| > 0 && |BirdFileName(p.asn)| > 0;
    assert n1.wg - {AddIface(p)} == n.wg;
    assert n1.up - {AddIface(p)} == n.up;
    assert n1.bird - {BirdFileName(p.asn)} == n.bird;
    assert n1.peers - {p.id} == n.peers;
  }

  lemma SmoothAdd(w: World, n: Node, p: AddPayload)
    requires Smooth(w) && !n.dead && ValidSettings(AddWgSettings(p)) && p.id != "" && AddIface(p) !in n.up
    ensures Add(w, n, p).1.Added?
  {
  }

  lemma AddedPayload(w: World, n: Node, p: AddPayload)
    requires Add(w, n, p).1.Added?
    ensures p.asn > 0 && p.id != "" && !Add(w, n, p).0.dead
  {
  }

  /** A successful add of fresh names, in any world, followed by a remove that meets no failure restores the
      node, whatever AS number the remove carries. */
  lemma AddThenRemove(w: World, w': World, n: Node, p: AddPayload, asn: int)
    requires Fresh(n, p) && p.id !in n.peers
    requires Add(w, n, p).1.Added?
    requires forall c, t :: w'.outcome(c, t) == Ok
    ensures var (n', reply) := Remove(w', Add(w, n, p).0, p.id, asn);
            reply.Removed? && n'.wg == n.wg && n'.up == n.up && n'.bird == n.bird && n'.peers == n.peers &&
            n'.loaded == n'.bird
  {
    AddIsConfined(w, n, p);
    AddedPayload(w, n, p);
    RemoveUndoes(w', n, p, Add(w, n, p).0, asn);
  }
}

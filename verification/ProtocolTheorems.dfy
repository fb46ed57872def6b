/** What the client protocol promises of every run, from its start, under every interleaving. */
module ProtocolTheorems {
  import opened Options
  import opened WsClient
  import opened Protocol
  import I = ProtocolInvariant

  // ---------------------------------------------------------------- frames

  /** Every frame queued on a connection is sealed, with that connection's own key, if and only if it was fixed after
      encryption was enabled on it. */
  lemma QueuedFramesAreOwn(hasKey: bool, run: seq<Step>, i: Item)
    requires Legal(Initial(hasKey), run)
    requires i in After(Initial(hasKey), run).log.queued
    ensures var l := After(Initial(hasKey), run).log;
            i.frame.seal == if i.ch in l.enabled && l.enabled[i.ch] < i.frame.at then Some(i.ch) else None
  {
    I.InvInitially(hasKey);
    I.EveryRun(Initial(hasKey), run);
    var s := After(Initial(hasKey), run);
    assert I.Own(s.hasKey, s.gen, s.log, i);
  }

  lemma {:induction false} KeyPairStays(s: State, run: seq<Step>)
    requires Legal(s, run)
    ensures After(s, run).hasKey == s.hasKey
    decreases |run|
  {
    if run != [] {
      KeyPairStays(Next(s, run[0]), run[1..]);
    }
  }

  /** A queued peers.sync request is sealed if and only if the agent has a key pair. */
  lemma SyncSealedIffKeyed(hasKey: bool, run: seq<Step>, i: Item)
    requires Legal(Initial(hasKey), run)
    requires i in After(Initial(hasKey), run).log.queued && i.frame.kind.SyncRequest?
    ensures i.frame.seal == (if hasKey then Some(i.ch) else None)
  {
    I.InvInitially(hasKey);
    I.EveryRun(Initial(hasKey), run);
    KeyPairStays(Initial(hasKey), run);
    var s := After(Initial(hasKey), run);
    assert I.Own(s.hasKey, s.gen, s.log, i);
  }

  // ---------------------------------------------------------------- encryption

  lemma EnabledOnce(s: State, st: Step, g: nat)
    requires I.Crypto(s) && Can(s, st) && g in s.log.enabled
    ensures g in Next(s, st).log.enabled && Next(s, st).log.enabled[g] == s.log.enabled[g]
  {
    if st.ByRun? {
      I.RunGrows(s, st.run);
    }
  }

  lemma {:induction false} EnabledStays(s: State, run: seq<Step>, g: nat)
    requires I.Inv(s) && Legal(s, run) && g in s.log.enabled
    ensures g in After(s, run).log.enabled && After(s, run).log.enabled[g] == s.log.enabled[g]
    decreases |run|
  {
    if run != [] {
      EnabledOnce(s, run[0], g);
      I.StepKeeps(s, run[0]);
      EnabledStays(Next(s, run[0]), run[1..], g);
    }
  }

  lemma OnWhileLive(s: State, g: nat)
    requires I.Inv(s) && g in s.log.enabled && s.c.conn == Some(g)
    ensures s.c.encrypted && s.c.aead == Some(g)
  {
  }

  lemma StaysOn(s: State, more: seq<Step>, g: nat)
    requires I.Inv(s) && Legal(s, more) && g in s.log.enabled && After(s, more).c.conn == Some(g)
    ensures After(s, more).c.encrypted && After(s, more).c.aead == Some(g)
  {
    I.EveryRun(s, more);
    EnabledStays(s, more, g);
    OnWhileLive(After(s, more), g);
  }

  /** Once enabled on a connection, encryption is on with that connection's key whenever that connection is the
      client's, however the run goes on. */
  lemma EncryptionStaysOn(hasKey: bool, run: seq<Step>, more: seq<Step>, g: nat)
    requires Legal(Initial(hasKey), run) && Legal(After(Initial(hasKey), run), more)
    requires g in After(Initial(hasKey), run).log.enabled
    requires After(After(Initial(hasKey), run), more).c.conn == Some(g)
    ensures var c := After(After(Initial(hasKey), run), more).c; c.encrypted && c.aead == Some(g)
  {
    I.InvInitially(hasKey);
    I.EveryRun(Initial(hasKey), run);
    StaysOn(After(Initial(hasKey), run), more, g);
  }

  /** In every run the guarded fields stay coherent: whenever Send fixes a frame, it fixes it for the channel of the
      connection at hand, and seals it, if at all, with that connection's key. */
  lemma AlwaysCoherent(hasKey: bool, run: seq<Step>)
    requires Legal(Initial(hasKey), run)
    ensures Coherent(After(Initial(hasKey), run).c)
  {
    I.InvInitially(hasKey);
    I.EveryRun(Initial(hasKey), run);
    CoherentNow(After(Initial(hasKey), run));
  }

  lemma CoherentNow(s: State)
    requires I.Inv(s)
    ensures Coherent(s.c)
  {
  }

  // ---------------------------------------------------------------- handshakes

  /** A read loop about to hand an acknowledgement to the handshake never blocks. */
  lemma DeliveryNeverBlocks(hasKey: bool, run: seq<Step>, r: nat)
    requires Legal(Initial(hasKey), run)
    requires var s := After(Initial(hasKey), run); r in s.readers && s.readers[r].Delivering?
    ensures CanRead(After(Initial(hasKey), run), r, Deliver)
  {
    I.InvInitially(hasKey);
    I.EveryRun(Initial(hasKey), run);
    var s := After(Initial(hasKey), run);
    var a := s.readers[r].ack;
    assert I.InHand(s, r, a);
    assert I.Asked(s, a);
    var held := s.keys.chans[s.gen];
    if held != [] {
      assert I.InChannel(s, s.gen, held[0]);
    }
  }

  /** The acknowledgement a handshake acts on answers the request it queued on its own connection. */
  lemma HandshakeTakesItsOwn(hasKey: bool, run: seq<Step>)
    requires Legal(Initial(hasKey), run) && CanRun(After(Initial(hasKey), run), TakeAck)
    ensures var s := After(Initial(hasKey), run);
            var a := Next(s, ByRun(TakeAck)).main.ack;
            a.ch == s.gen && I.Asked(s, a) && forall i :: I.Asked(s, i) && i.ch == s.gen ==> i == a
  {
    I.InvInitially(hasKey);
    I.EveryRun(Initial(hasKey), run);
    var s := After(Initial(hasKey), run);
    var a := s.keys.chans[s.gen][0];
    assert I.InChannel(s, s.gen, a);
    assert I.Asked(s, a);
  }

  // ---------------------------------------------------------------- done channels

  /** No done channel is closed twice, and connect never has one to close. */
  lemma ClosedAtMostOnce(hasKey: bool, run: seq<Step>)
    requires Legal(Initial(hasKey), run)
    ensures var s := After(Initial(hasKey), run);
            && (forall d :: d in s.shut ==> s.shut[d] == 1)
            && (CanRun(s, Connect) ==> s.c.conn == None && s.c.connDone == None)
  {
    I.InvInitially(hasKey);
    I.EveryRun(Initial(hasKey), run);
  }

  // ---------------------------------------------------------------- what is not promised

  ghost predicate Reaches(s: State, t: State) {
    exists run :: Legal(s, run) && After(s, run) == t
  }

  lemma {:induction false} RunThenStep(s: State, run: seq<Step>, st: Step)
    requires Legal(s, run) && Can(After(s, run), st)
    ensures Legal(s, run + [st]) && After(s, run + [st]) == Next(After(s, run), st)
    decreases |run|
  {
    if run == [] {
      assert [st][1..] == [];
      assert run + [st] == [st];
    } else {
      RunThenStep(Next(s, run[0]), run[1..], st);
      assert (run + [st])[1..] == run[1..] + [st];
    }
  }

  lemma Reached(s: State, t: State, st: Step) returns (u: State)
    requires Reaches(s, t) && Can(t, st)
    ensures u == Next(t, st) && Reaches(s, u)
  {
    var run :| Legal(s, run) && After(s, run) == t;
    RunThenStep(s, run, st);
    u := Next(t, st);
  }

  const KEY_REQUEST := Item(1, Frame(KeyRequest, None, 5))
  const HEARTBEAT := Item(1, Frame(Other, None, 7))
  const SYNC_REQUEST := Item(1, Frame(SyncRequest, Some(1), 15))

  /** The first connection's state, by what changes in it. */
  function First(main: Main, readers: map<nat, Reader>, keys: Keys, log: Log): State {
    State(true, false, if 1 in log.enabled then Enable(Adopt(UNCONNECTED, 1), 1) else Adopt(UNCONNECTED, 1), 1, main,
          readers, map[], keys, log)
  }

  lemma Connecting() returns (s: State)
    ensures Reaches(Initial(true), s) && s == First(Spawning, map[], Keys(None, map[], {}, {}), Log(map[], {}, [], 3))
  {
    var o := Initial(true);
    assert Legal(o, []) && After(o, []) == o;
    s := Reached(o, o, ByRun(Go));
    s := Reached(o, s, ByRun(ResetCrypto));
    s := Reached(o, s, ByRun(Connect));
  }

  lemma Asking() returns (s: State)
    ensures Reaches(Initial(true), s)
    ensures s ==
              First(QueueingKey(KEY_REQUEST), map[1 := Starting], Keys(Some(1), map[1 := []], {}, {}),
                    Log(map[], {}, [], 6))
  {
    s := Connecting();
    s := Reached(Initial(true), s, ByRun(Spawn));
    s := Reached(Initial(true), s, ByRun(StartKeys));
    s := Reached(Initial(true), s, ByRun(FixKey));
  }

  lemma Answering() returns (s: State)
    ensures Reaches(Initial(true), s)
    ensures s == First(Awaiting, map[1 := Starting], Keys(Some(1), map[1 := []], {KEY_REQUEST}, {KEY_REQUEST}),
                       Log(map[], {HEARTBEAT}, [KEY_REQUEST], 9))
  {
    s := Asking();
    s := Reached(Initial(true), s, ByRun(QueueKey(true)));
    s := Reached(Initial(true), s, ByOther(FixOther));
    s := Reached(Initial(true), s, ByOther(Answer(KEY_REQUEST)));
  }

  lemma Receiving() returns (s: State)
    ensures Reaches(Initial(true), s)
    ensures s ==
              First(Awaiting, map[1 := Delivering(1, Some(1), KEY_REQUEST, 1)],
                    Keys(Some(1), map[1 := []], {KEY_REQUEST}, {}),
                       Log(map[], {HEARTBEAT}, [KEY_REQUEST], 12))
  {
    s := Answering();
    s := Reached(Initial(true), s, ByReader(1, Start));
    s := Reached(Initial(true), s, ByReader(1, ReadAck(KEY_REQUEST)));
    s := Reached(Initial(true), s, ByReader(1, Lookup));
  }

  lemma Enabling() returns (s: State)
    ensures Reaches(Initial(true), s)
    ensures s == First(FixingSync, map[1 := Reading(1, Some(1))], Keys(Some(1), map[1 := []], {KEY_REQUEST}, {}),
                       Log(map[1 := 14], {HEARTBEAT}, [KEY_REQUEST], 15))
  {
    s := Receiving();
    s := Reached(Initial(true), s, ByReader(1, Deliver));
    s := Reached(Initial(true), s, ByRun(TakeAck));
    s := Reached(Initial(true), s, ByRun(Accept));
  }

  /** Send fixes a frame and queues it later, so a frame in the clear can be queued behind a sealed one on the same
      connection: what is promised is when a frame was fixed, not when it was queued. */
  lemma ClearBehindSealed() returns (s: State)
    ensures Reaches(Initial(true), s) && s.log.queued == [KEY_REQUEST, SYNC_REQUEST, HEARTBEAT]
  {
    s := Enabling();
    s := Reached(Initial(true), s, ByRun(FixSync));
    s := Reached(Initial(true), s, ByRun(QueueSync(true)));
    s := Reached(Initial(true), s, ByOther(QueueOther(HEARTBEAT, true)));
  }
}

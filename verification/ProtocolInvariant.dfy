/** What every step of the client protocol keeps, and what follows for whole runs. */
module ProtocolInvariant {
  import opened Options
  import opened WsClient
  import opened Protocol

  // ---------------------------------------------------------------- threads and channels

  predicate Idle(m: Main) {
    m.Top? || m.Resetting? || m.Dialling? || m.Stopped?
  }

  /** The latest connection is the client's. */
  predicate Live(c: Guarded, g: nat) {
    c.conn == Some(g) && c.connDone == Some(g) && c.sendCh == Some(g)
  }

  predicate Gone(c: Guarded) {
    c.conn == None && c.connDone == None
  }

  /** The current read loop, by where it is. */
  predicate ReaderFits(c: Guarded, g: nat, shut: map<nat, nat>, x: Reader) {
    match x
    case Exited => Gone(c)
    case Starting => Live(c, g) && g !in shut
    case Reading(on, mine) => Live(c, g) && g !in shut && on == g && mine == Some(g)
    case Acked(on, mine, _) => Live(c, g) && g !in shut && on == g && mine == Some(g)
    case Delivering(on, mine, _, _) => Live(c, g) && g !in shut && on == g && mine == Some(g)
    case Broken(mine) => Live(c, g) && g !in shut && mine == Some(g)
    case Closing(d) => Live(c, g) && g !in shut && d == g
    case Clearing(mine) => Live(c, g) && mine == Some(g)
  }

  ghost predicate Threads(s: State) {
    && (forall r :: r in s.readers ==> 1 <= r <= s.gen && (r < s.gen ==> s.readers[r].Exited?))
    && (forall d :: d in s.shut ==> 1 <= d <= s.gen && s.shut[d] == 1)
    && (Idle(s.main) ==> Gone(s.c) && (s.gen in s.readers ==> s.readers[s.gen].Exited?))
    && (s.main.Spawning? ==> Live(s.c, s.gen) && s.gen >= 1 && s.gen !in s.readers && s.gen !in s.shut)
    && (!Idle(s.main) && !s.main.Spawning? ==> s.gen in s.readers && ReaderFits(s.c, s.gen, s.shut, s.readers[s.gen]))
  }

  lemma ThreadsRun(s: State, st: RunStep)
    requires Threads(s) && CanRun(s, st)
    ensures Threads(DoRun(s, st))
  {
    if st.Connect? {
      ThreadsConnect(s);
    } else if st.Spawn? {
      ThreadsSpawn(s);
    } else {
      OnlyMainMoves(s, st);
      ThreadsFrame(s, DoRun(s, st));
    }
  }

  lemma ThreadsConnect(s: State)
    requires Threads(s) && CanRun(s, Connect)
    ensures Threads(DoRun(s, Connect))
  {
  }

  lemma ThreadsSpawn(s: State)
    requires Threads(s) && CanRun(s, Spawn)
    ensures Threads(DoRun(s, Spawn))
  {
  }

  predicate Connected(m: Main) {
    !Idle(m) && !m.Spawning?
  }

  /** Connection, channels and read loops are as they were, and Run stays between connections or within one, unless its
      read loop has ended. */
  predicate MainMoves(s: State, t: State) {
    && t.gen == s.gen && t.readers == s.readers && t.shut == s.shut
    && t.c.conn == s.c.conn && t.c.connDone == s.c.connDone && t.c.sendCh == s.c.sendCh
    && ((Idle(s.main) && Idle(t.main)) || (Connected(s.main) && Connected(t.main)) ||
        (Connected(s.main) && Idle(t.main) && s.gen in s.readers && s.readers[s.gen].Exited?))
  }

  lemma OnlyMainMoves(s: State, st: RunStep)
    requires CanRun(s, st) && !st.Connect? && !st.Spawn?
    ensures MainMoves(s, DoRun(s, st))
  {
  }

  lemma ThreadsFrame(s: State, t: State)
    requires Threads(s) && MainMoves(s, t)
    ensures Threads(t)
  {
  }

  lemma ThreadsRead(s: State, r: nat, st: ReadStep)
    requires Threads(s) && CanRead(s, r, st)
    ensures Threads(DoRead(s, r, st))
  {
  }

  lemma ThreadsOther(s: State, st: OtherStep)
    requires Threads(s) && CanOther(s, st)
    ensures Threads(DoOther(s, st))
  {
  }

  // ---------------------------------------------------------------- encryption

  predicate Early(m: Main) {
    m.Spawning? || m.Beginning? || m.FixingKey? || m.QueueingKey? || m.Awaiting? || m.Holding? || m.Failing?
  }

  predicate Late(m: Main) {
    m.FixingSync? || m.QueueingSync? || m.Waiting?
  }

  predicate Keyed(m: Main) {
    m.FixingKey? || m.QueueingKey? || m.Awaiting? || m.Holding?
  }

  ghost predicate Crypto(s: State) {
    && (forall g :: g in s.log.enabled ==> 1 <= g <= s.gen && s.log.enabled[g] < s.log.clock)
    && (!s.hasKey ==> s.log.enabled == map[])
    && (s.c.encrypted ==> s.c.aead == Some(s.gen) && s.gen in s.log.enabled)
    && (s.main.Dialling? ==> !s.c.encrypted)
    && (Early(s.main) ==> s.gen !in s.log.enabled)
    && (Late(s.main) && s.gen in s.log.enabled ==> s.c.encrypted)
    && ((s.main.FixingSync? || s.main.QueueingSync?) && s.hasKey ==> s.gen in s.log.enabled)
    && (Keyed(s.main) ==> s.hasKey)
    && (s.main.Holding? ==> s.main.ack.ch == s.gen)
  }

  lemma CryptoRun(s: State, st: RunStep)
    requires Threads(s) && Crypto(s) && CanRun(s, st) && (st.TakeAck? ==> s.keys.chans[s.gen][0].ch == s.gen)
    ensures Crypto(Tick(DoRun(s, st)))
  {
    if st.Accept? {
      CryptoAccept(s);
    } else {
      CryptoElse(s, st);
    }
  }

  lemma CryptoAccept(s: State)
    requires Threads(s) && Crypto(s) && CanRun(s, Accept)
    ensures Crypto(Tick(DoRun(s, Accept)))
  {
  }

  lemma CryptoElse(s: State, st: RunStep)
    requires Crypto(s) && CanRun(s, st) && !st.Accept? && (st.TakeAck? ==> s.keys.chans[s.gen][0].ch == s.gen)
    ensures Crypto(Tick(DoRun(s, st)))
  {
    assert DoRun(s, st).log.enabled == s.log.enabled && DoRun(s, st).log.clock == s.log.clock;
  }

  lemma CryptoRead(s: State, r: nat, st: ReadStep)
    requires Crypto(s) && CanRead(s, r, st)
    ensures Crypto(Tick(DoRead(s, r, st)))
  {
  }

  lemma CryptoOther(s: State, st: OtherStep)
    requires Crypto(s) && CanOther(s, st)
    ensures Crypto(Tick(DoOther(s, st)))
  {
  }

  // ---------------------------------------------------------------- frames

  /** A frame for a connection was fixed after its encryption was enabled and is sealed with its key, or was fixed
      before and is in the clear; a sync request is sealed exactly if the agent has a key pair. */
  predicate Own(hasKey: bool, gen: nat, l: Log, i: Item) {
    && 1 <= i.ch <= gen && i.frame.at < l.clock
    && (i.frame.seal.Some? ==> i.frame.seal.value == i.ch && i.ch in l.enabled && l.enabled[i.ch] < i.frame.at)
    && (i.frame.seal.None? && i.ch in l.enabled ==> i.frame.at < l.enabled[i.ch])
    && (i.frame.kind.SyncRequest? ==> (i.frame.seal.Some? <==> hasKey))
  }

  ghost predicate Frames(s: State) {
    && (forall i :: i in s.log.queued ==> Own(s.hasKey, s.gen, s.log, i))
    && (forall i :: i in s.log.inflight ==> Own(s.hasKey, s.gen, s.log, i) && i.frame.kind.Other?)
    && (s.main.QueueingKey? ==>
          Own(s.hasKey, s.gen, s.log, s.main.item) && s.main.item.frame.kind.KeyRequest? && s.main.item.ch == s.gen)
    && (s.main.QueueingSync? ==> Own(s.hasKey, s.gen, s.log, s.main.item) && s.main.item.frame.kind.SyncRequest?)
  }

  /** How the log of one state may grow into that of the next. */
  predicate Grows(s: State, t: State) {
    && t.hasKey == s.hasKey && s.gen <= t.gen && s.log.clock < t.log.clock
    && (t.log.enabled == s.log.enabled ||
        (s.gen !in s.log.enabled && t.log.enabled == s.log.enabled[s.gen := s.log.clock]))
  }

  /** Once a frame is a connection's own it stays so. */
  lemma StaysOwn(s: State, t: State, i: Item)
    requires Grows(s, t) && Own(s.hasKey, s.gen, s.log, i)
    ensures Own(t.hasKey, t.gen, t.log, i)
  {
  }

  lemma RunGrows(s: State, st: RunStep)
    requires Crypto(s) && CanRun(s, st)
    ensures Grows(s, Tick(DoRun(s, st)))
  {
  }

  /** Send fixes frames for the connection whose key it seals them with. */
  lemma FixedIsOwn(s: State, kind: Kind)
    requires Threads(s) && Crypto(s) && Fix(s.c, kind, s.log.clock).Some?
    requires kind.SyncRequest? ==> s.main.FixingSync?
    ensures var i := Fix(s.c, kind, s.log.clock).value;
            i.ch == s.gen && i.frame.kind == kind && Own(s.hasKey, s.gen, s.log.(clock := s.log.clock + 1), i)
  {
  }

  lemma FramesRun(s: State, st: RunStep)
    requires Threads(s) && Crypto(s) && Frames(s) && CanRun(s, st)
    ensures Frames(Tick(DoRun(s, st)))
  {
    var t := Tick(DoRun(s, st));
    RunGrows(s, st);
    forall i | Own(s.hasKey, s.gen, s.log, i) ensures Own(t.hasKey, t.gen, t.log, i) {
      StaysOwn(s, t, i);
    }
    if st.FixKey? && Fix(s.c, KeyRequest, s.log.clock).Some? {
      FixedIsOwn(s, KeyRequest);
    } else if st.FixSync? && Fix(s.c, SyncRequest, s.log.clock).Some? {
      FixedIsOwn(s, SyncRequest);
    }
  }

  lemma FramesRead(s: State, r: nat, st: ReadStep)
    requires Frames(s) && CanRead(s, r, st)
    ensures Frames(Tick(DoRead(s, r, st)))
  {
  }

  lemma FramesOther(s: State, st: OtherStep)
    requires Threads(s) && Crypto(s) && Frames(s) && CanOther(s, st)
    ensures Frames(Tick(DoOther(s, st)))
  {
    if st.FixOther? && Fix(s.c, Other, s.log.clock).Some? {
      FixedIsOwn(s, Other);
    }
  }

  // ---------------------------------------------------------------- handshakes

  predicate Asked(s: State, i: Item) {
    i in s.log.queued && i.frame.kind.KeyRequest?
  }

  /** The read loop has this acknowledgement in hand. */
  predicate InHand(s: State, r: nat, a: Item) {
    r in s.readers && (s.readers[r].Acked? || s.readers[r].Delivering?) && s.readers[r].ack == a
  }

  predicate InChannel(s: State, h: nat, a: Item) {
    h in s.keys.chans && a in s.keys.chans[h]
  }

  predicate BeforeKey(m: Main) {
    m.Spawning? || m.Beginning? || m.FixingKey? || m.QueueingKey?
  }

  /** The current handshake's channel is the one acknowledgements go to. */
  predicate Published(s: State) {
    s.keys.pending == Some(s.gen) && s.gen in s.keys.chans
  }

  /** A connection asks for keys at most once, after publishing its channel. */
  ghost predicate Requests(s: State) {
    && (forall i :: Asked(s, i) ==>
          i.ch <= s.gen && (BeforeKey(s.main) ==> i.ch < s.gen) && (i.ch == s.gen ==> Published(s)))
    && (forall i, j :: Asked(s, i) && Asked(s, j) && i.ch == j.ch ==> i == j)
    && (s.main.FixingKey? || s.main.QueueingKey? || s.main.Awaiting? ==> Published(s))
  }

  /** An acknowledgement answers a request and is in one place: on the wire, in its read loop's hand, or in its
      connection's channel. */
  ghost predicate Acks(s: State) {
    && (forall i :: i in s.keys.answered ==> Asked(s, i))
    && s.keys.wire <= s.keys.answered
    && (forall h :: h in s.keys.chans ==> |s.keys.chans[h]| <= 1)
    && (forall h, a :: InChannel(s, h, a) ==> a.ch == h && a in s.keys.answered && a !in s.keys.wire)
    && (forall r, a :: InHand(s, r, a) ==>
          a.ch == r == s.gen && a in s.keys.answered && a !in s.keys.wire && !InChannel(s, r, a))
    && (forall r :: r in s.readers && s.readers[r].Delivering? ==> s.readers[r].ch == s.gen)
  }

  lemma RequestsRun(s: State, st: RunStep)
    requires Threads(s) && Frames(s) && Requests(s) && CanRun(s, st)
    ensures Requests(Tick(DoRun(s, st)))
  {
    if st.QueueKey? {
      RequestsQueue(s, st.ok);
    } else {
      RequestsElse(s, st);
    }
  }

  lemma RequestsQueue(s: State, ok: bool)
    requires Frames(s) && Requests(s) && CanRun(s, QueueKey(ok))
    ensures Requests(Tick(DoRun(s, QueueKey(ok))))
  {
    var t := Tick(DoRun(s, QueueKey(ok)));
    forall i | Asked(t, i) ensures Asked(s, i) || i == s.main.item {
    }
  }

  lemma RequestsElse(s: State, st: RunStep)
    requires Frames(s) && Requests(s) && CanRun(s, st) && !st.QueueKey?
    ensures Requests(Tick(DoRun(s, st)))
  {
    var t := Tick(DoRun(s, st));
    forall i | Asked(t, i) ensures Asked(s, i) {
    }
  }

  lemma RequestsRead(s: State, r: nat, st: ReadStep)
    requires Requests(s) && CanRead(s, r, st)
    ensures Requests(Tick(DoRead(s, r, st)))
  {
  }

  lemma RequestsOther(s: State, st: OtherStep)
    requires Frames(s) && Requests(s) && CanOther(s, st)
    ensures Requests(Tick(DoOther(s, st)))
  {
  }

  lemma AcksRun(s: State, st: RunStep)
    requires Threads(s) && Requests(s) && Acks(s) && CanRun(s, st)
    ensures Acks(Tick(DoRun(s, st)))
  {
    if st.StartKeys? || st.TakeAck? {
      AcksDrain(s, st);
    } else {
      AcksElse(s, st);
    }
  }

  lemma AcksDrain(s: State, st: RunStep)
    requires Acks(s) && CanRun(s, st) && (st.StartKeys? || st.TakeAck?)
    ensures Acks(Tick(DoRun(s, st)))
  {
    var t := Tick(DoRun(s, st));
    forall h, a | InChannel(t, h, a) ensures InChannel(s, h, a) {
    }
    forall r, a | InHand(t, r, a) ensures InHand(s, r, a) {
    }
    forall i | Asked(s, i) ensures Asked(t, i) {
    }
  }

  lemma AcksElse(s: State, st: RunStep)
    requires Threads(s) && Acks(s) && CanRun(s, st) && !st.StartKeys? && !st.TakeAck?
    ensures Acks(Tick(DoRun(s, st)))
  {
    var t := Tick(DoRun(s, st));
    assert t.keys == s.keys;
    forall h, a | InChannel(t, h, a) ensures InChannel(s, h, a) {
    }
    forall r, a | InHand(t, r, a) ensures InHand(s, r, a) && t.gen == s.gen {
    }
    forall i | Asked(s, i) ensures Asked(t, i) {
    }
  }

  lemma AcksRead(s: State, r: nat, st: ReadStep)
    requires Threads(s) && Requests(s) && Acks(s) && CanRead(s, r, st)
    ensures Acks(Tick(DoRead(s, r, st)))
  {
    var t := Tick(DoRead(s, r, st));
    assert st.Lookup? || st.Deliver? ==> InHand(s, r, s.readers[r].ack);
    forall h, a | InChannel(t, h, a)
      ensures InChannel(s, h, a) || (st.Deliver? && h == s.gen && a == s.readers[r].ack)
    {
    }
    forall q, a | InHand(t, q, a) ensures InHand(s, q, a) || (st.ReadAck? && q == r && a == st.ack) {
    }
    forall i | Asked(s, i) ensures Asked(t, i) {
    }
  }

  lemma AcksOther(s: State, st: OtherStep)
    requires Requests(s) && Acks(s) && CanOther(s, st)
    ensures Acks(Tick(DoOther(s, st)))
  {
    var t := Tick(DoOther(s, st));
    forall h, a | InChannel(t, h, a) ensures InChannel(s, h, a) {
    }
    forall r, a | InHand(t, r, a) ensures InHand(s, r, a) {
    }
    forall i | Asked(s, i) ensures Asked(t, i) {
    }
  }

  // ---------------------------------------------------------------- every run

  ghost predicate Inv(s: State) {
    Threads(s) && Crypto(s) && Frames(s) && Requests(s) && Acks(s)
  }

  lemma InvInitially(hasKey: bool)
    ensures Inv(Initial(hasKey))
  {
  }

  lemma TickThreads(s: State)
    ensures Threads(s) <==> Threads(Tick(s))
  {
  }

  lemma RunKeeps(s: State, st: RunStep)
    requires Inv(s) && CanRun(s, st)
    ensures Inv(Next(s, ByRun(st)))
  {
    if st.TakeAck? {
      assert InChannel(s, s.gen, s.keys.chans[s.gen][0]);
    }
    ThreadsRun(s, st);
    TickThreads(DoRun(s, st));
    CryptoRun(s, st);
    FramesRun(s, st);
    RequestsRun(s, st);
    AcksRun(s, st);
  }

  lemma ReadKeeps(s: State, r: nat, st: ReadStep)
    requires Inv(s) && CanRead(s, r, st)
    ensures Inv(Next(s, ByReader(r, st)))
  {
    ThreadsRead(s, r, st);
    TickThreads(DoRead(s, r, st));
    CryptoRead(s, r, st);
    FramesRead(s, r, st);
    RequestsRead(s, r, st);
    AcksRead(s, r, st);
  }

  lemma OtherKeeps(s: State, st: OtherStep)
    requires Inv(s) && CanOther(s, st)
    ensures Inv(Next(s, ByOther(st)))
  {
    ThreadsOther(s, st);
    TickThreads(DoOther(s, st));
    CryptoOther(s, st);
    FramesOther(s, st);
    RequestsOther(s, st);
    AcksOther(s, st);
  }

  lemma StepKeeps(s: State, st: Step)
    requires Inv(s) && Can(s, st)
    ensures Inv(Next(s, st))
  {
    match st
    case ByRun(x) => RunKeeps(s, x);
    case ByReader(r, x) => ReadKeeps(s, r, x);
    case ByOther(x) => OtherKeeps(s, x);
  }

  lemma {:induction false} EveryRun(s: State, run: seq<Step>)
    requires Inv(s) && Legal(s, run)
    ensures Inv(After(s, run))
    decreases |run|
  {
    if run != [] {
      StepKeeps(s, run[0]);
      EveryRun(Next(s, run[0]), run[1..]);
    }
  }
}

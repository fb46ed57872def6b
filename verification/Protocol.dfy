/** The goroutines of the client and the key exchange, as interleaved steps: one per critical section or channel
    operation. Run drives one connection after another; each has a reader; any number of goroutines send. */
module Protocol {
  import opened Options
  import opened WsClient

  // ---------------------------------------------------------------- states

  /** Where Run is, key exchange handler and onConnect included. */
  datatype Main =
    | Top | Resetting | Dialling | Stopped
    | Spawning | Beginning
    | FixingKey | QueueingKey(item: Item) | Awaiting | Holding(ack: Item) | Failing
    | FixingSync | QueueingSync(item: Item) | Waiting

  /** Where a read loop is; `mine` is the done channel it took at its start, `on` its connection. */
  datatype Reader =
    | Starting
    | Reading(on: nat, mine: Option<nat>)
    | Acked(on: nat, mine: Option<nat>, ack: Item)
    | Delivering(on: nat, mine: Option<nat>, ack: Item, ch: nat)
    | Broken(mine: Option<nat>)
    | Closing(target: nat)
    | Clearing(mine: Option<nat>)
    | Exited

  /** The key exchange: pendingKeyX, what each handshake's channel of capacity one holds, the key requests the center
      has acknowledged, and the acknowledgements sent and not read yet. */
  datatype Keys = Keys(pending: Option<nat>, chans: map<nat, seq<Item>>, answered: set<Item>, wire: set<Item>)

  /** When encryption was enabled on a connection, what Send has fixed and not queued yet, all that was ever queued,
      and the time. */
  datatype Log = Log(enabled: map<nat, nat>, inflight: set<Item>, queued: seq<Item>, clock: nat)

  /** Connections are numbered from one and `gen` is the latest; `shut` counts how often each done channel was
      closed. */
  datatype State = State(
    hasKey: bool, done: bool, c: Guarded, gen: nat, main: Main, readers: map<nat, Reader>, shut: map<nat, nat>,
    keys: Keys, log: Log)

  function Initial(hasKey: bool): State {
    State(hasKey, false, UNCONNECTED, 0, Top, map[], map[], Keys(None, map[], {}, {}), Log(map[], {}, [], 0))
  }

  // ---------------------------------------------------------------- Run

  datatype RunStep =
    | Stop | Go | ResetCrypto | DialFails | Connect | Spawn | SkipKeys | StartKeys | KeyAborts | FixKey
    | QueueKey(ok: bool) | TakeAck | Timeout | Reject | Accept | FailClose | FixSync | QueueSync(ok: bool) | ReadDone

  predicate CanRun(s: State, st: RunStep) {
    match st
    case Stop => s.main.Top? && s.done
    case Go => s.main.Top? && !s.done
    case ResetCrypto => s.main.Resetting?
    case DialFails => s.main.Dialling?
    case Connect => s.main.Dialling?
    case Spawn => s.main.Spawning?
    case SkipKeys => s.main.Beginning? && !s.hasKey
    case StartKeys => s.main.Beginning? && s.hasKey
    case KeyAborts => s.main.FixingKey?
    case FixKey => s.main.FixingKey?
    case QueueKey(_) => s.main.QueueingKey?
    case TakeAck => s.main.Awaiting? && s.gen in s.keys.chans && s.keys.chans[s.gen] != []
    case Timeout => s.main.Awaiting?
    case Reject => s.main.Holding?
    case Accept => s.main.Holding?
    case FailClose => s.main.Failing?
    case FixSync => s.main.FixingSync?
    case QueueSync(_) => s.main.QueueingSync?
    case ReadDone => s.main.Waiting? && s.gen in s.readers && s.readers[s.gen].Exited?
  }

  function Shuts(s: State, d: nat): map<nat, nat> {
    s.shut[d := if d in s.shut then s.shut[d] + 1 else 1]
  }

  predicate IsShut(s: State, d: nat) {
    d in s.shut && s.shut[d] > 0
  }

  function Queue(l: Log, i: Item, ok: bool): Log {
    if ok then l.(queued := l.queued + [i]) else l
  }

  function DoRun(s: State, st: RunStep): State
    requires CanRun(s, st)
  {
    match st
    case Stop => s.(main := Stopped)
    case Go => s.(main := Resetting)
    case ResetCrypto => s.(main := Dialling, c := Reset(s.c))
    case DialFails => s.(main := Top)
    case Connect =>
      s.(main := Spawning, gen := s.gen + 1, c := Adopt(s.c, s.gen + 1),
         shut := if s.c.connDone.Some? then Shuts(s, s.c.connDone.value) else s.shut)
    case Spawn => s.(main := Beginning, readers := s.readers[s.gen := Starting])
    case SkipKeys => s.(main := FixingSync)
    case StartKeys => s.(main := FixingKey, keys := s.keys.(pending := Some(s.gen), chans := s.keys.chans[s.gen := []]))
    case KeyAborts => s.(main := Failing)
    case FixKey =>
      var r := Fix(s.c, KeyRequest, s.log.clock);
      s.(main := if r.None? then Failing else QueueingKey(r.value))
    case QueueKey(ok) => s.(main := if ok then Awaiting else Failing, log := Queue(s.log, s.main.item, ok))
    case TakeAck =>
      var held := s.keys.chans[s.gen];
      s.(main := Holding(held[0]), keys := s.keys.(chans := s.keys.chans[s.gen := held[1..]]))
    case Timeout => s.(main := Failing)
    case Reject => s.(main := Failing)
    case Accept =>
      s.(main := FixingSync, c := Enable(s.c, s.main.ack.ch),
         log := s.log.(enabled := s.log.enabled[s.gen := s.log.clock]))
    case FailClose => s.(main := Waiting)
    case FixSync =>
      var r := Fix(s.c, SyncRequest, s.log.clock);
      s.(main := if r.None? then Waiting else QueueingSync(r.value))
    case QueueSync(ok) => s.(main := Waiting, log := Queue(s.log, s.main.item, ok))
    case ReadDone => s.(main := Top)
  }

  // ---------------------------------------------------------------- a read loop

  datatype ReadStep = Start | ReadAck(ack: Item) | Lookup | Deliver | ReadFails | CheckDone | CloseDone | Clear

  predicate CanRead(s: State, r: nat, st: ReadStep) {
    r in s.readers &&
    match st
    case Start => s.readers[r].Starting?
    case ReadAck(a) => s.readers[r].Reading? && a in s.keys.wire && a.ch == s.readers[r].on
    case Lookup => s.readers[r].Acked?
    case Deliver => s.readers[r].Delivering? && HasRoom(s.keys, s.readers[r].ch)
    case ReadFails => s.readers[r].Reading?
    case CheckDone => s.readers[r].Broken?
    case CloseDone => s.readers[r].Closing?
    case Clear => s.readers[r].Clearing?
  }

  /** A send to this handshake's channel would not block. */
  predicate HasRoom(k: Keys, ch: nat) {
    ch in k.chans && k.chans[ch] == []
  }

  /** What a read loop takes with it from its first critical section. */
  function Snapshot(c: Guarded): Reader {
    if c.conn.None? then Exited else Reading(c.conn.value, c.connDone)
  }

  function MoveReader(s: State, r: nat, st: ReadStep): Reader
    requires CanRead(s, r, st)
  {
    var x := s.readers[r];
    match st
    case Start => Snapshot(s.c)
    case ReadAck(a) => if s.c.encrypted then x else Acked(x.on, x.mine, a)
    case Lookup =>
      if s.keys.pending.None? then Reading(x.on, x.mine)
      else Delivering(x.on, x.mine, x.ack, s.keys.pending.value)
    case Deliver => Reading(x.on, x.mine)
    case ReadFails => Broken(x.mine)
    case CheckDone => if x.mine.Some? && !IsShut(s, x.mine.value) then Closing(x.mine.value) else Clearing(x.mine)
    case CloseDone => Clearing(Some(x.target))
    case Clear => Exited
  }

  function DoRead(s: State, r: nat, st: ReadStep): State
    requires CanRead(s, r, st)
  {
    var x := s.readers[r];
    var t := s.(readers := s.readers[r := MoveReader(s, r, st)]);
    match st
    case ReadAck(a) => t.(keys := s.keys.(wire := s.keys.wire - {a}))
    case Deliver => t.(keys := s.keys.(chans := s.keys.chans[x.ch := s.keys.chans[x.ch] + [x.ack]]))
    case CloseDone => t.(shut := Shuts(s, x.target))
    case Clear => t.(c := Forget(s.c, x.mine))
    case _ => t
  }

  // ---------------------------------------------------------------- the others

  /** A send by any goroutine, in its two halves; Close; the center, which acknowledges a key request at most once and
      only after it was queued. */
  datatype OtherStep = FixOther | QueueOther(item: Item, ok: bool) | Close | Answer(item: Item)

  predicate CanOther(s: State, st: OtherStep) {
    match st
    case FixOther => true
    case QueueOther(i, _) => i in s.log.inflight
    case Close => true
    case Answer(i) => i in s.log.queued && i.frame.kind.KeyRequest? && i !in s.keys.answered
  }

  function DoOther(s: State, st: OtherStep): State
    requires CanOther(s, st)
  {
    match st
    case FixOther =>
      var r := Fix(s.c, Other, s.log.clock);
      if r.None? then s else s.(log := s.log.(inflight := s.log.inflight + {r.value}))
    case QueueOther(i, ok) => s.(log := Queue(s.log.(inflight := s.log.inflight - {i}), i, ok))
    case Close => s.(done := true)
    case Answer(i) => s.(keys := s.keys.(answered := s.keys.answered + {i}, wire := s.keys.wire + {i}))
  }

  // ---------------------------------------------------------------- runs

  datatype Step = ByRun(run: RunStep) | ByReader(r: nat, read: ReadStep) | ByOther(other: OtherStep)

  predicate Can(s: State, st: Step) {
    match st
    case ByRun(x) => CanRun(s, x)
    case ByReader(r, x) => CanRead(s, r, x)
    case ByOther(x) => CanOther(s, x)
  }

  function Tick(s: State): State {
    s.(log := s.log.(clock := s.log.clock + 1))
  }

  function Next(s: State, st: Step): State
    requires Can(s, st)
  {
    match st
    case ByRun(x) => Tick(DoRun(s, x))
    case ByReader(r, x) => Tick(DoRead(s, r, x))
    case ByOther(x) => Tick(DoOther(s, x))
  }

  predicate Legal(s: State, run: seq<Step>)
    decreases |run|
  {
    run == [] || (Can(s, run[0]) && Legal(Next(s, run[0]), run[1..]))
  }

  function After(s: State, run: seq<Step>): State
    requires Legal(s, run)
    decreases |run|
  {
    if run == [] then s else After(Next(s, run[0]), run[1..])
  }
}

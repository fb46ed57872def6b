/** internal/ws/client.go: the fields guarded by the client's mutex, and what each critical section does to them.
    A connection, its done channel, its send channel and its session key are all named by the number of the
    connection they were made for. */
module WsClient {
  import opened Options

  datatype Kind = KeyRequest | SyncRequest | Other

  /** A frame as its ciphertext was fixed: in the clear, or sealed with the key of a connection, at a time. */
  datatype Frame = Frame(kind: Kind, seal: Option<nat>, at: nat)

  /** A frame bound for the send channel of a connection. */
  datatype Item = Item(ch: nat, frame: Frame)

  datatype Guarded = Guarded(conn: Option<nat>, connDone: Option<nat>, sendCh: Option<nat>, encrypted: bool,
                             aead: Option<nat>)

  const UNCONNECTED := Guarded(None, None, None, false, None)

  function Reset(l: Guarded): Guarded {
    l.(encrypted := false, aead := None)
  }

  function Enable(l: Guarded, key: nat): Guarded {
    l.(encrypted := true, aead := Some(key))
  }

  function Adopt(l: Guarded, g: nat): Guarded {
    l.(conn := Some(g), connDone := Some(g), sendCh := Some(g))
  }

  function Forget(l: Guarded, done: Option<nat>): Guarded {
    l.(conn := None, connDone := if l.connDone == done then None else l.connDone)
  }

  function Fix(l: Guarded, kind: Kind, now: nat): Option<Item> {
    if l.conn.None? || l.sendCh.None? then None
    else Some(Item(l.sendCh.value, Frame(kind, if l.encrypted then l.aead else None, now)))
  }

  /** A connection has its own send and done channel, and encryption, when on, uses its own key. */
  predicate Coherent(l: Guarded) {
    && (l.conn.Some? ==> l.sendCh == l.conn && l.connDone == l.conn)
    && (l.encrypted ==> l.aead.Some? && (l.conn.Some? ==> l.aead == l.conn))
  }

  /** The client; its channels and connections are numbers here. */
  class Client {
    var conn: Option<nat>
    var connDone: Option<nat>
    var sendCh: Option<nat>
    var encrypted: bool
    var aead: Option<nat>
    var done: bool

    constructor ()
      ensures Guards() == UNCONNECTED && !done
    {
      conn, connDone, sendCh, encrypted, aead, done := None, None, None, false, None, false;
    }

    function Guards(): Guarded
      reads this
    {
      Guarded(conn, connDone, sendCh, encrypted, aead)
    }

    method EnableEncryption(key: nat)
      modifies this
      ensures Guards() == Enable(old(Guards()), key) && done == old(done)
      ensures old(Coherent(Guards())) && (conn.Some? ==> conn.value == key) ==> Coherent(Guards())
    {
      aead := Some(key);
      encrypted := true;
    }

    /** The reset at the top of every turn of Run. */
    method ResetEncryption()
      modifies this
      ensures Guards() == Reset(old(Guards())) && done == old(done) && !encrypted && aead.None?
      ensures old(Coherent(Guards())) ==> Coherent(Guards())
    {
      encrypted := false;
      aead := None;
    }

    /** The critical section of connect; `closing` is the channel it closes. */
    method Connect(g: nat) returns (closing: Option<nat>)
      modifies this
      ensures Guards() == Adopt(old(Guards()), g) && done == old(done) && closing == old(connDone)
      ensures !old(encrypted) ==> Coherent(Guards())
    {
      closing := connDone;
      connDone := Some(g);
      sendCh := Some(g);
      conn := Some(g);
    }

    /** The critical section with which readLoop ends. */
    method ReadFailed(mine: Option<nat>)
      modifies this
      ensures Guards() == Forget(old(Guards()), mine) && done == old(done) && conn.None?
      ensures old(connDone) != mine ==> connDone == old(connDone)
      ensures old(Coherent(Guards())) ==> Coherent(Guards())
    {
      if connDone == mine {
        connDone := None;
      }
      conn := None;
    }

    /** The critical section of Send: the frame and its channel are fixed, and queued only later. */
    method FixFrame(kind: Kind, now: nat) returns (r: Option<Item>)
      ensures r == Fix(Guards(), kind, now)
      ensures Coherent(Guards()) ==> (r.Some? <==> conn.Some?)
      ensures Coherent(Guards()) && r.Some? ==>
                r.value.ch == conn.value && r.value.frame.seal == if encrypted then conn else None
    {
      if conn.None? {
        return None;
      }
      var seal: Option<nat> := None;
      if encrypted && aead.Some? {
        seal := aead;
      }
      if sendCh.None? {
        return None;
      }
      r := Some(Item(sendCh.value, Frame(kind, seal, now)));
    }

    method Close() returns (closing: Option<nat>)
      modifies this
      ensures done && Guards() == old(Guards()) && closing == conn
    {
      done := true;
      closing := conn;
    }

    /** One turn of Run that nothing else disturbs: reset, connect, exchange keys if the agent has a pair, ask for the
        peers, and read until the connection fails. */
    method Turn(g: nat, hasKey: bool, now: nat) returns (closing: Option<nat>, sync: Option<Item>)
      requires conn.None? && connDone.None?
      modifies this
      ensures conn.None? && connDone.None? && done == old(done)
      ensures closing.None?
      ensures sync == Some(Item(g, Frame(SyncRequest, if hasKey then Some(g) else None, now)))
    {
      ResetEncryption();
      closing := Connect(g);
      if hasKey {
        EnableEncryption(g);
      }
      sync := FixFrame(SyncRequest, now);
      ReadFailed(Some(g));
    }
  }
}

/** internal/crypto/crypto.go over abstract primitives: hexadecimal keys, key derivation, the proof, and framing. */
module Crypto {
  import opened Options

  newtype byte = x: int | 0 <= x < 256

  type Bytes = seq<byte>

  const KEY_SIZE := 32
  const NONCE_SIZE := 24
  const OVERHEAD := 16

  // ---------------------------------------------------------------- hexadecimal

  function HexDigit(n: int): (c: char)
    requires 0 <= n < 16
    ensures Nibble(c) == Some(n) && !('A' <= c <= 'F')
  {
    "0123456789abcdef"[n]
  }

  function Nibble(c: char): (r: Option<int>)
    ensures r.Some? ==> 0 <= r.value < 16
  {
    if '0' <= c <= '9' then Some(c as int - '0' as int)
    else if 'a' <= c <= 'f' then Some(c as int - 'a' as int + 10)
    else if 'A' <= c <= 'F' then Some(c as int - 'A' as int + 10)
    else None
  }

  function ToHex(b: Bytes): string {
    if b == [] then "" else [HexDigit(b[0] as int / 16), HexDigit(b[0] as int % 16)] + ToHex(b[1..])
  }

  function FromHex(s: string): Option<Bytes> {
    if s == "" then Some([])
    else if |s| == 1 || Nibble(s[0]).None? || Nibble(s[1]).None? then None
    else
      var rest := FromHex(s[2..]);
      if rest.None? then None else Some([(Nibble(s[0]).value * 16 + Nibble(s[1]).value) as byte] + rest.value)
  }

  lemma {:induction false} HexRoundTrip(b: Bytes)
    ensures FromHex(ToHex(b)) == Some(b)
  {
    if b != [] {
      HexRoundTrip(b[1..]);
      var t := ToHex(b);
      assert t[2..] == ToHex(b[1..]);
      assert t[0] == HexDigit(b[0] as int / 16) && t[1] == HexDigit(b[0] as int % 16);
      assert [b[0]] + b[1..] == b;
    }
  }

  lemma {:induction false} HexLength(s: string)
    ensures FromHex(s).Some? ==> |s| == 2 * |FromHex(s).value|
  {
    if |s| >= 2 {
      HexLength(s[2..]);
    }
  }

  // ---------------------------------------------------------------- primitives

  /** X25519, HMAC-SHA256 and XChaCha20-Poly1305; `ecdh` fails where the library refuses the result. */
  datatype Suite = Suite(
    pub: Bytes -> Bytes,
    ecdh: (Bytes, Bytes) -> Option<Bytes>,
    hmac: (Bytes, Bytes) -> Bytes,
    seal: (Bytes, Bytes, Bytes) -> Bytes,
    open: (Bytes, Bytes, Bytes) -> Option<Bytes>)

  /** Both ends reach one secret (section 6.1 of RFC 7748); opening inverts sealing and accepts nothing else. */
  ghost predicate Lawful(s: Suite) {
    && (forall a :: |s.pub(a)| == KEY_SIZE)
    && (forall a, b :: s.ecdh(a, s.pub(b)) == s.ecdh(b, s.pub(a)))
    && (forall k, m :: |s.hmac(k, m)| == KEY_SIZE)
    && (forall k, n, p :: |s.seal(k, n, p)| == |p| + OVERHEAD)
    && (forall k, n, p :: s.open(k, n, s.seal(k, n, p)) == Some(p))
    && (forall k, n, c :: s.open(k, n, c).Some? ==> s.seal(k, n, s.open(k, n, c).value) == c)
  }

  function PublicKeyFromHex(s: string): (r: Option<Bytes>)
    ensures r.Some? ==> |r.value| == KEY_SIZE && |s| == 2 * KEY_SIZE
  {
    HexLength(s);
    var b := FromHex(s);
    if b.Some? && |b.value| == KEY_SIZE then b else None
  }

  lemma PublicKeyRoundTrip(s: Suite, priv: Bytes)
    requires Lawful(s)
    ensures PublicKeyFromHex(ToHex(s.pub(priv))) == Some(s.pub(priv))
  {
    HexRoundTrip(s.pub(priv));
  }

  function Ascii(t: string): (b: Bytes)
    ensures |b| == |t| && forall i :: 0 <= i < |t| && t[i] as int < 256 ==> b[i] as int == t[i] as int
  {
    seq(|t|, i requires 0 <= i < |t| => if t[i] as int < 256 then (t[i] as int) as byte else 0)
  }

  /** HKDF with SHA-256 for one block of output: extract under the nonce, then expand. */
  function DeriveEncKey(s: Suite, shared: Bytes, nonce: Bytes): Bytes {
    var salt := if nonce == [] then seq(KEY_SIZE, i => 0 as byte) else nonce;
    s.hmac(s.hmac(salt, shared), Ascii("autopeer-encryption-key") + [1])
  }

  function ComputeAuthProof(s: Suite, shared: Bytes, nonce: Bytes): Bytes {
    s.hmac(shared, Ascii("autopeer-key-auth") + nonce)
  }

  // ---------------------------------------------------------------- key derivation

  /** HKDF-Extract (section 2.2 of RFC 5869): a missing salt is as many zeros as a hash has bytes. */
  function Extract(s: Suite, salt: Bytes, ikm: Bytes): Bytes {
    s.hmac(if |salt| > 0 then salt else seq(KEY_SIZE, i => 0 as byte), ikm)
  }

  /** The blocks of HKDF-Expand (section 2.3 of RFC 5869): each is made of the one before, the info and its number. */
  function Block(s: Suite, prk: Bytes, info: Bytes, i: nat): Bytes
    requires i <= 255
  {
    if i == 0 then [] else s.hmac(prk, Block(s, prk, info, i - 1) + info + [i as byte])
  }

  function Blocks(s: Suite, prk: Bytes, info: Bytes, n: nat): Bytes
    requires n <= 255
  {
    if n == 0 then [] else Blocks(s, prk, info, n - 1) + Block(s, prk, info, n)
  }

  lemma {:induction false} BlocksLength(s: Suite, prk: Bytes, info: Bytes, n: nat)
    requires Lawful(s) && n <= 255
    ensures |Blocks(s, prk, info, n)| == n * KEY_SIZE
  {
    if n > 0 {
      BlocksLength(s, prk, info, n - 1);
    }
  }

  /** HKDF: the first `length` bytes of as many blocks as it takes. */
  ghost function Hkdf(s: Suite, salt: Bytes, ikm: Bytes, info: Bytes, length: nat): Bytes
    requires Lawful(s) && length <= 255 * KEY_SIZE
  {
    var n := (length + KEY_SIZE - 1) / KEY_SIZE;
    BlocksLength(s, Extract(s, salt, ikm), info, n);
    Blocks(s, Extract(s, salt, ikm), info, n)[..length]
  }

  const KEY_INFO := "autopeer-encryption-key"
  const PROOF_LABEL := "autopeer-key-auth"

  /** The session key is the 32 bytes HKDF gives for the shared secret, salted with the nonce. */
  lemma DerivesByHkdf(s: Suite, shared: Bytes, nonce: Bytes)
    requires Lawful(s)
    ensures DeriveEncKey(s, shared, nonce) == Hkdf(s, nonce, shared, Ascii(KEY_INFO), KEY_SIZE)
  {
    var prk, info := Extract(s, nonce, shared), Ascii(KEY_INFO);
    assert [] + info + [1] == info + [1];
    assert Block(s, prk, info, 0) == [] && Block(s, prk, info, 1) == s.hmac(prk, info + [1]);
    assert Blocks(s, prk, info, 0) == [] && Blocks(s, prk, info, 1) == [] + Block(s, prk, info, 1);
    assert (KEY_SIZE + KEY_SIZE - 1) / KEY_SIZE == 1;
  }

  /** No two of these keys give one tag for the message. */
  predicate Apart(s: Suite, a: Bytes, b: Bytes, m: Bytes) {
    s.hmac(a, m) != s.hmac(b, m)
  }

  /** Every nonce has its own key, unless the hash collides. */
  lemma NoncesMatter(s: Suite, shared: Bytes, a: Bytes, b: Bytes)
    requires a != [] && b != [] && Apart(s, a, b, shared)
    requires Apart(s, s.hmac(a, shared), s.hmac(b, shared), Ascii(KEY_INFO) + [1])
    ensures DeriveEncKey(s, shared, a) != DeriveEncKey(s, shared, b)
  {
  }

  // ---------------------------------------------------------------- framing

  /** A sealed frame: the nonce, then the ciphertext and its tag. */
  function Framed(s: Suite, key: Bytes, nonce: Bytes, plain: Bytes): Bytes {
    nonce + s.seal(key, nonce, plain)
  }

  function Decrypt(s: Suite, key: Bytes, data: Bytes): (r: Option<Bytes>)
    ensures |data| < NONCE_SIZE + OVERHEAD ==> r == None
  {
    if |data| < NONCE_SIZE + OVERHEAD then None else s.open(key, data[..NONCE_SIZE], data[NONCE_SIZE..])
  }

  /** The AEAD's Seal appending to the empty slice of `out` at `at`: in place where the array has room for all of it,
      otherwise into an array of its own. */
  method SealAppend(s: Suite, key: Bytes, nonce: Bytes, plain: Bytes, out: array<byte>, at: nat) returns (grown: bool)
    requires at <= out.Length
    modifies out
    ensures grown <==> at + |s.seal(key, nonce, plain)| > out.Length
    ensures !grown ==>
              out[..] == old(out[..at]) + s.seal(key, nonce, plain) + old(out[at + |s.seal(key, nonce, plain)|..])
    ensures grown ==> out[..] == old(out[..])
  {
    var sealed := s.seal(key, nonce, plain);
    if at + |sealed| > out.Length {
      return true;
    }
    for i := 0 to |sealed|
      invariant out[..at] == old(out[..at]) && out[at..at + i] == sealed[..i] && out[at + i..] == old(out[at + i..])
    {
      out[at + i] := sealed[i];
      assert out[at..at + i + 1] == out[at..at + i] + [sealed[i]];
      assert out[at + i + 1..] == old(out[at + i..])[1..];
    }
    assert out[..] == out[..at] + out[at..at + |sealed|] + out[at + |sealed|..];
    return false;
  }

  /** Encrypt: the buffer is allocated for exactly the nonce, the text and the tag, and the seal fills it in place. */
  method Encrypt(s: Suite, key: Bytes, nonce: Bytes, plain: Bytes) returns (out: array<byte>)
    requires Lawful(s) && |nonce| == NONCE_SIZE
    ensures fresh(out) && out[..] == Framed(s, key, nonce, plain)
  {
    out := new byte[|nonce| + |plain| + OVERHEAD];
    for i := 0 to |nonce|
      invariant out[..i] == nonce[..i]
    {
      out[i] := nonce[i];
    }
    var grown := SealAppend(s, key, nonce, plain, out, |nonce|);
    assert !grown;
  }

  /** Decrypt gives a text back exactly for the frames Encrypt makes of it under the same key. */
  lemma DecryptIff(s: Suite, key: Bytes, data: Bytes, plain: Bytes)
    requires Lawful(s)
    ensures Decrypt(s, key, data) == Some(plain) <==>
              |data| >= NONCE_SIZE && data == Framed(s, key, data[..NONCE_SIZE], plain)
  {
    if |data| >= NONCE_SIZE {
      var nonce := data[..NONCE_SIZE];
      assert data == nonce + data[NONCE_SIZE..];
      assert Framed(s, key, nonce, plain)[NONCE_SIZE..] == s.seal(key, nonce, plain);
    }
  }

  lemma DecryptInvertsEncrypt(s: Suite, key: Bytes, nonce: Bytes, plain: Bytes)
    requires Lawful(s) && |nonce| == NONCE_SIZE
    ensures Decrypt(s, key, Framed(s, key, nonce, plain)) == Some(plain)
  {
    assert Framed(s, key, nonce, plain)[..NONCE_SIZE] == nonce;
    DecryptIff(s, key, Framed(s, key, nonce, plain), plain);
  }
}

/** The key exchange: what the agent makes of an acknowledgement, against the center the protocol documents. */
module KeyExchange {
  import opened Options
  import opened Crypto

  datatype Error = Rejected | MissingPubkey | InvalidPubkey | NoSecret

  datatype Result<T> = Ok(value: T) | Err(error: Error)

  // ---------------------------------------------------------------- first connection

  datatype InitAck = InitAck(error: string, pubkey: string, nonce: Bytes)

  /** What a successful exchange leaves: the session key, and the center's key as cached. */
  datatype Session = Session(key: Bytes, serverPub: string)

  /** handleKeyInitAckPayload. */
  function AgentInit(s: Suite, priv: Bytes, ack: InitAck): Result<Session> {
    if ack.error != "" then Err(Rejected)
    else if ack.pubkey == "" then Err(MissingPubkey)
    else
      var pub := PublicKeyFromHex(ack.pubkey);
      if pub.None? then Err(InvalidPubkey)
      else
        var shared := s.ecdh(priv, pub.value);
        if shared.None? then Err(NoSecret) else Ok(Session(DeriveEncKey(s, shared.value, ack.nonce), ack.pubkey))
  }

  /** The documented center: its acknowledgement and its session key for the agent's announced key. */
  function CenterInit(s: Suite, center: Bytes, agentPub: string, nonce: Bytes): Option<(InitAck, Bytes)> {
    var pub := PublicKeyFromHex(agentPub);
    if pub.None? then None
    else
      var shared := s.ecdh(center, pub.value);
      if shared.None? then None
      else Some((InitAck("", ToHex(s.pub(center)), nonce), DeriveEncKey(s, shared.value, nonce)))
  }

  lemma NonEmptyHex(s: Suite, priv: Bytes)
    requires Lawful(s)
    ensures ToHex(s.pub(priv)) != ""
  {
    assert s.pub(priv) != [];
  }

  /** The agent takes an acknowledgement exactly if it reports no error and has a key the two can share a secret with;
      it caches the text of that key. */
  lemma InitTaken(s: Suite, priv: Bytes, ack: InitAck)
    ensures var r := AgentInit(s, priv, ack);
            && (r.Ok? <==> ack.error == "" && PublicKeyFromHex(ack.pubkey).Some? &&
                           s.ecdh(priv, PublicKeyFromHex(ack.pubkey).value).Some?)
            && (r.Ok? ==> r.value.serverPub == ack.pubkey)
            && (r == Err(Rejected) <==> ack.error != "")
            && (r == Err(MissingPubkey) <==> ack.error == "" && ack.pubkey == "")
  {
    assert FromHex("") == Some([]);
  }

  /** Both ends of key.init derive one key, which is that of the documented derivation from the secret they share and
      the center's nonce, and the agent caches the center's key. */
  lemma InitAgrees(s: Suite, agent: Bytes, center: Bytes, nonce: Bytes)
    requires Lawful(s)
    ensures match CenterInit(s, center, ToHex(s.pub(agent)), nonce)
            case Some((ack, key)) =>
              && AgentInit(s, agent, ack) == Ok(Session(key, ToHex(s.pub(center)))) && ack.nonce == nonce
              && s.ecdh(agent, s.pub(center)).Some?
              && key == Hkdf(s, nonce, s.ecdh(agent, s.pub(center)).value, Ascii(KEY_INFO), KEY_SIZE)
            case None => s.ecdh(agent, s.pub(center)).None?
  {
    if s.ecdh(agent, s.pub(center)).Some? {
      DerivesByHkdf(s, s.ecdh(agent, s.pub(center)).value, nonce);
    }
    PublicKeyRoundTrip(s, agent);
    PublicKeyRoundTrip(s, center);
    NonEmptyHex(s, center);
  }

  // ---------------------------------------------------------------- reconnection

  datatype AuthRequest = AuthRequest(nodeID: string, pubkey: string, nonce: Bytes, proof: Bytes)

  datatype AuthAck = AuthAck(pubkey: string, authNonce: Bytes, centerNonce: Bytes)

  /** doKeyAuth up to the send: the cached key is the hexadecimal text stored at the first exchange. */
  function AgentRequest(s: Suite, priv: Bytes, cached: string, nodeID: string, nonce: Bytes): Result<AuthRequest> {
    var pub := PublicKeyFromHex(cached);
    if pub.None? then Err(InvalidPubkey)
    else
      var shared := s.ecdh(priv, pub.value);
      if shared.None? then Err(NoSecret)
      else Ok(AuthRequest(nodeID, ToHex(s.pub(priv)), nonce, ComputeAuthProof(s, shared.value, nonce)))
  }

  /** handleKeyAuthAckPayload; the nonce it combines is the agent's own, not the one in the acknowledgement. */
  function AgentAuth(s: Suite, priv: Bytes, nonce: Bytes, ack: AuthAck): Result<Bytes> {
    if ack.pubkey == "" then Err(MissingPubkey)
    else
      var pub := PublicKeyFromHex(ack.pubkey);
      if pub.None? then Err(InvalidPubkey)
      else
        var shared := s.ecdh(priv, pub.value);
        if shared.None? then Err(NoSecret) else Ok(DeriveEncKey(s, shared.value, nonce + ack.centerNonce))
  }

  /** The documented center: it checks the proof under its own key, then answers with an ephemeral one. */
  function CenterAuth(s: Suite, center: Bytes, ephemeral: Bytes, req: AuthRequest,
                      centerNonce: Bytes): Option<(AuthAck, Bytes)> {
    var pub := PublicKeyFromHex(req.pubkey);
    if pub.None? then None
    else
      var known, session := s.ecdh(center, pub.value), s.ecdh(ephemeral, pub.value);
      if known.None? || session.None? || req.proof != ComputeAuthProof(s, known.value, req.nonce) then None
      else Some((AuthAck(ToHex(s.pub(ephemeral)), req.nonce, centerNonce),
                 DeriveEncKey(s, session.value, req.nonce + centerNonce)))
  }

  /** The agent takes the center's answer exactly if it has a key the two can share a secret with. */
  lemma AuthTaken(s: Suite, priv: Bytes, nonce: Bytes, ack: AuthAck)
    ensures AgentAuth(s, priv, nonce, ack).Ok? <==>
              PublicKeyFromHex(ack.pubkey).Some? && s.ecdh(priv, PublicKeyFromHex(ack.pubkey).value).Some?
    ensures AgentAuth(s, priv, nonce, ack) == Err(MissingPubkey) <==> ack.pubkey == ""
  {
    assert FromHex("") == Some([]);
  }

  /** A proof is for one nonce: the center refuses the agent's request under another, unless the hash collides. */
  lemma ProofIsForItsNonce(s: Suite, agent: Bytes, center: Bytes, ephemeral: Bytes, nodeID: string, a: Bytes, b: Bytes,
                           centerNonce: Bytes)
    requires Lawful(s) && s.ecdh(agent, s.pub(center)).Some?
    requires var known := s.ecdh(agent, s.pub(center)).value;
             s.hmac(known, Ascii(PROOF_LABEL) + a) != s.hmac(known, Ascii(PROOF_LABEL) + b)
    ensures var req := AgentRequest(s, agent, ToHex(s.pub(center)), nodeID, a);
            req.Ok? && CenterAuth(s, center, ephemeral, req.value.(nonce := b), centerNonce).None?
  {
    PublicKeyRoundTrip(s, agent);
    PublicKeyRoundTrip(s, center);
  }

  /** With the key cached by key.init, the agent announces its own key and a proof over its nonce under the secret it
      shares with the center; the center accepts it, and both ends derive one session key, which is that of the
      documented derivation from the secret shared with the ephemeral key and the agent's nonce followed by the
      center's. */
  lemma AuthAgrees(s: Suite, agent: Bytes, center: Bytes, ephemeral: Bytes, nodeID: string, nonce: Bytes,
                   centerNonce: Bytes)
    requires Lawful(s)
    requires s.ecdh(agent, s.pub(center)).Some? && s.ecdh(agent, s.pub(ephemeral)).Some?
    ensures var req := AgentRequest(s, agent, ToHex(s.pub(center)), nodeID, nonce);
            && req.Ok? && req.value.nodeID == nodeID && req.value.pubkey == ToHex(s.pub(agent))
            && req.value.nonce == nonce
            && req.value.proof == s.hmac(s.ecdh(agent, s.pub(center)).value, Ascii(PROOF_LABEL) + nonce)
            && (match CenterAuth(s, center, ephemeral, req.value, centerNonce)
                case Some((ack, key)) =>
                  && AgentAuth(s, agent, nonce, ack) == Ok(key)
                  && key == Hkdf(s, nonce + centerNonce, s.ecdh(agent, s.pub(ephemeral)).value, Ascii(KEY_INFO),
                                 KEY_SIZE)
                case None => false)
  {
    DerivesByHkdf(s, s.ecdh(agent, s.pub(ephemeral)).value, nonce + centerNonce);
    PublicKeyRoundTrip(s, agent);
    PublicKeyRoundTrip(s, center);
    PublicKeyRoundTrip(s, ephemeral);
    NonEmptyHex(s, ephemeral);
  }

  /** From pairing to traffic: the key the first exchange caches carries the second, and a frame either end seals
      after it opens at the other. */
  lemma PairThenReconnect(s: Suite, agent: Bytes, center: Bytes, ephemeral: Bytes, nonce0: Bytes, nodeID: string,
                          nonce: Bytes, centerNonce: Bytes, frameNonce: Bytes, plain: Bytes)
    requires Lawful(s) && |frameNonce| == NONCE_SIZE
    requires s.ecdh(agent, s.pub(center)).Some? && s.ecdh(agent, s.pub(ephemeral)).Some?
    ensures match CenterInit(s, center, ToHex(s.pub(agent)), nonce0)
            case None => false
            case Some((ack0, key0)) =>
              var first := AgentInit(s, agent, ack0);
              && first.Ok?
              && Decrypt(s, first.value.key, Framed(s, key0, frameNonce, plain)) == Some(plain)
              && Decrypt(s, key0, Framed(s, first.value.key, frameNonce, plain)) == Some(plain)
              && var req := AgentRequest(s, agent, first.value.serverPub, nodeID, nonce);
              && req.Ok?
              && match CenterAuth(s, center, ephemeral, req.value, centerNonce)
                 case None => false
                 case Some((ack, key)) =>
                   var again := AgentAuth(s, agent, nonce, ack);
                   && again.Ok?
                   && Decrypt(s, again.value, Framed(s, key, frameNonce, plain)) == Some(plain)
                   && Decrypt(s, key, Framed(s, again.value, frameNonce, plain)) == Some(plain)
  {
    InitAgrees(s, agent, center, nonce0);
    PublicKeyRoundTrip(s, agent);
    var key0 := CenterInit(s, center, ToHex(s.pub(agent)), nonce0).value.1;
    DecryptInvertsEncrypt(s, key0, frameNonce, plain);
    AuthAgrees(s, agent, center, ephemeral, nodeID, nonce, centerNonce);
    var req := AgentRequest(s, agent, ToHex(s.pub(center)), nodeID, nonce).value;
    DecryptInvertsEncrypt(s, CenterAuth(s, center, ephemeral, req, centerNonce).value.1, frameNonce, plain);
  }
}

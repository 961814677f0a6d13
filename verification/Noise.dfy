/** What one handler of device/noise-protocol.go does to the handshake record of a peer.

    The primitives are a parameter: nothing is assumed of them except, where a lemma says so, that
    the two ends of a Diffie-Hellman exchange agree and that opening a sealed box gives back what
    was sealed. */
module Noise {
  import opened Words
  import opened Wrappers
  import opened Tai64n

  type Blob = seq<byte>

  const KEY_SIZE := 32
  const HANDSHAKE_INITIATION_RATE := 20_000_000  // nanoseconds

  function ZeroKey(): Blob {
    seq(KEY_SIZE, _ => 0)
  }

  function ZeroTimestamp(): Timestamp {
    seq(12, _ => 0)
  }

  predicate IsZero(b: Blob) {
    forall i :: 0 <= i < |b| ==> b[i] == 0
  }

  function Bytes(s: string): Blob {
    seq(|s|, i requires 0 <= i < |s| => s[i] as int % 0x100)
  }

  const CONSTRUCTION := Bytes("Noise_IKpsk2_25519_ChaChaPoly_BLAKE2s")
  const IDENTIFIER := Bytes("WireGuard v1 zx2c4 Jason@zx2c4.com")

  datatype Keys = Keys(t0: Blob, t1: Blob, t2: Blob)

  /** The primitives: BLAKE2s and its HMAC, the curve, and the box with the all-zero nonce. */
  datatype Suite = Suite(
    Hash: Blob -> Blob,
    Hmac: (Blob, Blob) -> Blob,
    Public: Blob -> Blob,
    Multiply: (Blob, Blob) -> Blob,
    Seal: (Blob, Blob, Blob) -> Blob,
    Open: (Blob, Blob, Blob) -> Option<Blob>)
  {
    function InitialChainKey(): Blob {
      Hash(CONSTRUCTION)
    }

    function InitialHash(): Blob {
      MixHash(InitialChainKey(), IDENTIFIER)
    }

    function MixHash(h: Blob, data: Blob): Blob {
      Hash(h + data)
    }

    function MixKey(c: Blob, data: Blob): Blob {
      Kdf1(c, data)
    }

    function Kdf1(key: Blob, input: Blob): Blob {
      Hmac(Hmac(key, input), [1])
    }

    /** KDF2 gives the first two outputs and KDF3 all three. */
    function Kdf(key: Blob, input: Blob): Keys {
      var prk := Hmac(key, input);
      var t0 := Hmac(prk, [1]);
      var t1 := Hmac(prk, t0 + [2]);
      Keys(t0, t1, Hmac(prk, t1 + [3]))
    }

    /** A product that is zero is an error. */
    function SharedSecret(sk: Blob, pk: Blob): Option<Blob> {
      var ss := Multiply(sk, pk);
      if IsZero(ss) then None else Some(ss)
    }
  }

  /** All that the agreement proof needs of the primitives. */
  ghost predicate Sound(s: Suite) {
    && (forall a, b :: s.Multiply(a, s.Public(b)) == s.Multiply(b, s.Public(a)))
    && (forall key, text, ad :: s.Open(key, s.Seal(key, text, ad), ad) == Some(text))
  }

  datatype State = Zeroed | InitiationCreated | InitiationConsumed | ResponseCreated | ResponseConsumed

  /** `lastInitiationConsumption` is a clock reading in nanoseconds, missing before the first one. */
  datatype Handshake = Handshake(
    state: State,
    hash: Blob,
    chainKey: Blob,
    presharedKey: Blob,
    localEphemeral: Blob,
    localIndex: uint32,
    remoteIndex: uint32,
    remoteStatic: Blob,
    remoteEphemeral: Blob,
    precomputedStaticStatic: Blob,
    lastTimestamp: Timestamp,
    lastInitiationConsumption: Option<int>)
  {
    function Clear(): Handshake {
      this.(localEphemeral := ZeroKey(), remoteEphemeral := ZeroKey(), chainKey := ZeroKey(), hash := ZeroKey(),
            localIndex := 0, state := Zeroed)
    }
  }

  datatype MessageInitiation = MessageInitiation(sender: uint32, ephemeral: Blob, identity: Blob, timestamp: Blob)
  datatype MessageResponse = MessageResponse(sender: uint32, receiver: uint32, ephemeral: Blob, empty: Blob)

  /** A handler leaves a handshake record behind whether or not it succeeds. */
  datatype Outcome<M> = Sent(h: Handshake, message: M) | Failed(h: Handshake)

  // ---------------------------------------------------------------------------------------------
  // The transcript, as the Noise pattern IKpsk2 lays it down
  // ---------------------------------------------------------------------------------------------

  /** Running hash and chaining key; `key` seals the box that comes next. */
  datatype Transcript = Transcript(hash: Blob, chainKey: Blob, key: Blob)

  /** After the responder's static key, `e` and `es`. */
  function BeforeStatic(s: Suite, responder: Blob, e: Blob, es: Blob): Transcript {
    var keys := s.Kdf(s.MixKey(s.InitialChainKey(), e), es);
    Transcript(s.MixHash(s.MixHash(s.InitialHash(), responder), e), keys.t0, keys.t1)
  }

  /** After the sealed static key and `ss`. */
  function BeforeTimestamp(s: Suite, t: Transcript, sealedStatic: Blob, ss: Blob): Transcript {
    var keys := s.Kdf(t.chainKey, ss);
    Transcript(s.MixHash(t.hash, sealedStatic), keys.t0, keys.t1)
  }

  /** After the response's `e`, `ee`, `se` and the preshared key. */
  function BeforeEmpty(s: Suite, hash: Blob, chainKey: Blob, e: Blob, ee: Blob, se: Blob, psk: Blob): Transcript {
    var keys := s.Kdf(s.MixKey(s.MixKey(s.MixKey(chainKey, e), ee), se), psk);
    Transcript(s.MixHash(s.MixHash(hash, e), keys.t1), keys.t0, keys.t2)
  }

  // ---------------------------------------------------------------------------------------------
  // The four handlers and the derivation of keys
  // ---------------------------------------------------------------------------------------------

  /** CreateMessageInitiation.  A failure leaves the record half overwritten and the state as it was. */
  function CreateInitiation(s: Suite, sk: Blob, h: Handshake, ephemeral: Blob, now: Timestamp, index: uint32)
    : Outcome<MessageInitiation>
  {
    var e := s.Public(ephemeral);
    var started := h.(localEphemeral := ephemeral,
                      hash := s.MixHash(s.MixHash(s.InitialHash(), h.remoteStatic), e),
                      chainKey := s.MixKey(s.InitialChainKey(), e));
    match s.SharedSecret(ephemeral, h.remoteStatic)
    case None => Failed(started)
    case Some(es) =>
      var t := BeforeStatic(s, h.remoteStatic, e, es);
      var identity := s.Seal(t.key, s.Public(sk), t.hash);
      if IsZero(h.precomputedStaticStatic) then
        Failed(started.(hash := s.MixHash(t.hash, identity), chainKey := t.chainKey))
      else
        var u := BeforeTimestamp(s, t, identity, h.precomputedStaticStatic);
        var timestamp := s.Seal(u.key, now, u.hash);
        Sent(started.(hash := s.MixHash(u.hash, timestamp), chainKey := u.chainKey, localIndex := index,
                      state := InitiationCreated),
             MessageInitiation(index, e, identity, timestamp))
  }

  /** The first half of ConsumeMessageInitiation: whose static key does the message carry? */
  function Sender(s: Suite, sk: Blob, m: MessageInitiation): Option<Blob> {
    match s.SharedSecret(sk, m.ephemeral)
    case None => None
    case Some(es) =>
      var t := BeforeStatic(s, s.Public(sk), m.ephemeral, es);
      s.Open(t.key, m.identity, t.hash)
  }

  /** The second half, against that peer's record: `checked` is the clock at the flood test and
      `updated` the clock at the update. */
  function ConsumeInitiation(s: Suite, sk: Blob, h: Handshake, m: MessageInitiation, checked: int, updated: int)
    : Option<Handshake>
  {
    match s.SharedSecret(sk, m.ephemeral)
    case None => None
    case Some(es) =>
      if IsZero(h.precomputedStaticStatic) then None
      else
        var u := BeforeTimestamp(s, BeforeStatic(s, s.Public(sk), m.ephemeral, es), m.identity,
                                 h.precomputedStaticStatic);
        match s.Open(u.key, m.timestamp, u.hash)
        case None => None
        case Some(timestamp) =>
          if !After(timestamp, h.lastTimestamp) || Flood(h, checked) then None
          else Some(h.(hash := s.MixHash(u.hash, m.timestamp), chainKey := u.chainKey, remoteIndex := m.sender,
                       remoteEphemeral := m.ephemeral, lastTimestamp := timestamp,
                       lastInitiationConsumption := Some(Later(h, updated)), state := InitiationConsumed))
  }

  predicate Flood(h: Handshake, now: int) {
    h.lastInitiationConsumption.Some? && now - h.lastInitiationConsumption.value <= HANDSHAKE_INITIATION_RATE
  }

  function Later(h: Handshake, now: int): int {
    if h.lastInitiationConsumption.Some? && h.lastInitiationConsumption.value >= now
    then h.lastInitiationConsumption.value else now
  }

  /** CreateMessageResponse.  The index is assigned even when a shared secret then fails. */
  function CreateResponse(s: Suite, h: Handshake, ephemeral: Blob, index: uint32): Outcome<MessageResponse> {
    if h.state != InitiationConsumed then Failed(h)
    else
      var e := s.Public(ephemeral);
      var started := h.(localIndex := index, localEphemeral := ephemeral, hash := s.MixHash(h.hash, e),
                        chainKey := s.MixKey(h.chainKey, e));
      match s.SharedSecret(ephemeral, h.remoteEphemeral)
      case None => Failed(started)
      case Some(ee) =>
        match s.SharedSecret(ephemeral, h.remoteStatic)
        case None => Failed(started.(chainKey := s.MixKey(started.chainKey, ee)))
        case Some(se) =>
          var t := BeforeEmpty(s, h.hash, h.chainKey, e, ee, se, h.presharedKey);
          var empty := s.Seal(t.key, [], t.hash);
          Sent(started.(hash := s.MixHash(t.hash, empty), chainKey := t.chainKey, state := ResponseCreated),
               MessageResponse(index, h.remoteIndex, e, empty))
  }

  /** ConsumeMessageResponse, against the record that the receiver index leads to. */
  function ConsumeResponse(s: Suite, sk: Blob, h: Handshake, m: MessageResponse): Option<Handshake> {
    if h.state != InitiationCreated then None
    else
      match s.SharedSecret(h.localEphemeral, m.ephemeral)
      case None => None
      case Some(ee) =>
        match s.SharedSecret(sk, m.ephemeral)
        case None => None
        case Some(se) =>
          var t := BeforeEmpty(s, h.hash, h.chainKey, m.ephemeral, ee, se, h.presharedKey);
          if s.Open(t.key, m.empty, t.hash).None? then None
          else Some(h.(hash := s.MixHash(t.hash, m.empty), chainKey := t.chainKey, remoteIndex := m.sender,
                       state := ResponseConsumed))
  }

  /** What BeginSymmetricSession takes out of a finished handshake. */
  datatype Session = Session(isInitiator: bool, send: Blob, receive: Blob, localIndex: uint32, remoteIndex: uint32)

  predicate Finished(h: Handshake) {
    h.state == ResponseConsumed || h.state == ResponseCreated
  }

  function Derive(s: Suite, h: Handshake): Session
    requires Finished(h)
  {
    var keys := s.Kdf(h.chainKey, []);
    if h.state == ResponseConsumed then Session(true, keys.t0, keys.t1, h.localIndex, h.remoteIndex)
    else Session(false, keys.t1, keys.t0, h.localIndex, h.remoteIndex)
  }

  function Spent(h: Handshake): Handshake {
    h.(chainKey := ZeroKey(), hash := ZeroKey(), localEphemeral := ZeroKey(), state := Zeroed, localIndex := 0)
  }

  // ---------------------------------------------------------------------------------------------
  // The replay and flood guards over any number of handlers
  // ---------------------------------------------------------------------------------------------

  /** An initiation that was let through: its timestamp, and the clock when the record was updated. */
  datatype Acceptance = Acceptance(timestamp: Timestamp, at: int)

  /** Every acceptance has a larger timestamp than the one before it and comes more than 20 ms later. */
  ghost predicate Spaced(log: seq<Acceptance>) {
    forall i :: 1 <= i < |log| ==> FollowsLast(log, i)
  }

  ghost predicate FollowsLast(log: seq<Acceptance>, i: nat)
    requires 1 <= i < |log|
  {
    Follows(log[i - 1], log[i])
  }

  ghost predicate Follows(a: Acceptance, b: Acceptance) {
    After(b.timestamp, a.timestamp) && b.at - a.at > HANDSHAKE_INITIATION_RATE
  }

  /** The record remembers the last acceptance, whatever was cleared since. */
  ghost predicate Remembers(h: Handshake, log: seq<Acceptance>) {
    && Spaced(log)
    && (if log == [] then h.lastInitiationConsumption.None?
        else h.lastTimestamp == log[|log| - 1].timestamp
             && h.lastInitiationConsumption == Some(log[|log| - 1].at))
  }

  /** Provided only that the two clock readings of one call are in order. */
  lemma AcceptanceSpaced(s: Suite, sk: Blob, h: Handshake, m: MessageInitiation, checked: int, updated: int,
                         log: seq<Acceptance>)
    requires Remembers(h, log) && checked <= updated
    requires ConsumeInitiation(s, sk, h, m, checked, updated).Some?
    ensures var g := ConsumeInitiation(s, sk, h, m, checked, updated).value;
      Remembers(g, log + [Acceptance(g.lastTimestamp, updated)])
  {
    var g := ConsumeInitiation(s, sk, h, m, checked, updated).value;
    var next := log + [Acceptance(g.lastTimestamp, updated)];
    forall i | 1 <= i < |next|
      ensures FollowsLast(next, i)
    {
      if i < |log| {
        assert FollowsLast(log, i);
        assert next[i - 1] == log[i - 1] && next[i] == log[i];
      }
    }
  }

  /** Hence no timestamp is let through twice, and any two acceptances are apart. */
  lemma {:induction false} AllSpaced(log: seq<Acceptance>, i: nat, j: nat)
    requires Spaced(log) && i < j < |log|
    ensures Follows(log[i], log[j])
    decreases j
  {
    assert FollowsLast(log, j);
    if i < j - 1 {
      AllSpaced(log, i, j - 1);
      AfterTransitive(log[j].timestamp, log[j - 1].timestamp, log[i].timestamp);
    }
  }
}

/** What an end may conclude from a handshake message that it accepts.  The lemmas in Agreement say which messages of
    device/noise-protocol.go are accepted; these say that no others are, if the primitives leave no room for forgery. */
module Authenticity {
  import opened Words
  import opened Wrappers
  import opened Tai64n
  import opened Noise

  // ---------------------------------------------------------------------------------------------
  // Primitives
  // ---------------------------------------------------------------------------------------------

  ghost predicate HashFits(s: Suite) {
    forall x, y {:trigger s.Hash(x), s.Hash(y)} :: s.Hash(x) == s.Hash(y) ==> x == y
  }

  ghost predicate HmacFits(s: Suite) {
    forall k, x, l, y {:trigger s.Hmac(k, x), s.Hmac(l, y)} :: s.Hmac(k, x) == s.Hmac(l, y) ==> k == l && x == y
  }

  ghost predicate BoxFits(s: Suite) {
    && (forall k, t, a {:trigger s.Seal(k, t, a)} :: s.Open(k, s.Seal(k, t, a), a) == Some(t))
    && forall k, t, a, l, b {:trigger s.Open(l, s.Seal(k, t, a), b)} ::
         s.Open(l, s.Seal(k, t, a), b).Some? ==> l == k && b == a
  }

  /** Hash and HMAC never collide, and a box opens for the key and the data that it was sealed for, and no others. */
  ghost predicate Ideal(s: Suite) {
    HashFits(s) && HmacFits(s) && BoxFits(s)
  }

  lemma SameHmac(s: Suite, k: Blob, x: Blob, l: Blob, y: Blob)
    requires Ideal(s) && s.Hmac(k, x) == s.Hmac(l, y)
    ensures k == l && x == y
  {
  }

  lemma SameBox(s: Suite, k: Blob, t: Blob, a: Blob, l: Blob, b: Blob)
    requires Ideal(s)
    ensures s.Open(l, s.Seal(k, t, a), b) == if l == k && b == a then Some(t) else None
  {
  }

  lemma SameMix(s: Suite, h: Blob, x: Blob, g: Blob, y: Blob)
    requires Ideal(s) && s.MixHash(h, x) == s.MixHash(g, y)
    ensures x == y ==> h == g
    ensures h == g ==> x == y
  {
    assert s.Hash(h + x) == s.Hash(g + y);
    if x == y {
      assert h == (h + x)[..|h| + |x| - |x|] && g == (g + y)[..|g| + |y| - |y|];
    }
    if h == g {
      assert x == (h + x)[|h|..] && y == (g + y)[|g|..];
    }
  }

  lemma SameKey(s: Suite, c: Blob, x: Blob, d: Blob, y: Blob)
    requires Ideal(s) && s.MixKey(c, x) == s.MixKey(d, y)
    ensures c == d && x == y
  {
    SameHmac(s, s.Hmac(c, x), [1], s.Hmac(d, y), [1]);
    SameHmac(s, c, x, d, y);
  }

  lemma SameSecondKey(s: Suite, c: Blob, x: Blob, d: Blob, y: Blob)
    requires Ideal(s) && s.Kdf(c, x).t1 == s.Kdf(d, y).t1
    ensures c == d && x == y
  {
    var p, q := s.Hmac(c, x), s.Hmac(d, y);
    SameHmac(s, p, s.Hmac(p, [1]) + [2], q, s.Hmac(q, [1]) + [2]);
    SameHmac(s, c, x, d, y);
  }

  lemma SameThirdKey(s: Suite, c: Blob, x: Blob, d: Blob, y: Blob)
    requires Ideal(s) && s.Kdf(c, x).t2 == s.Kdf(d, y).t2
    ensures c == d && x == y
  {
    var p, q := s.Hmac(c, x), s.Hmac(d, y);
    SameHmac(s, p, s.Kdf(c, x).t1 + [3], q, s.Kdf(d, y).t1 + [3]);
    SameHmac(s, c, x, d, y);
  }

  // ---------------------------------------------------------------------------------------------
  // The response
  // ---------------------------------------------------------------------------------------------

  /** Both ends have come to the same transcript, and the products that they compute are the same. */
  ghost predicate Matching(s: Suite, sk: Blob, h: Handshake, r: Handshake, ephemeral: Blob) {
    && h.hash == r.hash && h.chainKey == r.chainKey && h.presharedKey == r.presharedKey
    && s.SharedSecret(h.localEphemeral, s.Public(ephemeral)) == s.SharedSecret(ephemeral, r.remoteEphemeral)
    && s.SharedSecret(sk, s.Public(ephemeral)) == s.SharedSecret(ephemeral, r.remoteStatic)
  }

  lemma SameTranscript(s: Suite, hash: Blob, chainKey: Blob, ee: Blob, se: Blob, psk: Blob, hash': Blob, chainKey': Blob,
                       ee': Blob, se': Blob, psk': Blob, e: Blob, e': Blob)
    requires Ideal(s)
    requires var t, u := BeforeEmpty(s, hash, chainKey, e, ee, se, psk), BeforeEmpty(s, hash', chainKey', e', ee', se', psk');
      t.key == u.key && t.hash == u.hash
    ensures e == e' && ee == ee' && se == se' && psk == psk' && hash == hash' && chainKey == chainKey'
  {
    var c0, d0 := s.MixKey(chainKey, e), s.MixKey(chainKey', e');
    var c1, d1 := s.MixKey(c0, ee), s.MixKey(d0, ee');
    SameThirdKey(s, s.MixKey(c1, se), psk, s.MixKey(d1, se'), psk');
    SameKey(s, c1, se, d1, se');
    SameKey(s, c0, ee, d0, ee');
    SameKey(s, chainKey, e, chainKey', e');
    var tau := s.Kdf(s.MixKey(c1, se), psk).t1;
    SameMix(s, s.MixHash(hash, e), tau, s.MixHash(hash', e'), tau);
    SameMix(s, hash, e, hash', e');
  }

  /** An initiator accepts the box of a responder exactly if they have the same transcript, the same preshared key and
      the same products.  The indices in the message are free: they are not part of the transcript. */
  lemma ResponseExactly(s: Suite, sk: Blob, h: Handshake, r: Handshake, ephemeral: Blob, index: uint32, after: Handshake,
                        m: MessageResponse, got: MessageResponse)
    requires Ideal(s) && CreateResponse(s, r, ephemeral, index) == Sent(after, m) && got.empty == m.empty
    ensures ConsumeResponse(s, sk, h, got).Some?
       <==> h.state == InitiationCreated && got.ephemeral == m.ephemeral && Matching(s, sk, h, r, ephemeral)
  {
    var e := s.Public(ephemeral);
    var ee, se := s.SharedSecret(ephemeral, r.remoteEphemeral).value, s.SharedSecret(ephemeral, r.remoteStatic).value;
    var t := BeforeEmpty(s, r.hash, r.chainKey, e, ee, se, r.presharedKey);
    var ee', se' := s.SharedSecret(h.localEphemeral, got.ephemeral), s.SharedSecret(sk, got.ephemeral);
    if ee'.Some? && se'.Some? {
      var u := BeforeEmpty(s, h.hash, h.chainKey, got.ephemeral, ee'.value, se'.value, h.presharedKey);
      SameBox(s, t.key, [], t.hash, u.key, u.hash);
      if t.key == u.key && t.hash == u.hash {
        SameTranscript(s, r.hash, r.chainKey, ee, se, r.presharedKey, h.hash, h.chainKey, ee'.value, se'.value,
                       h.presharedKey, e, got.ephemeral);
      }
    }
  }

  /** So a response that was made under another preshared key is refused. */
  lemma OtherKeyRefused(s: Suite, sk: Blob, h: Handshake, r: Handshake, ephemeral: Blob, index: uint32,
                        after: Handshake, m: MessageResponse)
    requires Ideal(s) && CreateResponse(s, r, ephemeral, index) == Sent(after, m) && h.presharedKey != r.presharedKey
    ensures ConsumeResponse(s, sk, h, m).None?
  {
    ResponseExactly(s, sk, h, r, ephemeral, index, after, m, m);
  }

  /** And after a response that is accepted both ends derive the same keys from the same transcript. */
  lemma AcceptedAgrees(s: Suite, sk: Blob, h: Handshake, r: Handshake, ephemeral: Blob, index: uint32, after: Handshake,
                       m: MessageResponse)
    requires Ideal(s) && CreateResponse(s, r, ephemeral, index) == Sent(after, m)
    requires ConsumeResponse(s, sk, h, m).Some?
    ensures var got := ConsumeResponse(s, sk, h, m).value;
      && got.hash == after.hash && got.chainKey == after.chainKey && Finished(got) && Finished(after)
      && Derive(s, got).send == Derive(s, after).receive && Derive(s, got).receive == Derive(s, after).send
  {
    ResponseExactly(s, sk, h, r, ephemeral, index, after, m, m);
  }

  // ---------------------------------------------------------------------------------------------
  // The initiation
  // ---------------------------------------------------------------------------------------------

  lemma SameStart(s: Suite, responder: Blob, es: Blob, responder': Blob, es': Blob, e: Blob, e': Blob)
    requires Ideal(s)
    requires var t, u := BeforeStatic(s, responder, e, es), BeforeStatic(s, responder', e', es');
      t.key == u.key && t.hash == u.hash
    ensures e == e' && es == es' && responder == responder'
  {
    var c, d := s.MixKey(s.InitialChainKey(), e), s.MixKey(s.InitialChainKey(), e');
    SameSecondKey(s, c, es, d, es');
    SameKey(s, s.InitialChainKey(), e, s.InitialChainKey(), e');
    SameMix(s, s.MixHash(s.InitialHash(), responder), e, s.MixHash(s.InitialHash(), responder'), e');
    SameMix(s, s.InitialHash(), responder, s.InitialHash(), responder');
  }

  /** A receiver can read the identity exactly if the initiation was made for its own key, with the same product; then it
      reads the key of the initiator. */
  lemma SenderExactly(s: Suite, skI: Blob, h: Handshake, ephemeral: Blob, now: Timestamp, index: uint32, after: Handshake,
                      m: MessageInitiation, sk: Blob)
    requires Ideal(s) && CreateInitiation(s, skI, h, ephemeral, now, index) == Sent(after, m)
    ensures Sender(s, sk, m).Some?
       <==> s.Public(sk) == h.remoteStatic && s.SharedSecret(sk, m.ephemeral) == s.SharedSecret(ephemeral, h.remoteStatic)
    ensures Sender(s, sk, m).Some? ==> Sender(s, sk, m).value == s.Public(skI)
  {
    var e, es := s.Public(ephemeral), s.SharedSecret(ephemeral, h.remoteStatic).value;
    var t := BeforeStatic(s, h.remoteStatic, e, es);
    var es' := s.SharedSecret(sk, m.ephemeral);
    if es'.Some? {
      var u := BeforeStatic(s, s.Public(sk), e, es'.value);
      SameBox(s, t.key, s.Public(skI), t.hash, u.key, u.hash);
      if t.key == u.key && t.hash == u.hash {
        SameStart(s, h.remoteStatic, es, s.Public(sk), es'.value, e, e);
      }
    }
  }

  lemma SameStatic(s: Suite, t: Transcript, ss: Blob, u: Transcript, ss': Blob, identity: Blob)
    requires Ideal(s)
    requires var v, w := BeforeTimestamp(s, t, identity, ss), BeforeTimestamp(s, u, identity, ss');
      v.key == w.key && v.hash == w.hash
    ensures t.chainKey == u.chainKey && t.hash == u.hash && ss == ss'
  {
    SameSecondKey(s, t.chainKey, ss, u.chainKey, ss');
    SameMix(s, t.hash, identity, u.hash, identity);
  }

  /** An initiation is accepted against the record of a peer exactly if it was made for the receiver, with the static
      product that the receiver has for that peer, and is newer and not too early. */
  lemma InitiationExactly(s: Suite, skI: Blob, h: Handshake, ephemeral: Blob, now: Timestamp, index: uint32,
                          after: Handshake, m: MessageInitiation, sk: Blob, r: Handshake, checked: int, updated: int)
    requires Ideal(s) && CreateInitiation(s, skI, h, ephemeral, now, index) == Sent(after, m)
    ensures ConsumeInitiation(s, sk, r, m, checked, updated).Some?
       <==> && s.Public(sk) == h.remoteStatic
            && s.SharedSecret(sk, m.ephemeral) == s.SharedSecret(ephemeral, h.remoteStatic)
            && r.precomputedStaticStatic == h.precomputedStaticStatic
            && After(now, r.lastTimestamp) && !Flood(r, checked)
  {
    var e, es := s.Public(ephemeral), s.SharedSecret(ephemeral, h.remoteStatic).value;
    var t := BeforeStatic(s, h.remoteStatic, e, es);
    var v := BeforeTimestamp(s, t, m.identity, h.precomputedStaticStatic);
    var es' := s.SharedSecret(sk, m.ephemeral);
    if es'.Some? && !IsZero(r.precomputedStaticStatic) {
      var u := BeforeStatic(s, s.Public(sk), e, es'.value);
      var w := BeforeTimestamp(s, u, m.identity, r.precomputedStaticStatic);
      SameBox(s, v.key, now, v.hash, w.key, w.hash);
      if v.key == w.key && v.hash == w.hash {
        SameStatic(s, t, h.precomputedStaticStatic, u, r.precomputedStaticStatic, m.identity);
        SameChain(s, h.remoteStatic, es, s.Public(sk), es'.value, e);
      }
    }
  }

  lemma SameChain(s: Suite, responder: Blob, es: Blob, responder': Blob, es': Blob, e: Blob)
    requires Ideal(s)
    requires var t, u := BeforeStatic(s, responder, e, es), BeforeStatic(s, responder', e, es');
      t.chainKey == u.chainKey && t.hash == u.hash
    ensures es == es' && responder == responder'
  {
    var c := s.MixKey(s.InitialChainKey(), e);
    SameKey(s, c, es, c, es');
    SameMix(s, s.MixHash(s.InitialHash(), responder), e, s.MixHash(s.InitialHash(), responder'), e);
    SameMix(s, s.InitialHash(), responder, s.InitialHash(), responder');
  }

  // ---------------------------------------------------------------------------------------------
  // The exchange
  // ---------------------------------------------------------------------------------------------

  lemma SameMixSized(s: Suite, h: Blob, x: Blob, g: Blob, y: Blob)
    requires Ideal(s) && s.MixHash(h, x) == s.MixHash(g, y) && |x| == |y|
    ensures h == g && x == y
  {
    var p := h + x;
    assert s.Hash(p) == s.Hash(g + y) && p == g + y;
    assert h == p[..|p| - |x|] && g == p[..|p| - |y|] && x == p[|p| - |x|..] && y == p[|p| - |y|..];
  }

  /** The fields of a message have fixed sizes. */
  predicate SameSizes(m: MessageInitiation, n: MessageInitiation) {
    |m.ephemeral| == |n.ephemeral| && |m.identity| == |n.identity| && |m.timestamp| == |n.timestamp|
  }

  /** Equal hashes after an initiation mean that every field was the same, and that it was meant for this receiver. */
  lemma HashBindsInitiation(s: Suite, skI: Blob, h: Handshake, ephemeral: Blob, now: Timestamp, index: uint32,
                            after: Handshake, m: MessageInitiation, sk: Blob, r: Handshake, n: MessageInitiation,
                            checked: int, updated: int, heard: Handshake)
    requires Ideal(s) && CreateInitiation(s, skI, h, ephemeral, now, index) == Sent(after, m)
    requires ConsumeInitiation(s, sk, r, n, checked, updated) == Some(heard) && after.hash == heard.hash && SameSizes(m, n)
    ensures m.ephemeral == n.ephemeral && m.identity == n.identity && m.timestamp == n.timestamp
    ensures h.remoteStatic == s.Public(sk)
  {
    var e, es := s.Public(ephemeral), s.SharedSecret(ephemeral, h.remoteStatic).value;
    var t := BeforeStatic(s, h.remoteStatic, e, es);
    var v := BeforeTimestamp(s, t, m.identity, h.precomputedStaticStatic);
    var u := BeforeStatic(s, s.Public(sk), n.ephemeral, s.SharedSecret(sk, n.ephemeral).value);
    var w := BeforeTimestamp(s, u, n.identity, r.precomputedStaticStatic);
    SameMixSized(s, v.hash, m.timestamp, w.hash, n.timestamp);
    SameMixSized(s, t.hash, m.identity, u.hash, n.identity);
    SameMixSized(s, s.MixHash(s.InitialHash(), h.remoteStatic), e, s.MixHash(s.InitialHash(), s.Public(sk)), n.ephemeral);
    SameMix(s, s.InitialHash(), h.remoteStatic, s.InitialHash(), s.Public(sk));
  }

  /** An initiator that accepts a response knows that its own initiation was heard, every field as it was sent, by the
      end that it was meant for: whoever made the response had accepted exactly that initiation. */
  lemma AnswersOwnInitiation(s: Suite, skI: Blob, h: Handshake, ephemeral: Blob, now: Timestamp, index: uint32,
                             waiting: Handshake, m: MessageInitiation, sk: Blob, r: Handshake, n: MessageInitiation,
                             checked: int, updated: int, heard: Handshake, ephemeral': Blob, index': uint32,
                             after: Handshake, answer: MessageResponse)
    requires Ideal(s) && CreateInitiation(s, skI, h, ephemeral, now, index) == Sent(waiting, m)
    requires ConsumeInitiation(s, sk, r, n, checked, updated) == Some(heard) && SameSizes(m, n)
    requires CreateResponse(s, heard, ephemeral', index') == Sent(after, answer)
    requires ConsumeResponse(s, skI, waiting, answer).Some?
    ensures m.ephemeral == n.ephemeral && m.identity == n.identity && m.timestamp == n.timestamp
    ensures h.remoteStatic == s.Public(sk) && waiting.presharedKey == heard.presharedKey
  {
    ResponseExactly(s, skI, waiting, heard, ephemeral', index', after, answer, answer);
    HashBindsInitiation(s, skI, h, ephemeral, now, index, waiting, m, sk, r, n, checked, updated, heard);
  }

  // ---------------------------------------------------------------------------------------------
  // The keys of a session
  // ---------------------------------------------------------------------------------------------

  /** The two steps of HKDF (RFC 5869) with an empty input: the first output is the key of the initiator, the second one
      that of the responder, and they differ. */
  lemma DirectionsApart(s: Suite, h: Handshake)
    requires Finished(h)
    ensures var prk, x := s.Hmac(h.chainKey, []), Derive(s, h);
      var first := s.Hmac(prk, [1]);
      && (if h.state == ResponseConsumed then x.send else x.receive) == first
      && (if h.state == ResponseConsumed then x.receive else x.send) == s.Hmac(prk, first + [2])
    ensures Ideal(s) ==> Derive(s, h).send != Derive(s, h).receive
  {
    var prk := s.Hmac(h.chainKey, []);
    var first := s.Hmac(prk, [1]);
    LastApart(first);
    if Ideal(s) && first == s.Hmac(prk, first + [2]) {
      SameHmac(s, prk, [1], prk, first + [2]);
      assert false;
    }
  }

  lemma LastApart(t: Blob)
    ensures t + [2] != [1]
  {
    assert (t + [2])[|t|] == 2;
  }

  // ---------------------------------------------------------------------------------------------
  // Such primitives are possible
  // ---------------------------------------------------------------------------------------------

  /** The string with its length in front, so that it can be told from what follows. */
  function Marked(x: Blob): Blob {
    seq(|x|, _ => 1) + [0] + x
  }

  lemma MarkedApart(x: Blob, u: Blob, y: Blob, v: Blob)
    requires Marked(x) + u == Marked(y) + v
    ensures x == y && u == v
  {
    ZeroAt(x, u);
    ZeroAt(y, v);
    var n, p := |x|, Marked(x) + u;
    assert x == p[n + 1..n + 1 + n] && y == p[n + 1..n + 1 + n];
    assert u == p[n + 1 + n..] && v == p[n + 1 + n..];
  }

  lemma ZeroAt(x: Blob, u: Blob)
    ensures var p := Marked(x) + u;
      |x| < |p| && p[|x|] == 0 && forall i :: 0 <= i < |x| ==> p[i] == 1
  {
  }

  function Boxed(k: Blob, t: Blob, a: Blob): Blob {
    Marked(k) + (Marked(a) + t)
  }

  function Unboxed(k: Blob, c: Blob, a: Blob): Option<Blob> {
    var n := |Marked(k)| + |Marked(a)|;
    if n <= |c| && c == Boxed(k, c[n..], a) then Some(c[n..]) else None
  }

  lemma BoxesFit(k: Blob, t: Blob, a: Blob, l: Blob, b: Blob)
    ensures Unboxed(l, Boxed(k, t, a), b) == if l == k && b == a then Some(t) else None
  {
    var c, n := Boxed(k, t, a), |Marked(l)| + |Marked(b)|;
    if n <= |c| && c == Boxed(l, c[n..], b) {
      MarkedApart(k, Marked(a) + t, l, Marked(b) + c[n..]);
      MarkedApart(a, t, b, c[n..]);
    }
    if l == k && b == a {
      assert c[n..] == t;
    }
  }

  /** The lemmas above are about something: there is such a suite, and its two ends agree on products as well. */
  lemma IdealSuite() returns (s: Suite)
    ensures Ideal(s) && Sound(s)
  {
    s := Suite(x => x, (k: Blob, x: Blob) => Marked(k) + x, x => x, (a: Blob, b: Blob) => [1],
               (k: Blob, t: Blob, a: Blob) => Boxed(k, t, a), (k: Blob, c: Blob, a: Blob) => Unboxed(k, c, a));
    forall k, x, l, y | s.Hmac(k, x) == s.Hmac(l, y)
      ensures k == l && x == y
    {
      MarkedApart(k, x, l, y);
    }
    forall k, t, a, l, b
      ensures s.Open(l, s.Seal(k, t, a), b) == if l == k && b == a then Some(t) else None
    {
      BoxesFit(k, t, a, l, b);
    }
  }
}

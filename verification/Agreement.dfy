/** Two ends with fixed static keys and one preshared key run the handlers of device/noise-protocol.go in
    any order, over a network that drops, delays, duplicates and invents messages. */
module Agreement {
  import opened Words
  import opened Wrappers
  import opened Tai64n
  import opened Noise

  datatype Side = A | B

  function Other(x: Side): Side {
    if x == A then B else A
  }

  /** The static private keys and the preshared key. */
  datatype Config = Config(s: Suite, skA: Blob, skB: Blob, psk: Blob) {
    function Sk(x: Side): Blob {
      if x == A then skA else skB
    }

    function Pk(x: Side): Blob {
      s.Public(Sk(x))
    }

    function Fresh(x: Side): Handshake {
      Handshake(Zeroed, ZeroKey(), ZeroKey(), psk, ZeroKey(), 0, 0, Pk(Other(x)), ZeroKey(),
                s.Multiply(Sk(x), Pk(Other(x))), ZeroTimestamp(), None)
    }
  }

  /** A record with history: the initiation it waits for an answer to, and the one it is about to answer,
      as positions in what was sent.  A record that a failed handler half overwrote remembers neither. */
  datatype End = End(h: Handshake, outstanding: Option<nat>, heard: Option<nat>)

  /** `before` and `after` are the sender's record around the handler. */
  datatype Initiation = Initiation(side: Side, before: Handshake, ephemeral: Blob, now: Timestamp,
                                   message: MessageInitiation, after: Handshake)

  datatype Response = Response(side: Side, answers: Option<nat>, before: Handshake, ephemeral: Blob,
                               message: MessageResponse, after: Handshake)

  datatype World = World(a: End, b: End, initiations: seq<Initiation>, responses: seq<Response>) {
    function At(x: Side): End {
      if x == A then a else b
    }

    function With(x: Side, e: End): World {
      if x == A then this.(a := e) else this.(b := e)
    }
  }

  /** What the network hands over: something sent at any time before, any number of times, or anything else. */
  datatype Delivery<M> = Relayed(i: nat) | Invented(m: M)

  datatype Action =
    | CreateI(x: Side, ephemeral: Blob, now: Timestamp, index: uint32)
    | ConsumeI(x: Side, initiation: Delivery<MessageInitiation>, checked: int, updated: int)
    | CreateR(x: Side, ephemeral: Blob, index: uint32)
    | ConsumeR(x: Side, response: Delivery<MessageResponse>)
    | Begin(x: Side)
    | Clear(x: Side)

  function Next(c: Config, w: World, act: Action): World {
    var e := w.At(act.x);
    match act
    case CreateI(x, ephemeral, now, index) => (
      match CreateInitiation(c.s, c.Sk(x), e.h, ephemeral, now, index)
      case Failed(h) => w.With(x, End(h, None, None))
      case Sent(h, m) =>
        w.With(x, End(h, Some(|w.initiations|), None))
         .(initiations := w.initiations + [Initiation(x, e.h, ephemeral, now, m, h)]))
    case ConsumeI(x, d, checked, updated) =>
      if d.Relayed? && d.i >= |w.initiations| then w
      else
        var m := if d.Relayed? then w.initiations[d.i].message else d.m;
        if Sender(c.s, c.Sk(x), m) != Some(c.Pk(Other(x))) then w
        else (
          match ConsumeInitiation(c.s, c.Sk(x), e.h, m, checked, updated)
          case None => w
          case Some(h) => w.With(x, End(h, None, if d.Relayed? then Some(d.i) else None)))
    case CreateR(x, ephemeral, index) =>
      if e.h.state != InitiationConsumed then w
      else (
        match CreateResponse(c.s, e.h, ephemeral, index)
        case Failed(h) => w.With(x, End(h, None, None))
        case Sent(h, m) =>
          w.With(x, End(h, None, None))
           .(responses := w.responses + [Response(x, e.heard, e.h, ephemeral, m, h)]))
    case ConsumeR(x, d) =>
      if d.Relayed? && d.i >= |w.responses| then w
      else (
        match ConsumeResponse(c.s, c.Sk(x), e.h, if d.Relayed? then w.responses[d.i].message else d.m)
        case None => w
        case Some(h) => w.With(x, End(h, None, None)))
    case Begin(x) => if Finished(e.h) then w.With(x, End(Spent(e.h), None, None)) else w
    case Clear(x) => w.With(x, End(e.h.Clear(), None, None))
  }

  function Run(c: Config, acts: seq<Action>): World {
    if acts == [] then World(End(c.Fresh(A), None, None), End(c.Fresh(B), None, None), [], [])
    else Next(c, Run(c, acts[..|acts| - 1]), acts[|acts| - 1])
  }

  // ---------------------------------------------------------------------------------------------
  // One exchange
  // ---------------------------------------------------------------------------------------------

  /** The parts of a record that no handler changes. */
  ghost predicate Configured(c: Config, x: Side, h: Handshake) {
    && h.remoteStatic == c.Pk(Other(x)) && h.presharedKey == c.psk
    && h.precomputedStaticStatic == c.s.Multiply(c.Sk(x), c.Pk(Other(x)))
  }

  ghost predicate InitiationMade(c: Config, i: Initiation) {
    && Configured(c, i.side, i.before)
    && CreateInitiation(c.s, c.Sk(i.side), i.before, i.ephemeral, i.now, i.message.sender)
       == Sent(i.after, i.message)
  }

  ghost predicate ResponseMade(c: Config, r: Response) {
    && Configured(c, r.side, r.before)
    && CreateResponse(c.s, r.before, r.ephemeral, r.message.sender) == Sent(r.after, r.message)
  }

  /** The responder's record after the initiation, as far as it matters. */
  ghost predicate Follows(h: Handshake, i: Initiation) {
    && h.state == InitiationConsumed
    && h.hash == i.after.hash && h.chainKey == i.after.chainKey
    && h.remoteIndex == i.message.sender && h.remoteEphemeral == i.message.ephemeral
  }

  lemma DhCommutes(s: Suite, a: Blob, b: Blob)
    requires Sound(s)
    ensures s.SharedSecret(a, s.Public(b)) == s.SharedSecret(b, s.Public(a))
  {
  }

  lemma Opens(s: Suite, key: Blob, text: Blob, ad: Blob)
    requires Sound(s)
    ensures s.Open(key, s.Seal(key, text, ad), ad) == Some(text)
  {
  }

  /** The intended receiver reads the sender's identity, and turns the message down for its age or for
      its frequency and for nothing else. */
  lemma InitiationUnderstood(c: Config, i: Initiation, h: Handshake, checked: int, updated: int)
    requires Sound(c.s) && InitiationMade(c, i) && Configured(c, Other(i.side), h)
    ensures Sender(c.s, c.Sk(Other(i.side)), i.message) == Some(c.Pk(i.side))
    ensures var got := ConsumeInitiation(c.s, c.Sk(Other(i.side)), h, i.message, checked, updated);
      && (got.Some? <==> After(i.now, h.lastTimestamp) && !Flood(h, checked))
      && (got.Some? ==> Follows(got.value, i) && got.value.lastTimestamp == i.now)
  {
    var s, sk, peer := c.s, c.Sk(i.side), c.Sk(Other(i.side));
    DhCommutes(s, i.ephemeral, peer);
    DhCommutes(s, sk, peer);
    var es := s.SharedSecret(i.ephemeral, s.Public(peer)).value;
    var t := BeforeStatic(s, s.Public(peer), s.Public(i.ephemeral), es);
    Opens(s, t.key, s.Public(sk), t.hash);
    var u := BeforeTimestamp(s, t, i.message.identity, i.before.precomputedStaticStatic);
    Opens(s, u.key, i.now, u.hash);
  }

  /** The two records that an exchange leaves behind fit each other. */
  ghost predicate Agreed(s: Suite, initiator: Handshake, responder: Handshake) {
    && initiator.state == ResponseConsumed && responder.state == ResponseCreated
    && initiator.hash == responder.hash && initiator.chainKey == responder.chainKey
    && var x, y := Derive(s, initiator), Derive(s, responder);
    && x.isInitiator && !y.isInitiator
    && x.send == y.receive && x.receive == y.send
    && x.localIndex == y.remoteIndex && x.remoteIndex == y.localIndex
  }

  lemma ResponseUnderstood(c: Config, i: Initiation, r: Response, h: Handshake)
    requires Sound(c.s) && InitiationMade(c, i) && ResponseMade(c, r)
    requires r.side == Other(i.side) && Follows(r.before, i) && h == i.after
    ensures r.message.receiver == h.localIndex
    ensures var got := ConsumeResponse(c.s, c.Sk(i.side), h, r.message);
      got.Some? && Agreed(c.s, got.value, r.after)
  {
    var s := c.s;
    DhCommutes(s, i.ephemeral, r.ephemeral);
    DhCommutes(s, c.Sk(i.side), r.ephemeral);
    var ee := s.SharedSecret(r.ephemeral, r.before.remoteEphemeral).value;
    var se := s.SharedSecret(r.ephemeral, r.before.remoteStatic).value;
    var t := BeforeEmpty(s, r.before.hash, r.before.chainKey, s.Public(r.ephemeral), ee, se, c.psk);
    Opens(s, t.key, [], t.hash);
  }

  // ---------------------------------------------------------------------------------------------
  // Any run
  // ---------------------------------------------------------------------------------------------

  ghost predicate EndOk(c: Config, w: World, x: Side) {
    var e := w.At(x);
    && Configured(c, x, e.h)
    && (e.outstanding.Some? ==>
          && e.outstanding.value < |w.initiations|
          && w.initiations[e.outstanding.value].side == x && e.h == w.initiations[e.outstanding.value].after)
    && (e.heard.Some? ==>
          && e.heard.value < |w.initiations|
          && (w.initiations[e.heard.value].side == Other(x) ==> Follows(e.h, w.initiations[e.heard.value])))
  }

  ghost predicate ResponseOk(c: Config, w: World, r: Response) {
    && ResponseMade(c, r)
    && (r.answers.Some? ==>
          && r.answers.value < |w.initiations|
          && (w.initiations[r.answers.value].side == Other(r.side) ==> Follows(r.before, w.initiations[r.answers.value])))
  }

  ghost predicate Invariant(c: Config, w: World) {
    && EndOk(c, w, A) && EndOk(c, w, B)
    && (forall i :: 0 <= i < |w.initiations| ==> InitiationMade(c, w.initiations[i]))
    && (forall j :: 0 <= j < |w.responses| ==> ResponseOk(c, w, w.responses[j]))
  }

  /** What is left to show of a step by `x`: its own end, and whatever it sends. */
  lemma Grown(c: Config, w: World, v: World, x: Side)
    requires Invariant(c, w) && EndOk(c, v, x) && v.At(Other(x)) == w.At(Other(x))
    requires w.initiations <= v.initiations && w.responses <= v.responses
    requires forall i :: |w.initiations| <= i < |v.initiations| ==> InitiationMade(c, v.initiations[i])
    requires forall j :: |w.responses| <= j < |v.responses| ==> ResponseOk(c, v, v.responses[j])
    ensures Invariant(c, v)
  {
    assert EndOk(c, v, Other(x));
    forall j | 0 <= j < |w.responses|
      ensures ResponseOk(c, v, v.responses[j])
    {
      assert v.responses[j] == w.responses[j] && ResponseOk(c, w, w.responses[j]);
    }
  }

  lemma CreateIKeeps(c: Config, w: World, act: Action)
    requires Invariant(c, w) && act.CreateI?
    ensures Invariant(c, Next(c, w, act))
  {
    Grown(c, w, Next(c, w, act), act.x);
  }

  lemma ConsumeIKeeps(c: Config, w: World, act: Action)
    requires Sound(c.s) && Invariant(c, w) && act.ConsumeI?
    ensures Invariant(c, Next(c, w, act))
  {
    var x, d := act.x, act.initiation;
    if Next(c, w, act) == w {
      return;
    }
    assert EndOk(c, w, Other(x));
    if d.Relayed? && d.i < |w.initiations| && w.initiations[d.i].side == Other(x) {
      assert EndOk(c, w, x);
      InitiationUnderstood(c, w.initiations[d.i], w.At(x).h, act.checked, act.updated);
    }
    Grown(c, w, Next(c, w, act), x);
  }

  lemma CreateRKeeps(c: Config, w: World, act: Action)
    requires Invariant(c, w) && act.CreateR?
    ensures Invariant(c, Next(c, w, act))
  {
    var v := Next(c, w, act);
    if |v.responses| > |w.responses| {
      assert ResponseOk(c, v, v.responses[|w.responses|]);
    }
    Grown(c, w, v, act.x);
  }

  lemma ConsumeRKeeps(c: Config, w: World, act: Action)
    requires Invariant(c, w) && act.ConsumeR?
    ensures Invariant(c, Next(c, w, act))
  {
    if Next(c, w, act) != w {
      Grown(c, w, Next(c, w, act), act.x);
    }
  }

  lemma NextKeepsInvariant(c: Config, w: World, act: Action)
    requires Sound(c.s) && Invariant(c, w)
    ensures Invariant(c, Next(c, w, act))
  {
    match act
    case CreateI(_, _, _, _) => CreateIKeeps(c, w, act);
    case ConsumeI(_, _, _, _) => ConsumeIKeeps(c, w, act);
    case CreateR(_, _, _) => CreateRKeeps(c, w, act);
    case ConsumeR(_, _) => ConsumeRKeeps(c, w, act);
    case _ => Grown(c, w, Next(c, w, act), act.x);
  }

  lemma {:induction false} RunInvariant(c: Config, acts: seq<Action>)
    requires Sound(c.s)
    ensures Invariant(c, Run(c, acts))
  {
    if acts != [] {
      RunInvariant(c, acts[..|acts| - 1]);
      NextKeepsInvariant(c, Run(c, acts[..|acts| - 1]), acts[|acts| - 1]);
    }
  }

  /** The end waits for an answer, and this is an answer to it from the other end. */
  ghost predicate Awaits(w: World, x: Side, j: nat) {
    && j < |w.responses| && w.responses[j].side == Other(x)
    && w.At(x).outstanding.Some? && w.responses[j].answers == w.At(x).outstanding
  }

  ghost predicate Concludes(c: Config, w: World, x: Side, j: nat)
    requires j < |w.responses|
  {
    var h, r := w.At(x).h, w.responses[j];
    var got := ConsumeResponse(c.s, c.Sk(x), h, r.message);
    && r.message.receiver == h.localIndex
    && got.Some? && Agreed(c.s, got.value, r.after)
    && Next(c, w, ConsumeR(x, Relayed(j))).At(x).h == got.value
  }

  lemma AgreementIn(c: Config, w: World, x: Side, j: nat)
    requires Sound(c.s) && Invariant(c, w) && Awaits(w, x, j)
    ensures Concludes(c, w, x, j)
  {
    assert EndOk(c, w, x) && ResponseOk(c, w, w.responses[j]);
    ResponseUnderstood(c, w.initiations[w.At(x).outstanding.value], w.responses[j], w.At(x).h);
  }

  /** Whatever happened before, an end that still waits for the answer to its initiation accepts every
      response that the other end made to it, finds the right record for it, and the two ends then have
      equal transcripts, crossed keys and each other's indices. */
  lemma Agreement(c: Config, acts: seq<Action>, x: Side, j: nat)
    requires Sound(c.s) && Awaits(Run(c, acts), x, j)
    ensures Concludes(c, Run(c, acts), x, j)
  {
    RunInvariant(c, acts);
    AgreementIn(c, Run(c, acts), x, j);
  }

  /** With nothing lost the exchange always goes through: an initiation that is newer and not too early
      for the receiver, then the answer to it. */
  lemma ExchangeCompletes(c: Config, acts: seq<Action>, x: Side, checked: int, updated: int, ephemeral: Blob,
                          index: uint32)
    requires Sound(c.s)
    requires var w := Run(c, acts);
      && w.At(x).outstanding.Some?
      && var i := w.At(x).outstanding.value;
      && i < |w.initiations|
      && After(w.initiations[i].now, w.At(Other(x)).h.lastTimestamp) && !Flood(w.At(Other(x)).h, checked)
      && c.s.SharedSecret(ephemeral, w.initiations[i].message.ephemeral).Some?
      && c.s.SharedSecret(ephemeral, c.Pk(x)).Some?
    ensures
      var w := Run(c, acts);
      var v := Next(c, w, ConsumeI(Other(x), Relayed(w.At(x).outstanding.value), checked, updated));
      var u := Next(c, v, CreateR(Other(x), ephemeral, index));
      var t := Next(c, u, ConsumeR(x, Relayed(|w.responses|)));
      Agreed(c.s, t.At(x).h, u.At(Other(x)).h)
  {
    var w := Run(c, acts);
    RunInvariant(c, acts);
    Answered(c, w, x, checked, updated, ephemeral, index);
    var consume := ConsumeI(Other(x), Relayed(w.At(x).outstanding.value), checked, updated);
    var create := CreateR(Other(x), ephemeral, index);
    NextKeepsInvariant(c, w, consume);
    NextKeepsInvariant(c, Next(c, w, consume), create);
    AgreementIn(c, Next(c, Next(c, w, consume), create), x, |w.responses|);
  }

  lemma Answered(c: Config, w: World, x: Side, checked: int, updated: int, ephemeral: Blob, index: uint32)
    requires Sound(c.s) && Invariant(c, w) && w.At(x).outstanding.Some?
    requires var i := w.initiations[w.At(x).outstanding.value];
      && After(i.now, w.At(Other(x)).h.lastTimestamp) && !Flood(w.At(Other(x)).h, checked)
      && c.s.SharedSecret(ephemeral, i.message.ephemeral).Some? && c.s.SharedSecret(ephemeral, c.Pk(x)).Some?
    ensures
      var v := Next(c, w, ConsumeI(Other(x), Relayed(w.At(x).outstanding.value), checked, updated));
      var u := Next(c, v, CreateR(Other(x), ephemeral, index));
      && u.At(x) == w.At(x) && |u.responses| == |w.responses| + 1
      && var r := u.responses[|w.responses|];
      && r.side == Other(x) && r.answers == w.At(x).outstanding && u.At(Other(x)).h == r.after
  {
    assert EndOk(c, w, x) && EndOk(c, w, Other(x));
    InitiationUnderstood(c, w.initiations[w.At(x).outstanding.value], w.At(Other(x)).h, checked, updated);
  }

  /** A peer that stamps its initiations a flood interval apart is never taken for a replay, as long as the
      label of its clock does not wrap. */
  lemma HonestNeverReplays(c: Config, i: Initiation, h: Handshake, t1: Time, t2: Time, checked: int, updated: int)
    requires Sound(c.s) && InitiationMade(c, i) && Configured(c, Other(i.side), h)
    requires ValidTime(t1) && ValidTime(t2) && Nanoseconds(t1) + HANDSHAKE_INITIATION_RATE <= Nanoseconds(t2)
    requires !(Wraps(t1) && !Wraps(t2)) && h.lastTimestamp == Stamp(t1) && i.now == Stamp(t2)
    ensures ConsumeInitiation(c.s, c.Sk(Other(i.side)), h, i.message, checked, updated).Some? <==> !Flood(h, checked)
  {
    StampStrict(t1, t2);
    InitiationUnderstood(c, i, h, checked, updated);
  }
}

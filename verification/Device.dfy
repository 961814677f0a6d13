/** Peers, their three keypair slots and the index table that all peers of a device share:
    device/noise-protocol.go, indextable.go, keypair.go and peer.go, each handler as one step. */
module Device {
  import opened Words
  import opened Constants
  import opened Wrappers
  import opened Tai64n
  import opened Noise

  const MAX_PEERS := 0x1_0000

  class Keypair {
    var sendNonce: uint64
    const send: Blob
    const receive: Blob
    const isInitiator: bool
    const localIndex: uint32
    const remoteIndex: uint32

    constructor (session: Session)
      ensures AsSession() == session && sendNonce == 0
    {
      sendNonce := 0;
      send, receive, isInitiator := session.send, session.receive, session.isInitiator;
      localIndex, remoteIndex := session.localIndex, session.remoteIndex;
    }

    function AsSession(): Session {
      Session(isInitiator, send, receive, localIndex, remoteIndex)
    }
  }

  /** `ForHandshake` is the entry whose keypair is nil, `ForKeypair` the one whose handshake is nil. */
  datatype IndexTableEntry = ForHandshake(peer: Peer) | ForKeypair(peer: Peer, keypair: Keypair)

  type Table = map<uint32, IndexTableEntry>

  class IndexTable {
    var table: Table
    /** Whether any draw was 0. */
    ghost var zeroDrawn: bool

    constructor ()
      ensures table == map[] && !zeroDrawn
    {
      table := map[];
      zeroDrawn := false;
    }

    method Delete(index: uint32)
      modifies this`table
      ensures table == old(table) - {index}
    {
      table := table - {index};
    }

    method DeleteKeypair(key: Keypair?)
      modifies this`table
      ensures table == Dropped(old(table), key)
    {
      if key != null {
        Delete(key.localIndex);
      }
    }

    method SwapIndexForKeypair(index: uint32, keypair: Keypair)
      modifies this`table
      ensures table == Swapped(old(table), index, keypair)
    {
      if index in table {
        table := table[index := ForKeypair(table[index].peer, keypair)];
      }
    }

    /** Draws until an index is free.  `draws` is what the source of randomness yields. */
    method NewIndexForHandshake(peer: Peer, draws: seq<uint32>) returns (index: uint32)
      requires Supplies(draws, table)
      modifies this
      ensures index in draws && index !in old(table)
      ensures table == old(table)[index := ForHandshake(peer)]
      ensures zeroDrawn == (old(zeroDrawn) || index == 0)
    {
      var k := 0;
      while draws[k] in table
        invariant k < |draws| && forall j :: 0 <= j < k ==> draws[j] in table
        decreases |draws| - k
      {
        assert exists j :: 0 <= j < |draws| && draws[j] !in table;
        k := k + 1;
      }
      index := draws[k];
      table := table[index := ForHandshake(peer)];
      zeroDrawn := zeroDrawn || index == 0;
    }
  }

  ghost predicate Supplies(draws: seq<uint32>, table: Table) {
    exists k :: 0 <= k < |draws| && draws[k] !in table
  }

  /** One index is given up and a free one among the draws is taken for the handshake. */
  ghost predicate Renewed(before: Table, given: uint32, taken: uint32, draws: seq<uint32>, peer: Peer, after: Table) {
    && taken in draws && taken !in before - {given}
    && after == (before - {given})[taken := ForHandshake(peer)]
  }

  function Dropped(table: Table, key: Keypair?): Table {
    if key == null then table else table - {key.localIndex}
  }

  // ---------------------------------------------------------------------------------------------
  // The table and what one peer holds: a pending handshake's index, or 0, and three keypairs
  // ---------------------------------------------------------------------------------------------

  /** What the table has for the peer is what the peer holds, index 0 apart. */
  ghost predicate Agrees(table: Table, p: Peer, pending: uint32, previous: Keypair?, current: Keypair?, next: Keypair?) {
    && (forall i {:trigger i in table} :: i in table && i != 0 && table[i].peer == p ==>
          match table[i]
          case ForHandshake(_) => i == pending
          case ForKeypair(_, k) => i == k.localIndex && (k == previous || k == current || k == next))
    && (pending != 0 ==> Holds(table, pending, ForHandshake(p)))
    && Listed(table, p, previous) && Listed(table, p, current) && Listed(table, p, next)
  }

  ghost predicate Listed(table: Table, p: Peer, k: Keypair?) {
    k != null && k.localIndex != 0 ==> Holds(table, k.localIndex, ForKeypair(p, k))
  }

  ghost predicate Holds(table: Table, i: uint32, entry: IndexTableEntry) {
    i in table && table[i] == entry
  }

  ghost predicate Nonzero(k: Keypair?) {
    k != null ==> k.localIndex != 0
  }

  function Swapped(table: Table, i: uint32, k: Keypair): Table {
    if i in table then table[i := ForKeypair(table[i].peer, k)] else table
  }

  /** The table after a new keypair came in: it replaces the handshake, and the keypairs that the rotation
      pushes out are gone. */
  function Rotated(table: Table, k: Keypair, previous: Keypair?, current: Keypair?, next: Keypair?): Table {
    var pushed := if !k.isInitiator then next else if next != null then current else null;
    Dropped(Dropped(Swapped(table, k.localIndex, k), pushed), previous)
  }

  /** The table without the entries of three keypairs. */
  function Emptied(table: Table, previous: Keypair?, current: Keypair?, next: Keypair?): Table {
    Dropped(Dropped(Dropped(table, previous), current), next)
  }

  /** A step for `p` leaves alone what the table has for anyone else, index 0 apart. */
  ghost predicate OnlyFor(p: Peer, before: Table, after: Table) {
    && (forall i {:trigger i in before} :: i in before && i != 0 && before[i].peer != p ==>
          i in after && after[i] == before[i])
    && (forall i {:trigger i in after} :: i in after && i != 0 && after[i].peer != p ==>
          i in before && after[i] == before[i])
  }

  lemma OthersAgree(before: Table, after: Table, p: Peer, q: Peer, pending: uint32,
                    previous: Keypair?, current: Keypair?, next: Keypair?)
    requires Agrees(before, q, pending, previous, current, next) && OnlyFor(p, before, after) && q != p
    ensures Agrees(after, q, pending, previous, current, next)
  {
  }

  /** The pending index is given up. */
  lemma AbandonAgrees(table: Table, p: Peer, pending: uint32, previous: Keypair?, current: Keypair?, next: Keypair?)
    requires Agrees(table, p, pending, previous, current, next)
    ensures Agrees(table - {pending}, p, 0, previous, current, next) && OnlyFor(p, table, table - {pending})
  {
  }

  /** A free index is taken. */
  lemma EnterAgrees(table: Table, p: Peer, taken: uint32, previous: Keypair?, current: Keypair?, next: Keypair?)
    requires Agrees(table, p, 0, previous, current, next) && taken !in table
    ensures var after := table[taken := ForHandshake(p)];
      Agrees(after, p, taken, previous, current, next) && OnlyFor(p, table, after)
  {
  }

  lemma OnlyForBoth(p: Peer, before: Table, between: Table, after: Table)
    requires OnlyFor(p, before, between) && OnlyFor(p, between, after)
    ensures OnlyFor(p, before, after)
  {
  }

  /** Dropping the keypair of one slot. */
  lemma DropAgrees(table: Table, p: Peer, pending: uint32, gone: Keypair?, kept: Keypair?, kept': Keypair?)
    requires Agrees(table, p, pending, gone, kept, kept')
    requires gone != null ==> gone != kept && gone != kept'
    ensures Agrees(Dropped(table, gone), p, pending, null, kept, kept') && OnlyFor(p, table, Dropped(table, gone))
  {
  }

  /** The slots are a set as far as the table goes. */
  lemma AgreesInAnyOrder(table: Table, p: Peer, pending: uint32, a: Keypair?, b: Keypair?, c: Keypair?)
    requires Agrees(table, p, pending, a, b, c)
    ensures Agrees(table, p, pending, b, a, c) && Agrees(table, p, pending, c, b, a) && Agrees(table, p, pending, b, c, a)
  {
  }

  /** The new keypair takes over the index of the handshake, and two of the old ones go. */
  lemma PromoteAgrees(table: Table, p: Peer, k: Keypair, kept: Keypair?, gone: Keypair?, gone': Keypair?)
    requires Agrees(table, p, k.localIndex, kept, gone, gone')
    requires kept != null ==> kept != gone && kept != gone'
    requires k != kept && k != gone && k != gone'
    ensures var after := Dropped(Dropped(Swapped(table, k.localIndex, k), gone), gone');
      Agrees(after, p, 0, k, kept, null) && OnlyFor(p, table, after)
  {
  }

  /** The indices other than 0 that lead to a peer. */
  ghost function EntriesOf(table: Table, p: Peer): set<uint32> {
    set i | i in table && i != 0 && table[i].peer == p
  }

  function IndexOf(k: Keypair?): uint32 {
    if k == null then 0 else k.localIndex
  }

  /** They are exactly the indices that the peer holds, at most four. */
  lemma EntriesOfPeer(table: Table, p: Peer, pending: uint32, previous: Keypair?, current: Keypair?, next: Keypair?)
    requires Agrees(table, p, pending, previous, current, next)
    ensures EntriesOf(table, p) == {pending, IndexOf(previous), IndexOf(current), IndexOf(next)} - {0}
    ensures |EntriesOf(table, p)| <= 4
  {
    assert EntriesOf(table, p) == {pending, IndexOf(previous), IndexOf(current), IndexOf(next)} - {0};
    AtMostFour(pending, IndexOf(previous), IndexOf(current), IndexOf(next));
  }

  lemma AtMostFour(a: uint32, b: uint32, c: uint32, d: uint32)
    ensures |{a, b, c, d} - {0}| <= 4
  {
    var held := {a, b, c, d};
    assert held == (held - {0}) + (held * {0});
  }

  /** Two keypairs in slots never share an index other than 0. */
  lemma IndicesDistinct(table: Table, p: Peer, q: Peer, k: Keypair, l: Keypair)
    requires Listed(table, p, k) && Listed(table, q, l) && k.localIndex != 0
    ensures k.localIndex == l.localIndex <==> k == l
    ensures k == l ==> p == q
  {
  }

  function Slot(k: Keypair?): set<Keypair> {
    if k == null then {} else {k}
  }

  /** A handshake that is under way has an index, one that is not has none. */
  ghost predicate Settled(h: Handshake, zeroDrawn: bool) {
    && (h.state == Zeroed ==> h.localIndex == 0)
    && (h.state == InitiationCreated || h.state == ResponseCreated || h.state == ResponseConsumed ==>
          h.localIndex != 0 || zeroDrawn)
  }

  /** The handshake record of a new peer. */
  function NewHandshake(suite: Suite, privateKey: Blob, pk: Blob, psk: Blob): Handshake {
    Handshake(Zeroed, ZeroKey(), ZeroKey(), psk, ZeroKey(), 0, 0, pk, ZeroKey(), suite.Multiply(privateKey, pk),
              ZeroTimestamp(), None)
  }

  class Peer {
    const device: Device
    var isRunning: bool
    var handshake: Handshake
    var previous: Keypair?
    var current: Keypair?
    var next: Keypair?
    /** Every initiation accepted from this peer. */
    ghost var accepted: seq<Acceptance>
    /** Every keypair that a packet was received with. */
    ghost var receivedWith: set<Keypair>

    constructor (device: Device, handshake: Handshake)
      ensures this.device == device && this.handshake == handshake && !isRunning
      ensures previous == null && current == null && next == null && accepted == []
    {
      this.device, this.handshake, isRunning := device, handshake, false;
      previous, current, next, accepted, receivedWith := null, null, null, [], {};
    }

    /** What every step keeps of one peer. */
    ghost predicate Valid(table: Table, zeroDrawn: bool)
      reads this
    {
      && Slots() && Remembers(handshake, accepted) && Settled(handshake, zeroDrawn)
      && Agrees(table, this, handshake.localIndex, previous, current, next)
      && (!zeroDrawn ==> Nonzero(previous) && Nonzero(current) && Nonzero(next))
    }

    /** The slots: never one keypair twice; only a responder's keypair waits in `next`, and it gets
        past it to `current` only when a packet was received with it. */
    ghost predicate Slots()
      reads this
    {
      && (previous != null ==> previous != current && previous != next)
      && (current != null ==> current != next)
      && (next != null ==> !next.isInitiator)
      && (current != null && !current.isInitiator ==> current in receivedWith)
    }
  }

  class Device {
    const suite: Suite
    const privateKey: Blob
    const indexTable: IndexTable
    var keyMap: map<Blob, Peer>
    /** Every peer ever created, removed or not. */
    ghost var peers: set<Peer>

    constructor (suite: Suite, privateKey: Blob)
      ensures Valid() && keyMap == map[] && peers == {} && fresh(indexTable)
      ensures this.suite == suite && this.privateKey == privateKey
      ensures indexTable.table == map[] && !indexTable.zeroDrawn
    {
      this.suite, this.privateKey := suite, privateKey;
      indexTable := new IndexTable();
      keyMap, peers := map[], {};
    }

    // -------------------------------------------------------------------------------------------
    // What every step keeps
    // -------------------------------------------------------------------------------------------

    ghost predicate Valid()
      reads this, indexTable, peers
    {
      && (forall k :: k in keyMap ==> keyMap[k] in peers)
      && (forall p :: p in peers ==> p.device == this && p.Valid(indexTable.table, indexTable.zeroDrawn))
      && TableValid()
    }

    /** Every entry has a peer, and 0 is an index only if it was drawn. */
    ghost predicate TableValid()
      reads this, indexTable
    {
      && (forall i {:trigger i in indexTable.table} :: i in indexTable.table ==> indexTable.table[i].peer in peers)
      && (!indexTable.zeroDrawn ==> 0 !in indexTable.table)
    }

    /** A step for one peer has to answer for that peer only. */
    twostate lemma OthersStay(p: Peer)
      requires old(Valid()) && p in peers && p.Valid(indexTable.table, indexTable.zeroDrawn) && TableValid()
      requires keyMap == old(keyMap) && peers == old(peers) && unchanged(peers - {p})
      requires OnlyFor(p, old(indexTable.table), indexTable.table)
      requires old(indexTable.zeroDrawn) ==> indexTable.zeroDrawn
      ensures Valid()
    {
      forall q | q in peers && q != p
        ensures q.Valid(indexTable.table, indexTable.zeroDrawn)
      {
        assert old(q.Valid(indexTable.table, indexTable.zeroDrawn));
        OthersAgree(old(indexTable.table), indexTable.table, p, q, q.handshake.localIndex,
                    q.previous, q.current, q.next);
      }
    }

    // -------------------------------------------------------------------------------------------
    // Handlers
    // -------------------------------------------------------------------------------------------

    method CreateMessageInitiation(peer: Peer, ephemeral: Blob, now: Timestamp, draws: seq<uint32>)
      returns (msg: Option<MessageInitiation>)
      requires Valid() && peer in peers
      requires Supplies(draws, indexTable.table - {peer.handshake.localIndex})
      modifies indexTable, peer`handshake
      ensures Valid()
      ensures match msg
        case None =>
          && CreateInitiation(suite, privateKey, old(peer.handshake), ephemeral, now, 0) == Failed(peer.handshake)
          && indexTable.table == old(indexTable.table) && indexTable.zeroDrawn == old(indexTable.zeroDrawn)
        case Some(m) =>
          && CreateInitiation(suite, privateKey, old(peer.handshake), ephemeral, now, m.sender)
             == Sent(peer.handshake, m)
          && Renewed(old(indexTable.table), old(peer.handshake).localIndex, m.sender, draws, peer, indexTable.table)
          && indexTable.zeroDrawn == (old(indexTable.zeroDrawn) || m.sender == 0)
    {
      var made := BuildInitiation(peer.handshake, ephemeral, now);
      if made.Failed? {
        peer.handshake := made.h;
        OthersStay(peer);
        return None;
      }
      var sender := Renew(peer, draws);
      Keep(peer, made.h.(localIndex := sender));
      OthersStay(peer);
      return Some(made.message.(sender := sender));
    }

    /** The cryptographic part, up to the index. */
    method BuildInitiation(was: Handshake, ephemeral: Blob, now: Timestamp) returns (made: Outcome<MessageInitiation>)
      ensures made == CreateInitiation(suite, privateKey, was, ephemeral, now, 0)
      ensures made.h.lastTimestamp == was.lastTimestamp
      ensures made.h.lastInitiationConsumption == was.lastInitiationConsumption
      ensures made.Sent? ==> made.h.state == InitiationCreated
    {
      var h := was.(hash := suite.InitialHash(), chainKey := suite.InitialChainKey(), localEphemeral := ephemeral);
      h := h.(hash := suite.MixHash(h.hash, h.remoteStatic));
      var e := suite.Public(ephemeral);
      h := h.(chainKey := suite.MixKey(h.chainKey, e), hash := suite.MixHash(h.hash, e));

      var es := suite.SharedSecret(ephemeral, h.remoteStatic);
      if es.None? {
        return Failed(h);
      }
      var keys := suite.Kdf(h.chainKey, es.value);
      var identity := suite.Seal(keys.t1, suite.Public(privateKey), h.hash);
      h := h.(chainKey := keys.t0, hash := suite.MixHash(h.hash, identity));

      if IsZero(h.precomputedStaticStatic) {
        return Failed(h);
      }
      keys := suite.Kdf(h.chainKey, h.precomputedStaticStatic);
      var timestamp := suite.Seal(keys.t1, now, h.hash);
      h := h.(chainKey := keys.t0, hash := suite.MixHash(h.hash, timestamp), localIndex := 0,
              state := InitiationCreated);
      return Sent(h, MessageInitiation(0, e, identity, timestamp));
    }

    /** Gives up the index of the handshake, if it has one, and takes a new one. */
    method Renew(peer: Peer, draws: seq<uint32>) returns (index: uint32)
      requires peer in peers && TableValid() && Supplies(draws, indexTable.table - {peer.handshake.localIndex})
      requires Agrees(indexTable.table, peer, peer.handshake.localIndex, peer.previous, peer.current, peer.next)
      modifies indexTable
      ensures TableValid() && OnlyFor(peer, old(indexTable.table), indexTable.table)
      ensures Agrees(indexTable.table, peer, index, peer.previous, peer.current, peer.next)
      ensures Renewed(old(indexTable.table), peer.handshake.localIndex, index, draws, peer, indexTable.table)
      ensures indexTable.zeroDrawn == (old(indexTable.zeroDrawn) || index == 0)
    {
      AbandonAgrees(indexTable.table, peer, peer.handshake.localIndex, peer.previous, peer.current, peer.next);
      indexTable.Delete(peer.handshake.localIndex);
      ghost var between := indexTable.table;
      index := indexTable.NewIndexForHandshake(peer, draws);
      EnterAgrees(between, peer, index, peer.previous, peer.current, peer.next);
      OnlyForBoth(peer, old(indexTable.table), between, indexTable.table);
    }

    /** The device finds the peer by the static key in the message. */
    method ConsumeMessageInitiation(msg: MessageInitiation, checked: int, updated: int) returns (peer: Peer?)
      requires Valid() && checked <= updated
      modifies (set p | p in peers)`handshake, (set p | p in peers)`accepted
      ensures Valid()
      ensures peer != null <==> Addressee(msg) != null && ConsumeInitiation(
        suite, privateKey, old(Addressee(msg).handshake), msg, checked, updated).Some?
      ensures peer != null ==>
        && peer == Addressee(msg)
        && ConsumeInitiation(suite, privateKey, old(peer.handshake), msg, checked, updated) == Some(peer.handshake)
        && peer.accepted == old(peer.accepted) + [Acceptance(peer.handshake.lastTimestamp, updated)]
      ensures forall p :: p in peers && p != peer ==>
        p.handshake == old(p.handshake) && p.accepted == old(p.accepted)
    {
      var from := OpenIdentity(msg);
      if from.None? || from.value !in keyMap || !keyMap[from.value].isRunning {
        return null;
      }
      var h := OpenInitiation(keyMap[from.value].handshake, msg, checked, updated);
      if h.None? {
        return null;
      }
      peer := keyMap[from.value];
      AcceptanceSpaced(suite, privateKey, peer.handshake, msg, checked, updated, peer.accepted);
      Accept(peer, h.value, updated);
    }

    method Accept(peer: Peer, h: Handshake, updated: int)
      requires Valid() && peer in peers && h.localIndex == peer.handshake.localIndex && h.state == InitiationConsumed
      requires Remembers(h, peer.accepted + [Acceptance(h.lastTimestamp, updated)])
      modifies peer`handshake, peer`accepted
      ensures Valid()
      ensures peer.handshake == h && peer.accepted == old(peer.accepted) + [Acceptance(h.lastTimestamp, updated)]
    {
      peer.handshake := h;
      peer.accepted := peer.accepted + [Acceptance(h.lastTimestamp, updated)];
      OthersStay(peer);
    }

    /** The running peer whose static key the message carries. */
    function Addressee(msg: MessageInitiation): Peer?
      reads this, keyMap.Values
    {
      var from := Sender(suite, privateKey, msg);
      if from.Some? && from.value in keyMap && keyMap[from.value].isRunning then keyMap[from.value] else null
    }

    method OpenIdentity(msg: MessageInitiation) returns (from: Option<Blob>)
      ensures from == Sender(suite, privateKey, msg)
    {
      var hash := suite.MixHash(suite.InitialHash(), suite.Public(privateKey));
      hash := suite.MixHash(hash, msg.ephemeral);
      var chainKey := suite.MixKey(suite.InitialChainKey(), msg.ephemeral);
      var es := suite.SharedSecret(privateKey, msg.ephemeral);
      if es.None? {
        return None;
      }
      var keys := suite.Kdf(chainKey, es.value);
      return suite.Open(keys.t1, msg.identity, hash);
    }

    method OpenInitiation(was: Handshake, msg: MessageInitiation, checked: int, updated: int)
      returns (h: Option<Handshake>)
      ensures h == ConsumeInitiation(suite, privateKey, was, msg, checked, updated)
    {
      var hash := suite.MixHash(suite.InitialHash(), suite.Public(privateKey));
      hash := suite.MixHash(hash, msg.ephemeral);
      var chainKey := suite.MixKey(suite.InitialChainKey(), msg.ephemeral);
      var es := suite.SharedSecret(privateKey, msg.ephemeral);
      if es.None? {
        return None;
      }
      chainKey := suite.Kdf(chainKey, es.value).t0;
      hash := suite.MixHash(hash, msg.identity);

      if IsZero(was.precomputedStaticStatic) {
        return None;
      }
      var keys := suite.Kdf(chainKey, was.precomputedStaticStatic);
      var timestamp := suite.Open(keys.t1, msg.timestamp, hash);
      if timestamp.None? {
        return None;
      }
      hash := suite.MixHash(hash, msg.timestamp);

      var replay := !After(timestamp.value, was.lastTimestamp);
      if replay || Flood(was, checked) {
        return None;
      }
      var g := was.(hash := hash, chainKey := keys.t0, remoteIndex := msg.sender, remoteEphemeral := msg.ephemeral);
      if After(timestamp.value, g.lastTimestamp) {
        g := g.(lastTimestamp := timestamp.value);
      }
      g := g.(lastInitiationConsumption := Some(Later(g, updated)));
      return Some(g.(state := InitiationConsumed));
    }

    method CreateMessageResponse(peer: Peer, ephemeral: Blob, draws: seq<uint32>)
      returns (msg: Option<MessageResponse>)
      requires Valid() && peer in peers
      requires Supplies(draws, indexTable.table - {peer.handshake.localIndex})
      modifies indexTable, peer`handshake
      ensures Valid()
      ensures old(peer.handshake).state != InitiationConsumed ==>
        msg == None && indexTable.table == old(indexTable.table) && peer.handshake == old(peer.handshake)
        && indexTable.zeroDrawn == old(indexTable.zeroDrawn)
      ensures old(peer.handshake).state == InitiationConsumed ==>
        var index := peer.handshake.localIndex;
        && Renewed(old(indexTable.table), old(peer.handshake).localIndex, index, draws, peer, indexTable.table)
        && indexTable.zeroDrawn == (old(indexTable.zeroDrawn) || index == 0)
        && CreateResponse(suite, old(peer.handshake), ephemeral, index)
           == if msg.Some? then Sent(peer.handshake, msg.value) else Failed(peer.handshake)
    {
      if peer.handshake.state != InitiationConsumed {
        return None;
      }
      msg := Respond(peer, ephemeral, draws);
    }

    method Respond(peer: Peer, ephemeral: Blob, draws: seq<uint32>) returns (msg: Option<MessageResponse>)
      requires Valid() && peer in peers && peer.handshake.state == InitiationConsumed
      requires Supplies(draws, indexTable.table - {peer.handshake.localIndex})
      modifies indexTable, peer`handshake
      ensures Valid()
      ensures Renewed(old(indexTable.table), old(peer.handshake).localIndex, peer.handshake.localIndex, draws, peer,
                      indexTable.table)
      ensures indexTable.zeroDrawn == (old(indexTable.zeroDrawn) || peer.handshake.localIndex == 0)
      ensures CreateResponse(suite, old(peer.handshake), ephemeral, peer.handshake.localIndex)
           == if msg.Some? then Sent(peer.handshake, msg.value) else Failed(peer.handshake)
    {
      var sender := Renew(peer, draws);
      var made := BuildResponse(peer.handshake, ephemeral, sender);
      Keep(peer, made.h);
      OthersStay(peer);
      return if made.Sent? then Some(made.message) else None;
    }

    /** Stores the record under the index that was just taken. */
    method Keep(peer: Peer, h: Handshake)
      requires peer in peers && peer.Slots() && Remembers(peer.handshake, peer.accepted)
      requires h.lastTimestamp == peer.handshake.lastTimestamp
      requires h.lastInitiationConsumption == peer.handshake.lastInitiationConsumption
      requires h.state != Zeroed && (h.localIndex != 0 || indexTable.zeroDrawn)
      requires Agrees(indexTable.table, peer, h.localIndex, peer.previous, peer.current, peer.next)
      requires !indexTable.zeroDrawn ==> Nonzero(peer.previous) && Nonzero(peer.current) && Nonzero(peer.next)
      modifies peer`handshake
      ensures peer.handshake == h && peer.Valid(indexTable.table, indexTable.zeroDrawn)
    {
      peer.handshake := h;
    }

    /** The cryptographic part, after the index. */
    method BuildResponse(was: Handshake, ephemeral: Blob, sender: uint32) returns (made: Outcome<MessageResponse>)
      requires was.state == InitiationConsumed
      ensures made == CreateResponse(suite, was, ephemeral, sender)
      ensures made.h.localIndex == sender && (made.h.state == InitiationConsumed || made.h.state == ResponseCreated)
      ensures made.h.lastTimestamp == was.lastTimestamp
      ensures made.h.lastInitiationConsumption == was.lastInitiationConsumption
    {
      var h := was.(localIndex := sender, localEphemeral := ephemeral);
      var e := suite.Public(ephemeral);
      h := h.(hash := suite.MixHash(h.hash, e), chainKey := suite.MixKey(h.chainKey, e));

      var ee := suite.SharedSecret(ephemeral, h.remoteEphemeral);
      if ee.None? {
        return Failed(h);
      }
      h := h.(chainKey := suite.MixKey(h.chainKey, ee.value));
      var se := suite.SharedSecret(ephemeral, h.remoteStatic);
      if se.None? {
        return Failed(h);
      }
      h := h.(chainKey := suite.MixKey(h.chainKey, se.value));

      var keys := suite.Kdf(h.chainKey, h.presharedKey);
      h := h.(chainKey := keys.t0, hash := suite.MixHash(h.hash, keys.t1));
      var empty := suite.Seal(keys.t2, [], h.hash);
      h := h.(hash := suite.MixHash(h.hash, empty), state := ResponseCreated);
      return Sent(h, MessageResponse(h.localIndex, h.remoteIndex, e, empty));
    }

    /** The device finds the peer by the receiver index. */
    method ConsumeMessageResponse(msg: MessageResponse) returns (peer: Peer?)
      requires Valid()
      modifies (set p | p in peers)`handshake
      ensures Valid()
      ensures peer != null <==> Awaiting(msg) != null && ConsumeResponse(
        suite, privateKey, old(Awaiting(msg).handshake), msg).Some?
      ensures peer != null ==>
        && peer == Awaiting(msg)
        && ConsumeResponse(suite, privateKey, old(peer.handshake), msg) == Some(peer.handshake)
      ensures forall p :: p in peers && p != peer ==> p.handshake == old(p.handshake)
    {
      if msg.receiver !in indexTable.table || !indexTable.table[msg.receiver].ForHandshake? {
        return null;
      }
      var h := OpenResponse(indexTable.table[msg.receiver].peer.handshake, msg);
      if h.None? {
        return null;
      }
      peer := indexTable.table[msg.receiver].peer;
      peer.handshake := h.value;
      OthersStay(peer);
    }

    /** The peer whose handshake is under the receiver index. */
    function Awaiting(msg: MessageResponse): Peer?
      reads this, indexTable
    {
      if msg.receiver in indexTable.table && indexTable.table[msg.receiver].ForHandshake?
      then indexTable.table[msg.receiver].peer else null
    }

    method OpenResponse(h: Handshake, msg: MessageResponse) returns (g: Option<Handshake>)
      ensures g == ConsumeResponse(suite, privateKey, h, msg)
    {
      if h.state != InitiationCreated {
        return None;
      }
      var hash := suite.MixHash(h.hash, msg.ephemeral);
      var chainKey := suite.MixKey(h.chainKey, msg.ephemeral);
      var ee := suite.SharedSecret(h.localEphemeral, msg.ephemeral);
      if ee.None? {
        return None;
      }
      chainKey := suite.MixKey(chainKey, ee.value);
      var se := suite.SharedSecret(privateKey, msg.ephemeral);
      if se.None? {
        return None;
      }
      chainKey := suite.MixKey(chainKey, se.value);

      var keys := suite.Kdf(chainKey, h.presharedKey);
      hash := suite.MixHash(hash, keys.t1);
      if suite.Open(keys.t2, msg.empty, hash).None? {
        return None;
      }
      hash := suite.MixHash(hash, msg.empty);
      return Some(h.(hash := hash, chainKey := keys.t0, remoteIndex := msg.sender, state := ResponseConsumed));
    }

    /** Derives the keypair of a finished handshake and rotates the slots. */
    method BeginSymmetricSession(peer: Peer) returns (ok: bool)
      requires Valid() && peer in peers
      modifies indexTable`table, peer`handshake, peer`previous, peer`current, peer`next
      ensures Valid()
      ensures ok == Finished(old(peer.handshake))
      ensures !ok ==>
        && indexTable.table == old(indexTable.table) && peer.handshake == old(peer.handshake)
        && peer.previous == old(peer.previous) && peer.current == old(peer.current) && peer.next == old(peer.next)
      ensures ok ==>
        && peer.handshake == Spent(old(peer.handshake))
        && var session := Derive(suite, old(peer.handshake));
           var keypair := if session.isInitiator then peer.current else peer.next;
        && keypair != null && fresh(keypair) && keypair.AsSession() == session && keypair.sendNonce == 0
        && indexTable.table
           == Rotated(old(indexTable.table), keypair, old(peer.previous), old(peer.current), old(peer.next))
        && if session.isInitiator
           then peer.next == null
                && peer.previous == (if old(peer.next) != null then old(peer.next) else old(peer.current))
           else peer.previous == null && peer.current == old(peer.current)
    {
      if !Finished(peer.handshake) {
        return false;
      }
      var keypair := new Keypair(Derive(suite, peer.handshake));
      Begin(peer, keypair);
      return true;
    }

    /** The keypair takes over the index of the handshake and gets a slot. */
    method Begin(peer: Peer, keypair: Keypair)
      requires Valid() && peer in peers && Finished(peer.handshake)
      requires keypair.localIndex == peer.handshake.localIndex
      requires keypair != peer.previous && keypair != peer.current && keypair != peer.next
      modifies indexTable`table, peer`handshake, peer`previous, peer`current, peer`next
      ensures Valid() && peer.handshake == Spent(old(peer.handshake))
      ensures indexTable.table
           == Rotated(old(indexTable.table), keypair, old(peer.previous), old(peer.current), old(peer.next))
      ensures if keypair.isInitiator
        then peer.current == keypair && peer.next == null
             && peer.previous == (if old(peer.next) != null then old(peer.next) else old(peer.current))
        else peer.next == keypair && peer.previous == null && peer.current == old(peer.current)
    {
      indexTable.SwapIndexForKeypair(keypair.localIndex, keypair);
      peer.handshake := Spent(peer.handshake);
      Rotate(peer, keypair, old(indexTable.table));
      OthersStay(peer);
    }

    /** Puts the new keypair into its slot. */
    method Rotate(peer: Peer, keypair: Keypair, ghost was: Table)
      requires peer in peers && peer.Slots() && TableValid()
      requires keypair != peer.previous && keypair != peer.current && keypair != peer.next
      requires Agrees(was, peer, keypair.localIndex, peer.previous, peer.current, peer.next)
      requires indexTable.table == Swapped(was, keypair.localIndex, keypair)
      modifies indexTable`table, peer`previous, peer`current, peer`next
      ensures indexTable.table == Rotated(was, keypair, old(peer.previous), old(peer.current), old(peer.next))
      ensures peer.Slots() && TableValid() && OnlyFor(peer, was, indexTable.table)
      ensures Agrees(indexTable.table, peer, 0, peer.previous, peer.current, peer.next)
      ensures if keypair.isInitiator
        then peer.current == keypair && peer.next == null
             && peer.previous == (if old(peer.next) != null then old(peer.next) else old(peer.current))
        else peer.next == keypair && peer.previous == null && peer.current == old(peer.current)
    {
      var previous, next, current := peer.previous, peer.next, peer.current;
      if keypair.isInitiator {
        if next != null {
          peer.next := null;
          peer.previous := next;
          indexTable.DeleteKeypair(current);
          PromoteAgrees(was, peer, keypair, next, current, previous);
        } else {
          peer.previous := current;
          PromoteAgrees(was, peer, keypair, current, null, previous);
        }
        indexTable.DeleteKeypair(previous);
        peer.current := keypair;
        AgreesInAnyOrder(indexTable.table, peer, 0, keypair, peer.previous, null);
      } else {
        peer.next := keypair;
        indexTable.DeleteKeypair(next);
        peer.previous := null;
        indexTable.DeleteKeypair(previous);
        PromoteAgrees(was, peer, keypair, current, next, previous);
        AgreesInAnyOrder(indexTable.table, peer, 0, keypair, current, null);
      }
    }

    method ReceivedWithKeypair(peer: Peer, receivedKeypair: Keypair) returns (ok: bool)
      requires Valid() && peer in peers
      modifies indexTable`table, peer`previous, peer`current, peer`next, peer`receivedWith
      ensures Valid()
      ensures ok == (old(peer.next) == receivedKeypair)
      ensures peer.receivedWith == old(peer.receivedWith) + {receivedKeypair}
      ensures if ok
        then peer.current == receivedKeypair && peer.previous == old(peer.current) && peer.next == null
             && indexTable.table == Dropped(old(indexTable.table), old(peer.previous))
        else peer.current == old(peer.current) && peer.previous == old(peer.previous)
             && peer.next == old(peer.next) && indexTable.table == old(indexTable.table)
    {
      peer.receivedWith := peer.receivedWith + {receivedKeypair};
      if peer.next != receivedKeypair {
        OthersStay(peer);
        return false;
      }
      var retired := peer.previous;
      DropAgrees(indexTable.table, peer, peer.handshake.localIndex, retired, peer.current, peer.next);
      peer.previous := peer.current;
      indexTable.DeleteKeypair(retired);
      AgreesInAnyOrder(indexTable.table, peer, peer.handshake.localIndex, null, peer.current, peer.next);
      peer.current := peer.next;
      peer.next := null;
      OthersStay(peer);
      return true;
    }

    method ZeroAndFlushAll(peer: Peer)
      requires Valid() && peer in peers
      modifies indexTable`table, peer`handshake, peer`previous, peer`current, peer`next
      ensures Valid()
      ensures peer.previous == null && peer.current == null && peer.next == null
      ensures peer.handshake == old(peer.handshake).Clear()
      ensures indexTable.table
           == Emptied(old(indexTable.table), old(peer.previous), old(peer.current), old(peer.next))
              - {old(peer.handshake).localIndex}
    {
      FlushKeypairs(peer);
      ClearHandshake(peer);
    }

    method FlushKeypairs(peer: Peer)
      requires Valid() && peer in peers
      modifies indexTable`table, peer`previous, peer`current, peer`next
      ensures Valid()
      ensures peer.previous == null && peer.current == null && peer.next == null
      ensures indexTable.table
           == Emptied(old(indexTable.table), old(peer.previous), old(peer.current), old(peer.next))
    {
      DropSlots(peer);
      peer.previous, peer.current, peer.next := null, null, null;
      OthersStay(peer);
    }

    method DropSlots(peer: Peer)
      requires peer in peers && peer.Slots() && TableValid()
      requires Agrees(indexTable.table, peer, peer.handshake.localIndex, peer.previous, peer.current, peer.next)
      modifies indexTable`table
      ensures TableValid() && OnlyFor(peer, old(indexTable.table), indexTable.table)
      ensures Agrees(indexTable.table, peer, peer.handshake.localIndex, null, null, null)
      ensures indexTable.table == Emptied(old(indexTable.table), peer.previous, peer.current, peer.next)
    {
      var pending := peer.handshake.localIndex;
      DropAgrees(indexTable.table, peer, pending, peer.previous, peer.current, peer.next);
      indexTable.DeleteKeypair(peer.previous);
      AgreesInAnyOrder(indexTable.table, peer, pending, null, peer.current, peer.next);
      DropAgrees(indexTable.table, peer, pending, peer.current, null, peer.next);
      indexTable.DeleteKeypair(peer.current);
      AgreesInAnyOrder(indexTable.table, peer, pending, null, null, peer.next);
      DropAgrees(indexTable.table, peer, pending, peer.next, null, null);
      indexTable.DeleteKeypair(peer.next);
    }

    /** The keypairs that could send are made to refuse; they stay where they are. */
    method ExpireCurrentKeypairs(peer: Peer)
      requires Valid() && peer in peers
      modifies indexTable`table, peer`handshake, Slot(peer.current), Slot(peer.next)
      ensures Valid()
      ensures peer.handshake == old(peer.handshake).Clear()
      ensures indexTable.table == old(indexTable.table) - {old(peer.handshake.localIndex)}
      ensures peer.current != null ==> peer.current.sendNonce == REJECT_AFTER_MESSAGES
      ensures peer.next != null ==> peer.next.sendNonce == REJECT_AFTER_MESSAGES
    {
      ClearHandshake(peer);
      if peer.current != null {
        peer.current.sendNonce := REJECT_AFTER_MESSAGES;
      }
      if peer.next != null {
        peer.next.sendNonce := REJECT_AFTER_MESSAGES;
      }
    }

    method ClearHandshake(peer: Peer)
      requires Valid() && peer in peers
      modifies indexTable`table, peer`handshake
      ensures Valid()
      ensures peer.handshake == old(peer.handshake).Clear()
      ensures indexTable.table == old(indexTable.table) - {old(peer.handshake.localIndex)}
    {
      AbandonAgrees(indexTable.table, peer, peer.handshake.localIndex, peer.previous, peer.current, peer.next);
      indexTable.Delete(peer.handshake.localIndex);
      peer.handshake := peer.handshake.Clear();
      OthersStay(peer);
    }

    // -------------------------------------------------------------------------------------------
    // Peers come and go
    // -------------------------------------------------------------------------------------------

    /** `closed` tells whether the device is closed. */
    method NewPeer(pk: Blob, psk: Blob, closed: bool) returns (peer: Peer?)
      requires Valid()
      modifies this`keyMap, this`peers
      ensures Valid()
      ensures peer != null <==> !closed && |old(keyMap)| < MAX_PEERS && pk !in old(keyMap)
      ensures peer == null ==> keyMap == old(keyMap) && peers == old(peers)
      ensures peer != null ==>
        && fresh(peer) && keyMap == old(keyMap)[pk := peer] && peers == old(peers) + {peer}
        && peer.handshake == NewHandshake(suite, privateKey, pk, psk) && !peer.isRunning
        && peer.previous == null && peer.current == null && peer.next == null && peer.accepted == []
    {
      if closed || |keyMap| >= MAX_PEERS || pk in keyMap {
        return null;
      }
      peer := new Peer(this, NewHandshake(suite, privateKey, pk, psk));
      keyMap := keyMap[pk := peer];
      peers := peers + {peer};
      Joined(peer);
    }

    method Start(peer: Peer, closed: bool)
      requires Valid() && peer in peers
      modifies peer`isRunning
      ensures Valid() && peer.isRunning == (old(peer.isRunning) || !closed)
    {
      if !closed && !peer.isRunning {
        SetRunning(peer, true);
      }
    }

    twostate lemma Joined(new p: Peer)
      requires old(Valid()) && p !in old(peers) && peers == old(peers) + {p} && unchanged(old(peers), indexTable)
      requires forall k :: k in keyMap ==> (k in old(keyMap) && keyMap[k] == old(keyMap)[k]) || keyMap[k] == p
      requires forall q :: q in old(peers) ==> old(allocated(q))
      requires p.device == this && p.previous == null && p.current == null && p.next == null && p.accepted == []
      requires p.handshake.state == Zeroed && p.handshake.localIndex == 0
      requires p.handshake.lastInitiationConsumption == None
      ensures Valid()
    {
      forall q | q in old(peers)
        ensures q.Valid(indexTable.table, indexTable.zeroDrawn)
      {
        assert old(q.Valid(indexTable.table, indexTable.zeroDrawn));
      }
    }

    method Stop(peer: Peer)
      requires Valid() && peer in peers
      modifies indexTable`table, peer
      ensures Valid() && !peer.isRunning
    {
      if peer.isRunning {
        SetRunning(peer, false);
        ZeroAndFlushAll(peer);
      }
    }

    method SetRunning(peer: Peer, running: bool)
      requires Valid() && peer in peers
      modifies peer`isRunning
      ensures Valid() && peer.isRunning == running
    {
      peer.isRunning := running;
      OthersStay(peer);
    }

    method RemovePeer(pk: Blob)
      requires Valid()
      modifies this`keyMap, indexTable`table, if pk in keyMap then {keyMap[pk]} else {}
      ensures Valid() && keyMap == old(keyMap) - {pk}
      ensures pk in old(keyMap) ==> !old(keyMap)[pk].isRunning
    {
      if pk in keyMap {
        Stop(keyMap[pk]);
        Forget(pk);
      }
    }

    method Forget(pk: Blob)
      requires Valid()
      modifies this`keyMap
      ensures Valid() && keyMap == old(keyMap) - {pk}
    {
      keyMap := keyMap - {pk};
    }
  }

  // ---------------------------------------------------------------------------------------------
  // Why 0 must not be drawn
  // ---------------------------------------------------------------------------------------------

  /** Primitives that keep nothing secret, but open what they seal. */
  function Transparent(): Suite {
    Suite(data => [], (key, data) => [], sk => [1], (sk, pk) => [1], (key, text, ad) => text, (key, box, ad) => Some(box))
  }

  lemma TransparentSound()
    ensures Sound(Transparent())
  {
  }

  lemma TransparentInitiation(h: Handshake, ephemeral: Blob, now: Timestamp)
    requires h.precomputedStaticStatic == [1]
    ensures var made := CreateInitiation(Transparent(), [2], h, ephemeral, now, 0);
      made.Sent? && made.h.state == InitiationCreated && made.h.localIndex == 0
  {
    OneIsNotZero();
  }

  lemma OneIsNotZero()
    ensures !IsZero([1])
  {
    var one: Blob := [1];
    assert one[0] == 1;
  }

  lemma TransparentResponse(h: Handshake, m: MessageResponse)
    requires h.state == InitiationCreated
    ensures var got := ConsumeResponse(Transparent(), [2], h, m);
      got.Some? && got.value.state == ResponseConsumed && got.value.localIndex == h.localIndex
  {
    OneIsNotZero();
  }

  method TwoPeers() returns (d: Device, p: Peer, q: Peer)
    ensures fresh(d) && fresh(d.indexTable) && fresh(p) && fresh(q) && d.Valid() && d.peers == {p, q} && p != q
    ensures d.suite == Transparent() && d.privateKey == [2] && d.indexTable.table == map[]
    ensures Idle(p) && Idle(q)
  {
    d := new Device(Transparent(), [2]);
    p := d.NewPeer([3], [], false);
    q := d.NewPeer([4], [], false);
  }

  ghost predicate Idle(p: Peer)
    reads p
  {
    p.handshake.localIndex == 0 && p.handshake.precomputedStaticStatic == [1]
    && p.previous == null && p.current == null && p.next == null
  }

  /** The peer gives up index 0, which it does not have, and draws it. */
  method DrawZero(d: Device, p: Peer)
    requires d.Valid() && d.suite == Transparent() && d.privateKey == [2] && p in d.peers && Idle(p)
    requires d.indexTable.table.Keys <= {0}
    modifies d.indexTable, p`handshake
    ensures d.Valid() && d.indexTable.table == map[0 := ForHandshake(p)]
    ensures p.handshake.state == InitiationCreated && p.handshake.localIndex == 0
  {
    assert 0 !in d.indexTable.table - {0} && [0][0] == 0;
    TransparentInitiation(p.handshake, [5], [6]);
    var msg := d.CreateMessageInitiation(p, [5], [6], [0]);
  }

  /** A run of a new device with two peers.  `p` draws 0 for its handshake, which completes; `q`, idle, takes 0 for
      the index it has to give up, and draws it too; and then the keypair of `p` comes under the entry of `q`. */
  method IndexZeroMixesPeers() returns (d: Device, p: Peer, q: Peer)
    ensures fresh(d) && fresh(p) && fresh(q) && d.Valid() && p in d.peers && q in d.peers && p != q
    ensures p.current != null && Holds(d.indexTable.table, p.current.localIndex, ForKeypair(q, p.current))
    ensures Sound(d.suite)
  {
    d, p, q := TwoPeers();
    TransparentSound();
    DrawZero(d, p);
    CompleteZero(d, p);
    DrawZero(d, q);
    var ok := d.BeginSymmetricSession(p);
    assert p.current.localIndex == 0 && p.current.isInitiator;
  }

  /** A response arrives for index 0. */
  method CompleteZero(d: Device, p: Peer)
    requires d.Valid() && d.suite == Transparent() && d.privateKey == [2] && p in d.peers
    requires d.indexTable.table == map[0 := ForHandshake(p)]
    requires p.handshake.state == InitiationCreated && p.handshake.localIndex == 0
    modifies d.peers`handshake
    ensures d.Valid() && p.handshake.state == ResponseConsumed && p.handshake.localIndex == 0
    ensures forall q :: q in d.peers && q != p ==> q.handshake == old(q.handshake)
  {
    var msg := MessageResponse(7, 0, [8], []);
    TransparentResponse(p.handshake, msg);
    var consumed := d.ConsumeMessageResponse(msg);
  }
}

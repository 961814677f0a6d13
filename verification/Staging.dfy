/** How device/send.go turns one staged container into one to send and one to stage again, in place. */
module Staging {
  import opened Constants
  import opened Nonces

  const QUEUE_STAGED_SIZE := 128

  datatype Element = Element(packet: int, nonce: nat)

  function Numbered(elems: seq<Element>, nonces: seq<nat>): seq<Element>
    requires |elems| == |nonces|
  {
    seq(|elems|, k requires 0 <= k < |elems| => elems[k].(nonce := nonces[k]))
  }

  /** The elements whose nonces are below the limit, or are not, in their order. */
  function Chosen(elems: seq<Element>, sent: bool): seq<Element> {
    if elems == [] then []
    else
      var last := elems[|elems| - 1];
      Chosen(elems[..|elems| - 1], sent) + (if (last.nonce < REJECT_AFTER_MESSAGES) == sent then [last] else [])
  }

  /** The loop of SendStagedPackets over one container.  `nonces` is what the Adds gave, with whatever other
      senders did in between. */
  method Assign(elems: array<Element>, nonces: seq<nat>) returns (sent: nat, again: seq<Element>)
    requires |nonces| == elems.Length
    modifies elems
    ensures sent <= elems.Length
    ensures elems[..sent] == Chosen(Numbered(old(elems[..]), nonces), true)
    ensures again == Chosen(Numbered(old(elems[..]), nonces), false)
  {
    ghost var all := Numbered(elems[..], nonces);
    sent, again := 0, [];
    for k := 0 to elems.Length
      invariant sent <= k
      invariant elems[..sent] == Chosen(all[..k], true) && again == Chosen(all[..k], false)
      invariant forall j :: k <= j < elems.Length ==> elems[j] == old(elems[j])
    {
      var elem := elems[k].(nonce := nonces[k]);
      assert all[..k + 1][..k] == all[..k] && all[..k + 1][k] == elem;
      if elem.nonce >= REJECT_AFTER_MESSAGES {
        again := again + [elem];
      } else {
        elems[sent] := elem;
        sent := sent + 1;
      }
    }
    assert all[..elems.Length] == all;
  }

  /** Nothing is lost and nothing is doubled. */
  lemma {:induction false} ChosenConserve(elems: seq<Element>)
    ensures multiset(Chosen(elems, true)) + multiset(Chosen(elems, false)) == multiset(elems)
  {
    if elems != [] {
      var before, last := elems[..|elems| - 1], elems[|elems| - 1];
      ChosenConserve(before);
      assert elems == before + [last];
      ChosenLast(elems, before, last);
      OneMore(Chosen(before, true), Chosen(before, false), before, last, Chosen(elems, true), Chosen(elems, false));
    }
  }

  lemma ChosenLast(elems: seq<Element>, before: seq<Element>, last: Element)
    requires elems != [] && before == elems[..|elems| - 1] && last == elems[|elems| - 1]
    ensures Chosen(elems, true) == if last.nonce < REJECT_AFTER_MESSAGES then Chosen(before, true) + [last] else Chosen(before, true)
    ensures Chosen(elems, false) == if last.nonce < REJECT_AFTER_MESSAGES then Chosen(before, false) else Chosen(before, false) + [last]
  {
  }

  lemma OneMore(a: seq<Element>, b: seq<Element>, both: seq<Element>, last: Element, a': seq<Element>, b': seq<Element>)
    requires multiset(a) + multiset(b) == multiset(both)
    requires (a' == a + [last] && b' == b) || (a' == a && b' == b + [last])
    ensures multiset(a') + multiset(b') == multiset(both + [last])
  {
  }

  /** A sender draws at some of the moments at which anybody draws. */
  ghost predicate Draws(nonces: seq<nat>, issued: seq<nat>, at: seq<nat>) {
    && |at| == |nonces|
    && (forall k :: 0 <= k < |at| ==> at[k] < |issued| && nonces[k] == issued[at[k]])
    && (forall k, l :: 0 <= k < l < |at| ==> at[k] < at[l])
  }

  /** Under every interleaving of few enough senders, what is sent of a container is a prefix of it, under
      distinct nonces, and what is staged again is the rest, in order. */
  lemma SentIsPrefix(n: nat, acts: seq<Action>, elems: seq<Element>, nonces: seq<nat>, at: seq<nat>)
    requires n <= 0x2001 && |elems| == |nonces| && Draws(nonces, Run(n, acts).issued, at)
    ensures var sent := Chosen(Numbered(elems, nonces), true);
      && sent <= Numbered(elems, nonces)
      && Chosen(Numbered(elems, nonces), false) == Numbered(elems, nonces)[|sent|..]
      && forall k, l :: 0 <= k < l < |sent| ==> sent[k].nonce != sent[l].nonce
  {
    RunInvariant(n, acts);
    var all := Numbered(elems, nonces);
    forall k, l | 0 <= k < l < |all|
      ensures all[k].nonce >= REJECT_AFTER_MESSAGES ==> all[l].nonce >= REJECT_AFTER_MESSAGES
      ensures all[k].nonce < REJECT_AFTER_MESSAGES ==> all[k].nonce != all[l].nonce
    {
      assert at[k] < at[l];
    }
    PrefixChosen(all);
  }

  lemma {:induction false} PrefixChosen(all: seq<Element>)
    requires forall k, l :: 0 <= k < l < |all| && all[k].nonce >= REJECT_AFTER_MESSAGES ==>
      all[l].nonce >= REJECT_AFTER_MESSAGES
    ensures var sent := Chosen(all, true);
      && sent <= all && Chosen(all, false) == all[|sent|..]
      && (|sent| < |all| ==> all[|sent|].nonce >= REJECT_AFTER_MESSAGES)
      && forall k :: 0 <= k < |sent| ==> all[k].nonce < REJECT_AFTER_MESSAGES
  {
    if all != [] {
      var m := |all| - 1;
      PrefixChosen(all[..m]);
      ChosenLast(all, all[..m], all[m]);
      PrefixStep(all, m, Chosen(all[..m], true), Chosen(all[..m], false), Chosen(all, true), Chosen(all, false));
    }
  }

  lemma PrefixStep(all: seq<Element>, m: nat, sent: seq<Element>, rest: seq<Element>, sent': seq<Element>,
                   rest': seq<Element>)
    requires |all| == m + 1 && sent <= all[..m] && rest == all[..m][|sent|..]
    requires |sent| < m ==> all[m].nonce >= REJECT_AFTER_MESSAGES
    requires sent' == if all[m].nonce < REJECT_AFTER_MESSAGES then sent + [all[m]] else sent
    requires rest' == if all[m].nonce < REJECT_AFTER_MESSAGES then rest else rest + [all[m]]
    ensures sent' <= all && rest' == all[|sent'|..]
  {
    assert all == all[..m] + [all[m]];
  }

  /** The staging queue of a peer.  A channel holds at most 128 containers. */
  class Queue {
    var staged: seq<seq<Element>>

    constructor ()
      ensures staged == []
    {
      staged := [];
    }

    /** Never waits: when there is no room the oldest container makes some. */
    method StagePackets(elems: seq<Element>)
      requires |staged| <= QUEUE_STAGED_SIZE
      modifies this
      ensures |staged| <= QUEUE_STAGED_SIZE
      ensures staged == if |old(staged)| < QUEUE_STAGED_SIZE then old(staged) + [elems] else old(staged)[1..] + [elems]
    {
      while true
        invariant |staged| <= QUEUE_STAGED_SIZE
        invariant staged == old(staged) || (|old(staged)| == QUEUE_STAGED_SIZE && staged == old(staged)[1..])
        decreases |staged|
      {
        if |staged| < QUEUE_STAGED_SIZE {
          staged := staged + [elems];
          return;
        }
        if staged != [] {
          staged := staged[1..];
        }
      }
    }
  }
}

/** How the senders of device/send.go share one send counter: each draws a nonce with an atomic Add, and
    one that drew too large a nonce puts the counter back with an atomic Store before it draws again. */
module Nonces {
  import opened Constants

  const WORD := 0x1_0000_0000_0000_0000

  /** Where a sender is: outside the loop, in it, or between an Add that gave too large a nonce and the Store. */
  datatype Where = Outside | Drawing | Storing

  /** `issued` is every nonce that an Add ever gave; `wrapped` says whether an Add ever overflowed. */
  datatype World = World(counter: nat, senders: seq<Where>, issued: seq<nat>, wrapped: bool)

  datatype Action =
    | Check(i: nat)   // the test of the counter before the loop
    | Add(i: nat)     // one element gets its nonce
    | Store(i: nat)   // and was refused
    | Leave(i: nat)   // the queue is empty, or back to the top
    | Expire          // ExpireCurrentKeypairs

  /** An action that its sender cannot take now changes nothing. */
  function Next(w: World, act: Action): World {
    match act
    case Check(i) =>
      if i < |w.senders| && w.senders[i] == Outside && w.counter < REJECT_AFTER_MESSAGES
      then w.(senders := w.senders[i := Drawing]) else w
    case Add(i) =>
      if i < |w.senders| && w.senders[i] == Drawing
      then World((w.counter + 1) % WORD,
                 if w.counter >= REJECT_AFTER_MESSAGES then w.senders[i := Storing] else w.senders,
                 w.issued + [w.counter], w.wrapped || w.counter + 1 == WORD)
      else w
    case Store(i) =>
      if i < |w.senders| && w.senders[i] == Storing
      then w.(counter := REJECT_AFTER_MESSAGES, senders := w.senders[i := Drawing]) else w
    case Leave(i) =>
      if i < |w.senders| && w.senders[i] == Drawing then w.(senders := w.senders[i := Outside]) else w
    case Expire => w.(counter := REJECT_AFTER_MESSAGES)
  }

  function Start(n: nat): World {
    World(0, seq(n, _ => Outside), [], false)
  }

  function Run(n: nat, acts: seq<Action>): World {
    if acts == [] then Start(n) else Next(Run(n, acts[..|acts| - 1]), acts[|acts| - 1])
  }

  // ---------------------------------------------------------------------------------------------
  // Safety
  // ---------------------------------------------------------------------------------------------

  /** A nonce that is let through is let through once. */
  ghost predicate NoReuse(issued: seq<nat>) {
    forall i, j :: 0 <= i < j < |issued| && issued[i] < REJECT_AFTER_MESSAGES ==> issued[i] != issued[j]
  }

  /** Once one nonce is refused, all later ones are, whoever draws them. */
  ghost predicate RefusedForGood(issued: seq<nat>) {
    forall i, j :: 0 <= i < j < |issued| && issued[i] >= REJECT_AFTER_MESSAGES ==> issued[j] >= REJECT_AFTER_MESSAGES
  }

  function Storers(senders: seq<Where>): (r: nat)
    ensures r <= |senders|
  {
    if senders == [] then 0 else Storers(senders[..|senders| - 1]) + (if senders[|senders| - 1] == Storing then 1 else 0)
  }

  lemma {:induction false} StorersUpdate(senders: seq<Where>, i: nat, at: Where)
    requires i < |senders|
    ensures Storers(senders[i := at])
         == Storers(senders) - (if senders[i] == Storing then 1 else 0) + (if at == Storing then 1 else 0)
  {
    var m := |senders| - 1;
    if i < m {
      StorersUpdate(senders[..m], i, at);
      assert senders[i := at][..m] == senders[..m][i := at];
    } else {
      assert senders[i := at][..m] == senders[..m];
    }
  }

  /** The counter runs past the limit by at most one for each sender that has yet to put it back.  If there
      is one sender more than the slack allows, the counter can wrap, but then everybody is putting it back. */
  ghost predicate Invariant(n: nat, w: World) {
    && |w.senders| == n
    && (Parked(n, w) || (Steady(w) && (n <= 0x2000 ==> !w.wrapped)))
    && NoReuse(w.issued) && RefusedForGood(w.issued)
  }

  ghost predicate Steady(w: World) {
    && w.counter < WORD && w.counter <= REJECT_AFTER_MESSAGES + Storers(w.senders)
    && Below(w.issued, w.counter)
  }

  /** What was let through is below the counter, and if anything was refused so is everything from now on. */
  ghost predicate Below(issued: seq<nat>, counter: nat) {
    forall i :: 0 <= i < |issued| ==>
      if issued[i] < REJECT_AFTER_MESSAGES then issued[i] < counter else counter >= REJECT_AFTER_MESSAGES
  }

  ghost predicate Parked(n: nat, w: World) {
    n == 0x2001 && w.counter == 0 && w.wrapped && Storers(w.senders) == n
  }

  lemma {:induction false} AllStoring(senders: seq<Where>, i: nat)
    requires Storers(senders) == |senders| && i < |senders|
    ensures senders[i] == Storing
  {
    if i < |senders| - 1 {
      AllStoring(senders[..|senders| - 1], i);
    }
  }

  lemma OneMore(issued: seq<nat>, counter: nat)
    requires NoReuse(issued) && RefusedForGood(issued) && Below(issued, counter)
    ensures NoReuse(issued + [counter]) && RefusedForGood(issued + [counter]) && Below(issued + [counter], counter + 1)
  {
  }

  lemma AddKeepsInvariant(n: nat, w: World, i: nat)
    requires n <= 0x2001 && Invariant(n, w) && i < n && w.senders[i] == Drawing
    ensures Invariant(n, Next(w, Add(i)))
  {
    if Parked(n, w) {
      AllStoring(w.senders, i);
    } else {
      StorersUpdate(w.senders, i, Storing);
      StorersAll(w.senders, i);
      OneMore(w.issued, w.counter);
    }
  }

  /** A sender in the loop is not putting the counter back. */
  lemma {:induction false} StorersAll(senders: seq<Where>, i: nat)
    requires i < |senders| && senders[i] != Storing
    ensures Storers(senders) < |senders|
  {
    if i < |senders| - 1 {
      StorersAll(senders[..|senders| - 1], i);
    }
  }

  lemma NextKeepsInvariant(n: nat, w: World, act: Action)
    requires n <= 0x2001 && Invariant(n, w)
    ensures Invariant(n, Next(w, act))
  {
    if act.Add? {
      if act.i < n && w.senders[act.i] == Drawing {
        AddKeepsInvariant(n, w, act.i);
      }
    } else if !act.Expire? && act.i < n {
      StorersUpdate(w.senders, act.i, Outside);
      StorersUpdate(w.senders, act.i, Drawing);
    }
  }

  lemma {:induction false} NoStorers(n: nat)
    ensures Storers(seq(n, _ => Outside)) == 0
  {
    if n > 0 {
      NoStorers(n - 1);
      assert seq(n, _ => Outside)[..n - 1] == seq(n - 1, _ => Outside);
    }
  }

  lemma {:induction false} RunInvariant(n: nat, acts: seq<Action>)
    requires n <= 0x2001
    ensures Invariant(n, Run(n, acts))
  {
    if acts == [] {
      NoStorers(n);
    } else {
      RunInvariant(n, acts[..|acts| - 1]);
      NextKeepsInvariant(n, Run(n, acts[..|acts| - 1]), acts[|acts| - 1]);
    }
  }

  // ---------------------------------------------------------------------------------------------
  // How many senders are too many
  // ---------------------------------------------------------------------------------------------

  /** The first k senders enter the loop, or draw. */
  function Checks(k: nat): seq<Action> {
    seq(k, i requires 0 <= i < k => Check(i))
  }

  function Adds(k: nat): seq<Action> {
    seq(k, i requires 0 <= i < k => Add(i))
  }

  function Split(n: nat, k: nat, low: Where, high: Where): seq<Where> {
    seq(n, i requires 0 <= i < n => if i < k then low else high)
  }

  lemma {:induction false} AfterChecks(n: nat, k: nat)
    requires k <= n
    ensures Run(n, Checks(k)) == World(0, Split(n, k, Drawing, Outside), [], false)
  {
    if k == 0 {
      assert Split(n, 0, Drawing, Outside) == seq(n, _ => Outside);
    } else {
      AfterChecks(n, k - 1);
      assert Checks(k)[..k - 1] == Checks(k - 1);
      assert Split(n, k - 1, Drawing, Outside)[k - 1 := Drawing] == Split(n, k, Drawing, Outside);
    }
  }

  lemma RunAppend(n: nat, acts: seq<Action>, act: Action)
    ensures Run(n, acts + [act]) == Next(Run(n, acts), act)
  {
    assert (acts + [act])[..|acts|] == acts;
  }

  /** Everybody draws once while nobody puts the counter back. */
  lemma {:induction false} AfterAdds(n: nat, before: seq<Action>, issued: seq<nat>, k: nat)
    requires k <= n && k <= 0x2001
    requires Run(n, before) == World(REJECT_AFTER_MESSAGES, Split(n, 0, Storing, Drawing), issued, false)
    ensures var w := Run(n, before + Adds(k));
      && w.counter == (REJECT_AFTER_MESSAGES + k) % WORD && w.senders == Split(n, k, Storing, Drawing)
      && issued <= w.issued && w.wrapped == (k == 0x2001)
  {
    if k == 0 {
      assert before + Adds(0) == before;
    } else {
      AfterAdds(n, before, issued, k - 1);
      assert before + Adds(k) == before + Adds(k - 1) + [Add(k - 1)];
      RunAppend(n, before + Adds(k - 1), Add(k - 1));
      var w := Run(n, before + Adds(k - 1));
      BelowWrap(k);
      OneAdd(n, w, k);
      assert issued <= w.issued + [w.counter];
    }
  }

  lemma BelowWrap(k: nat)
    requires 0 < k <= 0x2001
    ensures (REJECT_AFTER_MESSAGES + (k - 1)) % WORD == REJECT_AFTER_MESSAGES + k - 1
  {
  }

  lemma OneAdd(n: nat, w: World, k: nat)
    requires 0 < k <= n && k <= 0x2001 && w.counter == REJECT_AFTER_MESSAGES + k - 1 && !w.wrapped
    requires w.senders == Split(n, k - 1, Storing, Drawing)
    ensures Next(w, Add(k - 1)) == World((REJECT_AFTER_MESSAGES + k) % WORD, Split(n, k, Storing, Drawing),
                                         w.issued + [w.counter], k == 0x2001)
  {
    assert Split(n, k - 1, Storing, Drawing)[k - 1 := Storing] == Split(n, k, Storing, Drawing);
  }

  function Wrapping(n: nat): seq<Action> {
    Checks(n) + [Expire] + Adds(0x2001)
  }

  lemma WrapsWithMore(n: nat)
    requires n >= 0x2001
    ensures Run(n, Wrapping(n)).wrapped
  {
    AfterChecks(n, n);
    RunAppend(n, Checks(n), Expire);
    assert Split(n, n, Drawing, Outside) == Split(n, 0, Storing, Drawing);
    AfterAdds(n, Checks(n) + [Expire], [], 0x2001);
  }

  function Reusing(n: nat): seq<Action> {
    Checks(n) + [Add(0)] + [Expire] + Adds(0x2001) + [Add(0x2001)]
  }

  lemma ReusesWithMore(n: nat)
    requires n >= 0x2002
    ensures !NoReuse(Run(n, Reusing(n)).issued)
  {
    AfterChecks(n, n);
    RunAppend(n, Checks(n), Add(0));
    RunAppend(n, Checks(n) + [Add(0)], Expire);
    assert Split(n, n, Drawing, Outside) == Split(n, 0, Storing, Drawing);
    AfterAdds(n, Checks(n) + [Add(0)] + [Expire], [0], 0x2001);
    RunAppend(n, Checks(n) + [Add(0)] + [Expire] + Adds(0x2001), Add(0x2001));
    var w := Run(n, Reusing(n));
    assert w.issued[0] == w.issued[|w.issued| - 1] == 0;
  }

  /** The counter never wraps, whatever the interleaving, exactly if there are at most 2^13 senders. */
  lemma NeverWrapsExactly(n: nat)
    ensures (forall acts :: !Run(n, acts).wrapped) <==> n <= 0x2000
  {
    if n <= 0x2000 {
      forall acts
        ensures !Run(n, acts).wrapped
      {
        RunInvariant(n, acts);
      }
    } else {
      WrapsWithMore(n);
    }
  }

  /** No nonce below the limit is given twice exactly if there are at most 2^13 + 1: the one sender more can
      make the counter wrap, but not draw from it. */
  lemma NeverReusedExactly(n: nat)
    ensures (forall acts :: NoReuse(Run(n, acts).issued)) <==> n <= 0x2001
  {
    if n <= 0x2001 {
      forall acts
        ensures NoReuse(Run(n, acts).issued)
      {
        RunInvariant(n, acts);
      }
    } else {
      ReusesWithMore(n);
    }
  }

  /** So whatever one sender draws in a row starts with the nonces that are let through: what it sends is a
      prefix of its container. */
  lemma RefusalIsFinal(n: nat, acts: seq<Action>)
    requires n <= 0x2001
    ensures RefusedForGood(Run(n, acts).issued)
  {
    RunInvariant(n, acts);
  }
}

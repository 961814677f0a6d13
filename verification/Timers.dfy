/** The timers of device/timers.go as the runtime may interleave them.

    A section under `modifyingLock` is one step.  `runningLock` is held across steps, by a callback from
    its first line to the end of the expiration function or by DelSync around its second Del. */
module Timers {
  /** A goroutine that the runtime started for the timer. */
  datatype Callback = Fired | Locked | Running | Finished

  /** A call of DelSync.  `seen` is the number of Mods before its second Del. */
  datatype Deletion = Waiting | Holding | Cleared(seen: nat) | Returned(seen: nat)

  datatype Owner = Nobody | ByCallback(i: nat) | ByDeletion(i: nat)

  /** `armed` is the runtime's timer; `mods` and `expirations` count calls. */
  datatype World = World(pending: bool, armed: bool, running: Owner, callbacks: seq<Callback>,
                         deletions: seq<Deletion>, mods: nat, expirations: nat)

  datatype Action =
    | Mod
    | Del
    | Fire              // the runtime starts a callback
    | Lock(i: nat)      // a callback gets runningLock
    | Test(i: nat)      // and looks at isPending
    | Finish(i: nat)    // the expiration function returns
    | DelSync           // up to and including the first Del
    | DelLock(i: nat)
    | DelClear(i: nat)
    | DelUnlock(i: nat)

  /** A step that cannot be taken now changes nothing.  The expiration function may call Mod or Del on its
      own timer: those are steps like anybody's. */
  function Next(w: World, act: Action): World {
    match act
    case Mod => w.(pending := true, armed := true, mods := w.mods + 1)
    case Del => w.(pending := false, armed := false)
    case Fire => if w.armed then w.(armed := false, callbacks := w.callbacks + [Fired]) else w
    case Lock(i) =>
      if i < |w.callbacks| && w.callbacks[i] == Fired && w.running == Nobody
      then w.(running := ByCallback(i), callbacks := w.callbacks[i := Locked]) else w
    case Test(i) =>
      if !(i < |w.callbacks| && w.callbacks[i] == Locked) then w
      else if !w.pending then w.(running := Nobody, callbacks := w.callbacks[i := Finished])
      else w.(pending := false, callbacks := w.callbacks[i := Running], expirations := w.expirations + 1)
    case Finish(i) =>
      if i < |w.callbacks| && w.callbacks[i] == Running
      then w.(running := Nobody, callbacks := w.callbacks[i := Finished]) else w
    case DelSync => w.(pending := false, armed := false, deletions := w.deletions + [Waiting])
    case DelLock(i) =>
      if i < |w.deletions| && w.deletions[i] == Waiting && w.running == Nobody
      then w.(running := ByDeletion(i), deletions := w.deletions[i := Holding]) else w
    case DelClear(i) =>
      if i < |w.deletions| && w.deletions[i] == Holding
      then w.(pending := false, armed := false, deletions := w.deletions[i := Cleared(w.mods)]) else w
    case DelUnlock(i) =>
      if i < |w.deletions| && w.deletions[i].Cleared?
      then w.(running := Nobody, deletions := w.deletions[i := Returned(w.deletions[i].seen)]) else w
  }

  function Start(): World {
    World(false, false, Nobody, [], [], 0, 0)
  }

  function From(w: World, acts: seq<Action>): World {
    if acts == [] then w else Next(From(w, acts[..|acts| - 1]), acts[|acts| - 1])
  }

  function Run(acts: seq<Action>): World {
    From(Start(), acts)
  }

  // ---------------------------------------------------------------------------------------------
  // What every interleaving keeps
  // ---------------------------------------------------------------------------------------------

  ghost predicate Invariant(w: World) {
    && CallbacksOwn(w) && DeletionsOwn(w)
    && w.expirations + (if w.pending then 1 else 0) <= w.mods
    && PendingComes(w) && ClearedQuiet(w)
  }

  /** A callback holds runningLock exactly from Lock to Test or Finish. */
  ghost predicate CallbacksOwn(w: World) {
    && (forall i :: 0 <= i < |w.callbacks| ==>
          (w.callbacks[i] == Locked || w.callbacks[i] == Running <==> w.running == ByCallback(i)))
    && (w.running.ByCallback? ==> w.running.i < |w.callbacks|)
  }

  /** DelSync holds it exactly from DelLock to DelUnlock. */
  ghost predicate DeletionsOwn(w: World) {
    && (forall i :: 0 <= i < |w.deletions| ==>
          (w.deletions[i] == Holding || w.deletions[i].Cleared? <==> w.running == ByDeletion(i)))
    && (w.running.ByDeletion? ==> w.running.i < |w.deletions|)
  }

  /** Without a Mod since its second Del, nothing runs or will run. */
  ghost predicate ClearedQuiet(w: World) {
    forall i :: 0 <= i < |w.deletions| && (w.deletions[i].Cleared? || w.deletions[i].Returned?) ==>
      w.deletions[i].seen <= w.mods && (w.deletions[i].seen == w.mods ==> Quiet(w))
  }

  /** While the timer is pending somebody will look. */
  ghost predicate PendingComes(w: World) {
    w.pending ==> w.armed || exists i :: 0 <= i < |w.callbacks| && Coming(w.callbacks[i])
  }

  /** A callback that has yet to look at isPending. */
  predicate Coming(c: Callback) {
    c == Fired || c == Locked
  }

  /** No expiration function is running, and none will without another Mod. */
  ghost predicate Quiet(w: World) {
    !w.pending && !w.armed && forall i :: 0 <= i < |w.callbacks| ==> w.callbacks[i] != Running
  }

  lemma NextKeepsInvariant(w: World, act: Action)
    requires Invariant(w)
    ensures Invariant(Next(w, act))
  {
    NextKeepsCallbacks(w, act);
    NextKeepsDeletions(w, act);
    NextKeepsComing(w, act);
    NextKeepsQuiet(w, act);
  }

  lemma NextKeepsCallbacks(w: World, act: Action)
    requires CallbacksOwn(w) && DeletionsOwn(w)
    ensures CallbacksOwn(Next(w, act))
  {
  }

  lemma NextKeepsDeletions(w: World, act: Action)
    requires CallbacksOwn(w) && DeletionsOwn(w)
    ensures DeletionsOwn(Next(w, act))
  {
  }

  lemma NextKeepsQuiet(w: World, act: Action)
    requires CallbacksOwn(w) && DeletionsOwn(w) && ClearedQuiet(w)
    ensures ClearedQuiet(Next(w, act))
  {
  }

  lemma NextKeepsComing(w: World, act: Action)
    requires PendingComes(w)
    ensures PendingComes(Next(w, act))
  {
    var v := Next(w, act);
    if w.pending && v.pending && !w.armed {
      var i :| 0 <= i < |w.callbacks| && Coming(w.callbacks[i]);
      assert i < |v.callbacks| && Coming(v.callbacks[i]);
    } else if act == Fire && w.armed {
      assert Coming(v.callbacks[|w.callbacks|]);
    }
  }

  lemma {:induction false} FromInvariant(w: World, acts: seq<Action>)
    requires Invariant(w)
    ensures Invariant(From(w, acts))
  {
    if acts != [] {
      FromInvariant(w, acts[..|acts| - 1]);
      NextKeepsInvariant(From(w, acts[..|acts| - 1]), acts[|acts| - 1]);
    }
  }

  lemma RunInvariant(acts: seq<Action>)
    ensures Invariant(Run(acts))
  {
    FromInvariant(Start(), acts);
  }

  /** At most one expiration function runs at a time. */
  lemma OneAtATime(acts: seq<Action>, i: nat, j: nat)
    requires i < |Run(acts).callbacks| && j < |Run(acts).callbacks|
    requires Run(acts).callbacks[i] == Running && Run(acts).callbacks[j] == Running
    ensures i == j
  {
    RunInvariant(acts);
  }

  lemma ExpirationsBounded(acts: seq<Action>)
    ensures Run(acts).expirations <= Run(acts).mods
  {
    RunInvariant(acts);
  }

  /** When DelSync has returned no expiration function is running, unless there was a Mod since its second
      Del. */
  lemma DelSyncWaits(acts: seq<Action>, i: nat)
    requires Settled(Run(acts), i)
    ensures Quiet(Run(acts))
  {
    RunInvariant(acts);
  }

  /** And none starts before the next Mod, however the run goes on. */
  lemma {:induction false} NoneStarts(w: World, more: seq<Action>, i: nat)
    requires Invariant(w) && Settled(w, i) && Mod !in more
    ensures var v := From(w, more); Settled(v, i) && Quiet(v) && v.expirations == w.expirations
  {
    if more != [] {
      var rest, last := more[..|more| - 1], more[|more| - 1];
      NoneStarts(w, rest, i);
      FromInvariant(w, rest);
      assert last in more;
      StaysSettled(From(w, rest), last, i);
    }
  }

  ghost predicate Settled(w: World, i: nat) {
    i < |w.deletions| && w.deletions[i].Returned? && w.deletions[i].seen == w.mods
  }

  lemma StaysSettled(w: World, act: Action, i: nat)
    requires Invariant(w) && Settled(w, i) && act != Mod
    ensures Settled(Next(w, act), i) && Quiet(Next(w, act)) && Next(w, act).expirations == w.expirations
  {
    NextKeepsInvariant(w, act);
  }

  /** Without a Mod a timer that is not pending stays so, and nothing expires. */
  lemma {:induction false} NotPendingStays(w: World, more: seq<Action>)
    requires !w.pending && Mod !in more
    ensures !From(w, more).pending && From(w, more).expirations == w.expirations
  {
    if more != [] {
      var rest, last := more[..|more| - 1], more[|more| - 1];
      assert last in more;
      NotPendingStays(w, rest);
    }
  }

  /** A pending timer whose runningLock is free can expire without another Mod. */
  lemma PendingExpires(w: World) returns (more: seq<Action>)
    requires Invariant(w) && w.pending && w.running == Nobody
    ensures Mod !in more && From(w, more).expirations == w.expirations + 1
  {
    if w.armed {
      var i := |w.callbacks|;
      var fired := Next(w, Fire);
      more := [Fire, Lock(i), Test(i)];
      FromThree(w, Fire, Lock(i), Test(i));
    } else {
      var i :| 0 <= i < |w.callbacks| && Coming(w.callbacks[i]);
      more := [Lock(i), Test(i)];
      FromTwo(w, Lock(i), Test(i));
    }
  }

  lemma FromOne(w: World, a: Action)
    ensures From(w, [a]) == Next(w, a)
  {
    assert [a][..0] == [] && From(w, []) == w;
  }

  lemma FromTwo(w: World, a: Action, b: Action)
    ensures From(w, [a, b]) == Next(Next(w, a), b)
  {
    FromOne(w, a);
    assert [a, b][..1] == [a];
  }

  lemma FromThree(w: World, a: Action, b: Action, c: Action)
    ensures From(w, [a, b, c]) == Next(Next(Next(w, a), b), c)
  {
    FromTwo(w, a, b);
    assert [a, b, c][..2] == [a, b];
  }

  /** Whether an expiration can start before the next Mod. */
  ghost predicate CanExpire(w: World) {
    exists more :: Mod !in more && From(w, more).expirations != w.expirations
  }

  /** What DelSync is for, at the moment it returns: no expiration function is running, and none can start
      before the next Mod exactly if the timer is not pending. */
  lemma DelSyncExactly(acts: seq<Action>, i: nat)
    requires i < |Run(acts).deletions| && Run(acts).deletions[i].Cleared?
    ensures var v := Next(Run(acts), DelUnlock(i));
      && v.deletions[i].Returned?
      && (forall k :: 0 <= k < |v.callbacks| ==> v.callbacks[k] != Running)
      && (CanExpire(v) <==> v.pending)
  {
    var w := Run(acts);
    var v := Next(w, DelUnlock(i));
    RunInvariant(acts);
    NextKeepsInvariant(w, DelUnlock(i));
    if v.pending {
      var more := PendingExpires(v);
      assert CanExpire(v);
    } else {
      forall more | Mod !in more
        ensures From(v, more).expirations == v.expirations
      {
        NotPendingStays(v, more);
      }
    }
  }

  /** Whatever is going on, right after Del no expiration can start before the next Mod. */
  lemma DelStops(w: World)
    ensures !CanExpire(Next(w, Del)) && !CanExpire(Next(w, DelSync))
  {
    forall more | Mod !in more
      ensures From(Next(w, Del), more).expirations == w.expirations
      ensures From(Next(w, DelSync), more).expirations == w.expirations
    {
      NotPendingStays(Next(w, Del), more);
      NotPendingStays(Next(w, DelSync), more);
    }
  }

  /** After Mod one can, as soon as nobody holds runningLock. */
  lemma ModStarts(acts: seq<Action>)
    requires Run(acts).running == Nobody
    ensures CanExpire(Next(Run(acts), Mod))
  {
    RunInvariant(acts);
    NextKeepsInvariant(Run(acts), Mod);
    var more := PendingExpires(Next(Run(acts), Mod));
  }

  /** A timer can be pending then: by a Mod between the second Del and the return. */
  lemma ModBeforeReturn()
    ensures
      var acts := [DelSync, DelLock(0), DelClear(0), Mod];
      && Run(acts).deletions == [Cleared(0)] && Next(Run(acts), DelUnlock(0)).pending
  {
    FromThree(Start(), DelSync, DelLock(0), DelClear(0));
    assert [DelSync, DelLock(0), DelClear(0), Mod][..3] == [DelSync, DelLock(0), DelClear(0)];
    assert Next(Next(Next(Start(), DelSync), DelLock(0)), DelClear(0))
        == World(false, false, ByDeletion(0), [], [Cleared(0)], 0, 0);
  }
}

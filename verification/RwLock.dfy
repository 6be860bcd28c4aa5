/** The readers-writer lock that guards the list of committed write sets, for any set of reader threads
    and of writer threads. One step is one critical section of the lock's own mutex, one notification
    outside of it, or a spurious wake-up. */
module RwLock {
  import opened Wrappers

  /** Where the threads are; a thread in none of the sets of its kind is outside the lock. */
  datatype State = State(
    activeReaders: int, activeWriter: bool,
    rIn: set<nat>, rAsleep: set<nat>, rAwake: set<nat>, rNotify: set<nat>,
    wIn: set<nat>, wAsleep: set<nat>, wAwake: set<nat>)

  datatype Action =
    | LockShared(r: nat)          // first test of the wait condition, or a later one after a wake-up
    | UnlockShared(r: nat)
    | NotifyWriter(r: nat, w: nat)  // notify_one after the mutex was released
    | LockExclusive(w: nat)
    | UnlockExclusive(w: nat)
    | WakeReader(r: nat) | WakeWriter(w: nat)  // spurious

  const START := State(0, false, {}, {}, {}, {}, {}, {}, {})

  function DoLockShared(s: State, r: nat): Option<State> {
    if r in s.rIn || r in s.rAsleep || r in s.rNotify then None
    else if s.activeWriter then Some(s.(rAsleep := s.rAsleep + {r}, rAwake := s.rAwake - {r}))
    else Some(s.(rIn := s.rIn + {r}, rAwake := s.rAwake - {r}, activeReaders := s.activeReaders + 1))
  }

  function DoUnlockShared(s: State, r: nat): Option<State> {
    if r !in s.rIn then None
    else Some(s.(rIn := s.rIn - {r}, rNotify := s.rNotify + {r}, activeReaders := s.activeReaders - 1))
  }

  /** notify_one wakes one sleeping writer if there is one. */
  function DoNotifyWriter(s: State, r: nat, w: nat): Option<State> {
    if r !in s.rNotify || (s.wAsleep != {} && w !in s.wAsleep) then None
    else if s.wAsleep == {} then Some(s.(rNotify := s.rNotify - {r}))
    else Some(s.(rNotify := s.rNotify - {r}, wAsleep := s.wAsleep - {w}, wAwake := s.wAwake + {w}))
  }

  function DoLockExclusive(s: State, writers: set<nat>, w: nat): Option<State> {
    if w !in writers || w in s.wIn || w in s.wAsleep then None
    else if s.activeReaders != 0 then Some(s.(wAsleep := s.wAsleep + {w}, wAwake := s.wAwake - {w}))
    else Some(s.(wIn := s.wIn + {w}, wAwake := s.wAwake - {w}, activeWriter := true))
  }

  /** notify_all happens inside the critical section. */
  function DoUnlockExclusive(s: State, w: nat): Option<State> {
    if w !in s.wIn then None
    else Some(s.(wIn := s.wIn - {w}, activeWriter := false, rAwake := s.rAwake + s.rAsleep, rAsleep := {}))
  }

  function Step(writers: set<nat>, s: State, a: Action): Option<State> {
    match a
    case LockShared(r) => DoLockShared(s, r)
    case UnlockShared(r) => DoUnlockShared(s, r)
    case NotifyWriter(r, w) => DoNotifyWriter(s, r, w)
    case LockExclusive(w) => DoLockExclusive(s, writers, w)
    case UnlockExclusive(w) => DoUnlockExclusive(s, w)
    case WakeReader(r) =>
      if r in s.rAsleep then Some(s.(rAsleep := s.rAsleep - {r}, rAwake := s.rAwake + {r})) else None
    case WakeWriter(w) =>
      if w in s.wAsleep then Some(s.(wAsleep := s.wAsleep - {w}, wAwake := s.wAwake + {w})) else None
  }

  function Exec(writers: set<nat>, run: seq<Action>): Option<State> {
    if run == [] then Some(START)
    else
      match Exec(writers, run[..|run| - 1])
      case None => None
      case Some(s) => Step(writers, s, run[|run| - 1])
  }

  /** No writer is inside together with a reader. */
  predicate Exclusive(s: State) { s.wIn == {} || s.rIn == {} }

  /** Nobody sleeps although it could enter, unless a reader still has its notification to send. */
  predicate NobodyForgotten(s: State) {
    && (s.rAsleep != {} ==> s.wIn != {})
    && (s.wAsleep != {} ==> s.rIn != {} || s.rNotify != {})
  }

  ghost predicate Inv(s: State) {
    && s.activeReaders == |s.rIn|
    && (s.activeWriter <==> s.wIn != {})
    && Exclusive(s) && NobodyForgotten(s)
  }

  lemma {:induction false} TwoMembers(s: set<nat>, x: nat, y: nat)
    requires x in s && y in s && x != y
    ensures |s| >= 2
  {
    assert |s - {x} - {y}| == |s| - 2;
  }

  lemma {:induction false} AtMostOne(s: set<nat>)
    requires |s| <= 1
    ensures forall x, y :: x in s && y in s ==> x == y
  {
    forall x, y | x in s && y in s ensures x == y {
      if x != y {
        TwoMembers(s, x, y);
      }
    }
  }

  lemma {:induction false} StepInv(writers: set<nat>, s: State, a: Action, s': State)
    requires |writers| <= 1 && s.wIn <= writers && s.wAsleep <= writers && s.wAwake <= writers
    requires Inv(s) && Step(writers, s, a) == Some(s')
    ensures Inv(s') && s'.wIn <= writers && s'.wAsleep <= writers && s'.wAwake <= writers
  {
    AtMostOne(writers);
  }

  lemma {:induction false} ExecInv(writers: set<nat>, run: seq<Action>, s: State)
    requires |writers| <= 1 && Exec(writers, run) == Some(s)
    ensures Inv(s) && s.wIn <= writers && s.wAsleep <= writers && s.wAwake <= writers
  {
    if run == [] {
    } else {
      var before := Exec(writers, run[..|run| - 1]).value;
      ExecInv(writers, run[..|run| - 1], before);
      StepInv(writers, before, run[|run| - 1], s);
    }
  }

  lemma {:induction false} PickTwo(s: set<nat>) returns (x: nat, y: nat)
    requires |s| >= 2
    ensures x in s && y in s && x != y
  {
    x :| x in s;
    assert |s - {x}| == |s| - 1;
    y :| y in s - {x};
  }

  /** Every run keeps writers and readers apart exactly when there is at most one writer thread:
      lockExclusive does not look at other writers. */
  lemma {:induction false} ExclusiveIffOneWriter(writers: set<nat>)
    ensures (forall run, s :: Exec(writers, run) == Some(s) ==> Exclusive(s)) <==> |writers| <= 1
  {
    if |writers| <= 1 {
      forall run, s | Exec(writers, run) == Some(s) ensures Exclusive(s) {
        ExecInv(writers, run, s);
      }
    } else {
      var v, w := PickTwo(writers);
      var run := [LockExclusive(v), LockExclusive(w), UnlockExclusive(v), LockShared(0)];
      TwoWriters(writers, v, w);
      assert !Exclusive(Exec(writers, run).value);
    }
  }

  lemma {:induction false} TwoWriters(writers: set<nat>, v: nat, w: nat)
    requires v in writers && w in writers && v != w
    ensures Exec(writers, [LockExclusive(v), LockExclusive(w), UnlockExclusive(v), LockShared(0)])
         == Some(State(1, false, {0}, {}, {}, {}, {w}, {}, {}))
  {
    var run := [LockExclusive(v), LockExclusive(w), UnlockExclusive(v), LockShared(0)];
    assert Exec(writers, []) == Some(START);
    assert run[..4][..3] == run[..3] && run[..3][..2] == run[..2] && run[..2][..1] == run[..1] && run[..1][..0] == [];
    var none: set<nat> := {};
    assert forall x: nat :: none + {x} == {x} && none - {x} == none;
    assert {v} + {w} == {v, w} && {v, w} - {v} == {w};
    assert Exec(writers, run[..1]) == Some(State(0, true, {}, {}, {}, {}, {v}, {}, {}));
    assert Exec(writers, run[..2]) == Some(State(0, true, {}, {}, {}, {}, {v, w}, {}, {}));
    assert none + none == none;
    assert Exec(writers, run[..3]) == Some(State(0, false, {}, {}, {}, {}, {w}, {}, {}));
  }

  /** No wake-up is lost exactly when there is at most one writer thread: leaving readers wake one
      sleeping writer, leaving writers wake none. */
  lemma {:induction false} NobodyForgottenIffOneWriter(writers: set<nat>)
    ensures (forall run, s :: Exec(writers, run) == Some(s) ==> NobodyForgotten(s)) <==> |writers| <= 1
  {
    if |writers| <= 1 {
      forall run, s | Exec(writers, run) == Some(s) ensures NobodyForgotten(s) {
        ExecInv(writers, run, s);
      }
    } else {
      var v, w := PickTwo(writers);
      var run := [LockShared(0), LockExclusive(v), LockExclusive(w), UnlockShared(0), NotifyWriter(0, v)];
      TwoSleepers(writers, v, w);
      assert !NobodyForgotten(Exec(writers, run).value);
    }
  }

  lemma {:induction false} TwoSleepers(writers: set<nat>, v: nat, w: nat)
    requires v in writers && w in writers && v != w
    ensures Exec(writers, [LockShared(0), LockExclusive(v), LockExclusive(w), UnlockShared(0), NotifyWriter(0, v)])
         == Some(State(0, false, {}, {}, {}, {}, {}, {w}, {v}))
  {
    var run := [LockShared(0), LockExclusive(v), LockExclusive(w), UnlockShared(0), NotifyWriter(0, v)];
    assert Exec(writers, []) == Some(START);
    assert run[..5][..4] == run[..4] && run[..4][..3] == run[..3];
    assert run[..3][..2] == run[..2] && run[..2][..1] == run[..1] && run[..1][..0] == [];
    var none: set<nat> := {};
    assert forall x: nat :: none + {x} == {x} && {x} - {x} == none && none - {x} == none;
    assert {v} + {w} == {v, w} && {v, w} - {v} == {w};
    assert Exec(writers, run[..1]) == Some(State(1, false, {0}, {}, {}, {}, {}, {}, {}));
    assert Exec(writers, run[..2]) == Some(State(1, false, {0}, {}, {}, {}, {}, {v}, {}));
    assert Exec(writers, run[..3]) == Some(State(1, false, {0}, {}, {}, {}, {}, {v, w}, {}));
    assert Exec(writers, run[..4]) == Some(State(0, false, {}, {}, {}, {0}, {}, {v, w}, {}));
  }

  /* ---- who gets in ---- */

  /** Neither inside nor asleep, and with nothing left to notify. */
  predicate ReaderOutside(s: State, r: nat) { r !in s.rIn && r !in s.rAsleep && r !in s.rNotify }

  predicate WriterOutside(s: State, w: nat) { w !in s.wIn && w !in s.wAsleep }

  /** With at most one writer thread, a reader that asks gets in at once if and only if no writer is inside;
      otherwise it falls asleep. */
  lemma {:induction false} ReaderEntersExactly(writers: set<nat>, run: seq<Action>, s: State, r: nat)
    returns (s': State)
    requires |writers| <= 1 && Exec(writers, run) == Some(s) && ReaderOutside(s, r)
    ensures Exec(writers, run + [LockShared(r)]) == Some(s')
    ensures if s.wIn == {} then s'.rIn == s.rIn + {r} && s'.rAsleep == s.rAsleep
            else s'.rIn == s.rIn && s'.rAsleep == s.rAsleep + {r}
    ensures s'.wIn == s.wIn && s'.wAsleep == s.wAsleep && s'.rNotify == s.rNotify
  {
    ExecInv(writers, run, s);
    s' := DoLockShared(s, r).value;
    Then(writers, run, s, LockShared(r), s');
  }

  /** A writer that asks gets in at once if and only if no reader is inside; otherwise it falls asleep. */
  lemma {:induction false} WriterEntersExactly(writers: set<nat>, run: seq<Action>, s: State, w: nat)
    returns (s': State)
    requires Exec(writers, run) == Some(s) && w in writers && WriterOutside(s, w)
    ensures Exec(writers, run + [LockExclusive(w)]) == Some(s')
    ensures if s.rIn == {} then s'.wIn == s.wIn + {w} && s'.wAsleep == s.wAsleep
            else s'.wIn == s.wIn && s'.wAsleep == s.wAsleep + {w}
    ensures s'.rIn == s.rIn && s'.rAsleep == s.rAsleep && s'.rNotify == s.rNotify
  {
    Counted(writers, run, s);
    s' := DoLockExclusive(s, writers, w).value;
    Then(writers, run, s, LockExclusive(w), s');
  }

  /** The counter is right with any number of writers. */
  lemma {:induction false} Counted(writers: set<nat>, run: seq<Action>, s: State)
    requires Exec(writers, run) == Some(s)
    ensures s.activeReaders == |s.rIn|
  {
    if run == [] {
    } else {
      var before := Exec(writers, run[..|run| - 1]).value;
      Counted(writers, run[..|run| - 1], before);
      StepCounted(writers, before, run[|run| - 1], s);
    }
  }

  lemma {:induction false} StepCounted(writers: set<nat>, s: State, a: Action, s': State)
    requires s.activeReaders == |s.rIn| && Step(writers, s, a) == Some(s')
    ensures s'.activeReaders == |s'.rIn|
  {
    match a
    case LockShared(r) => OneIn(s.rIn, r);
    case UnlockShared(r) => OneIn(s.rIn - {r}, r);
    case _ => OthersCount(writers, s, a, s');
  }

  lemma {:induction false} OneIn(ids: set<nat>, r: nat)
    requires r !in ids
    ensures |ids + {r}| == |ids| + 1 && (ids + {r}) - {r} == ids
  {}

  lemma {:induction false} OthersCount(writers: set<nat>, s: State, a: Action, s': State)
    requires !a.LockShared? && !a.UnlockShared? && Step(writers, s, a) == Some(s')
    ensures s'.activeReaders == s.activeReaders && s'.rIn == s.rIn
  {}

  lemma {:induction false} Then(writers: set<nat>, run: seq<Action>, s: State, a: Action, s': State)
    requires Exec(writers, run) == Some(s) && Step(writers, s, a) == Some(s')
    ensures Exec(writers, run + [a]) == Some(s')
  {
    assert (run + [a])[..|run|] == run;
  }

  /** A reader inside can leave, and then has to notify; a writer inside can leave, and wakes every sleeping
      reader itself. */
  lemma {:induction false} WhoIsInsideLeaves(writers: set<nat>, run: seq<Action>, s: State, r: nat)
    requires Exec(writers, run) == Some(s)
    ensures r in s.rIn ==>
              exists s' :: Exec(writers, run + [UnlockShared(r)]) == Some(s') &&
                s'.rIn == s.rIn - {r} && s'.rNotify == s.rNotify + {r} && s'.wAsleep == s.wAsleep && s'.wIn == s.wIn
    ensures r in s.wIn ==>
              exists s' :: Exec(writers, run + [UnlockExclusive(r)]) == Some(s') &&
                s'.wIn == s.wIn - {r} && s'.rAsleep == {} && s'.rAwake == s.rAwake + s.rAsleep && s'.rIn == s.rIn
  {
    if r in s.rIn { Then(writers, run, s, UnlockShared(r), DoUnlockShared(s, r).value); }
    if r in s.wIn { Then(writers, run, s, UnlockExclusive(r), DoUnlockExclusive(s, r).value); }
  }

  /** With at most one writer thread, a sleeping reader gets in as soon as the writer has left, without any
      spurious wake-up. */
  lemma {:induction false} SleepingReaderEnters(writers: set<nat>, run: seq<Action>, s: State, r: nat)
    returns (w: nat, s': State)
    requires |writers| <= 1 && Exec(writers, run) == Some(s) && r in s.rAsleep
    ensures Exec(writers, run + [UnlockExclusive(w), LockShared(r)]) == Some(s') && r in s'.rIn
  {
    ExecInv(writers, run, s);
    w :| w in s.wIn;
    var s1 := DoUnlockExclusive(s, w).value;
    Then(writers, run, s, UnlockExclusive(w), s1);
    AsleepIsOutside(writers, run, s);
    ExecInv(writers, run + [UnlockExclusive(w)], s1);
    AtMostOne(writers);
    s' := DoLockShared(s1, r).value;
    Then(writers, run + [UnlockExclusive(w)], s1, LockShared(r), s');
    assert (run + [UnlockExclusive(w)]) + [LockShared(r)] == run + [UnlockExclusive(w), LockShared(r)];
  }

  /** Nobody is in two places. */
  predicate Places(s: State) {
    && s.rIn !! s.rAsleep && s.rIn !! s.rNotify && s.rAsleep !! s.rNotify && s.rIn !! s.rAwake && s.rAsleep !! s.rAwake
    && s.rAwake !! s.rNotify && s.wIn !! s.wAsleep && s.wIn !! s.wAwake && s.wAsleep !! s.wAwake
  }

  lemma {:induction false} AsleepIsOutside(writers: set<nat>, run: seq<Action>, s: State)
    requires Exec(writers, run) == Some(s)
    ensures Places(s)
  {
    if run == [] {
    } else {
      var before := Exec(writers, run[..|run| - 1]).value;
      AsleepIsOutside(writers, run[..|run| - 1], before);
      StepPlaces(writers, before, run[|run| - 1], s);
    }
  }

  lemma {:induction false} StepPlaces(writers: set<nat>, s: State, a: Action, s': State)
    requires Places(s) && Step(writers, s, a) == Some(s')
    ensures Places(s')
  {}

  /** Readers leave and notify. */
  predicate Leaving(a: Action) { a.UnlockShared? || a.NotifyWriter? }

  /** After `run` and the leaving of readers, writer `w` gets in. */
  ghost predicate LetsIn(writers: set<nat>, run: seq<Action>, more: seq<Action>, w: nat, s': State) {
    && (forall i :: 0 <= i < |more| ==> Leaving(more[i]))
    && Exec(writers, run + more + [LockExclusive(w)]) == Some(s') && w in s'.wIn && s'.rIn == {}
  }

  lemma {:induction false} LetsInLater(writers: set<nat>, run: seq<Action>, r: nat, rest: seq<Action>, w: nat,
      s': State)
    requires LetsIn(writers, run + [UnlockShared(r)], rest, w, s')
    ensures LetsIn(writers, run, [UnlockShared(r)] + rest, w, s')
  {
    assert run + ([UnlockShared(r)] + rest) == (run + [UnlockShared(r)]) + rest;
  }

  /** With at most one writer thread, a sleeping writer gets in once the readers inside have left and notified:
      the last notification finds it, and no spurious wake-up is needed. */
  lemma {:induction false} SleepingWriterEnters(writers: set<nat>, run: seq<Action>, s: State, w: nat)
    returns (more: seq<Action>, s': State)
    requires |writers| <= 1 && Exec(writers, run) == Some(s) && w in s.wAsleep
    ensures LetsIn(writers, run, more, w, s')
    decreases |s.rIn|
  {
    if s.rIn == {} {
      more, s' := LastNotification(writers, run, s, w);
    } else {
      var r :| r in s.rIn;
      var s1 := DoUnlockShared(s, r).value;
      Then(writers, run, s, UnlockShared(r), s1);
      var rest;
      rest, s' := SleepingWriterEnters(writers, run + [UnlockShared(r)], s1, w);
      more := [UnlockShared(r)] + rest;
      LetsInLater(writers, run, r, rest, w, s');
    }
  }

  lemma {:induction false} LastNotification(writers: set<nat>, run: seq<Action>, s: State, w: nat)
    returns (more: seq<Action>, s': State)
    requires |writers| <= 1 && Exec(writers, run) == Some(s) && w in s.wAsleep && s.rIn == {}
    ensures LetsIn(writers, run, more, w, s')
  {
    ExecInv(writers, run, s);
    AsleepIsOutside(writers, run, s);
    var r :| r in s.rNotify;
    var s1 := DoNotifyWriter(s, r, w).value;
    Then(writers, run, s, NotifyWriter(r, w), s1);
    more := [NotifyWriter(r, w)];
    s' := WriterEntersExactly(writers, run + more, s1, w);
  }
}

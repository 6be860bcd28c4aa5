/** The queue between a producer and the consumer thread of the Queue operator, as interleaved steps.
    Whatever runs under the queue's mutex is one step, except that the consumer keeps the mutex between
    finding its wait condition false and falling asleep; `stop` takes no mutex. */
module ConcurrentQueue {
  import opened Wrappers

  datatype Consumer<T> =
    | Running            // about to test the wait condition
    | Blocking           // found it false, holds the mutex, about to sleep
    | Asleep
    | Holding(item: T)   // popped, not yet published
    | Quit               // pop returned false

  /** `pushed` is history: everything pushed so far. */
  datatype State<T> = State(
    queue: seq<T>, stopped: bool, consumer: Consumer<T>, published: seq<T>,
    pushNotify: nat, stopNotify: bool,
    pushed: seq<T>)

  datatype Action<T> = Push(x: T) | NotifyPush | Stop | NotifyStop | Check | Block | Publish | Wake

  function Start<T>(): State<T> { State([], false, Running, [], 0, false, []) }

  function Awake<T>(c: Consumer<T>): Consumer<T> { if c.Asleep? then Running else c }

  function Step<T>(s: State<T>, a: Action<T>): Option<State<T>> {
    match a
    case Push(x) =>
      if s.consumer.Blocking? then None
      else Some(s.(queue := s.queue + [x], pushed := s.pushed + [x], pushNotify := s.pushNotify + 1))
    case NotifyPush =>
      if s.pushNotify == 0 then None
      else Some(s.(pushNotify := s.pushNotify - 1, consumer := Awake(s.consumer)))
    case Stop => Some(s.(stopped := true, stopNotify := true))
    case NotifyStop =>
      if !s.stopNotify then None
      else Some(s.(stopNotify := false, consumer := Awake(s.consumer)))
    case Check =>
      if !s.consumer.Running? then None
      else if s.stopped then Some(s.(consumer := Quit))
      else if s.queue == [] then Some(s.(consumer := Blocking))
      else Some(s.(consumer := Holding(s.queue[0]), queue := s.queue[1..]))
    case Block => if s.consumer.Blocking? then Some(s.(consumer := Asleep)) else None
    case Publish =>
      if s.consumer.Holding? then Some(s.(consumer := Running, published := s.published + [s.consumer.item])) else None
    case Wake => Some(s.(consumer := Awake(s.consumer)))
  }

  function Exec<T>(run: seq<Action<T>>): Option<State<T>> {
    if run == [] then Some(Start())
    else
      match Exec(run[..|run| - 1])
      case None => None
      case Some(s) => Step(s, run[|run| - 1])
  }

  function Held<T>(s: State<T>): seq<T> { if s.consumer.Holding? then [s.consumer.item] else [] }

  /** Published, popped and queued items together are the pushed ones, in order. */
  ghost predicate InOrder<T>(s: State<T>) {
    s.pushed == s.published + Held(s) + s.queue
  }

  ghost predicate Inv<T>(s: State<T>) {
    && InOrder(s)
    && (s.consumer.Blocking? ==> s.queue == [])
    && (s.consumer.Asleep? && s.queue != [] ==> s.pushNotify > 0)
    && (s.stopNotify ==> s.stopped)
    && (s.consumer.Quit? ==> s.stopped)
  }

  lemma {:induction false} StepInv<T>(s: State<T>, a: Action<T>, s': State<T>)
    requires Inv(s) && Step(s, a) == Some(s')
    ensures Inv(s')
  {
    if a.Check? && s'.consumer.Holding? {
      assert s.queue == [s.queue[0]] + s.queue[1..];
    }
  }

  lemma {:induction false} ExecInv<T>(run: seq<Action<T>>, s: State<T>)
    requires Exec(run) == Some(s)
    ensures Inv(s)
  {
    if run == [] {
    } else {
      var before := Exec(run[..|run| - 1]).value;
      ExecInv(run[..|run| - 1], before);
      StepInv(before, run[|run| - 1], s);
    }
  }

  /** In every run, whatever several producers pushed comes out in one common order; nothing is lost,
      doubled or overtaken, and a consumer never sleeps on a non-empty queue without a notification on
      its way. */
  lemma {:induction false} OrderKept<T>(run: seq<Action<T>>, s: State<T>)
    requires Exec(run) == Some(s)
    ensures s.pushed == s.published + Held(s) + s.queue
    ensures s.consumer.Asleep? && s.queue != [] ==> s.pushNotify > 0
  {
    ExecInv(run, s);
  }

  /** A stopped queue stays stopped and hands no further item to the consumer. */
  lemma {:induction false} StoppedStep<T>(s: State<T>, a: Action<T>, s': State<T>)
    requires s.stopped && Step(s, a) == Some(s')
    ensures s'.stopped && s'.published + Held(s') == s.published + Held(s)
  {}

  lemma {:induction false} StoppedRun<T>(run: seq<Action<T>>, more: seq<Action<T>>, s: State<T>, s': State<T>)
    requires Exec(run) == Some(s) && s.stopped && Exec(run + more) == Some(s')
    ensures s'.stopped && s'.published + Held(s') == s.published + Held(s)
    decreases |more|
  {
    if more == [] {
      assert run + more == run;
    } else {
      var init, last := more[..|more| - 1], more[|more| - 1];
      var all := run + more;
      assert all[..|all| - 1] == run + init && all[|all| - 1] == last;
      var before := Exec(run + init).value;
      StoppedRun(run, init, s, before);
      StoppedStep(before, last, s');
    }
  }

  /** Stopping only truncates: whatever runs after it, at most the item already popped is still published,
      so what was published in the end is a prefix of what was pushed. */
  lemma {:induction false} StopTruncates<T>(run: seq<Action<T>>, more: seq<Action<T>>, s: State<T>, s': State<T>)
    requires Exec(run) == Some(s) && s.stopped && Exec(run + more) == Some(s')
    ensures s.published <= s'.published <= s.published + Held(s) <= s.pushed
    ensures s'.published <= s'.pushed
  {
    ExecInv(run, s);
    ExecInv(run + more, s');
    StoppedRun(run, more, s, s');
    PublishedGrows(run, more, s, s');
  }

  /** Published items are never taken back. */
  lemma {:induction false} PublishedGrows<T>(run: seq<Action<T>>, more: seq<Action<T>>, s: State<T>, s': State<T>)
    requires Exec(run) == Some(s) && Exec(run + more) == Some(s')
    ensures s.published <= s'.published
    decreases |more|
  {
    if more == [] {
      assert run + more == run;
    } else {
      var all := run + more;
      assert all[..|all| - 1] == run + more[..|more| - 1] && all[|all| - 1] == more[|more| - 1];
      PublishedGrows(run, more[..|more| - 1], s, Exec(run + more[..|more| - 1]).value);
    }
  }

  predicate Sleepy<T>(c: Consumer<T>) { c.Asleep? || c.Blocking? }

  /** A consumer that is up once the queue is stopped stays up. */
  lemma {:induction false} StaysUp<T>(run: seq<Action<T>>, more: seq<Action<T>>, s: State<T>, t: State<T>)
    requires Exec(run) == Some(s) && s.stopped && !Sleepy(s.consumer) && Exec(run + more) == Some(t)
    ensures t.stopped && !Sleepy(t.consumer)
    decreases |more|
  {
    if more == [] {
      assert run + more == run;
    } else {
      var all := run + more;
      assert all[..|all| - 1] == run + more[..|more| - 1] && all[|all| - 1] == more[|more| - 1];
      StaysUp(run, more[..|more| - 1], s, Exec(run + more[..|more| - 1]).value);
    }
  }

  /** The consumer is never asleep again, whatever runs after the state that `run` reaches. */
  ghost predicate NeverAsleepAgain<T(!new)>(run: seq<Action<T>>) {
    forall more, t :: Exec(run + more) == Some(t) ==> !t.consumer.Asleep?
  }

  /** The notification of `stop` ends all sleep if and only if the consumer was not just between finding
      its wait condition false and falling asleep. */
  lemma {:induction false} StopWakes<T(!new)>(run: seq<Action<T>>, s: State<T>, s': State<T>)
    requires Exec(run) == Some(s) && Step(s, NotifyStop) == Some(s')
    ensures NeverAsleepAgain(run + [NotifyStop]) <==> !s.consumer.Blocking?
  {
    ExecInv(run, s);
    var all := run + [NotifyStop];
    assert all[..|all| - 1] == run;
    assert Exec(all) == Some(s');
    if s.consumer.Blocking? {
      var more: seq<Action<T>> := [Block];
      assert (all + more)[..|all|] == all;
      assert Exec(all + more) == Some(s'.(consumer := Asleep));
    } else {
      forall more, t | Exec(all + more) == Some(t) ensures !t.consumer.Asleep? {
        StaysUp(all, more, s', t);
      }
    }
  }

  /** The notification can come at that moment, because `stop` does not take the mutex: afterwards the
      consumer of a stopped queue is asleep, with no notification on its way. */
  lemma {:induction false} StopCanBeMissed<T>()
    ensures Exec<T>([Check, Stop, NotifyStop, Block])
         == Some(State([], true, Asleep, [], 0, false, []))
  {
    var run: seq<Action<T>> := [Check, Stop, NotifyStop, Block];
    assert Exec<T>([]) == Some(Start<T>());
    assert run[..4][..3] == run[..3] && run[..3][..2] == run[..2] && run[..2][..1] == run[..1] && run[..1][..0] == [];
    assert Exec(run[..1]) == Some(State([], false, Blocking, [], 0, false, []));
    assert Exec(run[..2]) == Some(State([], true, Blocking, [], 0, true, []));
    assert Exec(run[..3]) == Some(State([], true, Blocking, [], 0, false, []));
  }

  /* ---- progress ---- */

  /** One more step of a run. */
  lemma {:induction false} Then<T>(run: seq<Action<T>>, s: State<T>, a: Action<T>, s': State<T>)
    requires Exec(run) == Some(s) && Step(s, a) == Some(s')
    ensures Exec(run + [a]) == Some(s')
  {
    assert (run + [a])[..|run|] == run;
  }

  /** Nothing is pushed or stopped and no wake-up is spurious: what the program goes on to do by itself. */
  predicate GoesOnItself<T>(more: seq<Action<T>>) {
    forall i :: 0 <= i < |more| ==> !more[i].Push? && !more[i].Stop? && !more[i].Wake?
  }

  /** Everything pushed has been published. */
  predicate Idle<T>(s: State<T>) { s.queue == [] && !s.consumer.Holding? }

  function Work<T>(s: State<T>): nat {
    3 * |s.queue| + if s.consumer.Holding? || s.consumer.Asleep? then 1 else 0
  }

  /** As long as the queue is not stopped and not everything is published, the next step is there: the popped
      item is published, a sleeping consumer is notified, or a consumer that is up takes the front item. */
  lemma {:induction false} Onward<T>(s: State<T>) returns (a: Action<T>, s': State<T>)
    requires Inv(s) && !s.stopped && !Idle(s)
    ensures GoesOnItself([a]) && Step(s, a) == Some(s') && Work(s') < Work(s)
    ensures Inv(s') && !s'.stopped && s'.pushed == s.pushed
  {
    a := if s.consumer.Holding? then Publish else if s.consumer.Asleep? then NotifyPush else Check;
    s' := Step(s, a).value;
    StepInv(s, a, s');
  }

  /** After `run`, the steps `more` lead to `s'`; all of them happen by themselves. */
  ghost predicate Reaches<T>(run: seq<Action<T>>, more: seq<Action<T>>, s': State<T>) {
    GoesOnItself(more) && Exec(run + more) == Some(s')
  }

  lemma {:induction false} ReachesSame<T>(run: seq<Action<T>>, s: State<T>)
    requires Exec(run) == Some(s)
    ensures Reaches(run, [], s)
  {
    assert run + [] == run;
  }

  lemma {:induction false} ReachesThen<T>(run: seq<Action<T>>, a: Action<T>, rest: seq<Action<T>>, s': State<T>)
    requires GoesOnItself([a]) && Reaches(run + [a], rest, s')
    ensures Reaches(run, [a] + rest, s')
  {
    assert (run + [a]) + rest == run + ([a] + rest);
    assert [a][0] == a;
  }

  lemma {:induction false} Drain<T>(run: seq<Action<T>>, s: State<T>) returns (more: seq<Action<T>>, s': State<T>)
    requires Exec(run) == Some(s) && Inv(s) && !s.stopped
    ensures Reaches(run, more, s')
    ensures Inv(s') && Idle(s') && !s'.stopped && s'.pushed == s.pushed
    decreases Work(s)
  {
    if Idle(s) {
      more, s' := [], s;
      ReachesSame(run, s);
    } else {
      var a, s1 := Onward(s);
      Then(run, s, a, s1);
      var rest;
      rest, s' := Drain(run + [a], s1);
      more := [a] + rest;
      ReachesThen(run, a, rest, s');
    }
  }

  /** From every reachable state that is not stopped, notifications under way and steps of the consumer alone
      lead to a state in which everything pushed so far has been published, in order, and the queue is empty. */
  lemma {:induction false} QueueDrains<T>(run: seq<Action<T>>, s: State<T>)
    returns (more: seq<Action<T>>, s': State<T>)
    requires Exec(run) == Some(s) && !s.stopped
    ensures forall i :: 0 <= i < |more| ==> !more[i].Push? && !more[i].Stop? && !more[i].Wake?
    ensures Exec(run + more) == Some(s')
    ensures s'.published == s'.pushed == s.pushed && s'.queue == [] && !s'.consumer.Holding? && !s'.stopped
  {
    ExecInv(run, s);
    more, s' := Drain(run, s);
    assert s'.published + [] + [] == s'.published;
  }

  /** A consumer that is up takes the front item, and publishes just that. */
  lemma {:induction false} NextItem<T>(run: seq<Action<T>>, s: State<T>)
    requires Exec(run) == Some(s) && s.consumer.Running? && !s.stopped && s.queue != []
    ensures Exec(run + [Check, Publish])
         == Some(s.(queue := s.queue[1..], published := s.published + [s.queue[0]]))
  {
    var s1 := s.(queue := s.queue[1..], consumer := Holding(s.queue[0]));
    var s2 := s.(queue := s.queue[1..], published := s.published + [s.queue[0]]);
    Then(run, s, Check, s1);
    assert Step(s1, Publish) == Some(s2);
    Then(run + [Check], s1, Publish, s2);
    assert (run + [Check]) + [Publish] == run + [Check, Publish];
  }

  /** On an empty queue it falls asleep without taking or publishing anything. */
  lemma {:induction false} NothingToTake<T>(run: seq<Action<T>>, s: State<T>)
    requires Exec(run) == Some(s) && s.consumer.Running? && !s.stopped && s.queue == []
    ensures Exec(run + [Check, Block]) == Some(s.(consumer := Asleep))
  {
    Then(run, s, Check, s.(consumer := Blocking));
    Then(run + [Check], s.(consumer := Blocking), Block, s.(consumer := Asleep));
    assert (run + [Check]) + [Block] == run + [Check, Block];
  }

  /** In every reachable state that is not stopped an element can be pushed, at the latest when the consumer has
      fallen asleep; and then it is published, right behind everything pushed before it. */
  lemma {:induction false} PushArrives<T>(run: seq<Action<T>>, s: State<T>, x: T)
    returns (more: seq<Action<T>>, s': State<T>)
    requires Exec(run) == Some(s) && !s.stopped
    ensures GoesOnItself(more)
    ensures Exec(run + (if s.consumer.Blocking? then [Block, Push(x)] else [Push(x)]) + more) == Some(s')
    ensures s'.published == s'.pushed == s.pushed + [x] && s'.queue == []
  {
    var ready, s1 := run, s;
    if s.consumer.Blocking? {
      Then(run, s, Block, s.(consumer := Asleep));
      ready, s1 := run + [Block], s.(consumer := Asleep);
    }
    var s2 := Step(s1, Push(x)).value;
    Then(ready, s1, Push(x), s2);
    assert ready + [Push(x)] == run + if s.consumer.Blocking? then [Block, Push(x)] else [Push(x)];
    more, s' := QueueDrains(ready + [Push(x)], s2);
  }

  /** A stopped consumer that the notification of `stop` still reaches ends, after publishing at most the item
      it holds. */
  lemma {:induction false} StopEnds<T>(run: seq<Action<T>>, s: State<T>)
    returns (more: seq<Action<T>>, s': State<T>)
    requires Exec(run) == Some(s) && s.stopped && (s.stopNotify || !Sleepy(s.consumer))
    ensures Reaches(run, more, s') && s'.consumer.Quit?
    ensures s'.published == s.published + Held(s) && s'.queue == s.queue
    decreases if s.consumer.Quit? then 0 else if s.consumer.Running? then 1 else if s.consumer.Blocking? then 3 else 2
  {
    if s.consumer.Quit? {
      more, s' := [], s;
      ReachesSame(run, s);
    } else {
      var a := match s.consumer
        case Running => Check
        case Blocking => Block
        case Asleep => NotifyStop
        case _ => Publish;
      var s1 := Step(s, a).value;
      Then(run, s, a, s1);
      var rest;
      rest, s' := StopEnds(run + [a], s1);
      more := [a] + rest;
      ReachesThen(run, a, rest, s');
    }
  }
}

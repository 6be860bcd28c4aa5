/** The table objects and the interleaving model agree: a commit without interruption does what
    TransactionPreCommit does, and the read loop takes the read steps of a reader. */
module BoccRefinement {
  import opened Wrappers
  import opened BoccCore
  import opened BoccProtocol
  import opened BoccTables
  import opened FromTxTables

  /* ---- commits ---- */

  /** The used slots hold exactly the active transactions. */
  ghost predicate ActiveIn(slots: seq<Slot>, active: set<nat>) {
    && (forall p :: 0 <= p < |slots| && slots[p].used ==> slots[p].id in active && slots[p].id < DTS_INF)
    && (forall a :: a in active ==> exists p :: 0 <= p < |slots| && slots[p].used && slots[p].id == a)
  }

  ghost predicate IsLeast(active: set<nat>, o: nat) {
    o in active && forall a :: a in active ==> o <= a
  }

  lemma {:induction false} LeastExists(active: set<nat>) returns (o: nat)
    requires active != {}
    ensures IsLeast(active, o)
  {
    var a :| a in active;
    if active == {a} {
      o := a;
    } else {
      var rest := active - {a};
      assert active == rest + {a};
      o := LeastExists(rest);
      if a < o {
        o := a;
      }
      assert forall b :: b in active ==> b in rest || b == a;
    }
  }

  /** The least active id is what the context finds in the slots. */
  lemma {:induction false} LeastIsOldest(slots: seq<Slot>, active: set<nat>, o: nat)
    requires ActiveIn(slots, active) && IsLeast(active, o)
    ensures forall x: nat :: IsOldest(slots, x) <==> x == o
  {
    var p :| 0 <= p < |slots| && slots[p].used && slots[p].id == o;
    forall x: nat | IsOldest(slots, x) ensures x == o {
      assert x <= slots[p].id < DTS_INF;
      var q :| 0 <= q < |slots| && slots[q].used && slots[q].id == x;
    }
  }

  /** The result of a commit is determined by what was there before. */
  lemma {:induction false} ListedIsUnique(slots: seq<Slot>, active: set<nat>, txnID: nat, a: seq<Entry>,
      b: seq<Entry>, keys: set<Key>, valTS: nat, endTS: nat, before: seq<Entry>)
    requires ActiveIn(slots, active) && active != {}
    requires Listed(slots, txnID, a, keys, valTS, endTS, before) && Listed(slots, txnID, b, keys, valTS, endTS, before)
    ensures a == b
  {
    var o := LeastExists(active);
    LeastIsOldest(slots, active, o);
    var x: nat :| IsBound(slots, txnID, valTS, x) && CutAt([Entry(keys, valTS, endTS)] + before, a, x);
    CutIsUnique([Entry(keys, valTS, endTS)] + before, a, b, x);
  }

  /** What the commit still relies on, and does not change, after both key sets are listed. */
  ghost predicate Frame(s: State, s': State, u: Tab) {
    && s'.hist == s.hist && s.hist != [] && s'.stamps != [] && s'.active == s.active
    && s.writer.Committing? && s'.writer.Committing?
    && s'.writer.id == s.writer.id && s'.writer.first == s.writer.first
    && s'.tables.At(Other(u)) == s.tables.At(Other(u))
  }

  ghost predicate AtStep(s: State, second: bool, u: Tab, pc: Pc) {
    && s.writer.Committing? && s.writer.pc == pc && Target(s.writer.first, second) == u
    && s.hist != [] && s.stamps != []
  }

  lemma {:induction false} Inserted(s: State, second: bool, next: nat, u: Tab) returns (s': State)
    requires AtStep(s, second, u, Apply(second, next)) && next < |s.hist[|s.hist| - 1].At(u)|
    ensures Step(s, Action.Commit) == Some(s') && AtStep(s', second, u, Apply(second, next + 1)) && Frame(s, s', u)
    ensures var w := s.hist[|s.hist| - 1].At(u)[next];
            s'.tables.At(u) == Table(s.tables.At(u).data[w.0 := w.1], s.tables.At(u).wss)
    ensures s'.clock == s.clock
  {
    s' := DoApply(s, second, u, next);
  }

  lemma {:induction false} AllInserted(s: State, second: bool, u: Tab) returns (s': State)
    requires s.hist != [] && AtStep(s, second, u, Apply(second, |s.hist[|s.hist| - 1].At(u)|))
    ensures Step(s, Action.Commit) == Some(s') && AtStep(s', second, u, DrawEnd(second)) && Frame(s, s', u)
    ensures s'.tables == s.tables && s'.clock == s.clock
  {
    s' := DoApply(s, second, u, |s.hist[|s.hist| - 1].At(u)|);
  }

  lemma {:induction false} ApplyNext(data: Data, writes: seq<Write>, next: nat)
    requires next < |writes|
    ensures ApplyAll(data, writes[..next + 1]) == ApplyAll(data, writes[..next])[writes[next].0 := writes[next].1]
  {
    assert writes[..next + 1][..next] == writes[..next];
  }

  /** Inserting the buffered tuples from number `next` on. */
  lemma {:induction false} ApplyRun(s0: State, run0: seq<Action>, s: State, second: bool, next: nat, u: Tab, data: Data)
    returns (run: seq<Action>, s': State)
    requires Exec(s0, run0) == Some(s) && AtStep(s, second, u, Apply(second, next))
    requires next <= |s.hist[|s.hist| - 1].At(u)|
    requires s.tables.At(u).data == ApplyAll(data, s.hist[|s.hist| - 1].At(u)[..next])
    ensures Exec(s0, run) == Some(s') && AtStep(s', second, u, DrawEnd(second)) && Frame(s, s', u)
    ensures s'.tables.At(u) == Table(ApplyAll(data, s.hist[|s.hist| - 1].At(u)), s.tables.At(u).wss)
    ensures s'.clock == s.clock
    decreases |s.hist[|s.hist| - 1].At(u)| - next
  {
    var writes := s.hist[|s.hist| - 1].At(u);
    if next == |writes| {
      assert writes[..next] == writes;
      s' := AllInserted(s, second, u);
      Then(s0, run0, s, Action.Commit, s');
      run := run0 + [Action.Commit];
    } else {
      ApplyNext(data, writes, next);
      var s1 := Inserted(s, second, next, u);
      Then(s0, run0, s, Action.Commit, s1);
      run, s' := ApplyRun(s0, run0 + [Action.Commit], s1, second, next + 1, u, data);
    }
  }

  lemma {:induction false} EndDrawn(s: State, second: bool, u: Tab) returns (s': State)
    requires AtStep(s, second, u, DrawEnd(second)) && CanTick(s)
    ensures Step(s, Action.Commit) == Some(s') && AtStep(s', second, u, Stamp(second)) && Frame(s, s', u)
    ensures s'.tables == s.tables && s'.clock == s.clock + 1 && s'.writer.tmp == s.clock
  {
    s' := DoDrawEnd(s, second).value;
  }

  lemma {:induction false} EndStored(s: State, second: bool, u: Tab) returns (s': State)
    requires AtStep(s, second, u, Stamp(second)) && s.tables.At(u).wss != []
    ensures Step(s, Action.Commit) == Some(s') && AtStep(s', second, u, FindOldest(second)) && Frame(s, s', u)
    ensures var wss := s.tables.At(u).wss;
            s'.tables.At(u) == Table(s.tables.At(u).data, wss[0 := wss[0].(endTS := s.writer.tmp)])
    ensures s'.clock == s.clock
  {
    s' := DoStamp(s, second, u).value;
  }

  /** The steps behind the inserts: end timestamp, oldest transaction, erasing. */
  lemma {:induction false} StampRun(s0: State, run0: seq<Action>, s: State, second: bool, u: Tab)
    returns (run: seq<Action>, s': State)
    requires Exec(s0, run0) == Some(s) && AtStep(s, second, u, DrawEnd(second)) && CanTick(s)
    requires s.tables.At(u).wss != []
    ensures Exec(s0, run) == Some(s') && AtStep(s', second, u, FindOldest(second)) && Frame(s, s', u)
    ensures var wss := s.tables.At(u).wss;
            && s'.tables.At(u) == Table(s.tables.At(u).data, wss[0 := wss[0].(endTS := s.clock)])
            && s'.clock == s.clock + 1
  {
    var s1 := EndDrawn(s, second, u);
    Then(s0, run0, s, Action.Commit, s1);
    s' := EndStored(s1, second, u);
    Then(s0, run0 + [Action.Commit], s1, Action.Commit, s');
    run := run0 + [Action.Commit] + [Action.Commit];
  }

  lemma {:induction false} Asked(s: State, second: bool, u: Tab, o: nat) returns (s': State)
    requires AtStep(s, second, u, FindOldest(second)) && s.tables.At(u).wss != [] && IsLeast(s.active, o)
    ensures Step(s, Oldest(o)) == Some(s') && AtStep(s', second, u, Erase(second)) && Frame(s, s', u)
    ensures s'.tables == s.tables && s'.clock == s.clock
    ensures s'.writer.tmp == if o == s.writer.id then s.tables.At(u).wss[0].valTS else o
  {
    s' := DoOldest(s, o).value;
  }

  lemma {:induction false} Erased(s: State, second: bool, u: Tab) returns (s': State)
    requires AtStep(s, second, u, Erase(second))
    ensures Step(s, Action.Commit) == Some(s')
    ensures AtStep(s', second, u, if second then Leave else Apply(true, 0)) && Frame(s, s', u)
    ensures s'.tables.At(u).data == s.tables.At(u).data && s'.clock == s.clock
    ensures CutAt(s.tables.At(u).wss, s'.tables.At(u).wss, s.writer.tmp)
  {
    s' := DoErase(s, second, u);
  }

  lemma {:induction false} EraseRun(s0: State, run0: seq<Action>, s: State, second: bool, u: Tab, slots: seq<Slot>)
    returns (run: seq<Action>, s': State, bound: nat)
    requires Exec(s0, run0) == Some(s) && AtStep(s, second, u, FindOldest(second)) && s.tables.At(u).wss != []
    requires ActiveIn(slots, s.active) && s.active != {}
    ensures Exec(s0, run) == Some(s') && AtStep(s', second, u, if second then Leave else Apply(true, 0))
    ensures Frame(s, s', u)
    ensures s'.tables.At(u).data == s.tables.At(u).data && s'.clock == s.clock
    ensures CutAt(s.tables.At(u).wss, s'.tables.At(u).wss, bound)
    ensures IsBound(slots, s.writer.id, s.tables.At(u).wss[0].valTS, bound)
  {
    var o := LeastExists(s.active);
    LeastIsOldest(slots, s.active, o);
    var s1 := Asked(s, second, u, o);
    Then(s0, run0, s, Oldest(o), s1);
    bound := s1.writer.tmp;
    s' := Erased(s1, second, u);
    Then(s0, run0 + [Oldest(o)], s1, Action.Commit, s');
    run := run0 + [Oldest(o)] + [Action.Commit];
  }

  /** transactionCommit of one table. */
  lemma {:induction false} TableRun(s0: State, run0: seq<Action>, s: State, second: bool, u: Tab, slots: seq<Slot>,
      keys: set<Key>, valTS: nat, before: seq<Entry>)
    returns (run: seq<Action>, s': State)
    requires Exec(s0, run0) == Some(s) && AtStep(s, second, u, Apply(second, 0)) && CanTick(s)
    requires s.tables.At(u).wss == [Entry(keys, valTS, DTS_INF)] + before
    requires ActiveIn(slots, s.active) && s.active != {}
    ensures Exec(s0, run) == Some(s') && AtStep(s', second, u, if second then Leave else Apply(true, 0))
    ensures Frame(s, s', u)
    ensures s'.clock == s.clock + 1
    ensures s'.tables.At(u).data == ApplyAll(s.tables.At(u).data, s.hist[|s.hist| - 1].At(u))
    ensures Listed(slots, s.writer.id, s'.tables.At(u).wss, keys, valTS, s.clock, before)
  {
    var writes := s.hist[|s.hist| - 1].At(u);
    assert writes[..0] == [];
    var run1, s1 := ApplyRun(s0, run0, s, second, 0, u, s.tables.At(u).data);
    var run2, s2 := StampRun(s0, run1, s1, second, u);
    assert s2.tables.At(u).wss == [Entry(keys, valTS, s.clock)] + before;
    var bound;
    run, s', bound := EraseRun(s0, run2, s2, second, u, slots);
  }

  /** The second vote and saveWriteSet of both tables. */
  lemma {:induction false} ListRun(s: State, t: Tab) returns (run: seq<Action>, s': State)
    requires s.writer.Open? && s.writer.vote.At(Other(t)) && s.clock + 2 < DTS_INF
    ensures Exec(s, run) == Some(s') && AtStep(s', false, t, Apply(false, 0))
    ensures s'.writer.id == s.writer.id && s'.writer.first == t
    ensures s'.hist == s.hist + [s.writer.buf] && s'.active == s.active && s'.clock == s.clock + 2
    ensures var a, b := s.tables.At(t), s.tables.At(Other(t));
            && s'.tables.At(t) == Table(a.data, [Entry(KeysOf(s.writer.buf.At(t)), s.clock, DTS_INF)] + a.wss)
            && s'.tables.At(Other(t))
                == Table(b.data, [Entry(KeysOf(s.writer.buf.At(Other(t))), s.clock + 1, DTS_INF)] + b.wss)
  {
    var run1, s1 := ListFirst(s, t);
    run, s' := ListOne(s, run1, s1, true, Other(t));
    assert Other(Other(t)) == t;
  }

  /** The second vote and saveWriteSet of its table. */
  lemma {:induction false} ListFirst(s: State, t: Tab) returns (run: seq<Action>, s': State)
    requires s.writer.Open? && s.writer.vote.At(Other(t)) && s.clock + 1 < DTS_INF
    ensures Exec(s, run) == Some(s') && AtStep(s', true, Other(t), Draw(true))
    ensures s'.writer.id == s.writer.id && s'.writer.first == t
    ensures s'.hist == s.hist + [s.writer.buf] && s'.active == s.active && s'.clock == s.clock + 1
    ensures var e := Entry(KeysOf(s.writer.buf.At(t)), s.clock, DTS_INF);
            s'.tables.At(t) == Table(s.tables.At(t).data, [e] + s.tables.At(t).wss)
    ensures s'.tables.At(Other(t)) == s.tables.At(Other(t))
  {
    var s1 := Started(s, t);
    assert Exec(s, []) == Some(s);
    Then(s, [], s, Vote(t), s1);
    assert s1.hist[|s1.hist| - 1] == s.writer.buf;
    run, s' := ListOne(s, [] + [Vote(t)], s1, false, t);
  }

  /** The vote that starts the commit. */
  lemma {:induction false} Started(s: State, t: Tab) returns (s': State)
    requires s.writer.Open? && s.writer.vote.At(Other(t))
    ensures Step(s, Vote(t)) == Some(s') && AtStep(s', false, t, Draw(false))
    ensures s'.writer.id == s.writer.id && s'.writer.first == t
    ensures s'.hist == s.hist + [s.writer.buf] && s'.active == s.active && s'.clock == s.clock
    ensures s'.tables == s.tables
  {
    s' := DoStart(s, t);
  }

  lemma {:induction false} Drawn(s: State, second: bool, u: Tab) returns (s': State)
    requires AtStep(s, second, u, Draw(second)) && CanTick(s)
    ensures Step(s, Action.Commit) == Some(s') && AtStep(s', second, u, Publish(second)) && Frame(s, s', u)
    ensures s'.tables == s.tables && s'.clock == s.clock + 1 && s'.writer.tmp == s.clock
  {
    s' := DoDraw(s, second, u).value;
  }

  lemma {:induction false} Published(s: State, second: bool, u: Tab) returns (s': State)
    requires AtStep(s, second, u, Publish(second))
    ensures Step(s, Action.Commit) == Some(s') && Frame(s, s', u) && s'.clock == s.clock
    ensures s'.writer.pc == if second then Apply(false, 0) else Draw(true)
    ensures var e := Entry(KeysOf(s.hist[|s.hist| - 1].At(u)), s.writer.tmp, DTS_INF);
            s'.tables.At(u) == Table(s.tables.At(u).data, [e] + s.tables.At(u).wss)
  {
    s' := DoPublish(s, second, u);
  }

  /** saveWriteSet of one table. */
  lemma {:induction false} ListOne(s0: State, run0: seq<Action>, s: State, second: bool, u: Tab)
    returns (run: seq<Action>, s': State)
    requires Exec(s0, run0) == Some(s) && AtStep(s, second, u, Draw(second)) && CanTick(s)
    ensures Exec(s0, run) == Some(s') && Frame(s, s', u) && s'.clock == s.clock + 1
    ensures s'.writer.pc == if second then Apply(false, 0) else Draw(true)
    ensures var e := Entry(KeysOf(s.hist[|s.hist| - 1].At(u)), s.clock, DTS_INF);
            s'.tables.At(u) == Table(s.tables.At(u).data, [e] + s.tables.At(u).wss)
  {
    var s1 := Drawn(s, second, u);
    Then(s0, run0, s, Action.Commit, s1);
    s' := Published(s1, second, u);
    Then(s0, run0 + [Action.Commit], s1, Action.Commit, s');
    run := run0 + [Action.Commit] + [Action.Commit];
  }

  /** What the pre-commit call of table `t` that finds the other vote promises about tables, lists, clock
      and active transactions. */
  ghost predicate Committed(slots: seq<Slot>, t: Tab, s: State, s': State)
    requires s.writer.Open?
  {
    var id, buf, o := s.writer.id, s.writer.buf, Other(t);
    && s'.writer.Idle? && s'.clock == s.clock + 4 && s'.active == s.active - {id} && s'.hist == s.hist + [buf]
    && s'.tables.At(t).data == ApplyAll(s.tables.At(t).data, buf.At(t))
    && s'.tables.At(o).data == ApplyAll(s.tables.At(o).data, buf.At(o))
    && Listed(slots, id, s'.tables.At(t).wss, KeysOf(buf.At(t)), s.clock, s.clock + 2, s.tables.At(t).wss)
    && Listed(slots, id, s'.tables.At(o).wss, KeysOf(buf.At(o)), s.clock + 1, s.clock + 3, s.tables.At(o).wss)
  }

  /** The same for table `t` only: the other table is listed, but not yet written. */
  ghost predicate HalfCommitted(slots: seq<Slot>, t: Tab, s: State, s': State)
    requires s.writer.Open?
  {
    var id, buf, o := s.writer.id, s.writer.buf, Other(t);
    && s'.clock == s.clock + 3 && s'.active == s.active && s'.hist == s.hist + [buf]
    && s'.tables.At(t).data == ApplyAll(s.tables.At(t).data, buf.At(t))
    && Listed(slots, id, s'.tables.At(t).wss, KeysOf(buf.At(t)), s.clock, s.clock + 2, s.tables.At(t).wss)
    && s'.tables.At(o).data == s.tables.At(o).data
    && s'.tables.At(o).wss == [Entry(KeysOf(buf.At(o)), s.clock + 1, DTS_INF)] + s.tables.At(o).wss
  }

  lemma {:induction false} FirstTableRun(s: State, t: Tab, slots: seq<Slot>) returns (run: seq<Action>, s': State)
    requires s.writer.Open? && s.writer.vote.At(Other(t)) && s.clock + 3 < DTS_INF
    requires ActiveIn(slots, s.active) && s.writer.id in s.active
    ensures Exec(s, run) == Some(s') && HalfCommitted(slots, t, s, s')
    ensures AtStep(s', true, Other(t), Apply(true, 0)) && s'.writer.id == s.writer.id && s'.writer.first == t
  {
    var run1, s1 := ListRun(s, t);
    assert s1.hist[|s1.hist| - 1] == s.writer.buf;
    run, s' := TableRun(s, run1, s1, false, t, slots, KeysOf(s.writer.buf.At(t)), s.clock, s.tables.At(t).wss);
    assert s'.tables.At(Other(t)) == s1.tables.At(Other(t));
  }

  lemma {:induction false} SecondTableRun(s: State, t: Tab, slots: seq<Slot>, run0: seq<Action>, s0: State)
    returns (run: seq<Action>, s': State)
    requires s.writer.Open? && s.clock + 4 < DTS_INF
    requires ActiveIn(slots, s.active) && s.writer.id in s.active
    requires Exec(s, run0) == Some(s0) && HalfCommitted(slots, t, s, s0)
    requires AtStep(s0, true, Other(t), Apply(true, 0)) && s0.writer.id == s.writer.id && s0.writer.first == t
    ensures Exec(s, run) == Some(s') && Committed(slots, t, s, s')
  {
    var o := Other(t);
    assert Other(o) == t;
    assert s0.hist[|s0.hist| - 1] == s.writer.buf;
    var run1, s1 := TableRun(s, run0, s0, true, o, slots, KeysOf(s.writer.buf.At(o)), s.clock + 1, s.tables.At(o).wss);
    s' := DoLeave(s1);
    Then(s, run1, s1, Action.Commit, s');
    run := run1 + [Action.Commit];
  }

  /** The steps from the second vote until the writer leaves, run without interruption, have the effect
      that TransactionPreCommit promises for the objects. */
  lemma {:induction false} CommitIsRun(s: State, t: Tab, slots: seq<Slot>) returns (run: seq<Action>, s': State)
    requires s.writer.Open? && s.writer.vote.At(Other(t)) && s.clock + 4 < DTS_INF
    requires ActiveIn(slots, s.active) && s.writer.id in s.active
    ensures Exec(s, run) == Some(s') && Committed(slots, t, s, s')
  {
    var run1, s1 := FirstTableRun(s, t, slots);
    run, s' := SecondTableRun(s, t, slots, run1, s1);
  }

  /** Only one slot was ever given the id. */
  ghost predicate OneSlot(slots: seq<Slot>, txnID: nat, pos: nat) {
    pos < |slots| && forall p :: 0 <= p < |slots| ==> (slots[p].id == txnID <==> p == pos)
  }

  /** Freeing the slot takes just this transaction from the active ones. */
  lemma {:induction false} FreedSlot(slots: seq<Slot>, active: set<nat>, txnID: nat, pos: nat, freed: Slot)
    requires ActiveIn(slots, active) && OneSlot(slots, txnID, pos) && !freed.used
    ensures ActiveIn(slots[pos := freed], active - {txnID})
  {
    var slots' := slots[pos := freed];
    forall a | a in active - {txnID} ensures exists p :: 0 <= p < |slots'| && slots'[p].used && slots'[p].id == a {
      var p :| 0 <= p < |slots| && slots[p].used && slots[p].id == a;
      assert slots'[p] == slots[p];
    }
  }

  /** Whatever TransactionPreCommit leaves of the two tables, their lists and the slots, the uninterrupted
      run leaves the same: its contract has just one outcome, and the run ends with it. */
  lemma {:induction false} RunIsPreCommit(s: State, t: Tab, slots: seq<Slot>, pos: nat, table: Table, other: Table,
      freed: Slot)
    returns (run: seq<Action>, s': State)
    requires s.writer.Open? && s.writer.vote.At(Other(t)) && s.clock + 4 < DTS_INF
    requires ActiveIn(slots, s.active) && s.writer.id in s.active && OneSlot(slots, s.writer.id, pos) && !freed.used
    requires table.data == ApplyAll(s.tables.At(t).data, s.writer.buf.At(t))
    requires other.data == ApplyAll(s.tables.At(Other(t)).data, s.writer.buf.At(Other(t)))
    requires Listed(slots, s.writer.id, table.wss, KeysOf(s.writer.buf.At(t)), s.clock, s.clock + 2, s.tables.At(t).wss)
    requires Listed(slots, s.writer.id, other.wss, KeysOf(s.writer.buf.At(Other(t))), s.clock + 1, s.clock + 3,
               s.tables.At(Other(t)).wss)
    ensures Exec(s, run) == Some(s') && s'.tables.At(t) == table && s'.tables.At(Other(t)) == other
    ensures s'.clock == s.clock + 4 && s'.writer.Idle? && ActiveIn(slots[pos := freed], s'.active)
  {
    run, s' := CommitIsRun(s, t, slots);
    ListedIsUnique(slots, s.active, s.writer.id, s'.tables.At(t).wss, table.wss, KeysOf(s.writer.buf.At(t)),
                   s.clock, s.clock + 2, s.tables.At(t).wss);
    ListedIsUnique(slots, s.active, s.writer.id, s'.tables.At(Other(t)).wss, other.wss,
                   KeysOf(s.writer.buf.At(Other(t))), s.clock + 1, s.clock + 3, s.tables.At(Other(t)).wss);
    FreedSlot(slots, s.active, s.writer.id, pos, freed);
  }

  /* ---- reads ---- */

  function WorldOf(s: State): Pair<Data> { Pair(s.tables.zero.data, s.tables.one.data) }

  function Worlds(states: seq<State>): seq<Pair<Data>> {
    seq(|states|, i requires 0 <= i < |states| => WorldOf(states[i]))
  }

  ghost predicate Reads(s: State, rid: nat, keys: seq<Key>, got: Pair<seq<Val>>) {
    rid in s.readers && s.readers[rid].phase.Reading? && s.readers[rid].keys == keys && s.readers[rid].got == got
  }

  /** A read step does what one read of the method does: it adds the value found, or starts over. */
  lemma {:induction false} ReadStep(s: State, rid: nat, keys: seq<Key>, worlds: seq<Pair<Data>>, n: nat, r: nat,
      got: Pair<seq<Val>>)
    requires Reads(s, rid, keys, got) && ReadInPass(keys, worlds, n, r, got) && r < 2 * |keys|
    ensures DoRead(s, rid).Some?
    ensures var v := Lookup(keys, WorldOf(s), r);
            Reads(DoRead(s, rid).value, rid, keys,
                  if v.None? then Pair([], []) else got.With(TabOf(r), got.At(TabOf(r)) + [v.value]))
  {
    assert r % 2 == 0 ==> (r + 1) / 2 == r / 2;
    assert r % 2 == 1 ==> (r + 1) / 2 == r / 2 + 1;
  }

  /** In `states` the reader takes one read step at a time; between them everything but what it has read
      may change. */
  ghost predicate ReadRun(rid: nat, keys: seq<Key>, states: seq<State>) {
    && states != [] && Reads(states[0], rid, keys, Pair([], []))
    && forall i :: 0 <= i < |states| - 1 ==> TakesRead(rid, keys, states[i], states[i + 1])
  }

  ghost predicate TakesRead(rid: nat, keys: seq<Key>, s: State, s': State) {
    DoRead(s, rid).Some? && rid in DoRead(s, rid).value.readers &&
    Reads(s', rid, keys, DoRead(s, rid).value.readers[rid].got)
  }

  lemma {:induction false} HitsFound(keys: seq<Key>, worlds: seq<Pair<Data>>, n: nat, r: nat)
    requires r <= 2 * |keys|
    ensures var h := Hits(keys, worlds, n, r);
            && (forall q :: r <= q < h ==> Found(keys, worlds, n, q))
            && (h < 2 * |keys| && n + h < |worlds| ==> !Found(keys, worlds, n, h))
    decreases 2 * |keys| - r
  {
    if Hits(keys, worlds, n, r) == r {
    } else {
      HitsFound(keys, worlds, n, r + 1);
    }
  }

  predicate Found(keys: seq<Key>, worlds: seq<Pair<Data>>, n: nat, q: nat) {
    q < 2 * |keys| && n + q < |worlds| && Lookup(keys, worlds[n + q], q).Some?
  }

  /** The reader has read the first `r` values of the pass that starts at moment `n`. */
  ghost predicate HasRead(rid: nat, keys: seq<Key>, states: seq<State>, n: nat, r: nat)
    requires n + r < |states|
  {
    && rid in states[n + r].readers
    && var got := states[n + r].readers[rid].got;
       Reads(states[n + r], rid, keys, got) && ReadInPass(keys, Worlds(states), n, r, got)
  }

  lemma {:induction false} NextHasRead(rid: nat, keys: seq<Key>, states: seq<State>, n: nat, r: nat)
    requires n + r + 1 < |states| && HasRead(rid, keys, states, n, r)
    requires TakesRead(rid, keys, states[n + r], states[n + r + 1]) && r < 2 * |keys|
    ensures if Found(keys, Worlds(states), n, r) then HasRead(rid, keys, states, n, r + 1)
            else Reads(states[n + r + 1], rid, keys, Pair([], []))
  {
    var got := states[n + r].readers[rid].got;
    ReadStep(states[n + r], rid, keys, Worlds(states), n, r, got);
    if Found(keys, Worlds(states), n, r) {
      FromTxTables.NextRead(keys, Worlds(states), n, r, got);
    }
  }

  /** Up to its first missing key a pass reads what the method reads. */
  lemma {:induction false} PassOfRun(rid: nat, keys: seq<Key>, states: seq<State>, n: nat, r: nat)
    requires ReadRun(rid, keys, states) && n + r < |states| && r <= Hits(keys, Worlds(states), n, 0)
    requires Reads(states[n], rid, keys, Pair([], []))
    ensures HasRead(rid, keys, states, n, r)
  {
    if r == 0 {
    } else {
      PassOfRun(rid, keys, states, n, r - 1);
      HitsFound(keys, Worlds(states), n, 0);
      assert Found(keys, Worlds(states), n, r - 1);
      assert TakesRead(rid, keys, states[n + r - 1], states[n + r - 1 + 1]);
      NextHasRead(rid, keys, states, n, r - 1);
    }
  }

  /** At the missing key the reader starts over. */
  lemma {:induction false} MissRestarts(rid: nat, keys: seq<Key>, states: seq<State>, n: nat, h: nat)
    requires ReadRun(rid, keys, states) && n + h + 1 < |states| && Reads(states[n], rid, keys, Pair([], []))
    requires h == Hits(keys, Worlds(states), n, 0) < 2 * |keys|
    ensures Reads(states[n + h + 1], rid, keys, Pair([], []))
  {
    PassOfRun(rid, keys, states, n, h);
    HitsFound(keys, Worlds(states), n, 0);
    assert TakesRead(rid, keys, states[n + h], states[n + h + 1]);
    NextHasRead(rid, keys, states, n, h);
  }

  lemma {:induction false} FirstPassLater(keys: seq<Key>, worlds: seq<Pair<Data>>, n: nat)
    requires n <= |worlds|
    ensures FirstPass(keys, worlds, n).Some? ==> FirstPass(keys, worlds, n).value >= n
    decreases |worlds| - n
  {
    var h := Hits(keys, worlds, n, 0);
    if h == 2 * |keys| || n + h >= |worlds| {
    } else {
      FirstPassLater(keys, worlds, n + h + 1);
    }
  }

  /** The reader ends its first complete pass with what ReadTables returns for the same tables. */
  lemma {:induction false} RunIsFirstPass(rid: nat, keys: seq<Key>, states: seq<State>, n: nat, m: nat)
    requires ReadRun(rid, keys, states) && n < |states| && Reads(states[n], rid, keys, Pair([], []))
    requires FirstPass(keys, Worlds(states), n) == Some(m) && m + 2 * |keys| < |states|
    ensures HasRead(rid, keys, states, m, 2 * |keys|)
    decreases |states| - n
  {
    var h := Hits(keys, Worlds(states), n, 0);
    if h == 2 * |keys| {
      PassOfRun(rid, keys, states, n, h);
    } else {
      FirstPassLater(keys, Worlds(states), n + h + 1);
      MissRestarts(rid, keys, states, n, h);
      RunIsFirstPass(rid, keys, states, n + h + 1, m);
    }
  }

  /** A whole run: the read loop of the objects and the read steps of a reader return the same tuples. */
  lemma {:induction false} ReadsAreReadTables(rid: nat, keys: seq<Key>, states: seq<State>, tpls: Pair<seq<Val>>)
    requires ReadRun(rid, keys, states) && FirstPass(keys, Worlds(states), 0).Some?
    requires FirstPass(keys, Worlds(states), 0).value + 2 * |keys| < |states|
    requires ReadInPass(keys, Worlds(states), FirstPass(keys, Worlds(states), 0).value, 2 * |keys|, tpls)
    ensures var last := FirstPass(keys, Worlds(states), 0).value + 2 * |keys|;
            rid in states[last].readers && states[last].readers[rid].got == tpls
  {
    var m := FirstPass(keys, Worlds(states), 0).value;
    RunIsFirstPass(rid, keys, states, 0, m);
    PassIsUnique(keys, Worlds(states), m, tpls, states[m + 2 * |keys|].readers[rid].got);
  }

  lemma {:induction false} PassIsUnique(keys: seq<Key>, worlds: seq<Pair<Data>>, n: nat, a: Pair<seq<Val>>,
      b: Pair<seq<Val>>)
    requires ReadInPass(keys, worlds, n, 2 * |keys|, a) && ReadInPass(keys, worlds, n, 2 * |keys|, b)
    ensures a == b
  {
    forall j | 0 <= j < |keys| ensures a.zero[j] == b.zero[j] && a.one[j] == b.one[j] {
      assert (2 * j) / 2 == j && (2 * j + 1) / 2 == j;
      assert ReadNumber(keys, worlds, n, 2 * j, a) && ReadNumber(keys, worlds, n, 2 * j, b);
      assert ReadNumber(keys, worlds, n, 2 * j + 1, a) && ReadNumber(keys, worlds, n, 2 * j + 1, b);
    }
    assert a.zero == b.zero && a.one == b.one;
  }
}

/** What a writer achieves by its own steps, exactly what its commit erases, and what the history that the
    other theorems speak of means in terms of the run. */
module BoccWriters {
  import opened Wrappers
  import opened BoccCore
  import opened BoccProtocol
  import opened BoccInvariant
  import opened BoccTheorems
  import opened BoccTables
  import opened BoccRuns
  import opened BoccRefinement
  import opened BoccReaders

  /* ---- exactly what is erased ---- */

  predicate OfReader(a: Action) {
    a.Take? || a.Register? || a.Read? || a.Burn? || a.DrawVal? || a.Scan? || a.Decide?
  }

  lemma {:induction false} ReaderKeepsCommits(s: State, a: Action, s': State)
    requires OfReader(a) && Step(s, a) == Some(s')
    ensures s'.tables == s.tables && s'.writer == s.writer && s'.hist == s.hist
  {}

  lemma {:induction false} ReadersKeepCommits(s: State, run: seq<Action>, s': State)
    requires (forall i :: 0 <= i < |run| ==> OfReader(run[i])) && Exec(s, run) == Some(s')
    ensures s'.tables == s.tables && s'.writer == s.writer && s'.hist == s.hist
    decreases |run|
  {
    if run == [] {
    } else {
      var init := run[..|run| - 1];
      assert forall i :: 0 <= i < |init| ==> OfReader(init[i]);
      ReadersKeepCommits(s, init, Exec(s, init).value);
      ReaderKeepsCommits(Exec(s, init).value, run[|run| - 1], s');
    }
  }

  lemma {:induction false} ReachableRun(data: Pair<Data>, s: State, run: seq<Action>, s': State)
    requires Reachable(data, s) && Exec(s, run) == Some(s')
    ensures Reachable(data, s')
    decreases |run|
  {
    if run == [] {
    } else {
      var init := run[..|run| - 1];
      ReachableRun(data, s, init, Exec(s, init).value);
      Advance(data, Exec(s, init).value, run[|run| - 1], s');
    }
  }

  lemma {:induction false} EraseCuts(s: State, t: Tab, s': State)
    requires s.writer.Committing? && s.writer.pc.Erase? && t == Target(s.writer.first, s.writer.pc.second)
    requires Step(s, Action.Commit) == Some(s')
    ensures CutAt(s.tables.At(t).wss, s'.tables.At(t).wss, s.writer.tmp)
    ensures s'.tables.At(Other(t)) == s.tables.At(Other(t)) && s'.tables.At(t).data == s.tables.At(t).data
  {}

  lemma {:induction false} OldestAsks(s: State, o: nat, s': State)
    requires Step(s, Oldest(o)) == Some(s')
    ensures s.writer.Committing? && s.writer.pc.FindOldest? && IsLeast(s.active, o)
    ensures s'.tables == s.tables && s'.writer.Committing? && s'.writer.pc.Erase?
    ensures s'.writer.first == s.writer.first && s'.writer.pc.second == s.writer.pc.second
    ensures
      var wss := s.tables.At(Target(s.writer.first, s.writer.pc.second)).wss;
      wss != [] && s'.writer.tmp == if o == s.writer.id then wss[0].valTS else o
  {}

  /** A writer asks for the oldest active transaction, readers do whatever they do, and the writer erases.
      Exactly the write sets of its table that ended after the answer stay: none behind the front that ended
      by then, and every one that ended later. If the writer is the oldest itself, its validation timestamp
      takes the place of the answer. The other table's list stays. */
  lemma {:induction false} ErasedExactly(data: Pair<Data>, s: State, o: nat, s1: State, others: seq<Action>, s2: State,
      s': State)
    requires Reachable(data, s) && Step(s, Oldest(o)) == Some(s1)
    requires (forall i :: 0 <= i < |others| ==> OfReader(others[i])) && Exec(s1, others) == Some(s2)
    requires Step(s2, Action.Commit) == Some(s')
    ensures s.writer.Committing? && s.writer.pc.FindOldest? && o in s.active && forall a :: a in s.active ==> o <= a
    ensures
      var t := Target(s.writer.first, s.writer.pc.second);
      var before, after := s.tables.At(t).wss, s'.tables.At(t).wss;
      && before != [] && after <= before && s'.tables.At(Other(t)) == s.tables.At(Other(t))
      && var bound := if o == s.writer.id then before[0].valTS else o;
         forall j :: 0 <= j < |before| ==> (j < |after| <==> before[j].endTS > bound)
  {
    OldestAsks(s, o, s1);
    ReadersKeepCommits(s1, others, s2);
    var t := Target(s.writer.first, s.writer.pc.second);
    EraseCuts(s2, t, s');
    ListsAreNewestFirst(data, s, t);
    CutIsExact(s.tables.At(t).wss, s'.tables.At(t).wss, s2.writer.tmp);
  }

  /** The same for the lists that an uninterrupted commit leaves, with the slots of the context. */
  lemma {:induction false} CommitErasesExactly(data: Pair<Data>, s: State, t: Tab, slots: seq<Slot>, u: Tab)
    returns (run: seq<Action>, s': State, bound: nat)
    requires Reachable(data, s) && s.writer.Open? && s.writer.vote.At(Other(t)) && s.clock + 4 < DTS_INF
    requires ActiveIn(slots, s.active) && s.writer.id in s.active
    ensures Exec(s, run) == Some(s') && s'.writer.Idle?
    ensures IsBound(slots, s.writer.id, s.clock + (if u == t then 0 else 1), bound)
    ensures
      var valTS, endTS := s.clock + (if u == t then 0 else 1), s.clock + (if u == t then 2 else 3);
      var all := [Entry(KeysOf(s.writer.buf.At(u)), valTS, endTS)] + s.tables.At(u).wss;
      var after := s'.tables.At(u).wss;
      after <= all && forall j :: 0 <= j < |all| ==> (j < |after| <==> all[j].endTS > bound)
  {
    run, s' := CommitIsRun(s, t, slots);
    bound := CommittedExactly(data, s, t, slots, s', u);
  }

  lemma {:induction false} CommittedExactly(data: Pair<Data>, s: State, t: Tab, slots: seq<Slot>, s': State, u: Tab)
    returns (bound: nat)
    requires Reachable(data, s) && s.writer.Open? && Committed(slots, t, s, s')
    ensures IsBound(slots, s.writer.id, s.clock + (if u == t then 0 else 1), bound)
    ensures
      var valTS, endTS := s.clock + (if u == t then 0 else 1), s.clock + (if u == t then 2 else 3);
      var all := [Entry(KeysOf(s.writer.buf.At(u)), valTS, endTS)] + s.tables.At(u).wss;
      var after := s'.tables.At(u).wss;
      after <= all && forall j :: 0 <= j < |all| ==> (j < |after| <==> all[j].endTS > bound)
  {
    var valTS, endTS := s.clock + (if u == t then 0 else 1), s.clock + (if u == t then 2 else 3);
    NewFrontIsNewest(data, s, u, KeysOf(s.writer.buf.At(u)), valTS, endTS);
    CommittedList(slots, t, s, s', u);
    bound := ListedExactly(slots, s.writer.id, s'.tables.At(u).wss, KeysOf(s.writer.buf.At(u)), valTS, endTS,
                           s.tables.At(u).wss);
  }

  lemma {:induction false} CommittedList(slots: seq<Slot>, t: Tab, s: State, s': State, u: Tab)
    requires s.writer.Open? && Committed(slots, t, s, s')
    ensures Listed(slots, s.writer.id, s'.tables.At(u).wss, KeysOf(s.writer.buf.At(u)),
                   s.clock + (if u == t then 0 else 1), s.clock + (if u == t then 2 else 3), s.tables.At(u).wss)
  {
    assert u == t || u == Other(t);
  }

  lemma {:induction false} NewFrontIsNewest(data: Pair<Data>, s: State, u: Tab, keys: set<Key>, valTS: nat, endTS: nat)
    requires Reachable(data, s) && s.writer.Open? && s.clock <= valTS && s.clock <= endTS
    ensures NewestFirst([Entry(keys, valTS, endTS)] + s.tables.At(u).wss)
  {
    ReachableInv(data, s);
    ListsAreNewestFirst(data, s, u);
    assert ListOk(s, T0) && ListOk(s, T1);
    ListedIsPast(s, u);
  }

  lemma {:induction false} ListedIsPast(s: State, u: Tab)
    requires Times(s) && !s.writer.Committing? && ListOk(s, u)
    ensures forall j :: 0 <= j < |s.tables.At(u).wss| ==>
              s.tables.At(u).wss[j].valTS < s.clock && s.tables.At(u).wss[j].endTS < s.clock
  {
    var wss := s.tables.At(u).wss;
    forall j | 0 <= j < |wss| ensures wss[j].valTS < s.clock && wss[j].endTS < s.clock {
      assert wss[j] == EntryOf(s, s.listed.At(u) - 1 - j, u);
      assert Complete(s.stamps[s.listed.At(u) - 1 - j], s.clock);
    }
  }

  /* ---- a writer by itself ---- */

  /** The id of a writer that has not left or of a reader that is visible. */
  ghost predicate Running(s: State, id: nat) {
    || (!s.writer.Idle? && s.writer.id == id)
    || exists i :: i in s.readers && !s.readers[i].phase.Taken? && s.readers[i].id == id
  }

  /** The active transactions are exactly those. */
  ghost predicate ActiveExact(s: State) {
    forall id :: id in s.active <==> Running(s, id)
  }

  lemma {:induction false} SameRunning(s: State, s': State)
    requires ActiveExact(s) && s'.active == s.active && s'.readers == s.readers
    requires !s.writer.Idle? && !s'.writer.Idle? && s'.writer.id == s.writer.id
    ensures ActiveExact(s')
  {
    forall id ensures id in s'.active <==> Running(s', id) {
      assert id in s.active <==> Running(s, id);
    }
  }

  lemma {:induction false} BeginActive(s: State, s': State)
    requires ActiveExact(s) && DoBegin(s) == Some(s')
    ensures ActiveExact(s')
  {
    forall id ensures id in s'.active <==> Running(s', id) {
      assert id in s.active <==> Running(s, id);
    }
  }

  lemma {:induction false} LeaveActive(s: State, s': State)
    requires IdsOk(s) && ActiveExact(s) && s.writer.Committing? && s' == DoLeave(s)
    ensures ActiveExact(s')
  {
    forall id ensures id in s'.active <==> Running(s', id) {
      assert id in s.active <==> Running(s, id);
    }
  }

  lemma {:induction false} CommitActive(s: State, s': State)
    requires IdsOk(s) && ActiveExact(s) && DoCommit(s) == Some(s')
    ensures ActiveExact(s')
  {
    if s.writer.pc.Leave? {
      LeaveActive(s, s');
    } else {
      CommitStays(s, s');
      SameRunning(s, s');
    }
  }

  lemma {:induction false} OldestActive(s: State, o: nat, s': State)
    requires ActiveExact(s) && DoOldest(s, o) == Some(s')
    ensures ActiveExact(s')
  {
    forall id ensures id in s'.active <==> Running(s', id) {
      assert id in s.active <==> Running(s, id);
      if i :| i in s.readers && !s.readers[i].phase.Taken? && s.readers[i].id == id {
        assert s'.readers[i] == MarkLate(s.readers[i]);
      }
    }
  }

  lemma {:induction false} TakeActive(s: State, rid: nat, keys: seq<Key>, s': State)
    requires ActiveExact(s) && DoTake(s, rid, keys) == Some(s')
    ensures ActiveExact(s')
  {
    forall id ensures id in s'.active <==> Running(s', id) {
      assert id in s.active <==> Running(s, id);
      if i :| i in s.readers && !s.readers[i].phase.Taken? && s.readers[i].id == id {
        assert s'.readers[i] == s.readers[i];
      }
    }
  }

  /** A visible reader goes on, or one becomes visible. */
  lemma {:induction false} UpdatedActive(s: State, rid: nat, r: Reader, s': State)
    requires ActiveExact(s) && rid in s.readers && r.id == s.readers[rid].id && !r.phase.Taken?
    requires s'.readers == s.readers[rid := r] && s'.writer == s.writer
    requires s'.active == s.active + {r.id} || (s'.active == s.active && r.id in s.active)
    ensures ActiveExact(s')
  {
    forall id ensures id in s'.active <==> Running(s', id) {
      assert id in s.active <==> Running(s, id);
      if id == r.id {
        assert rid in s'.readers && s'.readers[rid] == r;
      } else if i :| i in s.readers && !s.readers[i].phase.Taken? && s.readers[i].id == id {
        assert s'.readers[i] == s.readers[i];
      }
    }
  }

  lemma {:induction false} GoesOnActive(s: State, rid: nat, a: Action, s': State)
    requires IdsOk(s) && ActiveExact(s) && Step(s, a) == Some(s')
    requires a == Read(rid) || a == Burn(rid) || a == DrawVal(rid) || a == Scan(rid)
    ensures ActiveExact(s')
  {
    OnlyReader(s, rid, a, s');
    UpdatedActive(s, rid, s'.readers[rid], s');
  }

  lemma {:induction false} OnlyReader(s: State, rid: nat, a: Action, s': State)
    requires Step(s, a) == Some(s')
    requires a == Read(rid) || a == Burn(rid) || a == DrawVal(rid) || a == Scan(rid)
    ensures rid in s.readers && rid in s'.readers && s'.readers == s.readers[rid := s'.readers[rid]]
    ensures s'.writer == s.writer && s'.active == s.active && s'.readers[rid].id == s.readers[rid].id
    ensures !s.readers[rid].phase.Taken? && !s'.readers[rid].phase.Taken?
  {}

  lemma {:induction false} DecideActive(s: State, rid: nat, s': State)
    requires IdsOk(s) && ActiveExact(s) && DoDecide(s, rid) == Some(s')
    ensures ActiveExact(s')
  {
    forall id ensures id in s'.active <==> Running(s', id) {
      assert id in s.active <==> Running(s, id);
      if i :| i in s.readers && !s.readers[i].phase.Taken? && s.readers[i].id == id && i != rid {
        assert s'.readers[i] == s.readers[i];
      }
    }
  }

  lemma {:induction false} WriterActive(s: State, a: Action, s': State)
    requires IdsOk(s) && ActiveExact(s) && !OfReader(a) && Step(s, a) == Some(s')
    ensures ActiveExact(s')
  {
    match a {
      case Begin => BeginActive(s, s');
      case Buffer(_, _, _) => SameRunning(s, s');
      case Vote(_) => SameRunning(s, s');
      case Commit => CommitActive(s, s');
      case Oldest(o) => OldestActive(s, o, s');
    }
  }

  lemma {:induction false} ReaderActive(s: State, a: Action, s': State)
    requires IdsOk(s) && ActiveExact(s) && OfReader(a) && Step(s, a) == Some(s')
    ensures ActiveExact(s')
  {
    match a {
      case Take(rid, keys) => TakeActive(s, rid, keys, s');
      case Decide(rid) => DecideActive(s, rid, s');
      case Register(rid) => UpdatedActive(s, rid, s'.readers[rid], s');
      case Read(rid) => GoesOnActive(s, rid, a, s');
      case Burn(rid) => GoesOnActive(s, rid, a, s');
      case DrawVal(rid) => GoesOnActive(s, rid, a, s');
      case Scan(rid) => GoesOnActive(s, rid, a, s');
    }
  }

  /** In every reachable state the active transactions, among which the oldest is sought, are exactly the
      writer that has not left and the readers that are visible; each of them has drawn its id. */
  lemma {:induction false} ActiveIsExact(data: Pair<Data>, s: State)
    requires Reachable(data, s)
    ensures forall id :: id in s.active <==>
              || (!s.writer.Idle? && s.writer.id == id)
              || exists i :: i in s.readers && !s.readers[i].phase.Taken? && s.readers[i].id == id
    ensures forall id :: id in s.active ==> id < s.clock
  {
    var clock: nat, run: seq<Action> :| clock < DTS_INF && Exec(Init(data, clock), run) == Some(s);
    ExecActive(data, clock, run, s);
    ReachableInv(data, s);
    forall id: nat ensures (id in s.active <==> Running(s, id)) && (id in s.active ==> id < s.clock) {
    }
  }

  lemma {:induction false} ExecActive(data: Pair<Data>, clock: nat, run: seq<Action>, s: State)
    requires clock < DTS_INF && Exec(Init(data, clock), run) == Some(s)
    ensures ActiveExact(s)
    decreases |run|
  {
    if run == [] {
    } else {
      var init, a := run[..|run| - 1], run[|run| - 1];
      var before := Exec(Init(data, clock), init).value;
      ExecActive(data, clock, init, before);
      ExecInv(data, clock, init, before);
      if OfReader(a) {
        ReaderActive(before, a, s);
      } else {
        WriterActive(before, a, s);
      }
    }
  }

  /** Slots that hold exactly the active transactions. */
  lemma {:induction false} SlotsOf(active: set<nat>) returns (slots: seq<Slot>)
    requires forall a :: a in active ==> a < DTS_INF
    ensures ActiveIn(slots, active)
  {
    if active == {} {
      slots := [];
    } else {
      var a :| a in active;
      var rest := SlotsOf(active - {a});
      slots := rest + [Slot(true, a, (Active, Active))];
      OneMoreSlot(rest, active - {a}, a);
      assert (active - {a}) + {a} == active;
    }
  }

  lemma {:induction false} OneMoreSlot(slots: seq<Slot>, active: set<nat>, a: nat)
    requires ActiveIn(slots, active) && a < DTS_INF
    ensures ActiveIn(slots + [Slot(true, a, (Active, Active))], active + {a})
  {
    var more := slots + [Slot(true, a, (Active, Active))];
    forall b | b in active + {a} ensures exists p :: 0 <= p < |more| && more[p].used && more[p].id == b {
      if b == a {
        assert more[|slots|].id == a;
      } else {
        var p :| 0 <= p < |slots| && slots[p].used && slots[p].id == b;
        assert more[p] == slots[p];
      }
    }
  }

  /** The writer is open with the given buffers and votes; nothing else has changed since `s`. */
  ghost predicate OpenAs(s: State, s': State, buf: Pair<seq<Write>>, vote: Pair<bool>) {
    && s'.writer == Open(s.clock, buf, vote) && s'.clock == s.clock + 1 && s'.active == s.active + {s.clock}
    && s'.tables == s.tables && s'.hist == s.hist && s'.readers == s.readers && s'.published == s.published
  }

  lemma {:induction false} BeginRun(s: State) returns (s': State)
    requires s.writer.Idle? && CanTick(s)
    ensures Exec(s, [Begin]) == Some(s') && OpenAs(s, s', Pair([], []), Pair(false, false))
  {
    s' := DoBegin(s).value;
    ExecOne(s, Begin, s');
  }

  /** Buffering some writes for one table. */
  lemma {:induction false} BufferRun(s: State, s1: State, buf: Pair<seq<Write>>, t: Tab, ws: seq<Write>)
    returns (run: seq<Action>, s': State)
    requires OpenAs(s, s1, buf, Pair(false, false))
    ensures Exec(s1, run) == Some(s') && OpenAs(s, s', buf.With(t, buf.At(t) + ws), Pair(false, false))
    decreases |ws|
  {
    if ws == [] {
      run, s' := [], s1;
      assert buf.At(t) + ws == buf.At(t);
    } else {
      var init, w := ws[..|ws| - 1], ws[|ws| - 1];
      var run1, s2 := BufferRun(s, s1, buf, t, init);
      s' := DoBuffer(s2, t, w.0, w.1).value;
      Then(s1, run1, s2, Buffer(t, w.0, w.1), s');
      run := run1 + [Buffer(t, w.0, w.1)];
      assert (buf.At(t) + init) + [w] == buf.At(t) + ws;
    }
  }

  lemma {:induction false} VoteRun(s: State, s1: State, buf: Pair<seq<Write>>, t: Tab) returns (s': State)
    requires OpenAs(s, s1, buf, Pair(false, false))
    ensures Exec(s1, [Vote(Other(t))]) == Some(s') && OpenAs(s, s', buf, Pair(false, false).With(Other(t), true))
  {
    s' := DoVote(s1, Other(t)).value;
    ExecOne(s1, Vote(Other(t)), s');
  }

  /** Up to the first vote. */
  lemma {:induction false} OpenRun(s: State, writes: Pair<seq<Write>>, t: Tab) returns (run: seq<Action>, s': State)
    requires s.writer.Idle? && CanTick(s)
    ensures Exec(s, run) == Some(s') && OpenAs(s, s', writes, Pair(false, false).With(Other(t), true))
  {
    var s1 := BeginRun(s);
    var run2, s2 := BufferRun(s, s1, Pair([], []), T0, writes.zero);
    assert [] + writes.zero == writes.zero && [] + writes.one == writes.one;
    var run3, s3 := BufferRun(s, s2, Pair(writes.zero, []), T1, writes.one);
    s' := VoteRun(s, s3, writes, t);
    ExecConcat(s, [Begin], s1, run2, s2);
    ExecConcat(s, [Begin] + run2, s2, run3, s3);
    ExecConcat(s, [Begin] + run2 + run3, s3, [Vote(Other(t))], s');
    run := [Begin] + run2 + run3 + [Vote(Other(t))];
  }

  /** Whenever no writer is there, a new one can begin, buffer any writes for both tables, vote for both in any
      order and commit, all by itself; the tables then hold all its writes. */
  lemma {:induction false} WriterCommitsAlone(data: Pair<Data>, s: State, writes: Pair<seq<Write>>, t: Tab)
    returns (run: seq<Action>, s': State)
    requires Reachable(data, s) && s.writer.Idle? && s.clock + 6 < DTS_INF
    ensures Exec(s, run) == Some(s') && s'.writer.Idle? && s'.hist == s.hist + [writes] && s'.clock == s.clock + 5
    ensures forall u: Tab :: s'.tables.At(u).data == ApplyAll(s.tables.At(u).data, writes.At(u))
  {
    var run1, s1 := OpenRun(s, writes, t);
    ReachableRun(data, s, run1, s1);
    ActiveIsExact(data, s1);
    var slots := SlotsOf(s1.active);
    var run2, s2 := CommitIsRun(s1, t, slots);
    ExecConcat(s, run1, s1, run2, s2);
    run, s' := run1 + run2, s2;
    forall u: Tab ensures s'.tables.At(u).data == ApplyAll(s.tables.At(u).data, writes.At(u)) {
      assert u == t || u == Other(t);
    }
  }

  /** ... and a reader that starts then publishes the values written last. */
  lemma {:induction false} CommittedIsRead(data: Pair<Data>, s: State, writes: Pair<seq<Write>>, t: Tab, rid: nat,
      keys: seq<Key>)
    returns (run: seq<Action>, s': State)
    requires Reachable(data, s) && s.writer.Idle? && s.clock + 12 < DTS_INF
    requires forall i :: 0 <= i < |keys| ==> keys[i] in KeysOf(writes.zero) && keys[i] in KeysOf(writes.one)
    ensures Exec(s, run) == Some(s') && s'.published != [] &&
            var b := s'.published[|s'.published| - 1];
            && b.keys == keys && |b.got.zero| == |b.got.one| == |keys|
            && forall i :: 0 <= i < |keys| ==>
                 LastWrite(writes.zero, keys[i]) == Some(b.got.zero[i]) &&
                 LastWrite(writes.one, keys[i]) == Some(b.got.one[i])
  {
    var run1, s1 := WriterCommitsAlone(data, s, writes, t);
    ReachableRun(data, s, run1, s1);
    var id := FreshReader(s1);
    forall i | 0 <= i < |keys| ensures keys[i] in s1.tables.zero.data && keys[i] in s1.tables.one.data {
      WrittenIsThere(s, s1, writes, keys[i]);
    }
    var run2, s2 := NewReaderPublishes(data, s1, id, keys);
    ExecConcat(s, run1, s1, [Take(id, keys), Register(id)] + run2, s2);
    run, s' := run1 + ([Take(id, keys), Register(id)] + run2), s2;
    forall i | 0 <= i < |keys|
      ensures LastWrite(writes.zero, keys[i]) == Some(s'.published[|s1.published|].got.zero[i])
      ensures LastWrite(writes.one, keys[i]) == Some(s'.published[|s1.published|].got.one[i])
    {
      WrittenIsThere(s, s1, writes, keys[i]);
    }
  }

  lemma {:induction false} WrittenIsThere(s: State, s': State, writes: Pair<seq<Write>>, k: Key)
    requires forall u: Tab :: s'.tables.At(u).data == ApplyAll(s.tables.At(u).data, writes.At(u))
    requires k in KeysOf(writes.zero) && k in KeysOf(writes.one)
    ensures k in s'.tables.zero.data && LastWrite(writes.zero, k) == Some(s'.tables.zero.data[k])
    ensures k in s'.tables.one.data && LastWrite(writes.one, k) == Some(s'.tables.one.data[k])
  {
    assert s'.tables.At(T0).data == ApplyAll(s.tables.At(T0).data, writes.At(T0));
    assert s'.tables.At(T1).data == ApplyAll(s.tables.At(T1).data, writes.At(T1));
    ApplyAllLastWins(s.tables.zero.data, writes.zero, k);
    ApplyAllLastWins(s.tables.one.data, writes.one, k);
  }

  lemma {:induction false} FreshReader(s: State) returns (rid: nat)
    ensures rid !in s.readers
  {
    rid := Unused(s.readers.Keys);
  }

  lemma {:induction false} Unused(ids: set<nat>) returns (x: nat)
    ensures forall i :: i in ids ==> i < x
  {
    if ids == {} {
      x := 0;
    } else {
      var i :| i in ids;
      var y := Unused(ids - {i});
      x := if i < y then y else i + 1;
      assert forall j :: j in ids ==> j == i || j in ids - {i};
    }
  }

  /** A committing writer never waits: its next step is possible, whatever readers are doing. */
  lemma {:induction false} WriterNeverWaits(data: Pair<Data>, s: State) returns (a: Action, s': State)
    requires Reachable(data, s) && s.writer.Committing? && CanTick(s)
    ensures (a.Commit? || a.Oldest?) && Step(s, a) == Some(s')
  {
    ReachableInv(data, s);
    var w := s.writer;
    if w.pc.FindOldest? {
      var o := LeastExists(s.active);
      FrontListed(s);
      a := Oldest(o);
    } else {
      if w.pc.Stamp? { FrontListed(s); }
      a := Action.Commit;
    }
    s' := Step(s, a).value;
  }

  lemma {:induction false} FrontListed(s: State)
    requires Times(s) && ListOk(s, T0) && ListOk(s, T1)
    requires s.writer.Committing? && (s.writer.pc.FindOldest? || s.writer.pc.Stamp?)
    ensures s.tables.At(Target(s.writer.first, s.writer.pc.second)).wss != []
  {
    assert CurrentAt(s, T0) && CurrentAt(s, T1);
  }

  /* ---- what the history of a reader means ---- */

  /** The reader is there with the given id and keys, has not become visible, and is late as told. */
  ghost predicate Waits(s: State, rid: nat, id: nat, keys: seq<Key>, late: bool) {
    && rid in s.readers && s.readers[rid].phase.Taken?
    && s.readers[rid].id == id && s.readers[rid].keys == keys && s.readers[rid].late == late
  }

  lemma {:induction false} WriterKeepsWaiting(s: State, a: Action, s': State, rid: nat, id: nat, keys: seq<Key>,
      late: bool)
    requires Waits(s, rid, id, keys, late) && !OfReader(a) && Step(s, a) == Some(s')
    ensures Waits(s', rid, id, keys, late || a.Oldest?)
  {}

  lemma {:induction false} ReaderKeepsWaiting(s: State, a: Action, s': State, rid: nat, id: nat, keys: seq<Key>,
      late: bool)
    requires Waits(s, rid, id, keys, late) && OfReader(a) && a != Register(rid) && Step(s, a) == Some(s')
    ensures Waits(s', rid, id, keys, late)
  {}

  lemma {:induction false} WaitsOn(s: State, run: seq<Action>, s': State, rid: nat, id: nat, keys: seq<Key>)
    requires Waits(s, rid, id, keys, false) && Register(rid) !in run && Exec(s, run) == Some(s')
    ensures Waits(s', rid, id, keys, exists i :: 0 <= i < |run| && run[i].Oldest?)
    decreases |run|
  {
    if run == [] {
    } else {
      var init, a := run[..|run| - 1], run[|run| - 1];
      var before := Exec(s, init).value;
      WaitsOn(s, init, before, rid, id, keys);
      var late := exists i :: 0 <= i < |init| && init[i].Oldest?;
      if OfReader(a) {
        ReaderKeepsWaiting(before, a, s', rid, id, keys, late);
      } else {
        WriterKeepsWaiting(before, a, s', rid, id, keys, late);
      }
      assert forall i :: 0 <= i < |run| ==> run[i] == if i < |init| then init[i] else a;
    }
  }

  /** A reader is late exactly when some writer asked for the oldest transaction after the reader drew its id
      and before it became visible; what it remembers of the writers are the ones that have left by then. */
  lemma {:induction false} LateExactly(data: Pair<Data>, s: State, rid: nat, keys: seq<Key>, s1: State,
      others: seq<Action>, s2: State, s': State)
    requires Reachable(data, s) && Step(s, Take(rid, keys)) == Some(s1)
    requires Register(rid) !in others && Exec(s1, others) == Some(s2) && Step(s2, Register(rid)) == Some(s')
    ensures rid in s'.readers && s'.readers[rid].id == s.clock && s'.readers[rid].keys == keys
    ensures s'.readers[rid].late <==> exists i :: 0 <= i < |others| && others[i].Oldest?
    ensures s'.readers[rid].atStart == |s2.hist| - (if s2.writer.Committing? then 1 else 0)
  {
    WaitsOn(s1, others, s2, rid, s.clock, keys);
    Advance(data, s, Take(rid, keys), s1);
    ReachableRun(data, s1, others, s2);
    ReachableInv(data, s2);
  }

  /** Once visible, a reader keeps all this until it leaves, and what it publishes tells it. */
  lemma {:induction false} KeepsHistory(s: State, a: Action, s': State, rid: nat)
    requires rid in s.readers && !s.readers[rid].phase.Taken? && Step(s, a) == Some(s')
    ensures rid in s'.readers ==>
              var r, r' := s.readers[rid], s'.readers[rid];
              r'.id == r.id && r'.keys == r.keys && r'.late == r.late && r'.atStart == r.atStart && r'.cut == r.cut
    ensures rid !in s'.readers ==> a == Decide(rid) && forall i :: |s.published| <= i < |s'.published| ==>
              s'.published[i].atStart == s.readers[rid].atStart
  {
    if OfReader(a) {
      ReaderKeepsHistory(s, a, s', rid);
    } else {
      WriterKeepsHistory(s, a, s', rid);
    }
  }

  lemma {:induction false} ReaderKeepsHistory(s: State, a: Action, s': State, rid: nat)
    requires rid in s.readers && !s.readers[rid].phase.Taken? && OfReader(a) && Step(s, a) == Some(s')
    ensures rid in s'.readers ==>
              var r, r' := s.readers[rid], s'.readers[rid];
              r'.id == r.id && r'.keys == r.keys && r'.late == r.late && r'.atStart == r.atStart && r'.cut == r.cut
    ensures rid !in s'.readers ==> a == Decide(rid) && forall i :: |s.published| <= i < |s'.published| ==>
              s'.published[i].atStart == s.readers[rid].atStart
  {}

  lemma {:induction false} WriterKeepsHistory(s: State, a: Action, s': State, rid: nat)
    requires rid in s.readers && !s.readers[rid].phase.Taken? && !OfReader(a) && Step(s, a) == Some(s')
    ensures rid in s'.readers && s'.readers[rid] == s.readers[rid]
  {}

  /* ---- a reader that fails although every listed write set ended before it started ---- */

  /** The writer is about to store its last end timestamp. */
  ghost predicate Stamping(s: State, writes: Pair<seq<Write>>) {
    AtStep(s, true, T1, Stamp(true)) && s.writer.first == T0 && s.hist[|s.hist| - 1] == writes
  }

  lemma {:induction false} UpToLastStamp(data: Pair<Data>, s: State, writes: Pair<seq<Write>>)
    returns (run: seq<Action>, s': State)
    requires Reachable(data, s) && s.writer.Idle? && s.clock + 6 < DTS_INF
    ensures Exec(s, run) == Some(s') && Stamping(s', writes) && s'.clock == s.clock + 5
  {
    var run1, s1 := OpenRun(s, writes, T0);
    ReachableRun(data, s, run1, s1);
    ActiveIsExact(data, s1);
    var run2;
    run2, s' := FromFirstVote(s1, writes);
    ExecConcat(s, run1, s1, run2, s');
    run := run1 + run2;
  }

  lemma {:induction false} FromFirstVote(s: State, writes: Pair<seq<Write>>) returns (run: seq<Action>, s': State)
    requires s.writer.Open? && s.writer.vote.At(T1) && s.clock + 4 < DTS_INF && s.writer.buf == writes
    requires s.writer.id in s.active && forall a :: a in s.active ==> a < DTS_INF
    ensures Exec(s, run) == Some(s') && Stamping(s', writes) && s'.clock == s.clock + 4
  {
    var slots := SlotsOf(s.active);
    var run2, s2 := FirstTableRun(s, T0, slots);
    assert s2.hist[|s2.hist| - 1] == writes && ApplyAll(s2.tables.one.data, writes.one[..0]) == s2.tables.one.data;
    var run3, s3 := ApplyRun(s, run2, s2, true, 0, T1, s2.tables.one.data);
    s' := EndDrawn(s3, true, T1);
    Then(s, run3, s3, Action.Commit, s');
    run := run3 + [Action.Commit];
  }

  lemma {:induction false} LastStampLists(data: Pair<Data>, s: State, writes: Pair<seq<Write>>, k: Key)
    requires Inv(data, s) && Stamping(s, writes) && k in KeysOf(writes.one)
    ensures forall j :: 0 <= j < |s.tables.zero.wss| ==> s.tables.zero.wss[j].endTS < s.clock
    ensures s.tables.one.wss != [] && s.tables.one.wss[0].endTS == DTS_INF && k in s.tables.one.wss[0].keys
    ensures forall j :: 0 < j < |s.tables.one.wss| ==> s.tables.one.wss[j].endTS < s.clock
  {
    assert ListOk(s, T0) && ListOk(s, T1) && CurrentAt(s, T0) && CurrentAt(s, T1);
    forall j | 0 <= j < |s.tables.zero.wss| ensures s.tables.zero.wss[j].endTS < s.clock {
      var m := s.listed.zero - 1 - j;
      assert s.tables.zero.wss[j] == EntryOf(s, m, T0);
      assert m < Finished(s) ==> Complete(s.stamps[m], s.clock);
    }
    assert s.tables.one.wss[0] == EntryOf(s, s.listed.one - 1, T1);
    forall j | 0 < j < |s.tables.one.wss| ensures s.tables.one.wss[j].endTS < s.clock {
      var m := s.listed.one - 1 - j;
      assert s.tables.one.wss[j] == EntryOf(s, m, T1);
      assert Complete(s.stamps[m], s.clock);
    }
  }

  lemma {:induction false} WrittenKey(data: Pair<Data>, s: State, writes: Pair<seq<Write>>, k: Key)
    requires Inv(data, s) && Stamping(s, writes) && k in KeysOf(writes.zero) && k in KeysOf(writes.one)
    ensures KeysThere(s, [k])
  {
    assert CurrentAt(s, T0) && CurrentAt(s, T1) && DataOk(data, s, T0) && DataOk(data, s, T1);
    var n := |s.hist|;
    ApplyAllLastWins(StateAfter(data, s.hist, n - 1, T0), writes.zero, k);
    ApplyAllLastWins(StateAfter(data, s.hist, n - 1, T1), writes.one, k);
  }

  /** The reader has its verdicts, and they are bad. */
  ghost predicate Failed(s: State, rid: nat, id: nat, keys: seq<Key>) {
    && rid in s.readers && s.readers[rid].id == id && s.readers[rid].keys == keys && s.readers[rid].phase.Deciding?
    && !(s.readers[rid].ok.zero && s.readers[rid].ok.one)
  }

  /** A reader that starts now and validates at once fails: the last end timestamp is still open. */
  lemma {:induction false} FailsMeanwhile(data: Pair<Data>, s: State, writes: Pair<seq<Write>>, k: Key, rid: nat)
    returns (run: seq<Action>, s': State)
    requires Reachable(data, s) && Stamping(s, writes) && k in KeysOf(writes.zero) && k in KeysOf(writes.one)
    requires rid !in s.readers && s.clock + 6 < DTS_INF
    ensures Exec(s, run) == Some(s') && Failed(s', rid, s.clock, [k])
    ensures s'.tables == s.tables && s'.writer == s.writer && s'.hist == s.hist && s'.active == s.active + {s.clock}
  {
    ReachableInv(data, s);
    WrittenKey(data, s, writes, k);
    LastStampLists(data, s, writes, k);
    var s2 := StartsReading(data, s, rid, [k]);
    OpenClash(s2, rid, k);
    var own;
    own, s' := FailsAlone(data, s2, rid);
    ExecConcat(s, [Take(rid, [k]), Register(rid)], s2, own, s');
    run := [Take(rid, [k]), Register(rid)] + own;
  }

  lemma {:induction false} StartsReading(data: Pair<Data>, s: State, rid: nat, keys: seq<Key>) returns (s': State)
    requires Reachable(data, s) && rid !in s.readers && CanTick(s)
    ensures Exec(s, [Take(rid, keys), Register(rid)]) == Some(s') && Reachable(data, s') && rid in s'.readers
    ensures s'.readers[rid].phase.Reading? && s'.readers[rid].id == s.clock && s'.readers[rid].keys == keys
    ensures s'.tables == s.tables && s'.writer == s.writer && s'.hist == s.hist
    ensures s'.clock == s.clock + 1 && s'.active == s.active + {s.clock}
  {
    var s1;
    s1, s' := Enter(s, rid, keys);
    Advance(data, s, Take(rid, keys), s1);
    Advance(data, s1, Register(rid), s');
    EnterRun(s, rid, keys, s1, s');
  }

  lemma {:induction false} FailsAlone(data: Pair<Data>, s: State, rid: nat) returns (own: seq<Action>, s': State)
    requires Reachable(data, s) && Registered(s, rid) && KeysThere(s, s.readers[rid].keys) && s.clock + 5 < DTS_INF
    requires !WillPass(s, s.readers[rid])
    ensures Exec(s, own) == Some(s') && GoesOn(s, rid, s') && Failed(s', rid, s.readers[rid].id, s.readers[rid].keys)
  {
    var left;
    own, s', left := ReaderLeaves(data, s, rid);
    OwnRun(data, s, rid, own, s');
    LastStep(s, own, s', rid, left);
    DecidingNow(s', rid, left);
  }

  lemma {:induction false} OpenClash(s: State, rid: nat, k: Key)
    requires rid in s.readers && s.readers[rid].keys == [k] && s.readers[rid].phase.Reading?
    requires s.readers[rid].id < DTS_INF
    requires s.tables.one.wss != [] && s.tables.one.wss[0].endTS == DTS_INF && k in s.tables.one.wss[0].keys
    ensures !WillPass(s, s.readers[rid])
  {
    assert s.tables.At(T1).wss[0].endTS > s.readers[rid].id && s.readers[rid].keys[0] in s.tables.At(T1).wss[0].keys;
    ClashIsConflict(s, s.readers[rid], T1);
  }

  lemma {:induction false} DecidingNow(s: State, rid: nat, s': State)
    requires Step(s, Decide(rid)) == Some(s') && rid in s.readers && !WillPass(s, s.readers[rid])
    ensures s.readers[rid].phase.Deciding? && !(s.readers[rid].ok.zero && s.readers[rid].ok.one)
  {}

  /** The writer stores the timestamp, prunes and leaves; the reader does not notice. */
  lemma {:induction false} StoresAndLeaves(s: State, rid: nat, id: nat, keys: seq<Key>)
    returns (run: seq<Action>, s': State)
    requires AtStep(s, true, T1, Stamp(true)) && s.tables.one.wss != [] && s.active != {} && Failed(s, rid, id, keys)
    ensures Exec(s, run) == Some(s') && s'.writer.Idle? && Failed(s', rid, id, keys)
    ensures s'.tables.zero == s.tables.zero && s'.tables.one.data == s.tables.one.data
    ensures var wss := s.tables.one.wss; s'.tables.one.wss <= wss[0 := wss[0].(endTS := s.writer.tmp)]
  {
    var o := LeastExists(s.active);
    var s1 := EndStored(s, true, T1);
    WriterKeepsHistory(s, Action.Commit, s1, rid);
    var s2 := Asked(s1, true, T1, o);
    WriterKeepsHistory(s1, Oldest(o), s2, rid);
    var s3 := Erased(s2, true, T1);
    WriterKeepsHistory(s2, Action.Commit, s3, rid);
    s' := DoLeave(s3);
    assert Step(s3, Action.Commit) == Some(s');
    WriterKeepsHistory(s3, Action.Commit, s', rid);
    ExecOne(s, Action.Commit, s1);
    Then(s, [Action.Commit], s1, Oldest(o), s2);
    Then(s, [Action.Commit] + [Oldest(o)], s2, Action.Commit, s3);
    Then(s, [Action.Commit] + [Oldest(o)] + [Action.Commit], s3, Action.Commit, s');
    run := [Action.Commit] + [Oldest(o)] + [Action.Commit] + [Action.Commit];
  }

  /** The end timestamp is drawn before it is stored. A reader that starts and validates in between fails: in the end
      no writer is committing, every listed write set ended before the reader drew its id, its key is in both
      tables, and still it leaves without publishing. */
  lemma {:induction false} LateStampFailsReader(data: Pair<Data>, s: State, writes: Pair<seq<Write>>, k: Key)
    returns (run: seq<Action>, rid: nat, s': State, left: State)
    requires Reachable(data, s) && s.writer.Idle? && s.clock + 12 < DTS_INF
    requires k in KeysOf(writes.zero) && k in KeysOf(writes.one)
    ensures Exec(s, run) == Some(s') && s'.writer.Idle? && Registered(s', rid) && s'.readers[rid].keys == [k]
    ensures k in s'.tables.zero.data && k in s'.tables.one.data
    ensures forall t: Tab, j :: 0 <= j < |s'.tables.At(t).wss| ==> s'.tables.At(t).wss[j].endTS < s'.readers[rid].id
    ensures Step(s', Decide(rid)) == Some(left) && left.published == s'.published && rid !in left.readers
  {
    var run1, s1 := UpToLastStamp(data, s, writes);
    ReachableRun(data, s, run1, s1);
    ReachableInv(data, s1);
    rid := FreshReader(s1);
    var run2;
    run2, s' := FailsAndLeaves(data, s1, writes, k, rid);
    ExecConcat(s, run1, s1, run2, s');
    run := run1 + run2;
    WrittenKey(data, s1, writes, k);
    assert [k][0] == k;
    left := LeavesFailed(s', rid, s1.clock, [k]);
  }

  lemma {:induction false} FailsAndLeaves(data: Pair<Data>, s: State, writes: Pair<seq<Write>>, k: Key, rid: nat)
    returns (run: seq<Action>, s': State)
    requires Reachable(data, s) && Stamping(s, writes) && k in KeysOf(writes.zero) && k in KeysOf(writes.one)
    requires rid !in s.readers && s.clock + 6 < DTS_INF
    ensures Exec(s, run) == Some(s') && s'.writer.Idle? && Failed(s', rid, s.clock, [k])
    ensures s'.tables.zero.data == s.tables.zero.data && s'.tables.one.data == s.tables.one.data
    ensures forall t: Tab, j :: 0 <= j < |s'.tables.At(t).wss| ==> s'.tables.At(t).wss[j].endTS < s.clock
  {
    ReachableInv(data, s);
    LastStampLists(data, s, writes, k);
    var run2, s2 := FailsMeanwhile(data, s, writes, k, rid);
    ReachableRun(data, s, run2, s2);
    ReachableInv(data, s2);
    var run3;
    run3, s' := StoresAndLeaves(s2, rid, s.clock, [k]);
    EndedBefore(s, s', s.clock);
    ExecConcat(s, run2, s2, run3, s');
    run := run2 + run3;
  }

  lemma {:induction false} LeavesFailed(s: State, rid: nat, id: nat, keys: seq<Key>) returns (s': State)
    requires Failed(s, rid, id, keys)
    ensures Step(s, Decide(rid)) == Some(s') && s'.published == s.published && rid !in s'.readers
  {
    s' := DoDecide(s, rid).value;
  }

  lemma {:induction false} EndedBefore(s: State, s': State, id: nat)
    requires s.writer.Committing? && s.writer.tmp < id && s.tables.one.wss != [] && s'.tables.zero == s.tables.zero
    requires var wss := s.tables.one.wss; s'.tables.one.wss <= wss[0 := wss[0].(endTS := s.writer.tmp)]
    requires forall j :: 0 <= j < |s.tables.zero.wss| ==> s.tables.zero.wss[j].endTS < id
    requires forall j :: 0 < j < |s.tables.one.wss| ==> s.tables.one.wss[j].endTS < id
    ensures forall t: Tab, j :: 0 <= j < |s'.tables.At(t).wss| ==> s'.tables.At(t).wss[j].endTS < id
  {
    forall t: Tab, j | 0 <= j < |s'.tables.At(t).wss| ensures s'.tables.At(t).wss[j].endTS < id {
      var all := s.tables.one.wss[0 := s.tables.one.wss[0].(endTS := s.writer.tmp)];
      assert t == T1 ==> s'.tables.one.wss[j] == all[j];
    }
  }
}

/** What the two-table protocol guarantees in every interleaving. */
module BoccTheorems {
  import opened Wrappers
  import opened BoccCore
  import opened BoccProtocol
  import opened BoccInvariant

  /** `s` is reached from two tables holding `data` by some interleaving. */
  ghost predicate Reachable(data: Pair<Data>, s: State) {
    exists clock: nat, run: seq<Action> :: clock < DTS_INF && Exec(Init(data, clock), run) == Some(s)
  }

  lemma {:induction false} ReachableInv(data: Pair<Data>, s: State)
    requires Reachable(data, s)
    ensures Inv(data, s)
  {
    var clock: nat, run: seq<Action> :| clock < DTS_INF && Exec(Init(data, clock), run) == Some(s);
    ExecInv(data, clock, run, s);
  }

  /** Consistent reads: whatever a reader publishes is, for all its keys and in both tables, the state
      after one common prefix of the commits: those that had finished when the reader registered, and
      at most the one commit that was under way at that moment. */
  lemma {:induction false} PublishedReadsAreOneSnapshot(data: Pair<Data>, s: State, i: nat, j: nat, t: Tab)
    requires Reachable(data, s) && i < |s.published| && j < |s.published[i].keys|
    ensures var b := s.published[i];
            && b.atStart <= b.cut <= b.atStart + 1 && b.cut <= |s.hist|
            && |b.got.zero| == |b.got.one| == |b.keys|
            && var snapshot := StateAfter(data, s.hist, b.cut, t);
               b.keys[j] in snapshot && snapshot[b.keys[j]] == b.got.At(t)[j]
  {
    ReachableInv(data, s);
    assert BatchOk(data, s.hist, s.published[i]);
    assert s.published[i].keys[j] == s.published[i].keys[j] && s.published[i].got.At(t) == s.published[i].got.At(t);
  }

  /** All or nothing: until both key sets of a commit are listed, no tuple of it is in either table;
      after the writer has left, all of them are in both. */
  lemma {:induction false} CommitIsAllOrNothing(data: Pair<Data>, s: State, t: Tab)
    requires Reachable(data, s)
    ensures !s.writer.Committing? ==>
              s.tables.At(t).data == StateAfter(data, s.hist, |s.hist|, t)
    ensures s.writer.Committing? && (s.listed.zero < |s.hist| || s.listed.one < |s.hist|) ==>
              s.hist != [] && s.tables.At(t).data == StateAfter(data, s.hist, |s.hist| - 1, t)
  {
    ReachableInv(data, s);
    DataOutsideApply(data, s, t);
  }

  lemma {:induction false} DataOutsideApply(data: Pair<Data>, s: State, t: Tab)
    requires Times(s) && DataOk(data, s, t)
    ensures !s.writer.Committing? ==>
              s.tables.At(t).data == StateAfter(data, s.hist, |s.hist|, t)
    ensures s.writer.Committing? && (s.listed.zero < |s.hist| || s.listed.one < |s.hist|) ==>
              s.hist != [] && s.tables.At(t).data == StateAfter(data, s.hist, |s.hist| - 1, t)
  {
    if s.writer.Committing? {
      assert CurrentAt(s, T0) && CurrentAt(s, T1);
    }
  }

  /** Only the second vote starts the commit, whichever table it comes from, and it commits what both
      tables have buffered. */
  lemma {:induction false} SecondVoteCommits(s: State, a: Action, s': State)
    requires s.writer.Open? && Step(s, a) == Some(s')
    ensures s'.writer.Committing? <==> a.Vote? && s.writer.vote.At(Other(a.t))
    ensures s'.hist == if s'.writer.Committing? then s.hist + [s.writer.buf] else s.hist
    ensures s'.writer.Open? ==>
              (s'.writer.vote.zero == (s.writer.vote.zero || a == Vote(T0))) &&
              (s'.writer.vote.one == (s.writer.vote.one || a == Vote(T1)))
  {
    if a.Vote? {
      assert Other(a.t) == T0 || Other(a.t) == T1;
    }
  }

  /** The last buffered write of a key wins; keys not written keep their value. */
  lemma {:induction false} LastWriteWins(data: Pair<Data>, s: State, t: Tab, k: Key)
    requires Reachable(data, s) && !s.writer.Committing? && s.hist != []
    ensures var before := StateAfter(data, s.hist, |s.hist| - 1, t);
            match LastWrite(s.hist[|s.hist| - 1].At(t), k)
            case Some(v) => k in s.tables.At(t).data && s.tables.At(t).data[k] == v
            case None => SameAt(s.tables.At(t).data, before, k)
  {
    CommitIsAllOrNothing(data, s, t);
    ApplyAllLastWins(StateAfter(data, s.hist, |s.hist| - 1, t), s.hist[|s.hist| - 1].At(t), k);
  }

  /** The lists stay strictly newest-first in both timestamps. */
  lemma {:induction false} ListsAreNewestFirst(data: Pair<Data>, s: State, t: Tab)
    requires Reachable(data, s)
    ensures NewestFirst(s.tables.At(t).wss)
  {
    ReachableInv(data, s);
    ListNewestFirst(s, t);
  }

  lemma {:induction false} ListNewestFirst(s: State, t: Tab)
    requires Times(s) && ListOk(s, t)
    ensures NewestFirst(s.tables.At(t).wss)
  {
    var wss := s.tables.At(t).wss;
    forall i, j | 0 <= i < j < |wss| ensures wss[j].valTS < wss[i].valTS && wss[j].endTS < wss[i].endTS {
      NewerIsLater(s, t, s.listed.At(t) - 1 - j, s.listed.At(t) - 1 - i);
    }
  }

  lemma {:induction false} NewerIsLater(s: State, t: Tab, m: nat, n: nat)
    requires Times(s) && m < n < s.listed.At(t) <= |s.hist|
    ensures s.stamps[m].val.At(t) < s.stamps[n].val.At(t) && s.stamps[m].end.At(t) < s.stamps[n].end.At(t)
  {
    assert Complete(s.stamps[m], s.clock);
    assert EndsBefore(s.stamps[m], s.stamps[n].id);
    if n < Finished(s) {
      assert Complete(s.stamps[n], s.clock);
    } else {
      assert CurrentAt(s, t);
    }
  }

  /* ---- pruning ---- */

  /** The list as it would be had nothing ever been erased. */
  ghost function Unpruned(s: State, t: Tab): seq<Entry>
    requires s.listed.At(t) <= |s.hist| == |s.stamps|
  {
    seq(s.listed.At(t), j requires 0 <= j < s.listed.At(t) => EntryOf(s, s.listed.At(t) - 1 - j, t))
  }

  /** Erased write sets are the oldest ones of the unpruned list. */
  lemma {:induction false} PrunedIsPrefix(data: Pair<Data>, s: State, t: Tab)
    requires Inv(data, s)
    ensures s.listed.At(t) <= |s.hist| == |s.stamps| && s.erased.At(t) <= s.listed.At(t)
    ensures s.tables.At(t).wss == Unpruned(s, t)[..s.listed.At(t) - s.erased.At(t)]
  {
    assert ListOk(s, T0) && ListOk(s, T1);
    KeptPart(s, t);
  }

  lemma {:induction false} KeptPart(s: State, t: Tab)
    requires |s.hist| == |s.stamps| && ListOk(s, t)
    ensures s.tables.At(t).wss == Unpruned(s, t)[..s.listed.At(t) - s.erased.At(t)]
  {}

  /** Validation against the unpruned list is validation against the pruned list and the erased part. */
  lemma {:induction false} VerdictSplit(s: State, t: Tab, reader: nat, valTS: nat, keys: seq<Key>)
    requires s.erased.At(t) <= s.listed.At(t) <= |s.hist| == |s.stamps|
    requires s.tables.At(t).wss == Unpruned(s, t)[..s.listed.At(t) - s.erased.At(t)]
    ensures Passes(Unpruned(s, t), reader, valTS, keys) <==>
              Passes(s.tables.At(t).wss, reader, valTS, keys) &&
              forall m :: 0 <= m < s.erased.At(t) ==> !Blocks(EntryOf(s, m, t), reader, valTS, keys)
  {
    var all, kept := Unpruned(s, t), s.tables.At(t).wss;
    assert forall j :: 0 <= j < |kept| ==> kept[j] == all[j];
    forall m | 0 <= m < s.erased.At(t) ensures all[s.listed.At(t) - 1 - m] == EntryOf(s, m, t) {}
    forall j | |kept| <= j < |all| ensures all[j] == EntryOf(s, s.listed.At(t) - 1 - j, t) {}
  }

  /** If everything erased ended before the reader started, erasing does not change its verdict. */
  lemma {:induction false} VerdictUnchanged(data: Pair<Data>, s: State, t: Tab, reader: nat, valTS: nat, keys: seq<Key>)
    requires Inv(data, s)
    requires s.erased.At(t) <= |s.stamps| && forall m :: 0 <= m < s.erased.At(t) ==> s.stamps[m].end.At(t) <= reader
    ensures s.listed.At(t) <= |s.hist| == |s.stamps|
    ensures Passes(s.tables.At(t).wss, reader, valTS, keys) == Passes(Unpruned(s, t), reader, valTS, keys)
  {
    PrunedIsPrefix(data, s, t);
    VerdictSplit(s, t, reader, valTS, keys);
  }

  /** Pruning is invisible to every reader that no erase overtook between drawing its id and becoming
      visible, whatever validation timestamp it draws. */
  lemma {:induction false} PruningIsInvisible(data: Pair<Data>, s: State, rid: nat, t: Tab, valTS: nat)
    requires Reachable(data, s) && rid in s.readers && !s.readers[rid].late
    ensures s.listed.At(t) <= |s.hist| == |s.stamps|
    ensures var r := s.readers[rid];
            Passes(s.tables.At(t).wss, r.id, valTS, r.keys) == Passes(Unpruned(s, t), r.id, valTS, r.keys)
  {
    ReachableInv(data, s);
    var r := s.readers[rid];
    assert ReaderOk(data, s, r);
    assert EarlyOk(s, r, T0) && EarlyOk(s, r, T1);
    VerdictUnchanged(data, s, t, r.id, valTS, r.keys);
  }

  /** ... and to every reader that starts later. */
  lemma {:induction false} PruningIsInvisibleLater(data: Pair<Data>, s: State, t: Tab, reader: nat, valTS: nat,
      keys: seq<Key>)
    requires Reachable(data, s) && reader >= s.clock
    ensures s.listed.At(t) <= |s.hist| == |s.stamps|
    ensures Passes(s.tables.At(t).wss, reader, valTS, keys) == Passes(Unpruned(s, t), reader, valTS, keys)
  {
    ReachableInv(data, s);
    assert ListOk(s, T0) && ListOk(s, T1);
    forall m | 0 <= m < s.erased.At(t) ensures s.stamps[m].end.At(t) <= reader {
      assert Complete(s.stamps[m], s.clock);
    }
    VerdictUnchanged(data, s, t, reader, valTS, keys);
  }

  /** For a visible reader that was overtaken, pruning changes the verdict exactly when an erased write
      set would have blocked it and no remaining one does; every erased write set was completely in the
      table before the reader became visible, so the abort it would have caused was needless. */
  lemma {:induction false} PruningOnlyDropsNeedlessAborts(data: Pair<Data>, s: State, rid: nat, t: Tab, valTS: nat)
    requires Reachable(data, s) && rid in s.readers && !s.readers[rid].phase.Taken?
    ensures s.erased.At(t) <= s.listed.At(t) <= |s.hist| == |s.stamps|
    ensures var r := s.readers[rid];
            var pruned := Passes(s.tables.At(t).wss, r.id, valTS, r.keys);
            && (pruned != Passes(Unpruned(s, t), r.id, valTS, r.keys) <==>
                pruned && exists m :: 0 <= m < s.erased.At(t) && Blocks(EntryOf(s, m, t), r.id, valTS, r.keys))
            && s.erased.At(t) <= r.cut.At(t)
  {
    ReachableInv(data, s);
    assert ReaderOk(data, s, s.readers[rid]);
    PrunedIsPrefix(data, s, t);
    VerdictSplit(s, t, s.readers[rid].id, valTS, s.readers[rid].keys);
    assert CutOk(s, s.readers[rid], t);
  }

  /** The write set had not ended when the reader drew its id, and holds one of its keys. */
  predicate Conflicts(e: Entry, reader: nat, keys: seq<Key>) {
    e.endTS > reader && Overlaps(e, keys)
  }

  lemma {:induction false} ListedBefore(data: Pair<Data>, s: State, m: nat, t: Tab, valTS: nat)
    requires Times(s) && m < s.listed.At(t) <= |s.hist| && valTS >= s.clock
    ensures s.stamps[m].val.At(t) < valTS
  {
    if m < Finished(s) {
      assert Complete(s.stamps[m], s.clock);
    } else {
      assert CurrentAt(s, t);
    }
  }

  /** In terms of timestamps and keys: whoever validates with a timestamp drawn from now on, whatever its
      id and keys, the verdicts differ exactly when it conflicts with an erased write set and with no kept
      one. */
  lemma {:induction false} PruningChangesVerdictExactly(data: Pair<Data>, s: State, t: Tab, reader: nat, valTS: nat,
      keys: seq<Key>)
    requires Reachable(data, s) && valTS >= s.clock
    ensures s.erased.At(t) <= s.listed.At(t) <= |s.hist| == |s.stamps|
    ensures var wss := s.tables.At(t).wss;
            Passes(wss, reader, valTS, keys) != Passes(Unpruned(s, t), reader, valTS, keys) <==>
              ((exists m :: 0 <= m < s.erased.At(t) && Conflicts(EntryOf(s, m, t), reader, keys)) &&
               (forall j :: 0 <= j < |wss| ==> !Conflicts(wss[j], reader, keys)))
  {
    ReachableInv(data, s);
    PrunedIsPrefix(data, s, t);
    VerdictSplit(s, t, reader, valTS, keys);
    BlocksIsConflict(data, s, t, reader, valTS, keys);
  }

  lemma {:induction false} BlocksIsConflict(data: Pair<Data>, s: State, t: Tab, reader: nat, valTS: nat, keys: seq<Key>)
    requires Inv(data, s) && valTS >= s.clock
    ensures s.erased.At(t) <= s.listed.At(t) <= |s.hist| == |s.stamps|
    ensures forall m :: 0 <= m < s.erased.At(t) ==>
              (Blocks(EntryOf(s, m, t), reader, valTS, keys) <==> Conflicts(EntryOf(s, m, t), reader, keys))
    ensures forall j :: 0 <= j < |s.tables.At(t).wss| ==>
              (Blocks(s.tables.At(t).wss[j], reader, valTS, keys) <==> Conflicts(s.tables.At(t).wss[j], reader, keys))
  {
    assert ListOk(s, T0) && ListOk(s, T1);
    forall m | 0 <= m < s.listed.At(t) ensures s.stamps[m].val.At(t) < valTS {
      ListedBefore(data, s, m, t, valTS);
    }
  }

  /* A reader that is overtaken, step by step: it draws its id, a first transaction writes `k` and
     leaves, a second one commits and erases the first write set, and only then the reader registers. */

  lemma {:induction false} Advance(data: Pair<Data>, s: State, a: Action, s': State)
    requires Reachable(data, s) && Step(s, a) == Some(s')
    ensures Reachable(data, s')
  {
    var clock: nat, run: seq<Action> :| clock < DTS_INF && Exec(Init(data, clock), run) == Some(s);
    assert (run + [a])[..|run + [a]| - 1] == run;
    assert Exec(Init(data, clock), run + [a]) == Some(s');
  }

  ghost const NOTHING: Pair<Data> := Pair(map[], map[])

  ghost function Overtaken(k: Key, late: bool): Reader {
    Reader(1, [k], Pair([], []), Taken, Pair(false, false), Pair(0, 0), Pair(0, 0), 0, late)
  }

  ghost function FirstVoted(k: Key, v: Val): State {
    State(3, Pair(Table(map[], []), Table(map[], [])), {2}, Committing(2, T0, Draw(false), 0),
        map[7 := Overtaken(k, false)], [],
          [Pair([(k, v)], [])], [Stamps(2, Pair(0, 0), Pair(DTS_INF, DTS_INF))], Pair(0, 0), Pair(0, 0), Pair(0, 0))
  }

  ghost function FirstListed(k: Key, v: Val): State {
    State(5, Pair(Table(map[], [Entry({k}, 3, DTS_INF)]), Table(map[], [Entry({}, 4, DTS_INF)])), {2},
          Committing(2, T0, Apply(false, 0), 4), map[7 := Overtaken(k, false)], [],
          [Pair([(k, v)], [])], [Stamps(2, Pair(3, 4), Pair(DTS_INF, DTS_INF))], Pair(1, 1), Pair(0, 0), Pair(0, 0))
  }

  ghost function FirstStamped(k: Key, v: Val): State {
    State(6, Pair(Table(map[k := v], [Entry({k}, 3, 5)]), Table(map[], [Entry({}, 4, DTS_INF)])), {2},
          Committing(2, T0, FindOldest(false), 5), map[7 := Overtaken(k, false)], [],
          [Pair([(k, v)], [])], [Stamps(2, Pair(3, 4), Pair(5, DTS_INF))], Pair(1, 1), Pair(1, 0), Pair(0, 0))
  }

  ghost function FirstHalf(k: Key, v: Val): State {
    State(6, Pair(Table(map[k := v], [Entry({k}, 3, 5)]), Table(map[], [Entry({}, 4, DTS_INF)])), {2},
          Committing(2, T0, Apply(true, 0), 3), map[7 := Overtaken(k, true)], [],
          [Pair([(k, v)], [])], [Stamps(2, Pair(3, 4), Pair(5, DTS_INF))], Pair(1, 1), Pair(1, 0), Pair(0, 0))
  }

  ghost function FirstLeft(k: Key, v: Val): State {
    State(7, Pair(Table(map[k := v], [Entry({k}, 3, 5)]), Table(map[], [Entry({}, 4, 6)])), {},
          Idle, map[7 := Overtaken(k, true)], [],
          [Pair([(k, v)], [])], [Stamps(2, Pair(3, 4), Pair(5, 6))], Pair(1, 1), Pair(1, 1), Pair(0, 0))
  }

  ghost function SecondListed(k: Key, v: Val): State {
    State(10, Pair(Table(map[k := v], [Entry({}, 8, DTS_INF), Entry({k}, 3, 5)]),
                   Table(map[], [Entry({}, 9, DTS_INF), Entry({}, 4, 6)])), {7},
          Committing(7, T0, Apply(false, 0), 9), map[7 := Overtaken(k, true)], [],
          [Pair([(k, v)], []), Pair([], [])],
          [Stamps(2, Pair(3, 4), Pair(5, 6)), Stamps(7, Pair(8, 9), Pair(DTS_INF, DTS_INF))],
          Pair(2, 2), Pair(1, 1), Pair(0, 0))
  }

  lemma {:induction false} ReachFirstVoted(k: Key, v: Val)
    ensures Reachable(NOTHING, FirstVoted(k, v))
  {
    var s0 := Init(NOTHING, 1);
    assert Exec(Init(NOTHING, 1), []) == Some(s0);
    var s1 := DoTake(s0, 7, [k]).value; Advance(NOTHING, s0, Take(7, [k]), s1);
    var s2 := DoBegin(s1).value; Advance(NOTHING, s1, Begin, s2);
    var s3 := DoBuffer(s2, T0, k, v).value; Advance(NOTHING, s2, Buffer(T0, k, v), s3);
    var s4 := DoVote(s3, T1).value; Advance(NOTHING, s3, Vote(T1), s4);
    var s5 := DoVote(s4, T0).value; Advance(NOTHING, s4, Vote(T0), s5);
    assert s3.writer.buf.zero == [(k, v)];
    assert s5 == FirstVoted(k, v);
  }

  lemma {:induction false} ReachFirstListed(k: Key, v: Val)
    ensures Reachable(NOTHING, FirstListed(k, v))
  {
    ReachFirstVoted(k, v);
    var s0 := FirstVoted(k, v);
    var s1 := DoCommit(s0).value; Advance(NOTHING, s0, Commit, s1);
    assert s1.stamps == [Stamps(2, Pair(3, 0), Pair(DTS_INF, DTS_INF))];
    var s2 := DoCommit(s1).value; Advance(NOTHING, s1, Commit, s2);
    assert KeysOf([(k, v)]) == {k} && KeysOf([]) == {} by { assert [(k, v)][0].0 == k; }
    assert s2.tables.zero.wss == [Entry({k}, 3, DTS_INF)];
    var s3 := DoCommit(s2).value; Advance(NOTHING, s2, Commit, s3);
    assert s3.stamps == [Stamps(2, Pair(3, 4), Pair(DTS_INF, DTS_INF))];
    var s4 := DoCommit(s3).value; Advance(NOTHING, s3, Commit, s4);
    assert s4.tables.one.wss == [Entry({}, 4, DTS_INF)];
    assert s4 == FirstListed(k, v);
  }

  ghost function FirstApplied(k: Key, v: Val): State {
    State(5, Pair(Table(map[k := v], [Entry({k}, 3, DTS_INF)]), Table(map[], [Entry({}, 4, DTS_INF)])), {2},
          Committing(2, T0, DrawEnd(false), 4), map[7 := Overtaken(k, false)], [],
          [Pair([(k, v)], [])], [Stamps(2, Pair(3, 4), Pair(DTS_INF, DTS_INF))], Pair(1, 1), Pair(1, 0), Pair(0, 0))
  }

  lemma {:induction false} ReachFirstApplied(k: Key, v: Val)
    ensures Reachable(NOTHING, FirstApplied(k, v))
  {
    ReachFirstListed(k, v);
    var s0 := FirstListed(k, v);
    var s1 := DoCommit(s0).value; Advance(NOTHING, s0, Commit, s1);
    var s2 := DoCommit(s1).value; Advance(NOTHING, s1, Commit, s2);
    assert s2 == FirstApplied(k, v);
  }

  lemma {:induction false} ReachFirstStamped(k: Key, v: Val)
    ensures Reachable(NOTHING, FirstStamped(k, v))
  {
    ReachFirstApplied(k, v);
    var s2 := FirstApplied(k, v);
    var s3 := DoCommit(s2).value; Advance(NOTHING, s2, Commit, s3);
    var s4 := DoCommit(s3).value; Advance(NOTHING, s3, Commit, s4);
    assert s4.stamps == [Stamps(2, Pair(3, 4), Pair(5, DTS_INF))];
    assert s4.tables.zero.wss == [Entry({k}, 3, 5)];
    assert s4 == FirstStamped(k, v);
  }

  lemma {:induction false} ReachFirstHalf(k: Key, v: Val)
    ensures Reachable(NOTHING, FirstHalf(k, v))
  {
    ReachFirstStamped(k, v);
    var s4 := FirstStamped(k, v);
    var s5 := DoOldest(s4, 2).value; Advance(NOTHING, s4, Oldest(2), s5);
    assert s5.readers == map[7 := Overtaken(k, true)];
    var s6 := DoCommit(s5).value; Advance(NOTHING, s5, Commit, s6);
    assert s6.tables.zero.wss == [Entry({k}, 3, 5)];
    assert s6 == FirstHalf(k, v);
  }

  ghost function FirstAllStamped(k: Key, v: Val): State {
    State(7, Pair(Table(map[k := v], [Entry({k}, 3, 5)]), Table(map[], [Entry({}, 4, 6)])), {2},
          Committing(2, T0, FindOldest(true), 6), map[7 := Overtaken(k, true)], [],
          [Pair([(k, v)], [])], [Stamps(2, Pair(3, 4), Pair(5, 6))], Pair(1, 1), Pair(1, 1), Pair(0, 0))
  }

  lemma {:induction false} ReachFirstAllStamped(k: Key, v: Val)
    ensures Reachable(NOTHING, FirstAllStamped(k, v))
  {
    ReachFirstHalf(k, v);
    var s0 := FirstHalf(k, v);
    var s1 := DoCommit(s0).value; Advance(NOTHING, s0, Commit, s1);
    var s2 := DoCommit(s1).value; Advance(NOTHING, s1, Commit, s2);
    var s3 := DoCommit(s2).value; Advance(NOTHING, s2, Commit, s3);
    assert s3.stamps == [Stamps(2, Pair(3, 4), Pair(5, 6))];
    assert s3.tables.one.wss == [Entry({}, 4, 6)];
    assert s3 == FirstAllStamped(k, v);
  }

  lemma {:induction false} ReachFirstLeft(k: Key, v: Val)
    ensures Reachable(NOTHING, FirstLeft(k, v))
  {
    ReachFirstAllStamped(k, v);
    var s3 := FirstAllStamped(k, v);
    var s4 := DoOldest(s3, 2).value; Advance(NOTHING, s3, Oldest(2), s4);
    assert s4.readers == map[7 := Overtaken(k, true)];
    var s5 := DoCommit(s4).value; Advance(NOTHING, s4, Commit, s5);
    assert s5.tables.one.wss == [Entry({}, 4, 6)];
    var s6 := DoCommit(s5).value; Advance(NOTHING, s5, Commit, s6);
    assert s6.active == {};
    assert s6 == FirstLeft(k, v);
  }

  ghost function SecondVoted(k: Key, v: Val): State {
    State(8, Pair(Table(map[k := v], [Entry({k}, 3, 5)]), Table(map[], [Entry({}, 4, 6)])), {7},
          Committing(7, T0, Draw(false), 0), map[7 := Overtaken(k, true)], [],
          [Pair([(k, v)], []), Pair([], [])],
          [Stamps(2, Pair(3, 4), Pair(5, 6)), Stamps(7, Pair(0, 0), Pair(DTS_INF, DTS_INF))],
          Pair(1, 1), Pair(1, 1), Pair(0, 0))
  }

  lemma {:induction false} ReachSecondVoted(k: Key, v: Val)
    ensures Reachable(NOTHING, SecondVoted(k, v))
  {
    ReachFirstLeft(k, v);
    var s0 := FirstLeft(k, v);
    var s1 := DoBegin(s0).value; Advance(NOTHING, s0, Begin, s1);
    assert s1.active == {7};
    var s2 := DoVote(s1, T1).value; Advance(NOTHING, s1, Vote(T1), s2);
    var s3 := DoVote(s2, T0).value; Advance(NOTHING, s2, Vote(T0), s3);
    var done := Stamps(2, Pair(3, 4), Pair(5, 6));
    assert s3.hist == [Pair([(k, v)], []), Pair([], [])];
    assert s3.stamps == [done, Stamps(7, Pair(0, 0), Pair(DTS_INF, DTS_INF))];
    assert s3 == SecondVoted(k, v);
  }

  lemma {:induction false} ReachSecondListed(k: Key, v: Val)
    ensures Reachable(NOTHING, SecondListed(k, v))
  {
    ReachSecondVoted(k, v);
    var s3 := SecondVoted(k, v);
    var done := Stamps(2, Pair(3, 4), Pair(5, 6));
    var s4 := DoCommit(s3).value; Advance(NOTHING, s3, Commit, s4);
    assert s4.stamps == [done, Stamps(7, Pair(8, 0), Pair(DTS_INF, DTS_INF))];
    var s5 := DoCommit(s4).value; Advance(NOTHING, s4, Commit, s5);
    assert KeysOf([]) == {};
    assert s5.tables.zero.wss == [Entry({}, 8, DTS_INF), Entry({k}, 3, 5)];
    var s6 := DoCommit(s5).value; Advance(NOTHING, s5, Commit, s6);
    assert s6.stamps == [done, Stamps(7, Pair(8, 9), Pair(DTS_INF, DTS_INF))];
    var s7 := DoCommit(s6).value; Advance(NOTHING, s6, Commit, s7);
    assert s7.tables.one.wss == [Entry({}, 9, DTS_INF), Entry({}, 4, 6)];
    assert s7 == SecondListed(k, v);
  }

  ghost function SecondStamped(k: Key, v: Val): State {
    State(11, Pair(Table(map[k := v], [Entry({}, 8, 10), Entry({k}, 3, 5)]),
                   Table(map[], [Entry({}, 9, DTS_INF), Entry({}, 4, 6)])), {7},
          Committing(7, T0, FindOldest(false), 10), map[7 := Overtaken(k, true)], [],
          [Pair([(k, v)], []), Pair([], [])],
          [Stamps(2, Pair(3, 4), Pair(5, 6)), Stamps(7, Pair(8, 9), Pair(10, DTS_INF))],
          Pair(2, 2), Pair(2, 1), Pair(0, 0))
  }

  ghost function SecondApplied(k: Key, v: Val): State {
    SecondListed(k, v).(writer := Committing(7, T0, DrawEnd(false), 9), applied := Pair(2, 1))
  }

  lemma {:induction false} ReachSecondApplied(k: Key, v: Val)
    ensures Reachable(NOTHING, SecondApplied(k, v))
  {
    ReachSecondListed(k, v);
    var s0 := SecondListed(k, v);
    var s1 := DoCommit(s0).value; Advance(NOTHING, s0, Commit, s1);
    assert s1 == SecondApplied(k, v);
  }

  lemma {:induction false} ReachSecondStamped(k: Key, v: Val)
    ensures Reachable(NOTHING, SecondStamped(k, v))
  {
    ReachSecondApplied(k, v);
    var s1 := SecondApplied(k, v);
    var s2 := DoCommit(s1).value; Advance(NOTHING, s1, Commit, s2);
    var s3 := DoCommit(s2).value; Advance(NOTHING, s2, Commit, s3);
    assert s3.stamps == [Stamps(2, Pair(3, 4), Pair(5, 6)), Stamps(7, Pair(8, 9), Pair(10, DTS_INF))];
    assert s3.tables.zero.wss == [Entry({}, 8, 10), Entry({k}, 3, 5)];
    assert s3 == SecondStamped(k, v);
  }

  /** Without that condition pruning is visible: the overtaken reader would abort on the unpruned list
      and passes on the pruned one. */
  lemma {:induction false} PruningIsVisibleToOvertakenReader(k: Key, v: Val)
    ensures exists s, rid, valTS: nat ::
              && Reachable(NOTHING, s) && rid in s.readers && s.readers[rid].phase.Reading? && s.readers[rid].late
              && s.listed.zero <= |s.hist| == |s.stamps|
              && Passes(s.tables.zero.wss, s.readers[rid].id, valTS, s.readers[rid].keys)
              && !Passes(Unpruned(s, T0), s.readers[rid].id, valTS, s.readers[rid].keys)
  {
    ReachSecondStamped(k, v);
    var s3 := SecondStamped(k, v);
    var s4 := DoOldest(s3, 7).value; Advance(NOTHING, s3, Oldest(7), s4);
    assert s4.readers == map[7 := Overtaken(k, true)];
    var s5 := DoCommit(s4).value; Advance(NOTHING, s4, Commit, s5);
    SecondPruned(k);
    var s6 := DoRegister(s5, 7).value; Advance(NOTHING, s5, Register(7), s6);
    OvertakenVerdict(s6, k, v);
  }

  lemma {:induction false} SecondPruned(k: Key)
    ensures Prune([Entry({}, 8, 10), Entry({k}, 3, 5)], 8) == [Entry({}, 8, 10)]
  {
    assert [Entry({}, 8, 10), Entry({k}, 3, 5)][1..] == [Entry({k}, 3, 5)];
    assert FirstOld([Entry({k}, 3, 5)], 8) == 0;
  }

  lemma {:induction false} OvertakenVerdict(s: State, k: Key, v: Val)
    requires s.hist == [Pair([(k, v)], []), Pair([], [])] && s.listed == Pair(2, 2)
    requires s.stamps == [Stamps(2, Pair(3, 4), Pair(5, 6)), Stamps(7, Pair(8, 9), Pair(10, DTS_INF))]
    requires s.tables.zero.wss == [Entry({}, 8, 10)]
    ensures Passes(s.tables.zero.wss, 1, 12, [k]) && !Passes(Unpruned(s, T0), 1, 12, [k])
  {
    var e := Unpruned(s, T0)[1];
    assert e == EntryOf(s, 0, T0);
    assert [(k, v)][0].0 == k;
    assert [k][0] in e.keys;
    assert Blocks(e, 1, 12, [k]);
  }
}

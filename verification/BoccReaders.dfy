/** What a reader achieves by its own steps: it never has to wait, and when no writer is committing it
    leaves with a publication or without one, depending on the listed write sets alone. */
module BoccReaders {
  import opened Wrappers
  import opened BoccCore
  import opened BoccProtocol
  import opened BoccInvariant
  import opened BoccTheorems

  /* ---- runs ---- */

  /** The last step of a run. */
  lemma {:induction false} ExecSplit(s: State, run: seq<Action>, s': State)
    returns (init: seq<Action>, before: State, a: Action)
    requires run != [] && Exec(s, run) == Some(s')
    ensures run == init + [a] && |init| < |run| && Exec(s, init) == Some(before) && Step(before, a) == Some(s')
  {
    init, a := run[..|run| - 1], run[|run| - 1];
    before := Exec(s, init).value;
  }

  lemma {:induction false} ExecConcat(s: State, run: seq<Action>, mid: State, more: seq<Action>, s': State)
    requires Exec(s, run) == Some(mid) && Exec(mid, more) == Some(s')
    ensures Exec(s, run + more) == Some(s')
    decreases |more|
  {
    if more == [] {
      assert run + more == run;
    } else {
      var init, before, a := ExecSplit(mid, more, s');
      ExecConcat(s, run, mid, init, before);
      Then(s, run + init, before, a, s');
      assert (run + init) + [a] == run + more;
    }
  }

  lemma {:induction false} ExecOne(s: State, a: Action, s': State)
    requires Step(s, a) == Some(s')
    ensures Exec(s, [a]) == Some(s')
  {
    assert [a][..0] == [];
    assert Exec(s, []) == Some(s);
  }

  /** A step of the visible reader `rid`. */
  predicate Own(a: Action, rid: nat) {
    a == Read(rid) || a == Burn(rid) || a == DrawVal(rid) || a == Scan(rid) || a == Decide(rid)
  }

  predicate AllOwn(run: seq<Action>, rid: nat) {
    forall i :: 0 <= i < |run| ==> Own(run[i], rid)
  }

  predicate Registered(s: State, rid: nat) {
    rid in s.readers && !s.readers[rid].phase.Taken?
  }

  /* ---- verdicts ---- */

  /** What a validation decides, in timestamps and keys: the table passes unless some listed write set ended
      after the reader drew its id, was listed before the validation timestamp, and holds one of its keys. */
  lemma {:induction false} ScanVerdict(s: State, rid: nat, s': State)
    requires rid in s.readers && Step(s, Scan(rid)) == Some(s')
    ensures s.readers[rid].phase.Scanning? && rid in s'.readers
    ensures
      var r := s.readers[rid];
      var t, valTS, wss := r.phase.t, r.phase.valTS, s.tables.At(r.phase.t).wss;
      s'.readers[rid].ok.At(t) <==>
        forall j, i :: 0 <= j < |wss| && 0 <= i < |r.keys| ==>
          wss[j].endTS <= r.id || wss[j].valTS >= valTS || r.keys[i] !in wss[j].keys
  {
    var r := s.readers[rid];
    var wss, valTS := s.tables.At(r.phase.t).wss, r.phase.valTS;
    if Passes(wss, r.id, valTS, r.keys) {
      forall j, i | 0 <= j < |wss| && 0 <= i < |r.keys|
        ensures wss[j].endTS <= r.id || wss[j].valTS >= valTS || r.keys[i] !in wss[j].keys
      {
        assert !Blocks(wss[j], r.id, valTS, r.keys);
      }
    }
  }

  /** Some listed write set of the table conflicts with the reader. */
  predicate Conflicting(s: State, r: Reader, t: Tab) {
    exists j :: 0 <= j < |s.tables.At(t).wss| && Conflicts(s.tables.At(t).wss[j], r.id, r.keys)
  }

  /** The reader has validated table `t`. */
  predicate Judged(r: Reader, t: Tab) {
    match r.phase
    case Deciding => true
    case Burning(u) => t == T0 && u == T1
    case Drawing(u) => t == T0 && u == T1
    case Scanning(u, _) => t == T0 && u == T1
    case _ => false
  }

  /** The verdict on table `t`: given, or the one it will be. */
  predicate OkAt(s: State, r: Reader, t: Tab) {
    if Judged(r, t) then r.ok.At(t)
    else if r.phase.Scanning? && r.phase.t == t then Passes(s.tables.At(t).wss, r.id, r.phase.valTS, r.keys)
    else !Conflicting(s, r, t)
  }

  predicate WillPass(s: State, r: Reader) { OkAt(s, r, T0) && OkAt(s, r, T1) }

  /** With a timestamp drawn now the verdict is about conflicts alone. */
  lemma {:induction false} VerdictNow(data: Pair<Data>, s: State, r: Reader, t: Tab)
    requires Inv(data, s)
    ensures Passes(s.tables.At(t).wss, r.id, s.clock, r.keys) <==> !Conflicting(s, r, t)
  {
    var wss := s.tables.At(t).wss;
    BlocksIsConflict(data, s, t, r.id, s.clock, r.keys);
    if !Passes(wss, r.id, s.clock, r.keys) {
      var j :| 0 <= j < |wss| && Blocks(wss[j], r.id, s.clock, r.keys);
      assert Conflicts(wss[j], r.id, r.keys);
    }
  }

  /* ---- one own step ---- */

  /** The reader goes on: everything but its own progress and the clock is as before. */
  ghost predicate GoesOn(s: State, rid: nat, s': State) {
    && Registered(s, rid) && Registered(s', rid)
    && s'.tables == s.tables && s'.writer == s.writer && s'.hist == s.hist && s'.active == s.active
    && s'.published == s.published && s'.readers - {rid} == s.readers - {rid}
    && s'.readers[rid].id == s.readers[rid].id && s'.readers[rid].keys == s.readers[rid].keys
  }

  /** The reader leaves, publishing exactly if it passes. */
  ghost predicate Leaves(s: State, rid: nat, s': State, passes: bool) {
    && Registered(s, rid) && s'.readers == s.readers - {rid}
    && s'.tables == s.tables && s'.writer == s.writer && s'.hist == s.hist
    && s'.active == s.active - {s.readers[rid].id}
    && (if passes then
          exists b: Batch :: s'.published == s.published + [b] && b.keys == s.readers[rid].keys
        else s'.published == s.published)
  }

  /** The reader is still on its way with the same fate, or has left with it. */
  ghost predicate Fate(s: State, rid: nat, s': State)
    requires Registered(s, rid)
  {
    if rid in s'.readers then GoesOn(s, rid, s') && WillPass(s', s'.readers[rid]) == WillPass(s, s.readers[rid])
    else Leaves(s, rid, s', WillPass(s, s.readers[rid]))
  }

  lemma {:induction false} ReadGoesOn(s: State, rid: nat, s': State)
    requires Registered(s, rid) && Step(s, Read(rid)) == Some(s')
    ensures Fate(s, rid, s') && rid in s'.readers
  {}

  lemma {:induction false} BurnGoesOn(s: State, rid: nat, s': State)
    requires Registered(s, rid) && Step(s, Burn(rid)) == Some(s')
    ensures Fate(s, rid, s') && rid in s'.readers
  {}

  lemma {:induction false} DrawGoesOn(s: State, rid: nat, s': State)
    requires Registered(s, rid) && Step(s, DrawVal(rid)) == Some(s')
    requires forall t :: Passes(s.tables.At(t).wss, s.readers[rid].id, s.clock, s.readers[rid].keys)
                    <==> !Conflicting(s, s.readers[rid], t)
    ensures Fate(s, rid, s') && rid in s'.readers
  {
    var r := s.readers[rid];
    assert s'.readers[rid] == r.(phase := Scanning(r.phase.t, s.clock));
    assert forall t :: Conflicting(s', s'.readers[rid], t) == Conflicting(s, r, t);
    assert OkAt(s', s'.readers[rid], T0) == OkAt(s, r, T0);
    assert OkAt(s', s'.readers[rid], T1) == OkAt(s, r, T1);
  }

  lemma {:induction false} DrawKeepsFate(data: Pair<Data>, s: State, rid: nat, s': State)
    requires Inv(data, s) && Registered(s, rid) && Step(s, DrawVal(rid)) == Some(s')
    ensures Fate(s, rid, s') && rid in s'.readers
  {
    VerdictNow(data, s, s.readers[rid], T0);
    VerdictNow(data, s, s.readers[rid], T1);
    DrawGoesOn(s, rid, s');
  }

  lemma {:induction false} ScanGoesOn(s: State, rid: nat, s': State)
    requires Registered(s, rid) && Step(s, Scan(rid)) == Some(s')
    ensures Fate(s, rid, s') && rid in s'.readers
  {}

  lemma {:induction false} DecideLeaves(s: State, rid: nat, s': State)
    requires Registered(s, rid) && Step(s, Decide(rid)) == Some(s')
    ensures Fate(s, rid, s') && rid !in s'.readers
  {
    var r := s.readers[rid];
    var b := Batch(r.keys, r.got, Max(r.cut.zero, r.cut.one), r.atStart);
    assert WillPass(s, r) ==> s'.published == s.published + [b] && b.keys == r.keys;
  }

  lemma {:induction false} FateGoesOn(s: State, rid: nat, mid: State, s': State)
    requires GoesOn(s, rid, mid) && WillPass(mid, mid.readers[rid]) == WillPass(s, s.readers[rid]) && Fate(mid, rid, s')
    ensures Fate(s, rid, s')
  {
    var passes := WillPass(s, s.readers[rid]);
    if rid in s'.readers {
    } else {
      LeavesLater(s, rid, mid, s', passes);
    }
  }

  lemma {:induction false} LeavesLater(s: State, rid: nat, mid: State, s': State, passes: bool)
    requires GoesOn(s, rid, mid) && Leaves(mid, rid, s', passes)
    ensures Leaves(s, rid, s', passes)
  {}

  /** Whatever step the reader takes, its fate does not change, and only the last step publishes. */
  lemma {:induction false} OwnStep(data: Pair<Data>, s: State, rid: nat, a: Action, s': State)
    requires Inv(data, s) && Registered(s, rid) && Own(a, rid) && Step(s, a) == Some(s')
    ensures Fate(s, rid, s') && (a.Decide? <==> rid !in s'.readers)
  {
    match a
    case Read(_) => ReadGoesOn(s, rid, s');
    case Burn(_) => BurnGoesOn(s, rid, s');
    case DrawVal(_) => DrawKeepsFate(data, s, rid, s');
    case Scan(_) => ScanGoesOn(s, rid, s');
    case Decide(_) => DecideLeaves(s, rid, s');
  }

  /** In every run of own steps, however far it goes: the reader is still there and nothing was published,
      or it has left, with one publication if its verdicts allow it and none otherwise. */
  lemma {:induction false} OwnRun(data: Pair<Data>, s: State, rid: nat, run: seq<Action>, s': State)
    requires Reachable(data, s) && Registered(s, rid) && AllOwn(run, rid) && Exec(s, run) == Some(s')
    ensures Fate(s, rid, s') && Reachable(data, s')
    decreases |run|
  {
    if run == [] {
    } else {
      var init, a := run[..|run| - 1], run[|run| - 1];
      var mid := Exec(s, init).value;
      assert forall i :: 0 <= i < |init| ==> Own(init[i], rid);
      OwnRun(data, s, rid, init, mid);
      assert Own(a, rid);
      OwnAfter(data, s, rid, mid, a, s');
    }
  }

  lemma {:induction false} OwnAfter(data: Pair<Data>, s: State, rid: nat, mid: State, a: Action, s': State)
    requires Registered(s, rid) && Fate(s, rid, mid) && Reachable(data, mid) && Own(a, rid) && Step(mid, a) == Some(s')
    ensures Fate(s, rid, s') && Reachable(data, s')
  {
    Advance(data, mid, a, s');
    ReachableInv(data, mid);
    OwnNeedsReader(mid, rid, a, s');
    OwnStep(data, mid, rid, a, s');
    FateGoesOn(s, rid, mid, s');
  }

  lemma {:induction false} OwnNeedsReader(s: State, rid: nat, a: Action, s': State)
    requires Own(a, rid) && Step(s, a) == Some(s')
    ensures rid in s.readers
  {}

  /* ---- progress ---- */

  /** All keys of the reader are in both tables. */
  predicate KeysThere(s: State, keys: seq<Key>) {
    forall i :: 0 <= i < |keys| ==> keys[i] in s.tables.zero.data && keys[i] in s.tables.one.data
  }

  /** How many own steps are left if no key is missing. */
  function Left(r: Reader): int {
    match r.phase
    case Taken => 0
    case Reading => 8 + 2 * |r.keys| - |r.got.zero| - |r.got.one|
    case Burning(t) => if t == T0 then 7 else 4
    case Drawing(t) => if t == T0 then 6 else 3
    case Scanning(t, _) => if t == T0 then 5 else 2
    case Deciding => 1
  }

  /** How many timestamps the reader may still draw. */
  function Draws(r: Reader): nat {
    match r.phase
    case Burning(t) => if t == T0 then 4 else 2
    case Drawing(t) => if t == T0 then 3 else 1
    case Scanning(t, _) => if t == T0 then 2 else 0
    case Deciding => 0
    case _ => 4
  }

  function DrawsOf(s: State, rid: nat): nat { if rid in s.readers then Draws(s.readers[rid]) else 0 }

  lemma {:induction false} DrawsStep(s: State, rid: nat, a: Action, s': State)
    requires Own(a, rid) && Step(s, a) == Some(s') && (rid in s.readers ==> Registered(s, rid))
    ensures s'.clock + DrawsOf(s', rid) == s.clock + DrawsOf(s, rid) && (rid in s'.readers ==> Registered(s', rid))
  {}

  /** Own steps draw exactly the timestamps that were left. */
  lemma {:induction false} DrawsRun(s: State, rid: nat, run: seq<Action>, s': State)
    requires Registered(s, rid) && AllOwn(run, rid) && Exec(s, run) == Some(s')
    ensures s'.clock + DrawsOf(s', rid) == s.clock + DrawsOf(s, rid) && (rid in s'.readers ==> Registered(s', rid))
    decreases |run|
  {
    if run == [] {
    } else {
      var init := run[..|run| - 1];
      assert forall i :: 0 <= i < |init| ==> Own(init[i], rid);
      DrawsRun(s, rid, init, Exec(s, init).value);
      DrawsStep(Exec(s, init).value, rid, run[|run| - 1], s');
    }
  }

  /** Reads so far alternate between the tables. */
  predicate ReadsInStep(r: Reader) {
    && |r.got.one| <= |r.got.zero| <= |r.got.one| + 1 && |r.got.zero| <= |r.keys|
    && (!r.phase.Reading? ==> ReadAll(r))
  }

  ghost predicate NextOf(s: State, rid: nat, s': State) {
    && rid in s.readers
    && (rid in s'.readers ==> s'.clock + Draws(s'.readers[rid]) <= s.clock + Draws(s.readers[rid]))
    && (KeysThere(s, s.readers[rid].keys) && rid in s'.readers ==> Left(s'.readers[rid]) < Left(s.readers[rid]))
  }

  lemma {:induction false} CanRead(s: State, rid: nat) returns (s': State)
    requires Registered(s, rid) && s.readers[rid].phase.Reading? && ReadsInStep(s.readers[rid])
    requires !ReadAll(s.readers[rid])
    ensures Step(s, Read(rid)) == Some(s') && NextOf(s, rid, s')
  {
    s' := DoRead(s, rid).value;
    var r := s.readers[rid];
    if KeysThere(s, r.keys) {
      var k := if |r.got.zero| == |r.got.one| then r.keys[|r.got.zero|] else r.keys[|r.got.one|];
      assert k in s.tables.zero.data && k in s.tables.one.data;
    }
  }

  lemma {:induction false} CanValidate(s: State, rid: nat) returns (a: Action, s': State)
    requires Registered(s, rid) && ReadAll(s.readers[rid]) && CanTick(s)
    ensures Own(a, rid) && Step(s, a) == Some(s') && NextOf(s, rid, s')
  {
    match s.readers[rid].phase {
      case Reading => a := Burn(rid);
      case Burning(_) => a := Burn(rid);
      case Drawing(_) => a := DrawVal(rid);
      case Scanning(_, _) => a := Scan(rid);
      case Deciding => a := Decide(rid);
    }
    s' := Step(s, a).value;
  }

  lemma {:induction false} InStep(data: Pair<Data>, s: State, rid: nat)
    requires Reachable(data, s) && Registered(s, rid)
    ensures ReadsInStep(s.readers[rid])
  {
    ReachableInv(data, s);
    assert ReaderOk(data, s, s.readers[rid]);
  }

  /** A reader never waits: whatever writers and other readers are doing, its next step is possible. */
  lemma {:induction false} ReaderNeverWaits(data: Pair<Data>, s: State, rid: nat) returns (a: Action, s': State)
    requires Reachable(data, s) && Registered(s, rid) && CanTick(s)
    ensures Own(a, rid) && Step(s, a) == Some(s') && NextOf(s, rid, s')
  {
    InStep(data, s, rid);
    if ReadAll(s.readers[rid]) {
      a, s' := CanValidate(s, rid);
    } else {
      a := Read(rid);
      s' := CanRead(s, rid);
    }
  }

  /** Running alone, a reader whose keys are there leaves. */
  lemma {:induction false} ReaderLeaves(data: Pair<Data>, s: State, rid: nat)
    returns (run: seq<Action>, last: State, s': State)
    requires Reachable(data, s) && Registered(s, rid) && KeysThere(s, s.readers[rid].keys)
    requires s.clock + Draws(s.readers[rid]) + 1 < DTS_INF
    ensures AllOwn(run, rid) && Exec(s, run + [Decide(rid)]) == Some(s') && rid !in s'.readers
    ensures Exec(s, run) == Some(last) && Registered(last, rid) && GoesOn(s, rid, last) && Reachable(data, last)
    decreases Left(s.readers[rid])
  {
    InStep(data, s, rid);
    var a, s1 := ReaderNeverWaits(data, s, rid);
    ReachableInv(data, s);
    OwnStep(data, s, rid, a, s1);
    if a.Decide? {
      run, last, s' := [], s, s1;
      ExecOne(s, a, s1);
      assert [] + [Decide(rid)] == [a];
    } else {
      Advance(data, s, a, s1);
      var rest;
      rest, last, s' := ReaderLeaves(data, s1, rid);
      run := [a] + rest;
      Prepend(s, rid, a, s1, rest, last, s');
    }
  }

  lemma {:induction false} Prepend(s: State, rid: nat, a: Action, s1: State, rest: seq<Action>, last: State, s': State)
    requires Step(s, a) == Some(s1) && Own(a, rid) && AllOwn(rest, rid)
    requires Exec(s1, rest) == Some(last) && Exec(s1, rest + [Decide(rid)]) == Some(s')
    ensures AllOwn([a] + rest, rid)
    ensures Exec(s, [a] + rest) == Some(last) && Exec(s, ([a] + rest) + [Decide(rid)]) == Some(s')
  {
    ExecCons(s, a, s1, rest, last);
    ExecCons(s, a, s1, rest + [Decide(rid)], s');
    assert ([a] + rest) + [Decide(rid)] == [a] + (rest + [Decide(rid)]);
  }

  lemma {:induction false} ExecCons(s: State, a: Action, s1: State, rest: seq<Action>, s': State)
    requires Step(s, a) == Some(s1) && Exec(s1, rest) == Some(s')
    ensures Exec(s, [a] + rest) == Some(s')
  {
    ExecOne(s, a, s1);
    ExecConcat(s, [a], s1, rest, s');
  }

  /* ---- what is published ---- */

  /** A listed write set of table `t` ended after the id was drawn and holds one of the keys. */
  predicate Clash(s: State, id: nat, keys: seq<Key>, t: Tab) {
    exists j, i :: 0 <= j < |s.tables.At(t).wss| && 0 <= i < |keys| &&
      s.tables.At(t).wss[j].endTS > id && keys[i] in s.tables.At(t).wss[j].keys
  }

  lemma {:induction false} ClashIsConflict(s: State, r: Reader, t: Tab)
    ensures Clash(s, r.id, r.keys, t) <==> Conflicting(s, r, t)
  {
    var wss := s.tables.At(t).wss;
    if Clash(s, r.id, r.keys, t) {
      var j, i :| 0 <= j < |wss| && 0 <= i < |r.keys| && wss[j].endTS > r.id && r.keys[i] in wss[j].keys;
      assert Conflicts(wss[j], r.id, r.keys);
    }
    if Conflicting(s, r, t) {
      var j :| 0 <= j < |wss| && Conflicts(wss[j], r.id, r.keys);
      var i :| 0 <= i < |r.keys| && r.keys[i] in wss[j].keys;
    }
  }

  /** Without a clash none of the keys was touched after the cut. */
  lemma {:induction false} NotTouched(data: Pair<Data>, s: State, r: Reader, t: Tab, i: nat)
    requires |s.hist| == |s.stamps| && ListOk(s, t) && CutOk(s, r, t) && i < |r.keys| && !Clash(s, r.id, r.keys, t)
    ensures s.listed.At(t) <= |s.hist| && Untouched(s.hist, r.cut.At(t), s.listed.At(t), t, r.keys[i])
  {
    forall m | r.cut.At(t) <= m < s.listed.At(t) && m < |s.hist| ensures r.keys[i] !in KeysOf(s.hist[m].At(t)) {
      var e := s.tables.At(t).wss[s.listed.At(t) - 1 - m];
      assert e == EntryOf(s, m, t);
    }
  }

  /** Without a clash the values read are those in the table. */
  lemma {:induction false} ReadIsCurrent(data: Pair<Data>, s: State, r: Reader, t: Tab, i: nat)
    requires Times(s) && ListOk(s, t) && DataOk(data, s, t) && CutOk(s, r, t) && ReadsOk(data, s.hist, r, t)
    requires i < |r.keys| == |r.got.At(t)| && !Clash(s, r.id, r.keys, t)
    ensures Holds(s.tables.At(t).data, r.keys[i], r.got.At(t)[i])
  {
    var cut, lim, k := r.cut.At(t), r.lim.At(t), r.keys[i];
    NotTouched(data, s, r, t, i);
    assert Untouched(s.hist, cut, lim, t, k);
    ReadValue(data, s, r, t, k);
  }

  /** The batch holds the keys and, for both tables, the values of the keys in the tables. */
  ghost predicate ShowsTables(s: State, keys: seq<Key>, b: Batch) {
    && b.keys == keys && |b.got.zero| == |b.got.one| == |keys|
    && forall i :: 0 <= i < |keys| ==>
         && Holds(s.tables.zero.data, keys[i], b.got.zero[i])
         && Holds(s.tables.one.data, keys[i], b.got.one[i])
  }

  lemma {:induction false} DecidePublishes(data: Pair<Data>, s: State, rid: nat, s': State)
    requires Inv(data, s) && Registered(s, rid) && Step(s, Decide(rid)) == Some(s')
    requires |s'.published| == |s.published| + 1
    requires !Clash(s, s.readers[rid].id, s.readers[rid].keys, T0)
    requires !Clash(s, s.readers[rid].id, s.readers[rid].keys, T1)
    ensures ShowsTables(s, s.readers[rid].keys, s'.published[|s.published|])
  {
    var r := s.readers[rid];
    assert ReaderOk(data, s, r) && ReadAll(r);
    forall i | 0 <= i < |r.keys|
      ensures Holds(s.tables.zero.data, r.keys[i], r.got.zero[i]) && Holds(s.tables.one.data, r.keys[i], r.got.one[i])
    {
      ReadIsCurrent(data, s, r, T0, i);
      ReadIsCurrent(data, s, r, T1, i);
    }
    assert s'.published[|s.published|].got == r.got && s'.published[|s.published|].keys == r.keys;
  }

  /** From every reachable state a visible reader whose keys are in both tables leaves by its own steps alone.
      If no listed write set that ended after it drew its id holds one of its keys, and the verdicts given so
      far were good, it publishes exactly one batch: its keys with their values in both tables. If its
      verdicts are bad, it publishes nothing. */
  lemma {:induction false} ReaderFinishes(data: Pair<Data>, s: State, rid: nat) returns (run: seq<Action>, s': State)
    requires Reachable(data, s) && Registered(s, rid) && KeysThere(s, s.readers[rid].keys) && s.clock + 5 < DTS_INF
    ensures AllOwn(run, rid) && Exec(s, run) == Some(s')
    ensures Leaves(s, rid, s', WillPass(s, s.readers[rid]))
    ensures
      var r := s.readers[rid];
      WillPass(s, r) && !Clash(s, r.id, r.keys, T0) && !Clash(s, r.id, r.keys, T1) ==>
        && |s'.published| == |s.published| + 1 && s'.published[..|s.published|] == s.published
        && ShowsTables(s, r.keys, s'.published[|s.published|])
  {
    var own, last;
    own, last, s' := ReaderLeaves(data, s, rid);
    run := own + [Decide(rid)];
    OwnRun(data, s, rid, run, s');
    var r := s.readers[rid];
    if WillPass(s, r) && !Clash(s, r.id, r.keys, T0) && !Clash(s, r.id, r.keys, T1) {
      ReachableInv(data, last);
      LastStep(s, own, last, rid, s');
      DecidePublishes(data, last, rid, s');
    }
  }

  lemma {:induction false} LastStep(s: State, own: seq<Action>, last: State, rid: nat, s': State)
    requires Exec(s, own) == Some(last) && Exec(s, own + [Decide(rid)]) == Some(s')
    ensures Step(last, Decide(rid)) == Some(s')
  {
    assert (own + [Decide(rid)])[..|own|] == own;
  }

  /** A reader that is still reading publishes, running alone, if and only if nothing clashes. For each table it
      draws two timestamps. */
  lemma {:induction false} ReadingReaderPublishes(data: Pair<Data>, s: State, rid: nat)
    returns (run: seq<Action>, s': State)
    requires Reachable(data, s) && rid in s.readers && s.readers[rid].phase.Reading?
    requires KeysThere(s, s.readers[rid].keys) && s.clock + 5 < DTS_INF
    ensures AllOwn(run, rid) && Exec(s, run) == Some(s') && rid !in s'.readers
    ensures s'.tables == s.tables && s'.active == s.active - {s.readers[rid].id} && s'.clock == s.clock + 4
    ensures
      var r := s.readers[rid];
      if Clash(s, r.id, r.keys, T0) || Clash(s, r.id, r.keys, T1) then s'.published == s.published
      else && |s'.published| == |s.published| + 1 && s'.published[..|s.published|] == s.published
           && ShowsTables(s, r.keys, s'.published[|s.published|])
  {
    ClashIsConflict(s, s.readers[rid], T0);
    ClashIsConflict(s, s.readers[rid], T1);
    run, s' := ReaderFinishes(data, s, rid);
    DrawsRun(s, rid, run, s');
  }

  /** A reader with a failed validation publishes nothing, whatever own steps it still takes. */
  lemma {:induction false} FailedReaderPublishesNothing(data: Pair<Data>, s: State, rid: nat, t: Tab, run: seq<Action>,
      s': State)
    requires Reachable(data, s) && Registered(s, rid) && Judged(s.readers[rid], t) && !s.readers[rid].ok.At(t)
    requires AllOwn(run, rid) && Exec(s, run) == Some(s')
    ensures s'.published == s.published
  {
    OwnRun(data, s, rid, run, s');
    assert !OkAt(s, s.readers[rid], t);
  }

  /** A reader that draws its id now clashes with nothing that has ended. */
  lemma {:induction false} NewIdClashesNot(data: Pair<Data>, s: State, keys: seq<Key>, t: Tab)
    requires Inv(data, s) && !s.writer.Committing?
    ensures !Clash(s, s.clock, keys, t)
  {
    assert ListOk(s, T0) && ListOk(s, T1);
    var wss := s.tables.At(t).wss;
    forall j | 0 <= j < |wss| ensures wss[j].endTS <= s.clock {
      assert wss[j] == EntryOf(s, s.listed.At(t) - 1 - j, t);
      assert Complete(s.stamps[s.listed.At(t) - 1 - j], s.clock);
    }
  }

  /** Taking an id and becoming visible. */
  lemma {:induction false} Enter(s: State, rid: nat, keys: seq<Key>) returns (s1: State, s2: State)
    requires rid !in s.readers && CanTick(s)
    ensures Step(s, Take(rid, keys)) == Some(s1) && Step(s1, Register(rid)) == Some(s2)
    ensures s2.readers.Keys == s.readers.Keys + {rid} && s2.readers - {rid} == s.readers
    ensures s2.readers[rid].phase.Reading? && s2.readers[rid].id == s.clock && s2.readers[rid].keys == keys
    ensures s2.tables == s.tables && s2.writer == s.writer && s2.published == s.published && s2.hist == s.hist
    ensures s2.clock == s.clock + 1 && s2.active == s.active + {s.clock}
  {
    s1 := DoTake(s, rid, keys).value;
    s2 := DoRegister(s1, rid).value;
  }

  /** Whenever no writer is committing, a new reader of keys that are in both tables comes through alone and
      publishes what is in the tables. */
  lemma {:induction false} NewReaderPublishes(data: Pair<Data>, s: State, rid: nat, keys: seq<Key>)
    returns (run: seq<Action>, s': State)
    requires Reachable(data, s) && rid !in s.readers && !s.writer.Committing? && KeysThere(s, keys)
    requires s.clock + 6 < DTS_INF
    ensures AllOwn(run, rid) && Exec(s, [Take(rid, keys), Register(rid)] + run) == Some(s')
    ensures rid !in s'.readers && s'.tables == s.tables && s'.clock == s.clock + 5
    ensures |s'.published| == |s.published| + 1 && s'.published[..|s.published|] == s.published
    ensures ShowsTables(s, keys, s'.published[|s.published|])
  {
    var s1, s2 := Enter(s, rid, keys);
    ReachableInv(data, s);
    NewIdClashesNot(data, s, keys, T0);
    NewIdClashesNot(data, s, keys, T1);
    Advance(data, s, Take(rid, keys), s1);
    Advance(data, s1, Register(rid), s2);
    run, s' := ReadingReaderPublishes(data, s2, rid);
    EnterRun(s, rid, keys, s1, s2);
    ExecConcat(s, [Take(rid, keys), Register(rid)], s2, run, s');
  }

  lemma {:induction false} EnterRun(s: State, rid: nat, keys: seq<Key>, s1: State, s2: State)
    requires Step(s, Take(rid, keys)) == Some(s1) && Step(s1, Register(rid)) == Some(s2)
    ensures Exec(s, [Take(rid, keys), Register(rid)]) == Some(s2)
  {
    ExecOne(s, Take(rid, keys), s1);
    Then(s, [Take(rid, keys)], s1, Register(rid), s2);
    assert [Take(rid, keys)] + [Register(rid)] == [Take(rid, keys), Register(rid)];
  }
}

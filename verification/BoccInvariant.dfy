/** The invariant of the two-table protocol and its preservation by every step. */
module BoccInvariant {
  import opened Wrappers
  import opened BoccCore
  import opened BoccProtocol

  /* ---- history ---- */

  lemma {:induction false} StateAfterExtend(data: Pair<Data>, hist: seq<Pair<seq<Write>>>, w: Pair<seq<Write>>,
      n: nat, t: Tab)
    requires n <= |hist|
    ensures StateAfter(data, hist + [w], n, t) == StateAfter(data, hist, n, t)
  {
    if n == 0 {
    } else {
      StateAfterExtend(data, hist, w, n - 1, t);
      assert (hist + [w])[n - 1] == hist[n - 1];
    }
  }

  /** No commit from `lo` up to `hi` writes `k` in table `t`. */
  ghost predicate Untouched(hist: seq<Pair<seq<Write>>>, lo: nat, hi: nat, t: Tab, k: Key) {
    forall m :: lo <= m < hi && m < |hist| ==> k !in KeysOf(hist[m].At(t))
  }

  /** Both data agree on key `k`. */
  ghost predicate SameAt(a: Data, b: Data, k: Key) {
    (k in a <==> k in b) && (k in a ==> a[k] == b[k])
  }

  lemma {:induction false} UntouchedKeepsValue(data: Pair<Data>, hist: seq<Pair<seq<Write>>>, lo: nat, hi: nat,
      t: Tab, k: Key)
    requires lo <= hi <= |hist| && Untouched(hist, lo, hi, t, k)
    ensures SameAt(StateAfter(data, hist, hi, t), StateAfter(data, hist, lo, t), k)
    decreases hi
  {
    if lo == hi {
    } else {
      UntouchedKeepsValue(data, hist, lo, hi - 1, t, k);
      ApplyAllLastWins(StateAfter(data, hist, hi - 1, t), hist[hi - 1].At(t), k);
    }
  }

  lemma {:induction false} KeysOfPrefix(ws: seq<Write>, n: nat)
    requires n <= |ws|
    ensures KeysOf(ws[..n]) <= KeysOf(ws)
  {
    forall k | k in KeysOf(ws[..n]) ensures k in KeysOf(ws) {
      var i :| 0 <= i < n && ws[..n][i].0 == k;
      assert ws[i].0 == k;
    }
  }

  /* ---- the invariant ---- */

  ghost predicate EndsBefore(st: Stamps, x: nat) { st.end.zero < x && st.end.one < x }

  ghost predicate ValsBefore(st: Stamps, x: nat) { st.val.zero < x && st.val.one < x }

  ghost predicate Complete(st: Stamps, clock: nat) {
    && st.id < st.val.zero && st.id < st.val.one
    && ValsBefore(st, st.end.zero) && ValsBefore(st, st.end.one)
    && EndsBefore(st, clock)
  }

  /** Position of a step in the commit. */
  ghost function Rank(pc: Pc): nat {
    match pc
    case Draw(s) => if s then 2 else 0
    case Publish(s) => if s then 3 else 1
    case Apply(s, _) => if s then 9 else 4
    case DrawEnd(s) => if s then 10 else 5
    case Stamp(s) => if s then 11 else 6
    case FindOldest(s) => if s then 12 else 7
    case Erase(s) => if s then 13 else 8
    case Leave => 14
  }

  /** How far the commit has come at table `t`, and the timestamps it has drawn. */
  ghost predicate CurrentAt(s: State, t: Tab)
    requires s.writer.Committing? && s.stamps != []
  {
    var w, st, rank := s.writer, LastStamps(s), Rank(s.writer.pc);
    var first := t == w.first;
    && (rank > (if first then 0 else 2) ==> st.id < st.val.At(t) < s.clock)
    && s.listed.At(t) == |s.hist| - (if rank > (if first then 1 else 3) then 0 else 1)
    && s.applied.At(t) == |s.hist| - (if rank > (if first then 4 else 9) then 0 else 1)
    && (if rank > (if first then 6 else 11) then ValsBefore(st, st.end.At(t)) && st.end.At(t) < s.clock
        else st.end.At(t) == DTS_INF)
    && (w.pc.Publish? && At(w, t) ==> w.tmp == st.val.At(t))
    && (w.pc.Erase? && At(w, t) ==> w.tmp <= st.val.At(t))
  }

  /** The writer is working on table `t`. */
  ghost predicate At(w: Writer, t: Tab)
    requires w.Committing? && !w.pc.Leave?
  {
    Target(w.first, w.pc.second) == t
  }

  ghost predicate Times(s: State) {
    && |s.hist| == |s.stamps|
    && s.clock < DTS_INF
    && (forall m :: 0 <= m < Finished(s) ==> Complete(s.stamps[m], s.clock))
    && (forall m, n :: 0 <= m < n < |s.stamps| ==> EndsBefore(s.stamps[m], s.stamps[n].id))
    && (s.writer.Open? ==>
          s.writer.id < s.clock && forall m :: 0 <= m < |s.stamps| ==> EndsBefore(s.stamps[m], s.writer.id))
    && (s.writer.Committing? ==> s.hist != [])
    && (if s.writer.Committing? then
          var st := LastStamps(s);
          && st.id == s.writer.id < s.clock
          && CurrentAt(s, T0) && CurrentAt(s, T1)
          && (s.writer.pc.Stamp? ==> s.writer.tmp < s.clock && ValsBefore(st, s.writer.tmp))
        else s.listed == s.applied == Pair(|s.hist|, |s.hist|))
  }

  /** The list entry of commit number `m`. */
  ghost function EntryOf(s: State, m: nat, t: Tab): Entry
    requires m < |s.hist| == |s.stamps|
  {
    Entry(KeysOf(s.hist[m].At(t)), s.stamps[m].val.At(t), s.stamps[m].end.At(t))
  }

  /** The list is the published commits, newest first, without the erased oldest ones. */
  ghost predicate ListOk(s: State, t: Tab)
    requires |s.hist| == |s.stamps|
  {
    var wss := s.tables.At(t).wss;
    && s.erased.At(t) <= Finished(s)
    && s.erased.At(t) <= s.listed.At(t) <= |s.hist|
    && |wss| == s.listed.At(t) - s.erased.At(t)
    && forall j :: 0 <= j < |wss| ==> wss[j] == EntryOf(s, s.listed.At(t) - 1 - j, t)
  }

  ghost predicate Applying(s: State, t: Tab) {
    s.writer.Committing? && s.writer.pc.Apply? && At(s.writer, t)
  }

  ghost predicate DataOk(data: Pair<Data>, s: State, t: Tab) {
    if Applying(s, t) && s.hist != [] then
      var writes := s.hist[|s.hist| - 1].At(t);
      && s.writer.pc.next <= |writes|
      && s.tables.At(t).data == ApplyAll(StateAfter(data, s.hist, |s.hist| - 1, t), writes[..s.writer.pc.next])
    else s.applied.At(t) <= |s.hist| && s.tables.At(t).data == StateAfter(data, s.hist, s.applied.At(t), t)
  }

  ghost predicate IdsOk(s: State) {
    && (!s.writer.Idle? ==> s.writer.id in s.active && s.writer.id < s.clock)
    && (forall i :: i in s.readers ==> s.readers[i].id < s.clock)
    && (forall i :: i in s.readers && !s.writer.Idle? ==> s.readers[i].id != s.writer.id)
    && (forall i, j :: i in s.readers && j in s.readers && i != j ==> s.readers[i].id != s.readers[j].id)
    && (forall i :: i in s.readers && !s.readers[i].phase.Taken? ==> s.readers[i].id in s.active)
  }

  /** How a registered reader relates to the commits. */
  ghost predicate CutOk(s: State, r: Reader, t: Tab)
    requires |s.hist| == |s.stamps|
  {
    && s.erased.At(t) <= r.cut.At(t) <= s.applied.At(t)
    && r.cut.At(t) <= r.lim.At(t) <= s.listed.At(t)
    && r.cut.At(Other(t)) <= r.lim.At(t)
    && r.atStart <= r.cut.At(t) <= r.atStart + 1
    && (forall m :: r.cut.At(t) <= m < |s.stamps| ==> s.stamps[m].end.At(t) > r.id)
    && (s.writer.Committing? && s.writer.pc.Stamp? && At(s.writer, t) ==>
          r.cut.At(t) < |s.hist| ==> s.writer.tmp > r.id)
    && (s.writer.Committing? && s.writer.pc.Erase? && At(s.writer, t) ==>
          forall m :: r.cut.At(t) <= m < |s.hist| - 1 ==> s.stamps[m].end.At(t) > s.writer.tmp)
    && (r.phase.Scanning? && r.phase.t == t ==>
          forall m :: 0 <= m < r.lim.At(t) && m < |s.stamps| ==> s.stamps[m].val.At(t) < r.phase.valTS)
  }

  /** For a reader that was not late, everything erased ended before it started. */
  ghost predicate EarlyOk(s: State, r: Reader, t: Tab)
    requires |s.hist| == |s.stamps|
  {
    && s.erased.At(t) <= |s.stamps|
    && (!r.late ==>
          && (forall m :: 0 <= m < s.erased.At(t) ==> s.stamps[m].end.At(t) <= r.id)
          && (s.writer.Committing? && s.writer.pc.Erase? && At(s.writer, t) ==>
                (forall m :: 0 <= m < |s.hist| - 1 && s.stamps[m].end.At(t) <= s.writer.tmp
                    ==> s.stamps[m].end.At(t) <= r.id)))
  }

  /** What has been read so far is the state at the cut, except for keys touched by a later commit. */
  ghost predicate ReadsOk(data: Pair<Data>, hist: seq<Pair<seq<Write>>>, r: Reader, t: Tab) {
    && r.cut.At(t) <= |hist| && r.lim.At(t) <= |hist|
    && |r.got.At(t)| <= |r.keys|
    && |r.got.one| <= |r.got.zero| <= |r.got.one| + 1
    && (if r.phase.Reading? then !r.ok.At(t) else ReadAll(r))
    && GotOk(data, hist, r, t)
    && (r.ok.At(t) ==> forall j :: 0 <= j < |r.keys| ==> Untouched(hist, r.cut.At(t), r.lim.At(t), t, r.keys[j]))
  }

  ghost predicate GotOk(data: Pair<Data>, hist: seq<Pair<seq<Write>>>, r: Reader, t: Tab)
    requires r.cut.At(t) <= |hist| && |r.got.At(t)| <= |r.keys|
  {
    forall j :: 0 <= j < |r.got.At(t)| && Untouched(hist, r.cut.At(t), r.lim.At(t), t, r.keys[j]) ==>
      Holds(StateAfter(data, hist, r.cut.At(t), t), r.keys[j], r.got.At(t)[j])
  }

  ghost predicate Holds(d: Data, k: Key, v: Val) { k in d && d[k] == v }

  ghost predicate ReaderOk(data: Pair<Data>, s: State, r: Reader)
    requires |s.hist| == |s.stamps|
  {
    && EarlyOk(s, r, T0) && EarlyOk(s, r, T1)
    && (r.phase.Taken? ==> r.got == Pair([], []) && r.ok == Pair(false, false))
    && (!r.phase.Taken? ==>
          && CutOk(s, r, T0) && CutOk(s, r, T1)
          && ReadsOk(data, s.hist, r, T0) && ReadsOk(data, s.hist, r, T1))
  }

  /** A published batch is the state after one prefix of the commits, in both tables. */
  ghost predicate BatchOk(data: Pair<Data>, hist: seq<Pair<seq<Write>>>, b: Batch) {
    && b.cut <= |hist|
    && b.atStart <= b.cut <= b.atStart + 1
    && |b.got.zero| == |b.got.one| == |b.keys|
    && (forall j, t: Tab {:trigger b.keys[j], b.got.At(t)} :: 0 <= j < |b.keys| ==>
          Holds(StateAfter(data, hist, b.cut, t), b.keys[j], b.got.At(t)[j]))
  }

  ghost predicate TablesOk(data: Pair<Data>, s: State)
    requires |s.hist| == |s.stamps|
  {
    && ListOk(s, T0) && ListOk(s, T1) && DataOk(data, s, T0) && DataOk(data, s, T1)
  }

  ghost predicate ReadersOk(data: Pair<Data>, s: State)
    requires |s.hist| == |s.stamps|
  {
    forall i :: i in s.readers ==> ReaderOk(data, s, s.readers[i])
  }

  ghost predicate BatchesOk(data: Pair<Data>, hist: seq<Pair<seq<Write>>>, published: seq<Batch>) {
    forall i :: 0 <= i < |published| ==> BatchOk(data, hist, published[i])
  }

  ghost predicate Inv(data: Pair<Data>, s: State) {
    && Times(s) && IdsOk(s) && TablesOk(data, s) && ReadersOk(data, s) && BatchesOk(data, s.hist, s.published)
  }

  lemma {:induction false} InitInv(data: Pair<Data>, clock: nat)
    requires clock < DTS_INF
    ensures Inv(data, Init(data, clock))
  {}

  /* ---- steps that leave the commits alone ---- */

  /** No timestamp, list or history changes; commits may only become more visible. */
  ghost predicate Quiet(s: State, s': State) {
    && s'.hist == s.hist && s'.stamps == s.stamps && s'.erased == s.erased
    && s.listed.zero <= s'.listed.zero && s.listed.one <= s'.listed.one
    && s.applied.zero <= s'.applied.zero && s.applied.one <= s'.applied.one
    && (s'.writer.Committing? ==> s'.writer == s.writer || !(s'.writer.pc.Stamp? || s'.writer.pc.Erase?))
  }

  lemma {:induction false} QuietReader(data: Pair<Data>, s: State, s': State, r: Reader)
    requires |s.hist| == |s.stamps| && Quiet(s, s') && ReaderOk(data, s, r)
    ensures ReaderOk(data, s', r)
  {}

  lemma {:induction false} QuietReaders(data: Pair<Data>, s: State, s': State)
    requires |s.hist| == |s.stamps| && Quiet(s, s') && ReadersOk(data, s)
    requires forall i :: i in s'.readers ==> i in s.readers && s'.readers[i] == s.readers[i]
    ensures ReadersOk(data, s')
  {
    forall i | i in s'.readers ensures ReaderOk(data, s', s'.readers[i]) {
      QuietReader(data, s, s', s.readers[i]);
    }
  }

  /* ---- writer steps ---- */

  lemma {:induction false} BeginInv(data: Pair<Data>, s: State, s': State)
    requires Inv(data, s) && DoBegin(s) == Some(s')
    ensures Inv(data, s')
  {
    assert Times(s');
    QuietReaders(data, s, s');
  }

  /** The open writer buffers or votes. */
  lemma {:induction false} OpenStep(data: Pair<Data>, s: State, w: Writer, s': State)
    requires Times(s) && IdsOk(s) && TablesOk(data, s) && s.writer.Open? && w.Open? && w.id == s.writer.id
    requires s' == s.(writer := w)
    ensures Times(s') && IdsOk(s') && TablesOk(data, s') && Quiet(s, s')
  {
    OpenTable(data, s, w, s', T0);
    OpenTable(data, s, w, s', T1);
  }

  lemma {:induction false} OpenTable(data: Pair<Data>, s: State, w: Writer, s': State, t: Tab)
    requires |s.hist| == |s.stamps| && ListOk(s, t) && DataOk(data, s, t) && s.writer.Open? && w.Open?
    requires s' == s.(writer := w)
    ensures ListOk(s', t) && DataOk(data, s', t)
  {
    assert forall m :: 0 <= m < |s.hist| ==> EntryOf(s', m, t) == EntryOf(s, m, t);
  }

  lemma {:induction false} BufferInv(data: Pair<Data>, s: State, t: Tab, k: Key, v: Val, s': State)
    requires Inv(data, s) && DoBuffer(s, t, k, v) == Some(s')
    ensures Inv(data, s')
  {
    OpenStep(data, s, s'.writer, s');
    QuietReaders(data, s, s');
  }

  /** Extending the history does not disturb what is known about its prefix. */
  lemma {:induction false} ReadsExtend(data: Pair<Data>, hist: seq<Pair<seq<Write>>>, w: Pair<seq<Write>>, r: Reader,
      t: Tab)
    requires ReadsOk(data, hist, r, t)
    ensures ReadsOk(data, hist + [w], r, t)
  {
    StateAfterExtend(data, hist, w, r.cut.At(t), t);
    forall k
      ensures Untouched(hist + [w], r.cut.At(t), r.lim.At(t), t, k)
          == Untouched(hist, r.cut.At(t), r.lim.At(t), t, k)
    {
      assert forall m :: 0 <= m < |hist| ==> (hist + [w])[m] == hist[m];
    }
  }

  lemma {:induction false} StartReader(data: Pair<Data>, s: State, t: Tab, s': State, r: Reader)
    requires |s.hist| == |s.stamps| && ReaderOk(data, s, r) && r.id < DTS_INF
    requires s.writer.Open? && s' == DoStart(s, t)
    ensures ReaderOk(data, s', r)
  {
    assert forall m :: 0 <= m < |s.stamps| ==> s'.stamps[m] == s.stamps[m];
    if !r.phase.Taken? {
      ReadsExtend(data, s.hist, s.writer.buf, r, T0);
      ReadsExtend(data, s.hist, s.writer.buf, r, T1);
    }
  }

  lemma {:induction false} StartBatches(data: Pair<Data>, s: State, w: Pair<seq<Write>>)
    requires BatchesOk(data, s.hist, s.published)
    ensures BatchesOk(data, s.hist + [w], s.published)
  {
    forall i | 0 <= i < |s.published| ensures BatchOk(data, s.hist + [w], s.published[i]) {
      var b := s.published[i];
      assert BatchOk(data, s.hist, b);
      StateAfterExtend(data, s.hist, w, b.cut, T0);
      StateAfterExtend(data, s.hist, w, b.cut, T1);
    }
  }

  lemma {:induction false} StartTimes(s: State, t: Tab, s': State)
    requires Times(s) && IdsOk(s) && s.writer.Open? && s' == DoStart(s, t)
    ensures Times(s') && IdsOk(s')
  {}

  lemma {:induction false} StartList(s: State, t: Tab, s': State, u: Tab)
    requires Times(s) && ListOk(s, u) && s.writer.Open? && s' == DoStart(s, t)
    ensures |s'.hist| == |s'.stamps| && ListOk(s', u)
  {}

  lemma {:induction false} StartData(data: Pair<Data>, s: State, t: Tab, s': State, u: Tab)
    requires Times(s) && DataOk(data, s, u) && s.writer.Open? && s' == DoStart(s, t)
    ensures DataOk(data, s', u)
  {
    StateAfterExtend(data, s.hist, s.writer.buf, |s.hist|, u);
  }

  lemma {:induction false} StartTable(data: Pair<Data>, s: State, t: Tab, s': State, u: Tab)
    requires Times(s) && ListOk(s, u) && DataOk(data, s, u) && s.writer.Open? && s' == DoStart(s, t)
    ensures |s'.hist| == |s'.stamps| && ListOk(s', u) && DataOk(data, s', u)
  {
    StartList(s, t, s', u);
    StartData(data, s, t, s', u);
  }

  lemma {:induction false} StartTables(data: Pair<Data>, s: State, t: Tab, s': State)
    requires Times(s) && TablesOk(data, s) && s.writer.Open? && s' == DoStart(s, t)
    ensures |s'.hist| == |s'.stamps| && TablesOk(data, s')
  {
    StartTable(data, s, t, s', T0);
    StartTable(data, s, t, s', T1);
  }

  lemma {:induction false} StartReaders(data: Pair<Data>, s: State, t: Tab, s': State)
    requires |s.hist| == |s.stamps| && s.clock < DTS_INF && IdsOk(s) && ReadersOk(data, s)
    requires s.writer.Open? && s' == DoStart(s, t)
    ensures |s'.hist| == |s'.stamps| && ReadersOk(data, s')
  {
    forall i | i in s'.readers ensures ReaderOk(data, s', s'.readers[i]) {
      StartReader(data, s, t, s', s.readers[i]);
    }
  }

  lemma {:induction false} StartInv(data: Pair<Data>, s: State, t: Tab, s': State)
    requires Inv(data, s) && s.writer.Open? && s' == DoStart(s, t)
    ensures Inv(data, s')
  {
    StartTimes(s, t, s');
    StartTables(data, s, t, s');
    StartBatches(data, s, s.writer.buf);
    StartReaders(data, s, t, s');
  }

  lemma {:induction false} FirstVoteInv(data: Pair<Data>, s: State, t: Tab, s': State)
    requires Inv(data, s) && s.writer.Open? && s' == s.(writer := s.writer.(vote := s.writer.vote.With(t, true)))
    ensures Inv(data, s')
  {
    OpenStep(data, s, s'.writer, s');
    QuietReaders(data, s, s');
  }

  lemma {:induction false} VoteInv(data: Pair<Data>, s: State, t: Tab, s': State)
    requires Inv(data, s) && DoVote(s, t) == Some(s')
    ensures Inv(data, s')
  {
    if s.writer.vote.At(Other(t)) {
      StartInv(data, s, t, s');
    } else {
      FirstVoteInv(data, s, t, s');
    }
  }

  /* -- commit -- */

  ghost predicate AtPc(s: State, pc: Pc) {
    s.writer.Committing? && s.writer.pc == pc && s.hist != [] && s.stamps != []
  }

  lemma {:induction false} SameIds(s: State, s': State)
    requires IdsOk(s) && s.writer.Committing? && s'.readers == s.readers && s'.clock >= s.clock
    requires s'.active == s.active && s'.writer.Committing? && s'.writer.id == s.writer.id
    ensures IdsOk(s')
  {}

  lemma {:induction false} DrawTimes(s: State, second: bool, s': State)
    requires Times(s) && AtPc(s, Draw(second)) && DoDraw(s, second, Target(s.writer.first, second)) == Some(s')
    ensures Times(s')
  {}

  lemma {:induction false} DrawList(s: State, second: bool, s': State, u: Tab)
    requires Times(s) && Times(s') && AtPc(s, Draw(second))
    requires DoDraw(s, second, Target(s.writer.first, second)) == Some(s')
    requires ListOk(s, u)
    ensures ListOk(s', u)
  {
    forall m | 0 <= m < s.listed.At(u) ensures EntryOf(s', m, u) == EntryOf(s, m, u) {
      DrawEntry(s, second, s', u, m);
    }
  }

  lemma {:induction false} DrawEntry(s: State, second: bool, s': State, u: Tab, m: nat)
    requires Times(s) && Times(s') && AtPc(s, Draw(second))
    requires DoDraw(s, second, Target(s.writer.first, second)) == Some(s')
    requires m < s.listed.At(u) <= |s.hist|
    ensures EntryOf(s', m, u) == EntryOf(s, m, u)
  {
    if m == |s.hist| - 1 {
      assert CurrentAt(s, u);
    }
  }

  lemma {:induction false} DrawReader(data: Pair<Data>, s: State, second: bool, s': State, r: Reader)
    requires Times(s) && AtPc(s, Draw(second)) && DoDraw(s, second, Target(s.writer.first, second)) == Some(s')
    requires ReaderOk(data, s, r)
    ensures ReaderOk(data, s', r)
  {
    assert forall m :: 0 <= m < |s.stamps| ==> s'.stamps[m].end == s.stamps[m].end;
    forall m, u | 0 <= m < s.listed.At(u) ensures s'.stamps[m].val.At(u) == s.stamps[m].val.At(u) {
      if m == |s.hist| - 1 {
        assert CurrentAt(s, u);
      }
    }
  }

  lemma {:induction false} PublishTimes(s: State, second: bool, s': State)
    requires Times(s) && AtPc(s, Publish(second)) && s' == DoPublish(s, second, Target(s.writer.first, second))
    ensures Times(s')
  {}

  lemma {:induction false} PublishList(s: State, second: bool, s': State, t: Tab)
    requires Times(s) && AtPc(s, Publish(second)) && t == Target(s.writer.first, second)
    requires s' == DoPublish(s, second, t)
    requires ListOk(s, t)
    ensures ListOk(s', t)
  {
    assert CurrentAt(s, t);
    var wss, wss' := s.tables.At(t).wss, s'.tables.At(t).wss;
    assert wss' == [EntryOf(s, |s.hist| - 1, t)] + wss;
    forall j | 0 <= j < |wss'| ensures wss'[j] == EntryOf(s', s'.listed.At(t) - 1 - j, t) {
      if j > 0 {
        assert wss'[j] == wss[j - 1] == EntryOf(s, s.listed.At(t) - 1 - (j - 1), t);
      }
    }
  }

  lemma {:induction false} PublishData(data: Pair<Data>, s: State, second: bool, s': State, u: Tab)
    requires Times(s) && AtPc(s, Publish(second)) && s' == DoPublish(s, second, Target(s.writer.first, second))
    requires DataOk(data, s, u)
    ensures DataOk(data, s', u)
  {
    assert CurrentAt(s, u);
    assert s.hist[|s.hist| - 1].At(u)[..0] == [];
  }

  /** A step that draws and stores no timestamp only has to say how far the commit has come. */
  lemma {:induction false} SameStampsTimes(s: State, s': State)
    requires Times(s) && s.writer.Committing? && s'.writer.Committing? && s'.writer.id == s.writer.id
    requires s'.hist == s.hist && s'.stamps == s.stamps && s'.clock == s.clock && !s'.writer.pc.Stamp?
    requires CurrentAt(s', T0) && CurrentAt(s', T1)
    ensures Times(s')
  {
    assert Finished(s') == Finished(s) && LastStamps(s') == LastStamps(s);
  }

  /** What decides how far the commit has come at a table did not change. */
  lemma {:induction false} SameAtTable(s: State, s': State, u: Tab)
    requires s.writer.Committing? && s.stamps != [] && CurrentAt(s, u) && s.writer.pc.Apply?
    requires s'.writer.Committing? && s'.writer.pc.Apply? && Rank(s'.writer.pc) == Rank(s.writer.pc)
    requires s'.writer.first == s.writer.first && s'.clock == s.clock && s'.hist == s.hist && s'.stamps == s.stamps
    requires s'.listed == s.listed && s'.applied == s.applied
    ensures CurrentAt(s', u)
  {}

  lemma {:induction false} ApplyAt(s: State, second: bool, next: nat, s': State, u: Tab)
    requires AtPc(s, Apply(second, next)) && s' == DoApply(s, second, Target(s.writer.first, second), next)
    requires CurrentAt(s, u)
    ensures CurrentAt(s', u)
  {
    if next < |s.hist[|s.hist| - 1].At(Target(s.writer.first, second))| {
      SameAtTable(s, s', u);
    } else {
      AppliedAt(s, second, next, s', u);
    }
  }

  lemma {:induction false} AppliedAt(s: State, second: bool, next: nat, s': State, u: Tab)
    requires AtPc(s, Apply(second, next)) && CurrentAt(s, u)
    requires var t := Target(s.writer.first, second);
             s' == WithPc(s, DrawEnd(second)).(applied := s.applied.With(t, s.applied.At(t) + 1))
    ensures CurrentAt(s', u)
  {}

  lemma {:induction false} ApplyTimes(s: State, second: bool, next: nat, s': State)
    requires Times(s) && AtPc(s, Apply(second, next)) && s' == DoApply(s, second, Target(s.writer.first, second), next)
    ensures Times(s')
  {
    ApplyAt(s, second, next, s', T0);
    ApplyAt(s, second, next, s', T1);
    SameStampsTimes(s, s');
  }

  /** One more tuple in the table. */
  lemma {:induction false} ApplyWrite(data: Pair<Data>, s: State, second: bool, next: nat, s': State, u: Tab)
    requires Times(s) && AtPc(s, Apply(second, next)) && s' == DoApply(s, second, Target(s.writer.first, second), next)
    requires DataOk(data, s, u) && At(s.writer, u) && next < |s.hist[|s.hist| - 1].At(u)|
    ensures DataOk(data, s', u)
  {
    var writes := s.hist[|s.hist| - 1].At(u);
    assert writes[..next + 1][..next] == writes[..next];
  }

  /** All tuples are in the table. */
  lemma {:induction false} ApplyEnds(data: Pair<Data>, s: State, second: bool, next: nat, s': State, u: Tab)
    requires Times(s) && AtPc(s, Apply(second, next)) && s' == DoApply(s, second, Target(s.writer.first, second), next)
    requires DataOk(data, s, u) && At(s.writer, u) && next >= |s.hist[|s.hist| - 1].At(u)|
    ensures DataOk(data, s', u)
  {
    var writes := s.hist[|s.hist| - 1].At(u);
    assert CurrentAt(s, u);
    assert writes[..next] == writes;
  }

  lemma {:induction false} ApplyData(data: Pair<Data>, s: State, second: bool, next: nat, s': State, u: Tab)
    requires Times(s) && AtPc(s, Apply(second, next)) && s' == DoApply(s, second, Target(s.writer.first, second), next)
    requires DataOk(data, s, u)
    ensures DataOk(data, s', u)
  {
    if At(s.writer, u) {
      if next < |s.hist[|s.hist| - 1].At(u)| {
        ApplyWrite(data, s, second, next, s', u);
      } else {
        ApplyEnds(data, s, second, next, s', u);
      }
    }
  }

  lemma {:induction false} DrawEndTimes(s: State, second: bool, s': State)
    requires Times(s) && AtPc(s, DrawEnd(second)) && DoDrawEnd(s, second) == Some(s')
    ensures Times(s')
  {}

  lemma {:induction false} DrawEndReader(data: Pair<Data>, s: State, second: bool, s': State, r: Reader)
    requires Times(s) && AtPc(s, DrawEnd(second)) && DoDrawEnd(s, second) == Some(s')
    requires ReaderOk(data, s, r) && r.id < s.clock
    ensures ReaderOk(data, s', r)
  {}

  lemma {:induction false} StampTimes(s: State, second: bool, s': State)
    requires Times(s) && AtPc(s, Stamp(second)) && DoStamp(s, second, Target(s.writer.first, second)) == Some(s')
    ensures Times(s')
  {}

  lemma {:induction false} StampList(s: State, second: bool, s': State, u: Tab)
    requires Times(s) && AtPc(s, Stamp(second)) && DoStamp(s, second, Target(s.writer.first, second)) == Some(s')
    requires ListOk(s, u)
    ensures |s'.hist| == |s'.stamps| && ListOk(s', u)
  {
    assert CurrentAt(s, u);
    var wss, wss' := s.tables.At(u).wss, s'.tables.At(u).wss;
    assert |wss'| == |wss|;
    forall j | 0 <= j < |wss'| ensures wss'[j] == EntryOf(s', s'.listed.At(u) - 1 - j, u) {
      assert wss[j] == EntryOf(s, s.listed.At(u) - 1 - j, u);
    }
  }

  /** Only the end timestamp of the commit in progress changes. */
  lemma {:induction false} StampStamps(s: State, second: bool, s': State)
    requires Times(s) && AtPc(s, Stamp(second)) && DoStamp(s, second, Target(s.writer.first, second)) == Some(s')
    ensures |s'.stamps| == |s.stamps| && forall m :: 0 <= m < |s.stamps| - 1 ==> s'.stamps[m] == s.stamps[m]
    ensures LastStamps(s').val == LastStamps(s).val
    ensures forall u: Tab ::
      LastStamps(s').end.At(u) == if At(s.writer, u) then s.writer.tmp else LastStamps(s).end.At(u)
  {}

  lemma {:induction false} StampCut(s: State, second: bool, s': State, r: Reader, u: Tab)
    requires Times(s) && AtPc(s, Stamp(second)) && DoStamp(s, second, Target(s.writer.first, second)) == Some(s')
    requires CutOk(s, r, u)
    ensures |s'.hist| == |s'.stamps| && CutOk(s', r, u)
  {
    StampStamps(s, second, s');
  }

  lemma {:induction false} StampReader(data: Pair<Data>, s: State, second: bool, s': State, r: Reader)
    requires Times(s) && AtPc(s, Stamp(second)) && DoStamp(s, second, Target(s.writer.first, second)) == Some(s')
    requires ReaderOk(data, s, r) && s.erased.zero < |s.hist| && s.erased.one < |s.hist|
    ensures |s'.hist| == |s'.stamps| && ReaderOk(data, s', r)
  {
    StampStamps(s, second, s');
    if !r.phase.Taken? {
      StampCut(s, second, s', r, T0);
      StampCut(s, second, s', r, T1);
    }
  }

  /** Everything from the first outdated write set on is outdated. */
  lemma {:induction false} ErasedEnds(s: State, t: Tab, n: nat, m: nat)
    requires Times(s) && ListOk(s, t) && s.writer.Committing? && s.listed.At(t) == |s.hist|
    requires n < |s.tables.At(t).wss| && s.tables.At(t).wss[n].endTS <= s.writer.tmp < s.tables.At(t).wss[0].endTS
    requires s.erased.At(t) <= m < |s.hist| - n
    ensures m < |s.hist| - 1 && s.stamps[m].end.At(t) <= s.writer.tmp
  {
    var p := |s.hist| - 1 - n;
    assert s.tables.At(t).wss[n] == EntryOf(s, p, t);
    assert s.tables.At(t).wss[0] == EntryOf(s, |s.hist| - 1, t);
    if m < p {
      assert EndsBefore(s.stamps[m], s.stamps[p].id);
      assert Complete(s.stamps[p], s.clock);
    }
  }

  /** What erasing does to one list. */
  lemma {:induction false} EraseEffect(s: State, second: bool, s': State, t: Tab)
    requires Times(s) && ListOk(s, t) && AtPc(s, Erase(second)) && t == Target(s.writer.first, second)
    requires s' == DoErase(s, second, t)
    ensures s.erased.At(t) <= s'.erased.At(t) <= |s.hist| - 1
    ensures forall m :: s.erased.At(t) <= m < s'.erased.At(t) ==> s.stamps[m].end.At(t) <= s.writer.tmp
    ensures ListOk(s', t)
  {
    var wss, wss' := s.tables.At(t).wss, s'.tables.At(t).wss;
    var n := ErasePosition(s, second, s', t);
    forall j | 0 <= j < |wss'| ensures wss'[j] == EntryOf(s', s'.listed.At(t) - 1 - j, t) {
      assert wss[j] == EntryOf(s, s.listed.At(t) - 1 - j, t);
    }
    forall m | s.erased.At(t) <= m < s'.erased.At(t) ensures s.stamps[m].end.At(t) <= s.writer.tmp {
      ErasedEnds(s, t, n, m);
    }
  }

  /** Erasing cuts the list behind its front, at the first write set that ended by the bound. */
  lemma {:induction false} ErasePosition(s: State, second: bool, s': State, t: Tab) returns (n: nat)
    requires Times(s) && ListOk(s, t) && AtPc(s, Erase(second)) && t == Target(s.writer.first, second)
    requires s' == DoErase(s, second, t)
    ensures s.listed.At(t) == |s.hist| && s'.hist == s.hist && s'.stamps == s.stamps && s'.listed == s.listed
    ensures 1 <= n <= |s.tables.At(t).wss| && s'.tables.At(t).wss == s.tables.At(t).wss[..n]
    ensures s'.erased.At(t) == s.erased.At(t) + |s.tables.At(t).wss| - n && Finished(s') == |s.hist| - 1
    ensures s.writer.tmp < s.tables.At(t).wss[0].endTS
    ensures n < |s.tables.At(t).wss| ==> s.tables.At(t).wss[n].endTS <= s.writer.tmp
  {
    var wss := s.tables.At(t).wss;
    n := FirstOld(wss, s.writer.tmp);
    assert CurrentAt(s, t);
    assert wss[0] == EntryOf(s, |s.hist| - 1, t);
  }

  lemma {:induction false} EraseCut(s: State, second: bool, s': State, r: Reader, u: Tab)
    requires Times(s) && AtPc(s, Erase(second)) && s' == DoErase(s, second, Target(s.writer.first, second))
    requires ListOk(s, Target(s.writer.first, second)) && CutOk(s, r, u)
    ensures CutOk(s', r, u)
  {
    var t := Target(s.writer.first, second);
    EraseEffect(s, second, s', t);
  }

  lemma {:induction false} EraseEarly(s: State, second: bool, s': State, r: Reader, u: Tab)
    requires Times(s) && AtPc(s, Erase(second)) && s' == DoErase(s, second, Target(s.writer.first, second))
    requires ListOk(s, Target(s.writer.first, second)) && EarlyOk(s, r, u)
    ensures EarlyOk(s', r, u)
  {
    EraseEffect(s, second, s', Target(s.writer.first, second));
  }

  lemma {:induction false} EraseReader(data: Pair<Data>, s: State, second: bool, s': State, r: Reader)
    requires Times(s) && AtPc(s, Erase(second)) && s' == DoErase(s, second, Target(s.writer.first, second))
    requires ListOk(s, T0) && ListOk(s, T1) && ReaderOk(data, s, r)
    ensures ReaderOk(data, s', r)
  {
    EraseEarly(s, second, s', r, T0);
    EraseEarly(s, second, s', r, T1);
    if !r.phase.Taken? {
      EraseCut(s, second, s', r, T0);
      EraseCut(s, second, s', r, T1);
    }
  }

  lemma {:induction false} EraseTimes(s: State, second: bool, s': State)
    requires Times(s) && AtPc(s, Erase(second)) && s' == DoErase(s, second, Target(s.writer.first, second))
    ensures Times(s')
  {}

  lemma {:induction false} EraseData(data: Pair<Data>, s: State, second: bool, s': State, u: Tab)
    requires Times(s) && AtPc(s, Erase(second)) && s' == DoErase(s, second, Target(s.writer.first, second))
    requires DataOk(data, s, u)
    ensures DataOk(data, s', u)
  {
    assert CurrentAt(s, u);
    assert s.hist[|s.hist| - 1].At(u)[..0] == [];
  }

  lemma {:induction false} LeaveTimes(s: State, s': State)
    requires Times(s) && AtPc(s, Leave) && s' == DoLeave(s)
    ensures Times(s')
  {}

  lemma {:induction false} LeaveIds(s: State, s': State)
    requires IdsOk(s) && s.writer.Committing? && s' == DoLeave(s)
    ensures IdsOk(s')
  {}

  /** What every step of a commit but the last keeps. */
  ghost predicate Stays(s: State, s': State)
    requires s.writer.Committing?
  {
    && s'.readers == s.readers && s'.clock >= s.clock && s'.active == s.active
    && s'.writer.Committing? && s'.writer.id == s.writer.id
  }

  lemma {:induction false} ListingStays(s: State, s': State)
    requires DoCommit(s) == Some(s') && (s.writer.pc.Draw? || s.writer.pc.Publish? || s.writer.pc.Apply?)
    ensures Stays(s, s')
  {}

  lemma {:induction false} EndingStays(s: State, s': State)
    requires DoCommit(s) == Some(s') && (s.writer.pc.DrawEnd? || s.writer.pc.Stamp? || s.writer.pc.Erase?)
    ensures Stays(s, s')
  {}

  lemma {:induction false} CommitStays(s: State, s': State)
    requires DoCommit(s) == Some(s') && !s.writer.pc.Leave?
    ensures Stays(s, s')
  {
    if s.writer.pc.Draw? || s.writer.pc.Publish? || s.writer.pc.Apply? {
      ListingStays(s, s');
    } else {
      EndingStays(s, s');
    }
  }

  lemma {:induction false} CommitIds(s: State, s': State)
    requires IdsOk(s) && DoCommit(s) == Some(s')
    ensures IdsOk(s')
  {
    if s.writer.pc.Leave? {
      LeaveIds(s, s');
    } else {
      CommitStays(s, s');
      SameIds(s, s');
    }
  }

  lemma {:induction false} CommitTimes(s: State, s': State)
    requires Times(s) && DoCommit(s) == Some(s')
    ensures Times(s')
  {
    match s.writer.pc {
      case Draw(second) => DrawTimes(s, second, s');
      case Publish(second) => PublishTimes(s, second, s');
      case Apply(second, next) => ApplyTimes(s, second, next, s');
      case DrawEnd(second) => DrawEndTimes(s, second, s');
      case Stamp(second) => StampTimes(s, second, s');
      case Erase(second) => EraseTimes(s, second, s');
      case Leave => LeaveTimes(s, s');
    }
  }

  lemma {:induction false} SameList(s: State, s': State, u: Tab)
    requires |s.hist| == |s.stamps| && ListOk(s, u) && s'.hist == s.hist && s'.stamps == s.stamps
    requires s'.listed.At(u) == s.listed.At(u) && s'.erased.At(u) == s.erased.At(u) && Finished(s) <= Finished(s')
    requires s'.tables.At(u).wss == s.tables.At(u).wss
    ensures ListOk(s', u)
  {
    assert forall m :: 0 <= m < |s.hist| ==> EntryOf(s', m, u) == EntryOf(s, m, u);
  }

  lemma {:induction false} UnlistedStep(s: State, s': State, u: Tab)
    requires DoCommit(s) == Some(s')
    requires match s.writer.pc
             case Publish(_) => !At(s.writer, u)
             case Erase(_) => !At(s.writer, u)
             case Draw(_) => false
             case Stamp(_) => false
             case _ => true
    ensures s'.hist == s.hist && s'.stamps == s.stamps && s'.listed.At(u) == s.listed.At(u)
    ensures s'.erased.At(u) == s.erased.At(u) && Finished(s) <= Finished(s')
    ensures s'.tables.At(u).wss == s.tables.At(u).wss
  {}

  lemma {:induction false} CommitList(s: State, s': State, u: Tab)
    requires Times(s) && Times(s') && ListOk(s, u) && DoCommit(s) == Some(s')
    ensures ListOk(s', u)
  {
    if s.writer.pc.Draw? {
      DrawList(s, s.writer.pc.second, s', u);
    } else if s.writer.pc.Publish? && At(s.writer, u) {
      PublishList(s, s.writer.pc.second, s', u);
    } else if s.writer.pc.Stamp? {
      StampList(s, s.writer.pc.second, s', u);
    } else if s.writer.pc.Erase? && At(s.writer, u) {
      EraseEffect(s, s.writer.pc.second, s', u);
    } else {
      UnlistedStep(s, s', u);
      SameList(s, s', u);
    }
  }

  lemma {:induction false} CommitData(data: Pair<Data>, s: State, s': State, u: Tab)
    requires Times(s) && DataOk(data, s, u) && DoCommit(s) == Some(s')
    ensures DataOk(data, s', u)
  {
    match s.writer.pc {
      case Draw(second) =>
      case Publish(second) => PublishData(data, s, second, s', u);
      case Apply(second, next) => ApplyData(data, s, second, next, s', u);
      case DrawEnd(second) =>
      case Stamp(second) =>
      case Erase(second) => EraseData(data, s, second, s', u);
      case Leave =>
    }
  }

  lemma {:induction false} CommitTables(data: Pair<Data>, s: State, s': State)
    requires Times(s) && Times(s') && TablesOk(data, s) && DoCommit(s) == Some(s')
    ensures TablesOk(data, s')
  {
    CommitList(s, s', T0);
    CommitList(s, s', T1);
    CommitData(data, s, s', T0);
    CommitData(data, s, s', T1);
  }

  lemma {:induction false} QuietCommit(s: State, s': State)
    requires DoCommit(s) == Some(s') && (s.writer.pc.Publish? || s.writer.pc.Apply? || s.writer.pc.Leave?)
    ensures Quiet(s, s')
  {}

  lemma {:induction false} CommitReader(data: Pair<Data>, s: State, s': State, r: Reader)
    requires Times(s) && ListOk(s, T0) && ListOk(s, T1) && ReaderOk(data, s, r) && r.id < s.clock
    requires DoCommit(s) == Some(s') && |s'.hist| == |s'.stamps|
    ensures ReaderOk(data, s', r)
  {
    if s.writer.pc.Publish? || s.writer.pc.Apply? || s.writer.pc.Leave? {
      QuietCommit(s, s');
      QuietReader(data, s, s', r);
    } else if s.writer.pc.Draw? {
      DrawReader(data, s, s.writer.pc.second, s', r);
    } else if s.writer.pc.DrawEnd? {
      DrawEndReader(data, s, s.writer.pc.second, s', r);
    } else if s.writer.pc.Stamp? {
      StampReader(data, s, s.writer.pc.second, s', r);
    } else {
      EraseReader(data, s, s.writer.pc.second, s', r);
    }
  }

  lemma {:induction false} CommitReaders(data: Pair<Data>, s: State, s': State)
    requires Times(s) && IdsOk(s) && ListOk(s, T0) && ListOk(s, T1) && ReadersOk(data, s)
    requires DoCommit(s) == Some(s') && |s'.hist| == |s'.stamps|
    ensures ReadersOk(data, s')
  {
    CommitKeeps(s, s');
    forall i | i in s'.readers ensures ReaderOk(data, s', s'.readers[i]) {
      CommitReader(data, s, s', s.readers[i]);
    }
  }

  lemma {:induction false} CommitKeeps(s: State, s': State)
    requires DoCommit(s) == Some(s')
    ensures s'.readers == s.readers && s'.published == s.published && s'.hist == s.hist
  {}

  lemma {:induction false} CommitCommits(data: Pair<Data>, s: State, s': State)
    requires Times(s) && IdsOk(s) && TablesOk(data, s) && DoCommit(s) == Some(s')
    ensures Times(s') && IdsOk(s') && TablesOk(data, s')
  {
    CommitTimes(s, s');
    CommitIds(s, s');
    CommitTables(data, s, s');
  }

  lemma {:induction false} CommitInv(data: Pair<Data>, s: State, s': State)
    requires Inv(data, s) && DoCommit(s) == Some(s')
    ensures Inv(data, s')
  {
    CommitCommits(data, s, s');
    CommitKeeps(s, s');
    CommitReaders(data, s, s');
  }

  /* -- asking for the oldest active transaction -- */

  lemma {:induction false} OldestTimes(s: State, oldest: nat, s': State)
    requires Times(s) && ListOk(s, T0) && ListOk(s, T1) && DoOldest(s, oldest) == Some(s') && s.writer.id in s.active
    ensures Times(s')
  {
    var t := Target(s.writer.first, s.writer.pc.second);
    assert CurrentAt(s, T0) && CurrentAt(s, T1);
    assert s.tables.At(t).wss[0] == EntryOf(s, |s.hist| - 1, t);
    assert oldest <= s.writer.id;
    assert s'.writer.tmp <= LastStamps(s).val.At(t);
    assert CurrentAt(s', T0) && CurrentAt(s', T1);
  }

  lemma {:induction false} OldestIds(s: State, oldest: nat, s': State)
    requires IdsOk(s) && DoOldest(s, oldest) == Some(s')
    ensures IdsOk(s')
  {}

  /** Whatever outlives the question is kept by the coming erase. */
  lemma {:induction false} OldestReader(data: Pair<Data>, s: State, oldest: nat, s': State, rid: nat)
    requires Times(s) && IdsOk(s) && DoOldest(s, oldest) == Some(s') && rid in s.readers
    requires ReaderOk(data, s, s.readers[rid])
    ensures |s'.hist| == |s'.stamps| && ReaderOk(data, s', s'.readers[rid])
  {
    var r := s.readers[rid];
    forall m, t: Tab | 0 <= m < |s.hist| - 1 ensures s.stamps[m].end.At(t) < s.writer.id {
      assert EndsBefore(s.stamps[m], LastStamps(s).id);
    }
    if !r.phase.Taken? {
      assert oldest <= r.id;
      OldestCut(s, oldest, s', r, T0);
      OldestCut(s, oldest, s', r, T1);
    }
  }

  lemma {:induction false} OldestCut(s: State, oldest: nat, s': State, r: Reader, t: Tab)
    requires |s.hist| == |s.stamps| && DoOldest(s, oldest) == Some(s') && oldest <= r.id && CutOk(s, r, t)
    requires forall m :: 0 <= m < |s.hist| - 1 ==> s.stamps[m].end.At(t) < s.writer.id
    ensures CutOk(s', r, t)
  {
    forall m | r.cut.At(t) <= m < |s.hist| - 1 ensures s.stamps[m].end.At(t) > oldest && oldest != s.writer.id {
      assert s.stamps[m].end.At(t) > r.id;
    }
  }

  lemma {:induction false} OldestTables(data: Pair<Data>, s: State, oldest: nat, s': State)
    requires |s.hist| == |s.stamps| && TablesOk(data, s) && DoOldest(s, oldest) == Some(s')
    ensures |s'.hist| == |s'.stamps| && TablesOk(data, s')
  {
    SameList(s, s', T0);
    SameList(s, s', T1);
  }

  lemma {:induction false} OldestReaders(data: Pair<Data>, s: State, oldest: nat, s': State)
    requires Times(s) && IdsOk(s) && ReadersOk(data, s) && DoOldest(s, oldest) == Some(s')
    ensures |s'.hist| == |s'.stamps| && ReadersOk(data, s')
  {
    forall i | i in s'.readers ensures ReaderOk(data, s', s'.readers[i]) {
      OldestReader(data, s, oldest, s', i);
    }
  }

  lemma {:induction false} OldestInv(data: Pair<Data>, s: State, oldest: nat, s': State)
    requires Inv(data, s) && DoOldest(s, oldest) == Some(s')
    ensures Inv(data, s')
  {
    OldestTimes(s, oldest, s');
    OldestIds(s, oldest, s');
    OldestTables(data, s, oldest, s');
    OldestReaders(data, s, oldest, s');
  }

  /* ---- reader steps ---- */

  ghost predicate SameCommits(s: State, s': State) {
    && s'.tables == s.tables && s'.writer == s.writer && s'.hist == s.hist && s'.stamps == s.stamps
    && s'.listed == s.listed && s'.applied == s.applied && s'.erased == s.erased
    && s.clock <= s'.clock < DTS_INF
  }

  lemma {:induction false} SameCommitsTimes(s: State, s': State)
    requires Times(s) && SameCommits(s, s')
    ensures Times(s')
  {}

  lemma {:induction false} SameCommitsTables(data: Pair<Data>, s: State, s': State)
    requires |s.hist| == |s.stamps| && TablesOk(data, s) && SameCommits(s, s')
    ensures TablesOk(data, s')
  {
    SameList(s, s', T0);
    SameList(s, s', T1);
  }

  /** A step of reader `rid` that leaves it in order keeps the whole invariant. */
  lemma {:induction false} ReaderStep(data: Pair<Data>, s: State, rid: nat, s': State)
    requires Inv(data, s) && SameCommits(s, s') && IdsOk(s') && BatchesOk(data, s'.hist, s'.published)
    requires forall i :: i in s'.readers && i != rid ==> i in s.readers && s'.readers[i] == s.readers[i]
    requires rid in s'.readers ==> ReaderOk(data, s', s'.readers[rid])
    ensures Inv(data, s')
  {
    SameCommitsTimes(s, s');
    SameCommitsTables(data, s, s');
    forall i | i in s'.readers ensures ReaderOk(data, s', s'.readers[i]) {
      if i != rid {
        QuietReader(data, s, s', s.readers[i]);
      }
    }
  }

  lemma {:induction false} TakeEarly(s: State, r: Reader, t: Tab)
    requires Times(s) && ListOk(s, t) && r.id == s.clock
    ensures EarlyOk(s, r, t)
  {
    forall m | 0 <= m < Finished(s) ensures s.stamps[m].end.At(t) <= r.id {
      assert Complete(s.stamps[m], s.clock);
    }
  }

  lemma {:induction false} TakeInv(data: Pair<Data>, s: State, rid: nat, keys: seq<Key>, s': State)
    requires Inv(data, s) && DoTake(s, rid, keys) == Some(s')
    ensures Inv(data, s')
  {
    var r := s'.readers[rid];
    TakeEarly(s, r, T0);
    TakeEarly(s, r, T1);
    assert ReaderOk(data, s', r);
    ReaderStep(data, s, rid, s');
  }

  /** What holds for a reader the moment it becomes visible. */
  lemma {:induction false} RegisterCut(s: State, r: Reader, t: Tab)
    requires Times(s) && ListOk(s, T0) && ListOk(s, T1) && r.id < s.clock
    requires r.cut == s.applied && r.lim == s.listed && r.atStart == Finished(s) && r.phase.Reading?
    ensures CutOk(s, r, t)
  {
    if s.writer.Committing? {
      assert CurrentAt(s, T0) && CurrentAt(s, T1);
    }
  }

  lemma {:induction false} RegisterReader(data: Pair<Data>, s: State, rid: nat, s': State)
    requires Times(s) && TablesOk(data, s) && DoRegister(s, rid) == Some(s') && ReaderOk(data, s, s.readers[rid])
    requires s.readers[rid].id < s.clock
    ensures |s'.hist| == |s'.stamps| && ReaderOk(data, s', s'.readers[rid])
  {
    var r, r' := s.readers[rid], s'.readers[rid];
    assert s'.hist == s.hist && s'.stamps == s.stamps;
    SeenAlike(s, s', r, r', T0);
    SeenAlike(s, s', r, r', T1);
    RegisterCut(s, r', T0);
    RegisterCut(s, r', T1);
    NothingRead(data, s, r', T0);
    NothingRead(data, s, r', T1);
    VisibleReader(data, s', r');
  }

  /** Whether erasing stayed behind a reader depends on its id only. */
  lemma {:induction false} SeenAlike(s: State, s': State, r: Reader, r': Reader, t: Tab)
    requires |s.hist| == |s.stamps| && EarlyOk(s, r, t) && r'.id == r.id && r'.late == r.late
    requires s'.hist == s.hist && s'.stamps == s.stamps && s'.erased == s.erased && s'.writer == s.writer
    ensures EarlyOk(s', r', t)
  {}

  lemma {:induction false} NothingRead(data: Pair<Data>, s: State, r: Reader, t: Tab)
    requires r.got == Pair([], []) && r.ok == Pair(false, false) && r.phase.Reading?
    requires r.cut.At(t) <= |s.hist| && r.lim.At(t) <= |s.hist|
    ensures ReadsOk(data, s.hist, r, t)
  {}

  lemma {:induction false} RegisterIds(s: State, rid: nat, s': State)
    requires IdsOk(s) && DoRegister(s, rid) == Some(s')
    ensures IdsOk(s')
  {}

  lemma {:induction false} RegisterInv(data: Pair<Data>, s: State, rid: nat, s': State)
    requires Inv(data, s) && DoRegister(s, rid) == Some(s')
    ensures Inv(data, s')
  {
    assert ReaderOk(data, s, s.readers[rid]);
    RegisterReader(data, s, rid, s');
    RegisterIds(s, rid, s');
    ReaderStep(data, s, rid, s');
  }

  /** Untouched keys read now have the value they had at the cut. */
  lemma {:induction false} ReadValue(data: Pair<Data>, s: State, r: Reader, t: Tab, k: Key)
    requires Times(s) && DataOk(data, s, t) && CutOk(s, r, t) && s.listed.At(t) <= |s.hist|
    requires Untouched(s.hist, r.cut.At(t), s.listed.At(t), t, k)
    ensures SameAt(s.tables.At(t).data, StateAfter(data, s.hist, r.cut.At(t), t), k)
  {
    UntouchedKeepsValue(data, s.hist, r.cut.At(t), s.applied.At(t), t, k);
    if Applying(s, t) {
      assert CurrentAt(s, t);
      var writes := s.hist[|s.hist| - 1].At(t);
      KeysOfPrefix(writes, s.writer.pc.next);
      ApplyAllLastWins(StateAfter(data, s.hist, |s.hist| - 1, t), writes[..s.writer.pc.next], k);
    }
  }

  /** Reading more, or seeing more commits, keeps what is known about earlier reads. */
  lemma {:induction false} ReadMore(data: Pair<Data>, s: State, r: Reader, r': Reader, t: Tab)
    requires Times(s) && ListOk(s, t) && DataOk(data, s, t) && CutOk(s, r, t)
    requires r.cut.At(t) <= |s.hist| && |r.got.At(t)| <= |r.keys| && GotOk(data, s.hist, r, t)
    requires r'.keys == r.keys && r'.cut == r.cut && r'.lim == s.listed && |r'.got.At(t)| <= |r.keys|
    requires
      || r'.got.At(t) <= r.got.At(t)
      || (|r.got.At(t)| < |r.keys| && r.keys[|r.got.At(t)|] in s.tables.At(t).data &&
          r'.got.At(t) == r.got.At(t) + [s.tables.At(t).data[r.keys[|r.got.At(t)|]]])
    ensures GotOk(data, s.hist, r', t)
  {
    forall j | 0 <= j < |r'.got.At(t)| && Untouched(s.hist, r.cut.At(t), s.listed.At(t), t, r.keys[j])
      ensures Holds(StateAfter(data, s.hist, r.cut.At(t), t), r.keys[j], r'.got.At(t)[j])
    {
      assert Untouched(s.hist, r.cut.At(t), r.lim.At(t), t, r.keys[j]);
      if j == |r.got.At(t)| {
        ReadValue(data, s, r, t, r.keys[j]);
      }
    }
  }

  lemma {:induction false} ReadReads(data: Pair<Data>, s: State, rid: nat, s': State, t: Tab)
    requires Times(s) && ListOk(s, t) && DataOk(data, s, t) && DoRead(s, rid) == Some(s')
    requires CutOk(s, s.readers[rid], t) && ReadsOk(data, s.hist, s.readers[rid], t)
    ensures ReadsOk(data, s.hist, s'.readers[rid], t)
  {
    ReadMore(data, s, s.readers[rid], s'.readers[rid], t);
  }

  lemma {:induction false} ReadCut(s: State, rid: nat, s': State, u: Tab)
    requires |s.hist| == |s.stamps| && ListOk(s, T0) && ListOk(s, T1) && DoRead(s, rid) == Some(s')
    requires CutOk(s, s.readers[rid], u)
    ensures CutOk(s', s'.readers[rid], u)
  {}

  /** A visible reader moves on; nothing else but the clock changes. */
  ghost predicate Updated(s: State, rid: nat, r': Reader, s': State) {
    && rid in s.readers && !s.readers[rid].phase.Taken? && r'.id == s.readers[rid].id
    && s.clock <= s'.clock < DTS_INF
    && s' == s.(clock := s'.clock, readers := s.readers[rid := r'])
  }

  lemma {:induction false} UpdatedIds(s: State, rid: nat, r': Reader, s': State)
    requires IdsOk(s) && Updated(s, rid, r', s')
    ensures IdsOk(s')
  {}

  lemma {:induction false} UpdatedInv(data: Pair<Data>, s: State, rid: nat, r': Reader, s': State)
    requires Inv(data, s) && Updated(s, rid, r', s') && ReaderOk(data, s', r')
    ensures Inv(data, s')
  {
    UpdatedIds(s, rid, r', s');
    ReaderStep(data, s, rid, s');
  }

  lemma {:induction false} ReadTable(data: Pair<Data>, s: State, rid: nat, s': State, t: Tab)
    requires Times(s) && ListOk(s, T0) && ListOk(s, T1) && DataOk(data, s, t) && DoRead(s, rid) == Some(s')
    requires CutOk(s, s.readers[rid], t) && ReadsOk(data, s.hist, s.readers[rid], t)
    ensures |s'.hist| == |s'.stamps| && CutOk(s', s'.readers[rid], t) && ReadsOk(data, s'.hist, s'.readers[rid], t)
  {
    ReadCut(s, rid, s', t);
    ReadReads(data, s, rid, s', t);
  }

  lemma {:induction false} ReadEarly(s: State, rid: nat, s': State, t: Tab)
    requires |s.hist| == |s.stamps| && DoRead(s, rid) == Some(s') && EarlyOk(s, s.readers[rid], t)
    ensures s'.hist == s.hist && s'.stamps == s.stamps && EarlyOk(s', s'.readers[rid], t)
    ensures !s.readers[rid].phase.Taken? && !s'.readers[rid].phase.Taken?
  {}

  lemma {:induction false} VisibleReader(data: Pair<Data>, s: State, r: Reader)
    requires |s.hist| == |s.stamps| && !r.phase.Taken? && EarlyOk(s, r, T0) && EarlyOk(s, r, T1)
    requires CutOk(s, r, T0) && CutOk(s, r, T1) && ReadsOk(data, s.hist, r, T0) && ReadsOk(data, s.hist, r, T1)
    ensures ReaderOk(data, s, r)
  {}

  lemma {:induction false} ReadReader(data: Pair<Data>, s: State, rid: nat, s': State)
    requires Times(s) && TablesOk(data, s) && DoRead(s, rid) == Some(s') && ReaderOk(data, s, s.readers[rid])
    ensures |s'.hist| == |s'.stamps| && ReaderOk(data, s', s'.readers[rid])
  {
    ReadEarly(s, rid, s', T0);
    ReadEarly(s, rid, s', T1);
    ReadTable(data, s, rid, s', T0);
    ReadTable(data, s, rid, s', T1);
    VisibleReader(data, s', s'.readers[rid]);
  }

  lemma {:induction false} BurnCut(s: State, rid: nat, s': State, t: Tab)
    requires |s.hist| == |s.stamps| && DoBurn(s, rid) == Some(s') && CutOk(s, s.readers[rid], t)
    ensures CutOk(s', s'.readers[rid], t)
  {}

  lemma {:induction false} BurnReads(data: Pair<Data>, s: State, rid: nat, s': State, t: Tab)
    requires DoBurn(s, rid) == Some(s') && ReadsOk(data, s.hist, s.readers[rid], t)
    ensures ReadsOk(data, s'.hist, s'.readers[rid], t)
  {}

  lemma {:induction false} BurnReader(data: Pair<Data>, s: State, rid: nat, s': State)
    requires |s.hist| == |s.stamps| && DoBurn(s, rid) == Some(s') && ReaderOk(data, s, s.readers[rid])
    ensures |s'.hist| == |s'.stamps| && ReaderOk(data, s', s'.readers[rid])
  {
    BurnCut(s, rid, s', T0);
    BurnCut(s, rid, s', T1);
    BurnReads(data, s, rid, s', T0);
    BurnReads(data, s, rid, s', T1);
  }

  /** Whatever is in a list was validated before the timestamp drawn now. */
  lemma {:induction false} DrawValCut(s: State, r: Reader, s': State, r': Reader, t: Tab)
    requires Times(s) && ListOk(s, t) && CutOk(s, r, t) && SameCommits(s, s')
    requires r.phase.Drawing? && r' == r.(phase := Scanning(r.phase.t, s.clock))
    ensures CutOk(s', r', t)
  {
    forall m | 0 <= m < s.listed.At(t) ensures s.stamps[m].val.At(t) < s.clock {
      if m < Finished(s) {
        assert Complete(s.stamps[m], s.clock);
      } else {
        assert CurrentAt(s, t);
      }
    }
  }

  lemma {:induction false} DrawValReader(data: Pair<Data>, s: State, rid: nat, s': State)
    requires Times(s) && TablesOk(data, s) && DoDrawVal(s, rid) == Some(s') && ReaderOk(data, s, s.readers[rid])
    ensures |s'.hist| == |s'.stamps| && ReaderOk(data, s', s'.readers[rid])
  {
    DrawValCut(s, s.readers[rid], s', s'.readers[rid], T0);
    DrawValCut(s, s.readers[rid], s', s'.readers[rid], T1);
  }

  /** A validation that succeeds finds none of the keys written between the cut and the last read. */
  lemma {:induction false} ScanUntouched(s: State, r: Reader, t: Tab, k: nat)
    requires Times(s) && ListOk(s, t) && CutOk(s, r, t) && r.phase.Scanning? && r.phase.t == t && k < |r.keys|
    requires Passes(s.tables.At(t).wss, r.id, r.phase.valTS, r.keys)
    ensures Untouched(s.hist, r.cut.At(t), r.lim.At(t), t, r.keys[k])
  {
    forall m | r.cut.At(t) <= m < r.lim.At(t) && m < |s.hist| ensures r.keys[k] !in KeysOf(s.hist[m].At(t)) {
      var e := s.tables.At(t).wss[s.listed.At(t) - 1 - m];
      assert e == EntryOf(s, m, t);
      assert !Blocks(e, r.id, r.phase.valTS, r.keys);
    }
  }

  lemma {:induction false} ScanUntouchedAll(s: State, r: Reader, t: Tab)
    requires Times(s) && ListOk(s, t) && CutOk(s, r, t) && r.phase.Scanning? && r.phase.t == t
    requires Passes(s.tables.At(t).wss, r.id, r.phase.valTS, r.keys)
    ensures forall j :: 0 <= j < |r.keys| ==> Untouched(s.hist, r.cut.At(t), r.lim.At(t), t, r.keys[j])
  {
    forall j | 0 <= j < |r.keys| ensures Untouched(s.hist, r.cut.At(t), r.lim.At(t), t, r.keys[j]) {
      ScanUntouched(s, r, t, j);
    }
  }

  lemma {:induction false} ScanCut(s: State, rid: nat, s': State, t: Tab)
    requires |s.hist| == |s.stamps| && DoScan(s, rid) == Some(s') && CutOk(s, s.readers[rid], t)
    ensures s'.hist == s.hist && s'.stamps == s.stamps && CutOk(s', s'.readers[rid], t)
  {}

  lemma {:induction false} ScanReads(data: Pair<Data>, s: State, rid: nat, s': State, t: Tab)
    requires Times(s) && ListOk(s, t) && DoScan(s, rid) == Some(s')
    requires CutOk(s, s.readers[rid], t) && ReadsOk(data, s.hist, s.readers[rid], t)
    ensures s'.hist == s.hist && ReadsOk(data, s'.hist, s'.readers[rid], t)
  {
    var r := s.readers[rid];
    if r.phase.t == t && s'.readers[rid].ok.At(t) {
      ScanUntouchedAll(s, r, t);
    }
  }

  lemma {:induction false} ScanReader(data: Pair<Data>, s: State, rid: nat, s': State)
    requires Times(s) && TablesOk(data, s) && DoScan(s, rid) == Some(s') && ReaderOk(data, s, s.readers[rid])
    ensures |s'.hist| == |s'.stamps| && ReaderOk(data, s', s'.readers[rid])
  {
    ScanCut(s, rid, s', T0);
    ScanCut(s, rid, s', T1);
    ScanReads(data, s, rid, s', T0);
    ScanReads(data, s, rid, s', T1);
  }

  lemma {:induction false} ReadInv(data: Pair<Data>, s: State, rid: nat, s': State)
    requires Inv(data, s) && DoRead(s, rid) == Some(s')
    ensures Inv(data, s')
  {
    assert ReaderOk(data, s, s.readers[rid]);
    ReadReader(data, s, rid, s');
    UpdatedInv(data, s, rid, s'.readers[rid], s');
  }

  lemma {:induction false} BurnInv(data: Pair<Data>, s: State, rid: nat, s': State)
    requires Inv(data, s) && DoBurn(s, rid) == Some(s')
    ensures Inv(data, s')
  {
    assert ReaderOk(data, s, s.readers[rid]);
    BurnReader(data, s, rid, s');
    UpdatedInv(data, s, rid, s'.readers[rid], s');
  }

  lemma {:induction false} DrawValInv(data: Pair<Data>, s: State, rid: nat, s': State)
    requires Inv(data, s) && DoDrawVal(s, rid) == Some(s')
    ensures Inv(data, s')
  {
    assert ReaderOk(data, s, s.readers[rid]);
    DrawValReader(data, s, rid, s');
    UpdatedInv(data, s, rid, s'.readers[rid], s');
  }

  lemma {:induction false} ScanInv(data: Pair<Data>, s: State, rid: nat, s': State)
    requires Inv(data, s) && DoScan(s, rid) == Some(s')
    ensures Inv(data, s')
  {
    assert ReaderOk(data, s, s.readers[rid]);
    ScanReader(data, s, rid, s');
    UpdatedInv(data, s, rid, s'.readers[rid], s');
  }

  /** Both validations together: the later cut describes both tables. */
  lemma {:induction false} DecideBatch(data: Pair<Data>, s: State, r: Reader, t: Tab, j: nat)
    requires |s.hist| == |s.stamps| && CutOk(s, r, t) && CutOk(s, r, Other(t)) && ListOk(s, t) && ListOk(s, Other(t))
    requires ReadsOk(data, s.hist, r, t) && r.ok.At(t) && !r.phase.Reading? && j < |r.keys|
    ensures var cut := Max(r.cut.zero, r.cut.one);
            cut <= |s.hist| && Holds(StateAfter(data, s.hist, cut, t), r.keys[j], r.got.At(t)[j])
  {
    var cut := Max(r.cut.zero, r.cut.one);
    assert Untouched(s.hist, r.cut.At(t), r.lim.At(t), t, r.keys[j]);
    assert Untouched(s.hist, r.cut.At(t), cut, t, r.keys[j]);
    UntouchedKeepsValue(data, s.hist, r.cut.At(t), cut, t, r.keys[j]);
  }

  lemma {:induction false} DecideBatches(data: Pair<Data>, s: State, rid: nat, s': State)
    requires |s.hist| == |s.stamps| && TablesOk(data, s) && BatchesOk(data, s.hist, s.published)
    requires DoDecide(s, rid) == Some(s') && ReaderOk(data, s, s.readers[rid])
    ensures BatchesOk(data, s'.hist, s'.published)
  {
    var r := s.readers[rid];
    if r.ok.zero && r.ok.one {
      forall j, t: Tab {:trigger r.keys[j], r.got.At(t)} | 0 <= j < |r.keys|
        ensures Holds(StateAfter(data, s.hist, Max(r.cut.zero, r.cut.one), t), r.keys[j], r.got.At(t)[j])
      {
        DecideBatch(data, s, r, t, j);
      }
    }
  }

  lemma {:induction false} DecideIds(s: State, rid: nat, s': State)
    requires IdsOk(s) && DoDecide(s, rid) == Some(s')
    ensures IdsOk(s')
  {}

  lemma {:induction false} DecideInv(data: Pair<Data>, s: State, rid: nat, s': State)
    requires Inv(data, s) && DoDecide(s, rid) == Some(s')
    ensures Inv(data, s')
  {
    assert ReaderOk(data, s, s.readers[rid]);
    DecideBatches(data, s, rid, s');
    DecideIds(s, rid, s');
    ReaderStep(data, s, rid, s');
  }

  lemma {:induction false} StepInv(data: Pair<Data>, s: State, a: Action, s': State)
    requires Inv(data, s) && Step(s, a) == Some(s')
    ensures Inv(data, s')
  {
    match a
    case Begin => BeginInv(data, s, s');
    case Buffer(t, k, v) => BufferInv(data, s, t, k, v, s');
    case Vote(t) => VoteInv(data, s, t, s');
    case Commit => CommitInv(data, s, s');
    case Oldest(o) => OldestInv(data, s, o, s');
    case Take(rid, keys) => TakeInv(data, s, rid, keys, s');
    case Register(rid) => RegisterInv(data, s, rid, s');
    case Read(rid) => ReadInv(data, s, rid, s');
    case Burn(rid) => BurnInv(data, s, rid, s');
    case DrawVal(rid) => DrawValInv(data, s, rid, s');
    case Scan(rid) => ScanInv(data, s, rid, s');
    case Decide(rid) => DecideInv(data, s, rid, s');
  }

  lemma {:induction false} ExecInv(data: Pair<Data>, clock: nat, run: seq<Action>, s: State)
    requires clock < DTS_INF && Exec(Init(data, clock), run) == Some(s)
    ensures Inv(data, s)
  {
    if run == [] {
      InitInv(data, clock);
    } else {
      var before := Exec(Init(data, clock), run[..|run| - 1]).value;
      ExecInv(data, clock, run[..|run| - 1], before);
      StepInv(data, before, run[|run| - 1], s);
    }
  }
}

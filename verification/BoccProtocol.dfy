/** The commit and read protocol over two tables as interleaved atomic steps: one writer at a
    time, any number of readers. Every function `Do...` is one step; nothing but the table
    operations and the lock-protected accesses of the code is atomic. */
module BoccProtocol {
  import opened Wrappers
  import opened BoccCore

  datatype Tab = T0 | T1

  function Other(t: Tab): Tab { if t == T0 then T1 else T0 }

  /** One value per table. */
  datatype Pair<A> = Pair(zero: A, one: A) {
    function At(t: Tab): A { if t == T0 then zero else one }
    function With(t: Tab, a: A): Pair<A> { if t == T0 then Pair(a, one) else Pair(zero, a) }
  }

  datatype Table = Table(data: Data, wss: seq<Entry>)

  /** What the writer does next during the commit. `second` tells whether it works on the table
      that voted first (true) or on the one whose vote started the commit (false). */
  datatype Pc =
    | Draw(second: bool)              // take the validation timestamp
    | Publish(second: bool)           // put the key set at the front of the list
    | Apply(second: bool, next: nat)  // insert the buffered tuple number `next`
    | DrawEnd(second: bool)           // take the end timestamp
    | Stamp(second: bool)             // store it in the front write set
    | FindOldest(second: bool)        // ask for the oldest active transaction
    | Erase(second: bool)             // erase the outdated tail
    | Leave                           // removeTx

  datatype Writer =
    | Idle
    | Open(id: nat, buf: Pair<seq<Write>>, vote: Pair<bool>)
    | Committing(id: nat, first: Tab, pc: Pc, tmp: nat)

  /** Timestamps of a transaction whose commit has begun. */
  datatype Stamps = Stamps(id: nat, val: Pair<nat>, end: Pair<nat>)

  datatype Phase =
    | Taken                          // id drawn, slot not yet visible
    | Reading
    | Burning(t: Tab)                // first, unused timestamp of readCommit
    | Drawing(t: Tab)                // validation timestamp
    | Scanning(t: Tab, valTS: nat)
    | Deciding

  /** A reader. The last line holds history: how many commits had fully reached each table when
      it registered, how many were published at its last read, how many writers had left when
      it registered, and whether a writer asked for the oldest transaction before it registered. */
  datatype Reader = Reader(
    id: nat, keys: seq<Key>, got: Pair<seq<Val>>, phase: Phase, ok: Pair<bool>,
    cut: Pair<nat>, lim: Pair<nat>, atStart: nat, late: bool)

  /** What a successful reader published. */
  datatype Batch = Batch(keys: seq<Key>, got: Pair<seq<Val>>, cut: nat, atStart: nat)

  /** The last two lines hold history: the writes and timestamps of every commit begun so far, and
      for each table the number of commits whose key sets were put in its list, whose tuples are all
      in it, and whose key sets were erased again. */
  datatype State = State(
    clock: nat, tables: Pair<Table>, active: set<nat>, writer: Writer, readers: map<nat, Reader>,
    published: seq<Batch>,
    hist: seq<Pair<seq<Write>>>, stamps: seq<Stamps>,
    listed: Pair<nat>, applied: Pair<nat>, erased: Pair<nat>)

  datatype Action =
    | Begin | Buffer(t: Tab, k: Key, v: Val) | Vote(t: Tab) | Commit | Oldest(oldest: nat)
    | Take(rid: nat, keys: seq<Key>) | Register(rid: nat) | Read(rid: nat) | Burn(rid: nat)
    | DrawVal(rid: nat) | Scan(rid: nat) | Decide(rid: nat)

  function Init(data: Pair<Data>, clock: nat): State {
    State(clock, Pair(Table(data.zero, []), Table(data.one, [])), {}, Idle, map[], [], [], [],
          Pair(0, 0), Pair(0, 0), Pair(0, 0))
  }

  /** The state of table `t` after the first `n` commits and nothing else. */
  function StateAfter(data: Pair<Data>, hist: seq<Pair<seq<Write>>>, n: nat, t: Tab): Data
    requires n <= |hist|
  {
    if n == 0 then data.At(t) else ApplyAll(StateAfter(data, hist, n - 1, t), hist[n - 1].At(t))
  }

  /* ---- writer steps ---- */

  predicate CanTick(s: State) { s.clock + 1 < DTS_INF }

  function Tick(s: State): State { s.(clock := s.clock + 1) }

  function DoBegin(s: State): Option<State> {
    if s.writer.Idle? && CanTick(s) then
      Some(Tick(s).(active := s.active + {s.clock}, writer := Open(s.clock, Pair([], []), Pair(false, false))))
    else None
  }

  function DoBuffer(s: State, t: Tab, k: Key, v: Val): Option<State> {
    if s.writer.Open? then
      Some(s.(writer := s.writer.(buf := s.writer.buf.With(t, s.writer.buf.At(t) + [(k, v)]))))
    else None
  }

  /** transactionPreCommit: the vote that finds the other table committed starts the commit. */
  function DoVote(s: State, t: Tab): Option<State> {
    if !s.writer.Open? then None
    else if !s.writer.vote.At(Other(t)) then
      Some(s.(writer := s.writer.(vote := s.writer.vote.With(t, true))))
    else Some(DoStart(s, t))
  }

  function DoStart(s: State, t: Tab): State
    requires s.writer.Open?
  {
    s.(writer := Committing(s.writer.id, t, Draw(false), 0),
       hist := s.hist + [s.writer.buf],
       stamps := s.stamps + [Stamps(s.writer.id, Pair(0, 0), Pair(DTS_INF, DTS_INF))])
  }

  function Target(first: Tab, second: bool): Tab { if second then Other(first) else first }

  function WithTable(s: State, t: Tab, tab: Table): State { s.(tables := s.tables.With(t, tab)) }

  function WithPc(s: State, pc: Pc): State
    requires s.writer.Committing?
  {
    s.(writer := s.writer.(pc := pc))
  }

  function LastStamps(s: State): Stamps
    requires s.stamps != []
  {
    s.stamps[|s.stamps| - 1]
  }

  function WithLastStamps(s: State, st: Stamps): State
    requires s.stamps != []
  {
    s.(stamps := s.stamps[|s.stamps| - 1 := st])
  }

  /* The steps of saveWriteSet and transactionCommit at table `t`. */

  function DoDraw(s: State, second: bool, t: Tab): Option<State>
    requires s.writer.Committing? && s.stamps != []
  {
    if !CanTick(s) then None
    else
      var st := LastStamps(s);
      Some(WithLastStamps(Tick(s).(writer := s.writer.(pc := Publish(second), tmp := s.clock)),
                          st.(val := st.val.With(t, s.clock))))
  }

  function DoPublish(s: State, second: bool, t: Tab): State
    requires s.writer.Committing? && s.hist != []
  {
    var tab := s.tables.At(t);
    var e := Entry(KeysOf(s.hist[|s.hist| - 1].At(t)), s.writer.tmp, DTS_INF);
    WithPc(WithTable(s, t, tab.(wss := [e] + tab.wss)), if second then Apply(false, 0) else Draw(true))
    .(listed := s.listed.With(t, s.listed.At(t) + 1))
  }

  function DoApply(s: State, second: bool, t: Tab, next: nat): State
    requires s.writer.Committing? && s.hist != []
  {
    var tab := s.tables.At(t);
    var writes := s.hist[|s.hist| - 1].At(t);
    if next < |writes| then
      WithPc(WithTable(s, t, tab.(data := tab.data[writes[next].0 := writes[next].1])), Apply(second, next + 1))
    else
      WithPc(s, DrawEnd(second)).(applied := s.applied.With(t, s.applied.At(t) + 1))
  }

  function DoDrawEnd(s: State, second: bool): Option<State>
    requires s.writer.Committing?
  {
    if CanTick(s) then Some(Tick(s).(writer := s.writer.(pc := Stamp(second), tmp := s.clock))) else None
  }

  function DoStamp(s: State, second: bool, t: Tab): Option<State>
    requires s.writer.Committing? && s.stamps != []
  {
    var tab := s.tables.At(t);
    if tab.wss == [] then None
    else
      var st := LastStamps(s);
      Some(WithPc(WithLastStamps(WithTable(s, t, tab.(wss := tab.wss[0 := tab.wss[0].(endTS := s.writer.tmp)])),
                                 st.(end := st.end.With(t, s.writer.tmp))),
                  FindOldest(second)))
  }

  function DoErase(s: State, second: bool, t: Tab): State
    requires s.writer.Committing?
  {
    var tab := s.tables.At(t);
    var kept := Prune(tab.wss, s.writer.tmp);
    WithPc(WithTable(s, t, tab.(wss := kept)), if second then Leave else Apply(true, 0))
    .(erased := s.erased.With(t, s.erased.At(t) + |tab.wss| - |kept|))
  }

  function DoLeave(s: State): State
    requires s.writer.Committing?
  {
    s.(active := s.active - {s.writer.id}, writer := Idle)
  }

  /** The next step of the commit, for both tables in turn. */
  function DoCommit(s: State): Option<State> {
    if !s.writer.Committing? || s.hist == [] || s.stamps == [] then None
    else
      match s.writer.pc
      case Draw(second) => DoDraw(s, second, Target(s.writer.first, second))
      case Publish(second) => Some(DoPublish(s, second, Target(s.writer.first, second)))
      case Apply(second, next) => Some(DoApply(s, second, Target(s.writer.first, second), next))
      case DrawEnd(second) => DoDrawEnd(s, second)
      case Stamp(second) => DoStamp(s, second, Target(s.writer.first, second))
      case FindOldest(_) => None
      case Erase(second) => Some(DoErase(s, second, Target(s.writer.first, second)))
      case Leave => Some(DoLeave(s))
  }

  /** A reader that has drawn its id but is not visible yet becomes late. */
  function MarkLate(r: Reader): Reader { if r.phase.Taken? then r.(late := true) else r }

  /** getOldestActiveTx, with the fallback to the own validation timestamp. */
  function DoOldest(s: State, oldest: nat): Option<State> {
    if !s.writer.Committing? || !s.writer.pc.FindOldest? then None
    else
      var w := s.writer;
      var wss := s.tables.At(Target(w.first, w.pc.second)).wss;
      if oldest in s.active && (forall a :: a in s.active ==> oldest <= a) && wss != [] then
        Some(s.(writer := w.(pc := Erase(w.pc.second), tmp := if oldest == w.id then wss[0].valTS else oldest),
                readers := map i | i in s.readers :: MarkLate(s.readers[i])))
      else None
  }

  /* ---- reader steps ---- */

  function WithReader(s: State, rid: nat, r: Reader): State { s.(readers := s.readers[rid := r]) }

  function DoTake(s: State, rid: nat, keys: seq<Key>): Option<State> {
    if rid in s.readers || !CanTick(s) then None
    else Some(WithReader(Tick(s), rid,
                         Reader(s.clock, keys, Pair([], []), Taken,
                                Pair(false, false), Pair(0, 0), Pair(0, 0), 0, false)))
  }

  /** The number of writers that have left. */
  function Finished(s: State): nat {
    if s.writer.Committing? && s.hist != [] then |s.hist| - 1 else |s.hist|
  }

  function DoRegister(s: State, rid: nat): Option<State> {
    if rid !in s.readers || !s.readers[rid].phase.Taken? then None
    else
      var r := s.readers[rid];
      var r' := r.(phase := Reading, cut := s.applied, lim := s.listed, atStart := Finished(s));
      Some(WithReader(s, rid, r').(active := s.active + {r.id}))
  }

  /** Keys are read in order, each from table 0 and then from table 1; a missing key restarts. */
  function DoRead(s: State, rid: nat): Option<State> {
    if rid !in s.readers || !s.readers[rid].phase.Reading? then None
    else
      var r := s.readers[rid];
      var t := if |r.got.zero| == |r.got.one| then T0 else T1;
      if |r.got.At(t)| >= |r.keys| then None
      else
        var k := r.keys[|r.got.At(t)|];
        var data := s.tables.At(t).data;
        if k in data then Some(WithReader(s, rid, r.(got := r.got.With(t, r.got.At(t) + [data[k]]), lim := s.listed)))
        else Some(WithReader(s, rid, r.(got := Pair([], []), lim := s.listed)))
  }

  predicate ReadAll(r: Reader) { |r.got.zero| == |r.keys| && |r.got.one| == |r.keys| }

  function DoBurn(s: State, rid: nat): Option<State> {
    if rid !in s.readers || !CanTick(s) then None
    else
      var r := s.readers[rid];
      if r.phase.Reading? && ReadAll(r) then Some(WithReader(Tick(s), rid, r.(phase := Drawing(T0))))
      else if r.phase.Burning? then Some(WithReader(Tick(s), rid, r.(phase := Drawing(r.phase.t))))
      else None
  }

  function DoDrawVal(s: State, rid: nat): Option<State> {
    if rid !in s.readers || !s.readers[rid].phase.Drawing? || !CanTick(s) then None
    else
      var r := s.readers[rid];
      Some(WithReader(Tick(s), rid, r.(phase := Scanning(r.phase.t, s.clock))))
  }

  function DoScan(s: State, rid: nat): Option<State> {
    if rid !in s.readers || !s.readers[rid].phase.Scanning? then None
    else
      var r := s.readers[rid];
      var t := r.phase.t;
      var ok := Passes(s.tables.At(t).wss, r.id, r.phase.valTS, r.keys);
      Some(WithReader(s, rid, r.(ok := r.ok.With(t, ok), phase := if t == T0 then Burning(T1) else Deciding)))
  }

  function Max(a: nat, b: nat): nat { if a < b then b else a }

  /** Publish when both validations succeeded; otherwise leave and start over with a new id. */
  function DoDecide(s: State, rid: nat): Option<State> {
    if rid !in s.readers || !s.readers[rid].phase.Deciding? then None
    else
      var r := s.readers[rid];
      var s' := s.(active := s.active - {r.id}, readers := s.readers - {rid});
      if r.ok.zero && r.ok.one then
        Some(s'.(published := s.published + [Batch(r.keys, r.got, Max(r.cut.zero, r.cut.one), r.atStart)]))
      else Some(s')
  }

  function Step(s: State, a: Action): Option<State> {
    match a
    case Begin => DoBegin(s)
    case Buffer(t, k, v) => DoBuffer(s, t, k, v)
    case Vote(t) => DoVote(s, t)
    case Commit => DoCommit(s)
    case Oldest(o) => DoOldest(s, o)
    case Take(rid, keys) => DoTake(s, rid, keys)
    case Register(rid) => DoRegister(s, rid)
    case Read(rid) => DoRead(s, rid)
    case Burn(rid) => DoBurn(s, rid)
    case DrawVal(rid) => DoDrawVal(s, rid)
    case Scan(rid) => DoScan(s, rid)
    case Decide(rid) => DoDecide(s, rid)
  }

  /** The state after the given interleaving, if every step of it is possible. */
  function Exec(s: State, run: seq<Action>): Option<State> {
    if run == [] then Some(s)
    else
      match Exec(s, run[..|run| - 1])
      case None => None
      case Some(s') => Step(s', run[|run| - 1])
  }

  /** One more step of a run. */
  lemma {:induction false} Then(s: State, run: seq<Action>, mid: State, a: Action, s': State)
    requires Exec(s, run) == Some(mid) && Step(mid, a) == Some(s')
    ensures Exec(s, run + [a]) == Some(s')
  {
    assert (run + [a])[..|run|] == run;
  }
}

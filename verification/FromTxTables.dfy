/** The read loop of FromTxTables: all keys from both tables, started over when a key is missing. */
module FromTxTables {
  import opened Wrappers
  import opened BoccCore
  import opened BoccProtocol

  /** The table and key of read number `r` of a pass: table 0 and table 1 for each key in turn. */
  function TabOf(r: nat): Tab { if r % 2 == 0 then T0 else T1 }

  function Lookup(keys: seq<Key>, world: Pair<Data>, r: nat): Option<Val>
    requires r < 2 * |keys|
  {
    var data := world.At(TabOf(r));
    if keys[r / 2] in data then Some(data[keys[r / 2]]) else None
  }

  /** The number of the first read from `r` on that finds nothing, in a pass that starts at moment `n`;
      `worlds` are the tables at the moments of the successive reads. */
  function Hits(keys: seq<Key>, worlds: seq<Pair<Data>>, n: nat, r: nat): (h: nat)
    requires r <= 2 * |keys|
    ensures r <= h <= 2 * |keys|
    decreases 2 * |keys| - r
  {
    if r == 2 * |keys| || n + r >= |worlds| || Lookup(keys, worlds[n + r], r).None? then r
    else Hits(keys, worlds, n, r + 1)
  }

  /** The moment at which the first pass without a missing key starts, if there is one. */
  function FirstPass(keys: seq<Key>, worlds: seq<Pair<Data>>, n: nat): Option<nat>
    requires n <= |worlds|
    decreases |worlds| - n
  {
    var h := Hits(keys, worlds, n, 0);
    if h == 2 * |keys| then Some(n)
    else if n + h < |worlds| then FirstPass(keys, worlds, n + h + 1)
    else None
  }

  /** From moment `n` on all keys are in both tables. */
  ghost predicate AllThere(keys: seq<Key>, worlds: seq<Pair<Data>>, n: nat) {
    forall m, j :: n <= m < |worlds| && 0 <= j < |keys| ==> keys[j] in worlds[m].zero && keys[j] in worlds[m].one
  }

  /** A pass only breaks off before moment `n`, or when the moments run out. */
  lemma {:induction false} BreaksEarly(keys: seq<Key>, worlds: seq<Pair<Data>>, n: nat, start: nat, r: nat)
    requires AllThere(keys, worlds, n) && r <= 2 * |keys|
    ensures var h := Hits(keys, worlds, start, r); h == 2 * |keys| || start + h < n || start + h >= |worlds|
    decreases 2 * |keys| - r
  {
    if r == 2 * |keys| || start + r >= |worlds| || Lookup(keys, worlds[start + r], r).None? {
    } else {
      BreaksEarly(keys, worlds, n, start, r + 1);
    }
  }

  /** The loop ends: as soon as no key is missing any more, the pass under way or the next one is the last. */
  lemma {:induction false} LoopEnds(keys: seq<Key>, worlds: seq<Pair<Data>>, n: nat, start: nat)
    requires AllThere(keys, worlds, n) && start <= n && n + 2 * |keys| <= |worlds|
    ensures FirstPass(keys, worlds, start).Some? && start <= FirstPass(keys, worlds, start).value <= n
    decreases n - start
  {
    BreaksEarly(keys, worlds, n, start, 0);
    var h := Hits(keys, worlds, start, 0);
    if h < 2 * |keys| {
      LoopEnds(keys, worlds, n, start + h + 1);
    }
  }

  /** The first `r` reads of the pass that starts at moment `n`. */
  ghost predicate ReadInPass(keys: seq<Key>, worlds: seq<Pair<Data>>, n: nat, r: nat, got: Pair<seq<Val>>) {
    && r <= 2 * |keys| && |got.zero| == (r + 1) / 2 && |got.one| == r / 2
    && forall q :: 0 <= q < r ==> ReadNumber(keys, worlds, n, q, got)
  }

  ghost predicate ReadNumber(keys: seq<Key>, worlds: seq<Pair<Data>>, n: nat, q: nat, got: Pair<seq<Val>>)
    requires q < 2 * |keys|
  {
    && n + q < |worlds| && q / 2 < |got.At(TabOf(q))|
    && Lookup(keys, worlds[n + q], q) == Some(got.At(TabOf(q))[q / 2])
  }

  lemma {:induction false} NextRead(keys: seq<Key>, worlds: seq<Pair<Data>>, n: nat, r: nat, got: Pair<seq<Val>>)
    requires ReadInPass(keys, worlds, n, r, got) && r < 2 * |keys| && n + r < |worlds|
    requires Lookup(keys, worlds[n + r], r).Some?
    ensures ReadInPass(keys, worlds, n, r + 1,
        got.With(TabOf(r), got.At(TabOf(r)) + [Lookup(keys, worlds[n + r], r).value]))
  {
    var got' := got.With(TabOf(r), got.At(TabOf(r)) + [Lookup(keys, worlds[n + r], r).value]);
    forall q | 0 <= q < r + 1 ensures ReadNumber(keys, worlds, n, q, got') {
      if q < r { assert ReadNumber(keys, worlds, n, q, got); }
    }
  }

  /** The outcome of a pass: complete, restarted by a missing key, or out of moments. */
  datatype Outcome = Complete | Restart | Cut

  ghost predicate PassEnds(keys: seq<Key>, worlds: seq<Pair<Data>>, start: nat, outcome: Outcome, now: nat) {
    var h := Hits(keys, worlds, start, 0);
    match outcome
    case Complete => h == 2 * |keys|
    case Restart => h < 2 * |keys| && now == start + h + 1 <= |worlds|
    case Cut => h < 2 * |keys| && start + h == |worlds|
  }

  /** Before read number `r` of the pass, with nothing missing so far. */
  ghost predicate AtRead(keys: seq<Key>, worlds: seq<Pair<Data>>, start: nat, r: nat, got: Pair<seq<Val>>) {
    && start + r <= |worlds| && ReadInPass(keys, worlds, start, r, got)
    && Hits(keys, worlds, start, 0) == Hits(keys, worlds, start, r)
  }

  /** One pass: every key from every table. */
  method ReadPass(keys: seq<Key>, worlds: seq<Pair<Data>>, start: nat)
    returns (outcome: Outcome, now: nat, got: Pair<seq<Val>>)
    requires start <= |worlds|
    ensures PassEnds(keys, worlds, start, outcome, now)
    ensures outcome.Complete? ==> ReadInPass(keys, worlds, start, 2 * |keys|, got)
  {
    now, got, outcome := start, Pair([], []), Complete;
    for j := 0 to |keys|
      invariant now == start + 2 * j && AtRead(keys, worlds, start, 2 * j, got)
    {
      for i := 0 to 2
        invariant now == start + 2 * j + i && AtRead(keys, worlds, start, 2 * j + i, got)
      {
        outcome, got := ReadOne(keys, worlds, start, j, i, got);
        if !outcome.Complete? {
          now := if outcome.Restart? then now + 1 else now;
          return;
        }
        now := now + 1;
      }
    }
    outcome := Complete;
  }

  /** Key number `j` from table `i`. */
  method ReadOne(keys: seq<Key>, worlds: seq<Pair<Data>>, start: nat, j: nat, i: nat, got: Pair<seq<Val>>)
    returns (outcome: Outcome, got': Pair<seq<Val>>)
    requires j < |keys| && i < 2 && AtRead(keys, worlds, start, 2 * j + i, got)
    ensures match outcome
            case Complete => AtRead(keys, worlds, start, 2 * j + i + 1, got')
            case Restart => Hits(keys, worlds, start, 2 * j + i) == 2 * j + i && start + 2 * j + i < |worlds|
            case Cut => Hits(keys, worlds, start, 2 * j + i) == 2 * j + i && start + 2 * j + i == |worlds|
  {
    var now := start + 2 * j + i;
    if now == |worlds| { return Cut, got; }
    var v := GetByKey(keys, worlds[now], j, i);
    if v.None? { return Restart, got; }
    NextRead(keys, worlds, start, 2 * j + i, got);
    var tab := if i == 0 then T0 else T1;
    assert tab == TabOf(2 * j + i);
    return Complete, got.With(tab, got.At(tab) + [v.value]);
  }

  method GetByKey(keys: seq<Key>, world: Pair<Data>, j: nat, i: nat) returns (v: Option<Val>)
    requires j < |keys| && i < 2
    ensures v == Lookup(keys, world, 2 * j + i)
  {
    assert (2 * j + i) / 2 == j && (2 * j + i) % 2 == i;
    var data := if i == 0 then world.zero else world.one;
    v := if keys[j] in data then Some(data[keys[j]]) else None;
  }

  /** Every value returned was read in one and the same pass, the first one without a missing key: what
      earlier passes read is discarded. */
  method ReadTables(keys: seq<Key>, worlds: seq<Pair<Data>>) returns (tpls: Option<Pair<seq<Val>>>)
    ensures match FirstPass(keys, worlds, 0)
            case None => tpls.None?
            case Some(n) => tpls.Some? && ReadInPass(keys, worlds, n, 2 * |keys|, tpls.value)
  {
    var start: nat := 0;
    while true
      invariant start <= |worlds| && FirstPass(keys, worlds, 0) == FirstPass(keys, worlds, start)
      decreases |worlds| - start
    {
      var outcome, now, got := ReadPass(keys, worlds, start);
      match outcome
      case Complete => return Some(got);
      case Cut => return None;
      case Restart => start := now;
    }
  }
}

/** What both kinds of windows share. */
module Windows {
  import opened Wrappers
  import opened Streams

  datatype WinType = RangeWindow | RowWindow

  /** Type and size of a window, the timestamp of its tuples, and the optional function that replaces an
      incoming tuple by a value computed from the whole window. */
  datatype Config<!T> = Config(winType: WinType, winSize: nat, timestamp: T -> int, op: Option<(seq<T>, T) -> T>)

  /** The value published for the incoming tuple. */
  function Forwarded<T>(c: Config<T>, buf: seq<T>, x: T): T {
    match c.op
    case None => x
    case Some(f) => f(buf, x)
  }

  /** The function, if any, passes the tuples on unchanged. */
  ghost predicate PassesOn<T(!new)>(c: Config<T>) {
    c.op.Some? ==> forall buf, x :: c.op.value(buf, x) == x
  }

  function Outdate<T>(xs: seq<T>): seq<Event<T>> {
    if xs == [] then [] else Outdate(xs[..|xs| - 1]) + [Event(xs[|xs| - 1], true)]
  }

  lemma {:induction false} OutdateSnoc<T>(xs: seq<T>, x: T)
    ensures Outdate(xs + [x]) == Outdate(xs) + [Event(x, true)]
  {
    assert (xs + [x])[..|xs|] == xs;
  }

  lemma {:induction false} OutdateNext<T>(all: seq<T>, k: nat)
    requires k < |all|
    ensures Outdate(all[..k + 1]) == Outdate(all[..k]) + [Event(all[k], true)]
  {
    assert all[..k + 1] == all[..k] + [all[k]];
    OutdateSnoc(all[..k], all[k]);
  }

  ghost predicate NewOnly<T>(es: seq<Event<T>>) {
    forall i :: 0 <= i < |es| ==> !es[i].outdated
  }

  predicate InOrder<T>(timestamp: T -> int, xs: seq<T>, i: nat, j: nat)
    requires i < j < |xs|
  {
    timestamp(xs[i]) <= timestamp(xs[j])
  }

  ghost predicate NonDecreasing<T>(timestamp: T -> int, xs: seq<T>) {
    forall i, j :: 0 <= i < j < |xs| ==> InOrder(timestamp, xs, i, j)
  }

  lemma {:induction false} NonDecreasingTail<T>(timestamp: T -> int, xs: seq<T>, k: nat)
    requires NonDecreasing(timestamp, xs) && k <= |xs|
    ensures NonDecreasing(timestamp, xs[k..])
  {
    forall i, j | 0 <= i < j < |xs[k..]| ensures InOrder(timestamp, xs[k..], i, j) {
      assert InOrder(timestamp, xs, k + i, k + j);
    }
  }

  lemma {:induction false} NonDecreasingInit<T>(timestamp: T -> int, all: seq<T>, x: T)
    requires NonDecreasing(timestamp, all + [x])
    ensures NonDecreasing(timestamp, all)
  {
    forall i, j | 0 <= i < j < |all| ensures InOrder(timestamp, all, i, j) {
      assert InOrder(timestamp, all + [x], i, j);
    }
  }

  ghost predicate Distinct<T>(xs: seq<T>) {
    forall i, j :: 0 <= i < j < |xs| ==> xs[i] != xs[j]
  }

  lemma {:induction false} InsertedNew<T>(es: seq<Event<T>>)
    requires NewOnly(es)
    ensures |Inserted(es)| == |es| && Expired(es) == []
    ensures forall i :: 0 <= i < |es| ==> Inserted(es)[i] == es[i].data
  {
    if es == [] {
    } else {
      InsertedNew(es[..|es| - 1]);
    }
  }

  /** Outdating a run of tuples expires them and leaves the inserts alone. */
  lemma {:induction false} OutdateRun<T>(out: seq<Event<T>>, xs: seq<T>)
    ensures Expired(out + Outdate(xs)) == Expired(out) + xs
    ensures Inserted(out + Outdate(xs)) == Inserted(out)
  {
    if xs == [] {
      assert out + Outdate(xs) == out;
    } else {
      var init, x := xs[..|xs| - 1], xs[|xs| - 1];
      OutdateRun(out, init);
      assert xs == init + [x];
      OutdateRunStep(out, init, x);
    }
  }

  lemma {:induction false} ConcatSnoc<T>(a: seq<T>, b: seq<T>, x: T)
    ensures (a + b) + [x] == a + (b + [x])
  {}

  lemma {:induction false} OutdateRunStep<T>(out: seq<Event<T>>, init: seq<T>, x: T)
    requires Expired(out + Outdate(init)) == Expired(out) + init && Inserted(out + Outdate(init)) == Inserted(out)
    ensures Expired(out + Outdate(init + [x])) == Expired(out) + (init + [x])
    ensures Inserted(out + Outdate(init + [x])) == Inserted(out)
  {
    OutdateSnoc(init, x);
    var mid, e := out + Outdate(init), Event(x, true);
    ConcatSnoc(out, Outdate(init), e);
    LiveSnoc(mid, e);
    ConcatSnoc(Expired(out), init, x);
  }

  /** Outdating a prefix of the live elements in order keeps the stream FIFO. */
  lemma {:induction false} OutdateFifo<T>(out: seq<Event<T>>, xs: seq<T>)
    requires Fifo(out) && Expired(out) + xs <= Inserted(out)
    ensures Fifo(out + Outdate(xs))
  {
    if xs == [] {
      assert out + Outdate(xs) == out;
    } else {
      var init, x := xs[..|xs| - 1], xs[|xs| - 1];
      assert init + [x] == xs;
      assert Expired(out) + init <= Inserted(out);
      OutdateFifo(out, init);
      assert out + Outdate(xs) == (out + Outdate(init)) + [Event(x, true)];
      OutdateRun(out, xs);
      FifoSnoc(out + Outdate(init), Event(x, true));
    }
  }

  lemma {:induction false} OutdateInTime<T>(out: seq<Event<T>>, xs: seq<T>)
    requires InTime(out) && |Expired(out)| + |xs| <= |Inserted(out)|
    ensures InTime(out + Outdate(xs))
  {
    if xs == [] {
      assert out + Outdate(xs) == out;
    } else {
      var init, x := xs[..|xs| - 1], xs[|xs| - 1];
      assert init + [x] == xs;
      OutdateInTime(out, init);
      OutdateSnoc(init, x);
      ConcatSnoc(out, Outdate(init), Event(x, true));
      OutdateRun(out, xs);
      InTimeSnoc(out + Outdate(init), Event(x, true));
    }
  }

  lemma {:induction false} InsertInTime<T>(out: seq<Event<T>>, x: T)
    requires InTime(out)
    ensures InTime(out + [Event(x, false)])
  {
    assert out[..|out|] == out;
    LiveSnoc(out, Event(x, false));
    InTimeSnoc(out, Event(x, false));
  }

  lemma {:induction false} TooMany<T>(out: seq<Event<T>>, xs: seq<T>, rest: seq<Event<T>>)
    requires |Expired(out)| + |xs| > |Inserted(out)|
    ensures !InTime(out + Outdate(xs) + rest)
  {
    var early := out + Outdate(xs);
    OutdateRun(out, xs);
    assert (early + rest)[..|early|] == early;
  }

  lemma {:induction false} TooEarlyForever<T>(early: seq<Event<T>>, all: seq<Event<T>>)
    requires early <= all && !InTime(early)
    ensures !InTime(all)
  {
    var i :| 0 <= i <= |early| && |Expired(early[..i])| > |Inserted(early[..i])|;
    assert all[..i] == early[..i];
  }

  lemma {:induction false} TailIs<T>(all: seq<T>, k: nat, tail: seq<T>)
    requires |all| == k + |tail| && forall j :: 0 <= j < |tail| ==> all[k + j] == tail[j]
    ensures all[k..] == tail
  {}

  /** What has expired is in the order of what was published exactly when it was published unchanged. */
  lemma {:induction false} ExpiredUnchanged<T>(exp: seq<T>, w: seq<T>, xs: seq<T>, published: seq<T>)
    requires exp + w == xs && |published| == |xs|
    ensures exp <= published <==> forall i :: 0 <= i < |xs| - |w| ==> published[i] == xs[i]
  {
    assert forall i :: 0 <= i < |exp| ==> xs[i] == exp[i];
  }

  lemma {:induction false} Regroup<T>(exp: seq<T>, w: seq<T>, ins: seq<T>, x: T, gone: seq<T>, kept: seq<T>)
    requires exp + w == ins && gone + kept == w + [x]
    ensures (exp + gone) + kept == ins + [x]
  {
    assert (exp + gone) + kept == exp + (gone + kept);
    assert exp + (w + [x]) == (exp + w) + [x];
  }

  lemma {:induction false} InsertedPrefix<T>(es: seq<Event<T>>, n: nat)
    requires NewOnly(es) && n <= |es|
    ensures n <= |Inserted(es)| && Inserted(es[..n]) == Inserted(es)[..n]
  {
    InsertedNew(es);
    InsertedNew(es[..n]);
  }

  /** A nonempty stream of new events in two parts. */
  lemma {:induction false} SnocOfNew<T>(es: seq<Event<T>>) returns (init: seq<Event<T>>, x: T)
    requires NewOnly(es) && es != []
    ensures es == init + [Event(x, false)] && |init| == |es| - 1 && NewOnly(init)
  {
    init, x := es[..|es| - 1], es[|es| - 1].data;
  }

  /** The inserts of a stream of new events only. */
  lemma {:induction false} InsertedSnoc<T>(es: seq<Event<T>>)
    requires NewOnly(es) && es != []
    ensures NewOnly(es[..|es| - 1]) && Inserted(es) == Inserted(es[..|es| - 1]) + [es[|es| - 1].data]
  {}
}

/** The sliding window operator without an eviction thread. */
module SlidingWindow {
  import opened Wrappers
  import opened Streams
  import opened Windows

  /* ---- buffer and output as functions of the input ---- */

  /** evictByTime gives tuples up from the front until one is young enough. */
  function DropOld<T>(timestamp: T -> int, buf: seq<T>, bound: int): (r: seq<T>)
    ensures |r| <= |buf|
  {
    if buf != [] && timestamp(buf[0]) <= bound then DropOld(timestamp, buf[1..], bound) else buf
  }

  lemma {:induction false} DropOldIsSuffix<T>(timestamp: T -> int, buf: seq<T>, bound: int)
    ensures var r := DropOld(timestamp, buf, bound); r == buf[|buf| - |r|..]
  {
    if buf == [] || timestamp(buf[0]) > bound {
    } else {
      DropOldIsSuffix(timestamp, buf[1..], bound);
    }
  }

  /** `r` is `buf` without the tuples in front of the first one younger than `bound`. */
  ghost predicate OldestGone<T>(timestamp: T -> int, buf: seq<T>, bound: int, r: seq<T>) {
    && |r| <= |buf| && r == buf[|buf| - |r|..]
    && (forall j :: 0 <= j < |buf| - |r| ==> timestamp(buf[j]) <= bound)
    && (r != [] ==> timestamp(r[0]) > bound)
  }

  lemma {:induction false} DropOldExact<T>(timestamp: T -> int, buf: seq<T>, bound: int)
    ensures OldestGone(timestamp, buf, bound, DropOld(timestamp, buf, bound))
  {
    if buf == [] || timestamp(buf[0]) > bound {
    } else {
      DropOldExact(timestamp, buf[1..], bound);
      var r, rest := DropOld(timestamp, buf, bound), buf[1..];
      forall j | 0 <= j < |buf| - |r| ensures timestamp(buf[j]) <= bound {
        assert j > 0 ==> buf[j] == rest[j - 1];
      }
    }
  }

  /** The buffer after eviction. */
  function Evict<T>(c: Config<T>, buf: seq<T>): (r: seq<T>)
    requires buf != []
    ensures |r| <= |buf| && r == buf[|buf| - |r|..]
  {
    match c.winType
    case RowWindow => if |buf| > c.winSize then buf[|buf| - c.winSize..] else buf
    case RangeWindow =>
      var last := c.timestamp(buf[|buf| - 1]);
      DropOldIsSuffix(c.timestamp, buf, last - c.winSize);
      if last >= c.winSize then DropOld(c.timestamp, buf, last - c.winSize) else buf
  }

  /** The tuples given up by eviction. */
  function Gone<T>(c: Config<T>, buf: seq<T>): seq<T>
    requires buf != []
  {
    buf[..|buf| - |Evict(c, buf)|]
  }

  /** The window after the given input. */
  function Window<T>(c: Config<T>, es: seq<Event<T>>): (w: seq<T>)
    ensures |w| <= |es|
  {
    if es == [] then []
    else
      var init, e := es[..|es| - 1], es[|es| - 1];
      if e.outdated then Window(c, init) else Evict(c, Window(c, init) + [e.data])
  }

  /** The output: evicted tuples first, then the incoming one; outdated input passes through. */
  function Output<T>(c: Config<T>, es: seq<Event<T>>): seq<Event<T>> {
    if es == [] then []
    else
      var init, e := es[..|es| - 1], es[|es| - 1];
      if e.outdated then Output(c, init) + [e]
      else
        var buf := Window(c, init) + [e.data];
        Output(c, init) + Outdate(Gone(c, buf)) + [Event(Forwarded(c, Evict(c, buf), e.data), false)]
  }

  /* ---- the operator ---- */

  class SlidingWindow<T(!new)> {
    const c: Config<T>
    var mTupleBuf: seq<T>
    var mCurrSize: nat
    var out: seq<Event<T>>
    ghost var input: seq<Event<T>>

    ghost predicate Valid()
      reads this
    {
      mTupleBuf == Window(c, input) && mCurrSize == |mTupleBuf| && out == Output(c, input)
    }

    constructor (c: Config<T>)
      ensures Valid() && this.c == c && input == [] && out == []
    {
      this.c := c;
      mTupleBuf, mCurrSize, out, input := [], 0, [], [];
    }

    method ProcessDataElement(data: T, outdated: bool)
      requires Valid()
      modifies this
      ensures Valid() && input == old(input) + [Event(data, outdated)]
      ensures outdated ==> mTupleBuf == old(mTupleBuf) && out == old(out) + [Event(data, true)]
      ensures !outdated ==>
                var all, n := old(mTupleBuf) + [data], |mTupleBuf|;
                && n <= |all| && mTupleBuf == all[|all| - n..]
                && out == old(out) + Outdate(all[..|all| - n])
                        + [Event(if c.op.Some? then c.op.value(mTupleBuf, data) else data, false)]
    {
      if outdated {
        assert (input + [Event(data, outdated)])[..|input|] == input;
        out := out + [Event(data, outdated)];
      } else {
        WindowSnoc(c, input, data);
        mTupleBuf := mTupleBuf + [data];
        mCurrSize := mCurrSize + 1;
        match c.winType {
          case RangeWindow => EvictByTime();
          case RowWindow => EvictByCount();
        }
        match c.op {
          case Some(windowOp) => out := out + [Event(windowOp(mTupleBuf, data), outdated)];
          case None => out := out + [Event(data, outdated)];
        }
      }
      input := input + [Event(data, outdated)];
    }

    /** Tuples leave from the front while the window is too large. */
    method EvictByCount()
      requires c.winType.RowWindow? && mTupleBuf != [] && mCurrSize == |mTupleBuf|
      modifies this`mTupleBuf, this`mCurrSize, this`out
      ensures mTupleBuf == Evict(c, old(mTupleBuf)) && mCurrSize == |mTupleBuf|
      ensures out == old(out) + Outdate(Gone(c, old(mTupleBuf)))
    {
      ghost var all, k := mTupleBuf, 0;
      while mCurrSize > c.winSize
        invariant 0 <= k <= |all| && mTupleBuf == all[k..] && mCurrSize == |all| - k
        invariant k == 0 || |all| - k >= c.winSize
        invariant out == old(out) + Outdate(all[..k])
        decreases mCurrSize
      {
        var tup := mTupleBuf[0];
        mTupleBuf := mTupleBuf[1..];
        mCurrSize := mCurrSize - 1;
        out := out + [Event(tup, true)];
        OutdateNext(all, k);
        k := k + 1;
      }
    }

    /** Tuples leave from the front while they are too old compared with the newest one. */
    method EvictByTime()
      requires c.winType.RangeWindow? && mTupleBuf != [] && mCurrSize == |mTupleBuf|
      modifies this`mTupleBuf, this`mCurrSize, this`out
      ensures mTupleBuf == Evict(c, old(mTupleBuf)) && mCurrSize == |mTupleBuf|
      ensures out == old(out) + Outdate(Gone(c, old(mTupleBuf)))
    {
      var lastTupleTime := c.timestamp(mTupleBuf[|mTupleBuf| - 1]);
      if lastTupleTime >= c.winSize {
        EvictUpTo(lastTupleTime - c.winSize);
      }
    }

    method EvictUpTo(acceptedTime: int)
      requires mCurrSize == |mTupleBuf|
      modifies this`mTupleBuf, this`mCurrSize, this`out
      ensures mTupleBuf == DropOld(c.timestamp, old(mTupleBuf), acceptedTime) && mCurrSize == |mTupleBuf|
      ensures out == old(out) + Outdate(old(mTupleBuf)[..|old(mTupleBuf)| - |mTupleBuf|])
    {
      ghost var all, k := mTupleBuf, 0;
      var finished := false;
      while !finished && mTupleBuf != []
        invariant 0 <= k <= |all| && mTupleBuf == all[k..] && mCurrSize == |all| - k
        invariant DropOld(c.timestamp, all, acceptedTime) == DropOld(c.timestamp, mTupleBuf, acceptedTime)
        invariant finished ==> DropOld(c.timestamp, mTupleBuf, acceptedTime) == mTupleBuf
        invariant out == old(out) + Outdate(all[..k])
        decreases !finished, mCurrSize
      {
        var tup := mTupleBuf[0];
        if c.timestamp(tup) <= acceptedTime {
          OutdateNext(all, k);
          assert all[k..][1..] == all[k + 1..];
          mTupleBuf := mTupleBuf[1..];
          mCurrSize := mCurrSize - 1;
          out := out + [Event(tup, true)];
          k := k + 1;
        } else {
          finished := true;
        }
      }
    }
  }

  /* ---- the window is the right part of the input ---- */

  lemma {:induction false} WindowSnoc<T>(c: Config<T>, es: seq<Event<T>>, x: T)
    ensures var buf := Window(c, es) + [x];
            && Window(c, es + [Event(x, false)]) == Evict(c, buf)
            && Output(c, es + [Event(x, false)])
                == Output(c, es) + Outdate(Gone(c, buf)) + [Event(Forwarded(c, Evict(c, buf), x), false)]
  {
    assert (es + [Event(x, false)])[..|es|] == es;
  }

  lemma {:induction false} SuffixSnoc<T>(all: seq<T>, w: seq<T>, x: T, r: seq<T>)
    requires |w| <= |all| && w == all[|all| - |w|..]
    requires |r| <= |w| + 1 && r == (w + [x])[|w| + 1 - |r|..]
    ensures r == (all + [x])[|all| + 1 - |r|..]
  {}

  /** The window is always a suffix of the inserted input. */
  lemma {:induction false} WindowIsSuffix<T>(c: Config<T>, es: seq<Event<T>>)
    ensures IsSuffix(Inserted(es), Window(c, es))
  {
    if es == [] {
    } else {
      WindowIsSuffix(c, es[..|es| - 1]);
      NextIsSuffix(c, es);
    }
  }

  ghost predicate IsSuffix<T>(all: seq<T>, w: seq<T>) { |w| <= |all| && w == all[|all| - |w|..] }

  lemma {:induction false} NextIsSuffix<T>(c: Config<T>, es: seq<Event<T>>)
    requires es != [] && IsSuffix(Inserted(es[..|es| - 1]), Window(c, es[..|es| - 1]))
    ensures IsSuffix(Inserted(es), Window(c, es))
  {
    if !es[|es| - 1].outdated {
      EvictedSuffix(c, Inserted(es[..|es| - 1]), Window(c, es[..|es| - 1]), es[|es| - 1].data);
    }
  }

  lemma {:induction false} EvictedSuffix<T>(c: Config<T>, all: seq<T>, w: seq<T>, x: T)
    requires IsSuffix(all, w)
    ensures IsSuffix(all + [x], Evict(c, w + [x]))
  {
    SuffixSnoc(all, w, x, Evict(c, w + [x]));
  }

  /** The last `size` elements, or all of them while there are fewer. */
  function LastOf<T>(all: seq<T>, size: nat): seq<T> {
    if |all| > size then all[|all| - size..] else all
  }

  lemma {:induction false} LastOfSnoc<T>(all: seq<T>, size: nat, x: T)
    ensures LastOf(LastOf(all, size) + [x], size) == LastOf(all + [x], size)
  {}

  lemma {:induction false} RowIsLast<T>(c: Config<T>, es: seq<Event<T>>)
    requires c.winType.RowWindow?
    ensures Window(c, es) == LastOf(Inserted(es), c.winSize)
  {
    if es == [] {
    } else {
      var init, e := es[..|es| - 1], es[|es| - 1];
      RowIsLast(c, init);
      if !e.outdated {
        LastOfSnoc(Inserted(init), c.winSize, e.data);
      }
    }
  }

  /** A row window is the last winSize tuples, or all of them while there are fewer. */
  lemma {:induction false} RowWindowExact<T>(c: Config<T>, es: seq<Event<T>>)
    requires c.winType.RowWindow?
    ensures var all := Inserted(es);
            Window(c, es) == if |all| > c.winSize then all[|all| - c.winSize..] else all
  {
    RowIsLast(c, es);
  }

  /** A new tuple, whatever the order of the timestamps: before its timestamp has reached the window size it only
      joins the window; later the oldest tuples of the window go, up to the first one young enough. */
  lemma {:induction false} RangeWindowStep<T>(c: Config<T>, es: seq<Event<T>>, x: T)
    requires c.winType.RangeWindow?
    ensures var all, w, bound := Window(c, es) + [x], Window(c, es + [Event(x, false)]), c.timestamp(x) - c.winSize;
            if bound < 0 then w == all else OldestGone(c.timestamp, all, bound, w)
  {
    WindowNext(c, es, x);
    EvictsOldest(c, Window(c, es), x);
  }

  lemma {:induction false} WindowNext<T>(c: Config<T>, es: seq<Event<T>>, x: T)
    ensures Window(c, es + [Event(x, false)]) == Evict(c, Window(c, es) + [x])
  {
    assert (es + [Event(x, false)])[..|es|] == es;
  }

  lemma {:induction false} EvictsOldest<T>(c: Config<T>, w: seq<T>, x: T)
    requires c.winType.RangeWindow?
    ensures var bound := c.timestamp(x) - c.winSize;
            if bound < 0 then Evict(c, w + [x]) == w + [x]
            else OldestGone(c.timestamp, w + [x], bound, Evict(c, w + [x]))
  {
    EvictRange(c, w, x);
    DropOldExact(c.timestamp, w + [x], c.timestamp(x) - c.winSize);
  }

  /** `w` is the part of `all` younger than `bound`. */
  ghost predicate Younger<T>(timestamp: T -> int, all: seq<T>, bound: int, w: seq<T>) {
    && |w| <= |all| && w == all[|all| - |w|..]
    && (forall i :: 0 <= i < |all| - |w| ==> timestamp(all[i]) <= bound)
    && (forall i :: 0 <= i < |w| ==> timestamp(w[i]) > bound)
  }

  lemma {:induction false} DropOldYounger<T>(timestamp: T -> int, buf: seq<T>, bound: int)
    requires NonDecreasing(timestamp, buf)
    ensures Younger(timestamp, buf, bound, DropOld(timestamp, buf, bound))
  {
    if buf == [] {
    } else if timestamp(buf[0]) <= bound {
      NonDecreasingTail(timestamp, buf, 1);
      DropOldYounger(timestamp, buf[1..], bound);
      YoungerOfSuffix(timestamp, buf, 1, bound, DropOld(timestamp, buf[1..], bound));
    } else {
      AllYounger(timestamp, buf, bound);
    }
  }

  lemma {:induction false} AllYounger<T>(timestamp: T -> int, all: seq<T>, bound: int)
    requires NonDecreasing(timestamp, all) && all != [] && timestamp(all[0]) > bound
    ensures Younger(timestamp, all, bound, all)
  {
    forall i | 0 <= i < |all| ensures timestamp(all[i]) > bound {
      assert i > 0 ==> InOrder(timestamp, all, 0, i);
    }
  }

  /** The part younger than a later bound, cut from a suffix that only lacks older tuples. */
  lemma {:induction false} YoungerOfSuffix<T>(timestamp: T -> int, all: seq<T>, k: nat, bound: int, w: seq<T>)
    requires k <= |all| && Younger(timestamp, all[k..], bound, w)
    requires forall i :: 0 <= i < k ==> timestamp(all[i]) <= bound
    ensures Younger(timestamp, all, bound, w)
  {
    forall i | 0 <= i < |all| - |w| ensures timestamp(all[i]) <= bound {
      if i >= k { assert all[k..][i - k] == all[i]; }
    }
  }

  /** The state of a range window with newest timestamp `last`. */
  ghost predicate RangeState<T>(c: Config<T>, all: seq<T>, w: seq<T>) {
    all != [] ==>
      var last := c.timestamp(all[|all| - 1]);
      if last >= c.winSize then Younger(c.timestamp, all, last - c.winSize, w) else w == all
  }

  lemma {:induction false} RangeStateSnoc<T>(c: Config<T>, all: seq<T>, w: seq<T>, x: T)
    requires c.winType.RangeWindow? && RangeState(c, all, w) && |w| <= |all| && w == all[|all| - |w|..]
    requires NonDecreasing(c.timestamp, all + [x])
    ensures RangeState(c, all + [x], Evict(c, w + [x]))
  {
    EvictRange(c, w, x);
    if c.timestamp(x) >= c.winSize {
      EvictedStayOld(c, all, w, x);
      LateEviction(c, all, w, x);
      NewestIs(c, all, x, Evict(c, w + [x]));
    } else {
      NothingEvictedEarly(c, all, w, x);
      NewestIs(c, all, x, all + [x]);
    }
  }

  ghost predicate OlderUpTo<T>(timestamp: T -> int, all: seq<T>, k: nat, bound: int)
    requires k <= |all|
  {
    forall i :: 0 <= i < k ==> timestamp(all[i]) <= bound
  }

  lemma {:induction false} LateEviction<T>(c: Config<T>, all: seq<T>, w: seq<T>, x: T)
    requires |w| <= |all| && w == all[|all| - |w|..] && NonDecreasing(c.timestamp, all + [x])
    requires OlderUpTo(c.timestamp, all + [x], |all| - |w|, c.timestamp(x) - c.winSize)
    ensures Younger(c.timestamp, all + [x], c.timestamp(x) - c.winSize,
        DropOld(c.timestamp, w + [x], c.timestamp(x) - c.winSize))
  {
    TailOf(all, w, x);
    YoungerAfterDrop(c.timestamp, all + [x], |all| - |w|, w + [x], c.timestamp(x) - c.winSize);
  }

  lemma {:induction false} TailOf<T>(all: seq<T>, w: seq<T>, x: T)
    requires |w| <= |all| && w == all[|all| - |w|..]
    ensures w + [x] == (all + [x])[|all| - |w|..]
  {}

  /** Nothing was evicted while the timestamps were less than the window size. */
  lemma {:induction false} NothingEvictedEarly<T>(c: Config<T>, all: seq<T>, w: seq<T>, x: T)
    requires RangeState(c, all, w) && |w| <= |all| && w == all[|all| - |w|..] && NonDecreasing(c.timestamp, all + [x])
    requires c.timestamp(x) < c.winSize
    ensures w == all
  {
    if all != [] {
      assert InOrder(c.timestamp, all + [x], |all| - 1, |all|);
    }
  }

  lemma {:induction false} EvictRange<T>(c: Config<T>, w: seq<T>, x: T)
    requires c.winType.RangeWindow?
    ensures Evict(c, w + [x])
        == if c.timestamp(x) >= c.winSize then DropOld(c.timestamp, w + [x], c.timestamp(x) - c.winSize) else w + [x]
  {}

  lemma {:induction false} NewestIs<T>(c: Config<T>, all: seq<T>, x: T, r: seq<T>)
    requires
      if c.timestamp(x) >= c.winSize then Younger(c.timestamp, all + [x], c.timestamp(x) - c.winSize, r)
      else r == all + [x]
    ensures RangeState(c, all + [x], r)
  {}

  lemma {:induction false} YoungerAfterDrop<T>(timestamp: T -> int, all: seq<T>, k: nat, tail: seq<T>, bound: int)
    requires k <= |all| && tail == all[k..] && NonDecreasing(timestamp, all) && OlderUpTo(timestamp, all, k, bound)
    ensures Younger(timestamp, all, bound, DropOld(timestamp, tail, bound))
  {
    NonDecreasingTail(timestamp, all, k);
    DropOldYounger(timestamp, tail, bound);
    YoungerOfSuffix(timestamp, all, k, bound, DropOld(timestamp, tail, bound));
  }

  /** What was evicted before stays too old. */
  lemma {:induction false} EvictedStayOld<T>(c: Config<T>, all: seq<T>, w: seq<T>, x: T)
    requires RangeState(c, all, w) && |w| <= |all| && NonDecreasing(c.timestamp, all + [x])
    ensures OlderUpTo(c.timestamp, all + [x], |all| - |w|, c.timestamp(x) - c.winSize)
  {
    if all != [] {
      assert InOrder(c.timestamp, all + [x], |all| - 1, |all|);
    }
  }

  /** A range window is the part of the input younger than the newest tuple minus the window size; while
      the newest timestamp is less than the window size, it is the whole input. */
  lemma {:induction false} RangeWindowParts<T>(c: Config<T>, es: seq<Event<T>>)
    requires c.winType.RangeWindow? && NewOnly(es) && NonDecreasing(c.timestamp, Inserted(es))
    ensures RangeState(c, Inserted(es), Window(c, es))
  {
    if es == [] {
    } else {
      var init, x := es[..|es| - 1], es[|es| - 1].data;
      InsertedSnoc(es);
      NonDecreasingInit(c.timestamp, Inserted(init), x);
      RangeWindowParts(c, init);
      WindowIsSuffix(c, init);
      RangeStateSnoc(c, Inserted(init), Window(c, init), x);
    }
  }

  /** The early-time guard: the window is the part younger than the newest tuple minus the window size,
      exactly when the newest timestamp has reached the window size or the oldest input is still young. */
  lemma {:induction false} RangeWindowExact<T>(c: Config<T>, es: seq<Event<T>>)
    requires c.winType.RangeWindow? && es != [] && NewOnly(es) && NonDecreasing(c.timestamp, Inserted(es))
    ensures Inserted(es) != []
    ensures var last := c.timestamp(es[|es| - 1].data);
            Younger(c.timestamp, Inserted(es), last - c.winSize, Window(c, es)) <==>
            last >= c.winSize || c.timestamp(Inserted(es)[0]) > last - c.winSize
  {
    RangeWindowParts(c, es);
    InsertedSnoc(es);
    GuardExact(c, Inserted(es), Window(c, es));
  }

  lemma {:induction false} GuardExact<T>(c: Config<T>, all: seq<T>, w: seq<T>)
    requires all != [] && NonDecreasing(c.timestamp, all) && RangeState(c, all, w)
    ensures var last := c.timestamp(all[|all| - 1]);
            Younger(c.timestamp, all, last - c.winSize, w) <==>
            last >= c.winSize || c.timestamp(all[0]) > last - c.winSize
  {
    forall i | 0 <= i < |all| ensures c.timestamp(all[i]) >= c.timestamp(all[0]) {
      assert i > 0 ==> InOrder(c.timestamp, all, 0, i);
    }
  }

  /** With timestamps from 0 on the guard changes nothing. */
  lemma {:induction false} RangeWindowIsRecent<T>(c: Config<T>, es: seq<Event<T>>)
    requires c.winType.RangeWindow? && es != [] && NewOnly(es) && NonDecreasing(c.timestamp, Inserted(es))
    requires Inserted(es) != [] && c.timestamp(Inserted(es)[0]) >= 0
    ensures Younger(c.timestamp, Inserted(es), c.timestamp(es[|es| - 1].data) - c.winSize, Window(c, es))
  {
    RangeWindowExact(c, es);
  }

  /* ---- the output stream ---- */

  /** One new tuple, in terms of what the output inserts and expires. */
  lemma {:induction false} OutputStep<T>(c: Config<T>, es: seq<Event<T>>)
    requires es != [] && NewOnly(es)
    ensures var init, x := es[..|es| - 1], es[|es| - 1].data;
            var buf := Window(c, init) + [x];
            && Expired(Output(c, es)) == Expired(Output(c, init)) + Gone(c, buf)
            && Inserted(Output(c, es)) == Inserted(Output(c, init)) + [Forwarded(c, Evict(c, buf), x)]
  {
    var init, x := es[..|es| - 1], es[|es| - 1].data;
    var buf := Window(c, init) + [x];
    OutdateRun(Output(c, init), Gone(c, buf));
    LiveSnoc(Output(c, init) + Outdate(Gone(c, buf)), Event(Forwarded(c, Evict(c, buf), x), false));
  }

  /** Outdated outputs followed by the window are the input. */
  lemma {:induction false} SlidingConserves<T>(c: Config<T>, es: seq<Event<T>>)
    requires NewOnly(es)
    ensures Expired(Output(c, es)) + Window(c, es) == Inserted(es)
  {
    if es == [] {
    } else {
      var init, x := es[..|es| - 1], es[|es| - 1].data;
      var buf := Window(c, init) + [x];
      SlidingConserves(c, init);
      OutputStep(c, es);
      InsertedSnoc(es);
      Regroup(Expired(Output(c, init)), Window(c, init), Inserted(init), x, Gone(c, buf), Evict(c, buf));
    }
  }

  /** A window of positive size never gives up the incoming tuple. */
  lemma {:induction false} KeepsIncoming<T>(c: Config<T>, buf: seq<T>)
    requires buf != []
    ensures c.winSize > 0 ==> Evict(c, buf) != []
  {
    if c.winType.RangeWindow? && c.timestamp(buf[|buf| - 1]) >= c.winSize {
      DropOldKeepsLast(c.timestamp, buf, c.timestamp(buf[|buf| - 1]) - c.winSize);
    }
  }

  lemma {:induction false} DropOldKeepsLast<T>(timestamp: T -> int, buf: seq<T>, bound: int)
    requires buf != []
    ensures timestamp(buf[|buf| - 1]) > bound ==> DropOld(timestamp, buf, bound) != []
  {
    if timestamp(buf[0]) > bound || |buf| == 1 {
    } else {
      var rest := buf[1..];
      DropOldKeepsLast(timestamp, rest, bound);
      assert rest[|rest| - 1] == buf[|buf| - 1];
    }
  }

  /** The tuple published for input number `i`. */
  function PublishedFor<T>(c: Config<T>, es: seq<Event<T>>, i: nat): T
    requires i < |es|
  {
    Forwarded(c, Window(c, es[..i + 1]), es[i].data)
  }

  /** Every tuple that has left the window was published unchanged. */
  ghost predicate LeavesUnchanged<T>(c: Config<T>, es: seq<Event<T>>) {
    UnchangedUpTo(c, es, |es| - |Window(c, es)|)
  }

  ghost predicate UnchangedUpTo<T>(c: Config<T>, es: seq<Event<T>>, n: nat)
    requires n <= |es|
  {
    forall i :: 0 <= i < n ==> PublishedFor(c, es, i) == es[i].data
  }

  ghost predicate Publishes<T>(c: Config<T>, es: seq<Event<T>>, published: seq<T>) {
    |published| == |es| && forall i :: 0 <= i < |es| ==> published[i] == PublishedFor(c, es, i)
  }

  lemma {:induction false} PublishesSnoc<T>(c: Config<T>, es: seq<Event<T>>, published: seq<T>, e: Event<T>)
    requires Publishes(c, es, published)
    ensures Publishes(c, es + [e], published + [PublishedFor(c, es + [e], |es|)])
  {
    forall i | 0 <= i < |es| ensures PublishedFor(c, es, i) == PublishedFor(c, es + [e], i) {
      assert (es + [e])[..i + 1] == es[..i + 1];
    }
  }

  lemma {:induction false} PublishedNext<T>(c: Config<T>, es: seq<Event<T>>, x: T)
    requires NewOnly(es)
    ensures var all := es + [Event(x, false)];
            Inserted(Output(c, all)) == Inserted(Output(c, es)) + [PublishedFor(c, all, |es|)]
  {
    var all := es + [Event(x, false)];
    assert all[..|es|] == es && all[..|es| + 1] == all;
    OutputStep(c, all);
    WindowSnoc(c, es, x);
  }

  /** The output inserts exactly the published tuples. */
  lemma {:induction false} PublishedAt<T>(c: Config<T>, es: seq<Event<T>>)
    requires NewOnly(es)
    ensures Publishes(c, es, Inserted(Output(c, es)))
    decreases |es|
  {
    if es == [] {
    } else {
      var init, x := SnocOfNew(es);
      PublishedAt(c, init);
      PublishedNext(c, init, x);
      PublishesSnoc(c, init, Inserted(Output(c, init)), Event(x, false));
    }
  }

  /** The window function is called for every tuple, with the window as it is after the eviction and with the
      tuple itself, and its results are published in the order of the input; without a function the tuples
      themselves are. */
  lemma {:induction false} FunctionApplied<T>(c: Config<T>, es: seq<Event<T>>, i: nat)
    requires NewOnly(es) && i < |es|
    ensures |Inserted(Output(c, es))| == |es|
    ensures Inserted(Output(c, es))[i]
         == if c.op.Some? then c.op.value(Window(c, es[..i + 1]), es[i].data) else es[i].data
  {
    PublishedAt(c, es);
    assert Inserted(Output(c, es))[i] == PublishedFor(c, es, i);
  }

  /** What is published for input `i` is the value of the function for `w` and the tuple. */
  ghost predicate ValueOn<T>(c: Config<T>, es: seq<Event<T>>, i: nat, w: seq<T>)
    requires i < |es| && c.op.Some?
  {
    |Inserted(Output(c, es))| == |es| && Inserted(Output(c, es))[i] == c.op.value(w, es[i].data)
  }

  /** For a row window it is called with the last winSize tuples. */
  lemma {:induction false} FunctionOfRow<T>(c: Config<T>, es: seq<Event<T>>, i: nat, from: nat)
    requires NewOnly(es) && i < |es| && c.winType.RowWindow? && c.op.Some?
    requires from == if i + 1 > c.winSize then i + 1 - c.winSize else 0
    ensures |Inserted(es)| == |es| && ValueOn(c, es, i, Inserted(es)[from..i + 1])
  {
    var w := RowAt(c, es, i + 1, from);
    AppliedTo(c, es, i, w);
  }

  lemma {:induction false} AppliedTo<T>(c: Config<T>, es: seq<Event<T>>, i: nat, w: seq<T>)
    requires NewOnly(es) && i < |es| && c.op.Some? && w == Window(c, es[..i + 1])
    ensures ValueOn(c, es, i, w)
  {
    FunctionApplied(c, es, i);
  }

  lemma {:induction false} RowAt<T>(c: Config<T>, es: seq<Event<T>>, n: nat, from: nat) returns (w: seq<T>)
    requires NewOnly(es) && n <= |es| && c.winType.RowWindow? && from == if n > c.winSize then n - c.winSize else 0
    ensures |Inserted(es)| == |es| && w == Window(c, es[..n]) == Inserted(es)[from..n]
  {
    w := Window(c, es[..n]);
    RowIsLast(c, es[..n]);
    InsertedPrefix(es, n);
    InsertedNew(es);
    LastOfPrefix(Inserted(es), n, c.winSize);
  }

  lemma {:induction false} LastOfPrefix<T>(all: seq<T>, n: nat, size: nat)
    requires n <= |all|
    ensures LastOf(all[..n], size) == all[if n > size then n - size else 0..n]
  {}

  /** Outdated input passes through behind whatever came before; the window does not change. */
  lemma {:induction false} OutdatedPassesThrough<T>(c: Config<T>, es: seq<Event<T>>, x: T)
    ensures Output(c, es + [Event(x, true)]) == Output(c, es) + [Event(x, true)]
    ensures Window(c, es + [Event(x, true)]) == Window(c, es)
  {
    assert (es + [Event(x, true)])[..|es|] == es;
  }

  /** Size 0 without effect: only a range window whose tuples are all older than time 0 lets none of them go. */
  ghost predicate NothingExpires<T>(c: Config<T>, es: seq<Event<T>>) {
    forall i :: 0 <= i < |es| ==> c.winType.RangeWindow? && c.timestamp(es[i].data) < 0
  }

  /** What is published in a step is not outdated before. */
  ghost predicate GoneBefore<T>(c: Config<T>, init: seq<Event<T>>, x: T) {
    |Gone(c, Window(c, init) + [x])| <= |Window(c, init)|
  }

  lemma {:induction false} NextInTime<T>(c: Config<T>, init: seq<Event<T>>, x: T)
    requires NewOnly(init) && InTime(Output(c, init)) && GoneBefore(c, init, x)
    ensures InTime(Output(c, init + [Event(x, false)]))
  {
    var out, gone := Output(c, init), Gone(c, Window(c, init) + [x]);
    WindowSnoc(c, init, x);
    SlidingConserves(c, init);
    InsertedNew(init);
    PublishedAt(c, init);
    OutdateInTime(out, gone);
    InsertInTime(out + Outdate(gone), Forwarded(c, Evict(c, Window(c, init) + [x]), x));
  }

  lemma {:induction false} NothingExpiresSnoc<T>(c: Config<T>, es: seq<Event<T>>, x: T)
    ensures NothingExpires(c, es + [Event(x, false)]) <==>
            NothingExpires(c, es) && c.winType.RangeWindow? && c.timestamp(x) < 0
  {
    var all := es + [Event(x, false)];
    assert all[|es|].data == x && forall i :: 0 <= i < |es| ==> all[i] == es[i];
  }

  /** A window of positive size outdates nothing before it was published. */
  lemma {:induction false} PositiveInTime<T>(c: Config<T>, es: seq<Event<T>>)
    requires c.winSize > 0 && NewOnly(es)
    ensures InTime(Output(c, es))
    decreases |es|
  {
    if es == [] {
    } else {
      var init, x := SnocOfNew(es);
      PositiveInTime(c, init);
      KeepsIncoming(c, Window(c, init) + [x]);
      NextInTime(c, init, x);
    }
  }

  lemma {:induction false} NothingExpiresInTime<T>(c: Config<T>, es: seq<Event<T>>)
    requires c.winSize == 0 && NewOnly(es) && NothingExpires(c, es)
    ensures InTime(Output(c, es)) && |Window(c, es)| == |es|
    decreases |es|
  {
    if es == [] {
    } else {
      var init, x := SnocOfNew(es);
      NothingExpiresSnoc(c, init, x);
      NothingExpiresInTime(c, init);
      WindowSnoc(c, init, x);
      NextInTime(c, init, x);
    }
  }

  lemma {:induction false} DropAll<T>(timestamp: T -> int, buf: seq<T>, bound: int)
    requires forall i :: 0 <= i < |buf| ==> timestamp(buf[i]) <= bound
    ensures DropOld(timestamp, buf, bound) == []
  {
    if buf == [] {
    } else {
      DropAll(timestamp, buf[1..], bound);
    }
  }

  lemma {:induction false} AllGone<T>(c: Config<T>, w: seq<T>, x: T)
    requires c.winSize == 0 && (c.winType.RangeWindow? ==> c.timestamp(x) >= 0)
    requires c.winType.RangeWindow? ==> forall i :: 0 <= i < |w| ==> c.timestamp(w[i]) < 0
    ensures Gone(c, w + [x]) == w + [x]
  {
    if c.winType.RangeWindow? {
      DropAll(c.timestamp, w + [x], c.timestamp(x));
    }
  }

  /** The first tuple that expires from a window of size 0 is outdated together with everything before it,
      and only then published. */
  lemma {:induction false} TooEarly<T>(c: Config<T>, init: seq<Event<T>>, x: T)
    requires c.winSize == 0 && NewOnly(init) && NothingExpires(c, init)
    requires c.winType.RangeWindow? ==> c.timestamp(x) >= 0
    ensures !InTime(Output(c, init + [Event(x, false)]))
  {
    NothingExpiresInTime(c, init);
    SlidingConserves(c, init);
    InsertedNew(init);
    PublishedAt(c, init);
    WholeInput(Expired(Output(c, init)), Window(c, init), Inserted(init));
    AllGone(c, Window(c, init), x);
    WindowSnoc(c, init, x);
    TooMany(Output(c, init), Window(c, init) + [x],
            [Event(Forwarded(c, Evict(c, Window(c, init) + [x]), x), false)]);
  }

  lemma {:induction false} WholeInput<T>(exp: seq<T>, w: seq<T>, xs: seq<T>)
    requires exp + w == xs && |w| == |xs|
    ensures exp == [] && w == xs
  {}

  /** From the first tuple on that expires at once, the stream is not in time. */
  lemma {:induction false} ExpiresTooEarly<T>(c: Config<T>, es: seq<Event<T>>)
    requires c.winSize == 0 && NewOnly(es) && !NothingExpires(c, es)
    ensures !InTime(Output(c, es))
    decreases |es|
  {
    var init, x := SnocOfNew(es);
    NothingExpiresSnoc(c, init, x);
    if NothingExpires(c, init) {
      TooEarly(c, init, x);
    } else {
      ExpiresTooEarly(c, init);
      WindowSnoc(c, init, x);
      TooEarlyForever(Output(c, init), Output(c, es));
    }
  }

  /** Nothing is outdated before it was published exactly when the size is positive or nothing expires. */
  lemma {:induction false} SlidingInTime<T>(c: Config<T>, es: seq<Event<T>>)
    requires NewOnly(es)
    ensures InTime(Output(c, es)) <==> c.winSize > 0 || NothingExpires(c, es)
  {
    if c.winSize > 0 {
      PositiveInTime(c, es);
    } else if NothingExpires(c, es) {
      NothingExpiresInTime(c, es);
    } else {
      ExpiresTooEarly(c, es);
    }
  }

  /** The output expires in FIFO order exactly when the window has a positive size, or nothing ever expires,
      and every tuple that has left the window was published unchanged. */
  lemma {:induction false} SlidingFifoExact<T>(c: Config<T>, es: seq<Event<T>>)
    requires NewOnly(es)
    ensures Fifo(Output(c, es)) <==> (c.winSize > 0 || NothingExpires(c, es)) && LeavesUnchanged(c, es)
  {
    FifoIsInOrder(Output(c, es));
    SlidingInTime(c, es);
    SlidingConserves(c, es);
    InsertedNew(es);
    PublishedAt(c, es);
    ExpiredUnchanged(Expired(Output(c, es)), Window(c, es), Inserted(es), Inserted(Output(c, es)));
  }

  /** What was published for the tuples in the window. */
  ghost function PublishedWindow<T>(c: Config<T>, es: seq<Event<T>>): seq<T> {
    var n := |Window(c, es)|;
    seq(n, j requires 0 <= j < n => PublishedFor(c, es, |es| - n + j))
  }

  /** The live elements of a FIFO output are what was published for the tuples in the window. */
  lemma {:induction false} SlidingLive<T>(c: Config<T>, es: seq<Event<T>>)
    requires NewOnly(es) && (c.winSize > 0 || NothingExpires(c, es)) && LeavesUnchanged(c, es)
    ensures Live(Output(c, es)) == multiset(PublishedWindow(c, es))
  {
    SlidingFifoExact(c, es);
    SlidingConserves(c, es);
    InsertedNew(es);
    FifoLive(Output(c, es));
    PublishedTail(c, es, |Expired(Output(c, es))|);
  }

  lemma {:induction false} ShownAt<T>(c: Config<T>, es: seq<Event<T>>, j: nat)
    requires j < |Window(c, es)|
    ensures PublishedWindow(c, es)[j] == PublishedFor(c, es, |es| - |Window(c, es)| + j)
  {}

  lemma {:induction false} PublishedTail<T>(c: Config<T>, es: seq<Event<T>>, k: nat)
    requires NewOnly(es) && k + |Window(c, es)| == |es|
    ensures k <= |Inserted(Output(c, es))| && Inserted(Output(c, es))[k..] == PublishedWindow(c, es)
  {
    PublishedAt(c, es);
    var ins, shown := Inserted(Output(c, es)), PublishedWindow(c, es);
    forall j | 0 <= j < |shown| ensures ins[k + j] == shown[j] {
      ShownAt(c, es, j);
    }
    TailIs(ins, k, shown);
  }

  /** The window holds the newest tuples. */
  lemma {:induction false} WindowAt<T>(c: Config<T>, es: seq<Event<T>>, j: nat)
    requires NewOnly(es) && j < |Window(c, es)|
    ensures Window(c, es)[j] == es[|es| - |Window(c, es)| + j].data
  {
    WindowIsSuffix(c, es);
    InsertedNew(es);
    SuffixAt(Inserted(es), Window(c, es), j);
  }

  lemma {:induction false} SuffixAt<T>(all: seq<T>, w: seq<T>, j: nat)
    requires IsSuffix(all, w) && j < |w|
    ensures w[j] == all[|all| - |w| + j]
  {}

  /** Tuples in front of the window that were published unchanged are shown as they are. */
  lemma {:induction false} ShownUnchanged<T>(c: Config<T>, es: seq<Event<T>>, n: nat)
    requires NewOnly(es) && n <= |Window(c, es)| && UnchangedUpTo(c, es, |es| - |Window(c, es)| + n)
    ensures PublishedWindow(c, es)[..n] == Window(c, es)[..n]
  {
    var w, shown := Window(c, es), PublishedWindow(c, es);
    forall j | 0 <= j < n ensures shown[j] == w[j] {
      WindowAt(c, es, j);
      ShownAt(c, es, j);
    }
    SameFront(shown, w, n);
  }

  lemma {:induction false} SameFront<T>(a: seq<T>, b: seq<T>, n: nat)
    requires n <= |a| && n <= |b| && forall j :: 0 <= j < n ==> a[j] == b[j]
    ensures a[..n] == b[..n]
  {}

  /** A function that passes the tuples on, or none, shows the window itself. */
  lemma {:induction false} PassedOn<T(!new)>(c: Config<T>, es: seq<Event<T>>)
    requires NewOnly(es) && PassesOn(c)
    ensures LeavesUnchanged(c, es) && PublishedWindow(c, es) == Window(c, es)
  {
    var w, shown := Window(c, es), PublishedWindow(c, es);
    ShownUnchanged(c, es, |w|);
    assert w[..|w|] == w && shown[..|w|] == shown;
  }
}

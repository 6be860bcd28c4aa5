/** The tumbling window operator. */
module TumblingWindow {
  import opened Wrappers
  import opened Streams
  import opened Windows

  /** What leaves the operator: tuples on the data channel, WindowExpired on the punctuation channel. */
  datatype Out<T> = Data(event: Event<T>) | WindowExpired

  function Wrap<T>(es: seq<Event<T>>): seq<Out<T>> {
    if es == [] then [] else Wrap(es[..|es| - 1]) + [Data(es[|es| - 1])]
  }

  function DataOf<T>(out: seq<Out<T>>): seq<Event<T>> {
    if out == [] then []
    else if out[|out| - 1].Data? then DataOf(out[..|out| - 1]) + [out[|out| - 1].event]
    else DataOf(out[..|out| - 1])
  }

  /** The number of WindowExpired punctuations. */
  function Expirations<T>(out: seq<Out<T>>): nat {
    if out == [] then 0
    else Expirations(out[..|out| - 1]) + if out[|out| - 1].WindowExpired? then 1 else 0
  }

  lemma {:induction false} OutSnoc<T>(out: seq<Out<T>>, o: Out<T>)
    ensures DataOf(out + [o]) == if o.Data? then DataOf(out) + [o.event] else DataOf(out)
    ensures Expirations(out + [o]) == Expirations(out) + if o.WindowExpired? then 1 else 0
  {
    assert (out + [o])[..|out|] == out;
  }

  lemma {:induction false} OutAppendWrap<T>(out: seq<Out<T>>, es: seq<Event<T>>)
    ensures DataOf(out + Wrap(es)) == DataOf(out) + es
    ensures Expirations(out + Wrap(es)) == Expirations(out)
  {
    if es == [] {
      assert out + Wrap(es) == out;
    } else {
      var init, e := es[..|es| - 1], es[|es| - 1];
      OutAppendWrap(out, init);
      ConcatSnoc(out, Wrap(init), Data(e));
      OutSnoc(out + Wrap(init), Data(e));
      ConcatSnoc(DataOf(out), init, e);
      assert init + [e] == es;
    }
  }

  lemma {:induction false} WrapSnoc<T>(es: seq<Event<T>>, e: Event<T>)
    ensures Wrap(es + [e]) == Wrap(es) + [Data(e)]
  {
    assert (es + [e])[..|es|] == es;
  }

  /* ---- buffer and output as functions of the input ---- */

  /** A row window expires when it is full, a range window when its oldest tuple is too old. */
  predicate Expires<T>(c: Config<T>, buf: seq<T>)
    requires buf != []
  {
    match c.winType
    case RowWindow => |buf| == c.winSize
    case RangeWindow =>
      var last := c.timestamp(buf[|buf| - 1]);
      last >= c.winSize && c.timestamp(buf[0]) <= last - c.winSize
  }

  /** The tuples an expiring window gives up: all, or all but the newest. */
  function Given<T>(c: Config<T>, buf: seq<T>): seq<T>
    requires buf != []
  {
    if !Expires(c, buf) then [] else if c.winType.RowWindow? then buf else buf[..|buf| - 1]
  }

  function Kept<T>(c: Config<T>, buf: seq<T>): seq<T>
    requires buf != []
  {
    if !Expires(c, buf) then buf else if c.winType.RowWindow? then [] else [buf[|buf| - 1]]
  }

  function Window<T>(c: Config<T>, es: seq<Event<T>>): (w: seq<T>)
    ensures |w| <= |es|
  {
    if es == [] then []
    else
      var init, e := es[..|es| - 1], es[|es| - 1];
      if e.outdated then Window(c, init) else Kept(c, Window(c, init) + [e.data])
  }

  /** `out` after the eviction check. */
  function AfterEviction<T>(c: Config<T>, buf: seq<T>, out: seq<Out<T>>): seq<Out<T>>
    requires buf != []
  {
    if Expires(c, buf) then out + Wrap(Outdate(Given(c, buf))) + [WindowExpired] else out
  }

  /** With a window function the incoming tuple is published before the eviction check, without one after. */
  function Output<T>(c: Config<T>, es: seq<Event<T>>): seq<Out<T>> {
    if es == [] then []
    else
      var init, e := es[..|es| - 1], es[|es| - 1];
      if e.outdated then Output(c, init) + [Data(e)]
      else
        var buf := Window(c, init) + [e.data];
        var incoming := Data(Event(Forwarded(c, buf, e.data), false));
        if c.op.Some? then AfterEviction(c, buf, Output(c, init) + [incoming])
        else AfterEviction(c, buf, Output(c, init)) + [incoming]
  }

  /** What the window `w` becomes with the tuple `x`, and what is sent: the tuple, or what the function makes of the
      whole window and it; and if the window is complete, the tuples that leave and one punctuation. With a
      function the tuple comes first, without one last. */
  ghost predicate Takes<T>(c: Config<T>, w: seq<T>, x: T, w': seq<T>, out: seq<Out<T>>, out': seq<Out<T>>) {
    var all := w + [x];
    var own := [Data(Event(if c.op.Some? then c.op.value(all, x) else x, false))];
    var complete := if c.winType.RowWindow? then |all| == c.winSize else FirstIsOld(c, w, x);
    var gone := if !complete then [] else if c.winType.RowWindow? then all else w;
    var expiry := if complete then Wrap(Outdate(gone)) + [WindowExpired] else [];
    && gone + w' == all
    && out' == out + (if c.op.Some? then own + expiry else expiry + own)
  }

  /** The new tuple has reached the window size, and the first tuple of the window is at least that much older. */
  predicate FirstIsOld<T>(c: Config<T>, w: seq<T>, x: T) {
    c.timestamp(x) >= c.winSize && c.timestamp((w + [x])[0]) <= c.timestamp(x) - c.winSize
  }

  /** One new tuple: the window and everything that is sent, in its order. */
  lemma {:induction false} TakesTuple<T>(c: Config<T>, es: seq<Event<T>>, x: T)
    ensures
      var all := es + [Event(x, false)];
      Takes(c, Window(c, es), x, Window(c, all), Output(c, es), Output(c, all))
  {
    assert (es + [Event(x, false)])[..|es|] == es;
    TakesNext(c, Window(c, es), x, Output(c, es));
  }

  lemma {:induction false} TakesNext<T>(c: Config<T>, w: seq<T>, x: T, out: seq<Out<T>>)
    ensures
      var all := w + [x];
      var own := Data(Event(Forwarded(c, all, x), false));
      Takes(c, w, x, Kept(c, all), out,
            if c.op.Some? then AfterEviction(c, all, out + [own]) else AfterEviction(c, all, out) + [own])
  {
    var all := w + [x];
    assert all[..|all| - 1] == w && all[|all| - 1] == x;
    var own := [Data(Event(Forwarded(c, all, x), false))];
    if Expires(c, all) {
      Concat4(out, own, Wrap(Outdate(Given(c, all))), [WindowExpired]);
      Concat4(out, Wrap(Outdate(Given(c, all))), [WindowExpired], own);
    }
  }

  lemma {:induction false} Concat4<T>(a: seq<T>, b: seq<T>, c: seq<T>, d: seq<T>)
    ensures ((a + b) + c) + d == a + (b + (c + d)) == a + ((b + c) + d)
  {}

  /* ---- the operator ---- */

  class TumblingWindow<T(!new)> {
    const c: Config<T>
    var mTupleBuf: seq<T>
    var mCurrSize: nat
    var out: seq<Out<T>>
    ghost var input: seq<Event<T>>

    ghost predicate Valid()
      reads this
    {
      mTupleBuf == Window(c, input) && mCurrSize == |mTupleBuf| && out == Output(c, input)
    }

    constructor (c: Config<T>)
      ensures Valid() && this.c == c && input == [] && out == []
    {
      this.c := c;
      mTupleBuf, mCurrSize, out, input := [], 0, [], [];
    }

    method ProcessDataElement(data: T, outdated: bool)
      requires Valid()
      modifies this
      ensures Valid() && input == old(input) + [Event(data, outdated)]
      ensures outdated ==> mTupleBuf == old(mTupleBuf) && out == old(out) + [Data(Event(data, true))]
    {
      assert (input + [Event(data, outdated)])[..|input|] == input;
      if outdated {
        out := out + [Data(Event(data, outdated))];
      } else {
        mTupleBuf := mTupleBuf + [data];
        mCurrSize := mCurrSize + 1;
        match c.op {
          case Some(windowOp) =>
            out := out + [Data(Event(windowOp(mTupleBuf, data), outdated))];
            CheckEviction();
          case None =>
            CheckEviction();
            out := out + [Data(Event(data, outdated))];
        }
      }
      input := input + [Event(data, outdated)];
    }

    method CheckEviction()
      requires mTupleBuf != [] && mCurrSize == |mTupleBuf|
      modifies this`mTupleBuf, this`mCurrSize, this`out
      ensures mTupleBuf == Kept(c, old(mTupleBuf)) && mCurrSize == |mTupleBuf|
      ensures out == AfterEviction(c, old(mTupleBuf), old(out))
    {
      match c.winType {
        case RowWindow => EvictByCount();
        case RangeWindow => EvictByTime();
      }
    }

    /** Publishes the first `end` tuples of the buffer as outdated. */
    method PublishOutdated(end: nat)
      requires end <= |mTupleBuf|
      modifies this`out
      ensures out == old(out) + Wrap(Outdate(mTupleBuf[..end]))
    {
      var it := 0;
      while it != end
        invariant 0 <= it <= end
        invariant out == old(out) + Wrap(Outdate(mTupleBuf[..it]))
      {
        OutdateNext(mTupleBuf, it);
        WrapSnoc(Outdate(mTupleBuf[..it]), Event(mTupleBuf[it], true));
        out := out + [Data(Event(mTupleBuf[it], true))];
        it := it + 1;
      }
    }

    method EvictByCount()
      requires c.winType.RowWindow? && mTupleBuf != [] && mCurrSize == |mTupleBuf|
      modifies this`mTupleBuf, this`mCurrSize, this`out
      ensures mTupleBuf == Kept(c, old(mTupleBuf)) && mCurrSize == |mTupleBuf|
      ensures out == AfterEviction(c, old(mTupleBuf), old(out))
    {
      if mCurrSize == c.winSize {
        PublishOutdated(|mTupleBuf|);
        assert mTupleBuf[..|mTupleBuf|] == mTupleBuf;
        mCurrSize := 0;
        mTupleBuf := [];
        out := out + [WindowExpired];
      }
    }

    method EvictByTime()
      requires c.winType.RangeWindow? && mTupleBuf != [] && mCurrSize == |mTupleBuf|
      modifies this`mTupleBuf, this`mCurrSize, this`out
      ensures mTupleBuf == Kept(c, old(mTupleBuf)) && mCurrSize == |mTupleBuf|
      ensures out == AfterEviction(c, old(mTupleBuf), old(out))
    {
      var lastTupleTime := c.timestamp(mTupleBuf[|mTupleBuf| - 1]);
      if lastTupleTime >= c.winSize {
        var acceptedTime := lastTupleTime - c.winSize;
        if c.timestamp(mTupleBuf[0]) <= acceptedTime {
          PublishOutdated(|mTupleBuf| - 1);
          mCurrSize := 1;
          mTupleBuf := mTupleBuf[|mTupleBuf| - 1..];
          out := out + [WindowExpired];
        }
      }
    }
  }

  /** Outdated input passes through behind whatever came before; the window does not change. */
  lemma {:induction false} OutdatedPassesThrough<T>(c: Config<T>, es: seq<Event<T>>, x: T)
    ensures Output(c, es + [Event(x, true)]) == Output(c, es) + [Data(Event(x, true))]
    ensures Window(c, es + [Event(x, true)]) == Window(c, es)
  {
    assert (es + [Event(x, true)])[..|es|] == es;
  }

  /* ---- conservation and blocks ---- */

  lemma {:induction false} GivenAndKept<T>(c: Config<T>, buf: seq<T>)
    requires buf != []
    ensures Given(c, buf) + Kept(c, buf) == buf
  {}

  lemma {:induction false} EvictionStep<T>(c: Config<T>, buf: seq<T>, out: seq<Out<T>>)
    requires buf != []
    ensures DataOf(AfterEviction(c, buf, out)) == DataOf(out) + Outdate(Given(c, buf))
    ensures Expirations(AfterEviction(c, buf, out)) == Expirations(out) + if Expires(c, buf) then 1 else 0
  {
    if Expires(c, buf) {
      OutAppendWrap(out, Outdate(Given(c, buf)));
      OutSnoc(out + Wrap(Outdate(Given(c, buf))), WindowExpired);
    } else {
      assert DataOf(out) + [] == DataOf(out);
    }
  }

  /** One new tuple, on the data channel and in the number of punctuations. */
  lemma {:induction false} OutputStep<T>(c: Config<T>, es: seq<Event<T>>)
    requires es != [] && NewOnly(es)
    ensures var init, x := es[..|es| - 1], es[|es| - 1].data;
            var buf, data := Window(c, init) + [x], DataOf(Output(c, init));
            var e := Event(Forwarded(c, buf, x), false);
            && DataOf(Output(c, es))
                == (if c.op.Some? then (data + [e]) + Outdate(Given(c, buf)) else (data + Outdate(Given(c, buf))) + [e])
            && Expirations(Output(c, es)) == Expirations(Output(c, init)) + if Expires(c, buf) then 1 else 0
  {
    var init, x := es[..|es| - 1], es[|es| - 1].data;
    var buf := Window(c, init) + [x];
    var incoming := Data(Event(Forwarded(c, buf, x), false));
    if c.op.Some? {
      OutSnoc(Output(c, init), incoming);
      EvictionStep(c, buf, Output(c, init) + [incoming]);
    } else {
      EvictionStep(c, buf, Output(c, init));
      OutSnoc(AfterEviction(c, buf, Output(c, init)), incoming);
    }
  }

  lemma {:induction false} DataStep<T>(c: Config<T>, es: seq<Event<T>>)
    requires es != [] && NewOnly(es)
    ensures var init, x := es[..|es| - 1], es[|es| - 1].data;
            var buf, data := Window(c, init) + [x], DataOf(Output(c, init));
            && Expired(DataOf(Output(c, es))) == Expired(data) + Given(c, buf)
            && Inserted(DataOf(Output(c, es))) == Inserted(data) + [Forwarded(c, buf, x)]
  {
    OutputStep(c, es);
    var init, x := es[..|es| - 1], es[|es| - 1].data;
    var buf, data := Window(c, init) + [x], DataOf(Output(c, init));
    var e, given := Event(Forwarded(c, buf, x), false), Given(c, buf);
    if c.op.Some? {
      LiveSnoc(data, e);
      OutdateRun(data + [e], given);
    } else {
      OutdateRun(data, given);
      LiveSnoc(data + Outdate(given), e);
    }
  }

  /** Outdated outputs followed by the window are the input. */
  lemma {:induction false} TumblingConserves<T>(c: Config<T>, es: seq<Event<T>>)
    requires NewOnly(es)
    ensures Expired(DataOf(Output(c, es))) + Window(c, es) == Inserted(es)
  {
    if es == [] {
    } else {
      var init, x := es[..|es| - 1], es[|es| - 1].data;
      var buf := Window(c, init) + [x];
      TumblingConserves(c, init);
      DataStep(c, es);
      InsertedSnoc(es);
      GivenAndKept(c, buf);
      Regroup(Expired(DataOf(Output(c, init))), Window(c, init), Inserted(init), x, Given(c, buf), Kept(c, buf));
    }
  }

  /** Row windows expire in blocks of exactly winSize tuples, with one punctuation per block. */
  lemma {:induction false} RowBlocks<T>(c: Config<T>, es: seq<Event<T>>)
    requires c.winType.RowWindow? && c.winSize > 0 && NewOnly(es)
    ensures |Window(c, es)| < c.winSize
    ensures |es| == c.winSize * Expirations(Output(c, es)) + |Window(c, es)|
  {
    InBlocks(c, es);
  }

  ghost predicate Blocks(size: nat, n: nat, k: nat, w: nat) {
    w < size && n == size * k + w
  }

  lemma {:induction false} InBlocks<T>(c: Config<T>, es: seq<Event<T>>)
    requires c.winType.RowWindow? && c.winSize > 0 && NewOnly(es)
    ensures Blocks(c.winSize, |es|, Expirations(Output(c, es)), |Window(c, es)|)
    decreases |es|
  {
    if es == [] {
    } else {
      var init, x := SnocOfNew(es);
      InBlocks(c, init);
      RowSnoc(c, init, x);
      NextInBlocks(c.winSize, |init|, Expirations(Output(c, init)), |Window(c, init)|);
    }
  }

  lemma {:induction false} NextInBlocks(size: nat, n: nat, k: nat, w: nat)
    requires Blocks(size, n, k, w)
    ensures if w + 1 == size then Blocks(size, n + 1, k + 1, 0) else Blocks(size, n + 1, k, w + 1)
  {
    NextBlock(size, k);
  }

  lemma {:induction false} RowSnoc<T>(c: Config<T>, init: seq<Event<T>>, x: T)
    requires c.winType.RowWindow? && NewOnly(init)
    ensures
      var es, n, k := init + [Event(x, false)], |Window(c, init)|, Expirations(Output(c, init));
      if n + 1 == c.winSize then |Window(c, es)| == 0 && Expirations(Output(c, es)) == k + 1
      else |Window(c, es)| == n + 1 && Expirations(Output(c, es)) == k
  {
    assert (init + [Event(x, false)])[..|init|] == init;
    OutputStep(c, init + [Event(x, false)]);
  }

  lemma {:induction false} NextBlock(size: nat, k: nat)
    ensures size * (k + 1) == size * k + size
  {}

  /** A row window of size 0 never expires. */
  lemma {:induction false} RowOfSizeZero<T>(c: Config<T>, es: seq<Event<T>>)
    requires c.winType.RowWindow? && c.winSize == 0 && NewOnly(es)
    ensures Window(c, es) == Inserted(es) && Expirations(Output(c, es)) == 0
  {
    if es == [] {
    } else {
      RowOfSizeZero(c, es[..|es| - 1]);
      InsertedSnoc(es);
      OutputStep(c, es);
    }
  }

  /** The window only grows: nothing is outdated and no punctuation is sent. */
  ghost predicate OnlyJoins<T>(c: Config<T>, es: seq<Event<T>>, x: T) {
    var all := es + [Event(x, false)];
    && Window(c, all) == Window(c, es) + [x]
    && Expired(DataOf(Output(c, all))) == Expired(DataOf(Output(c, es)))
    && Expirations(Output(c, all)) == Expirations(Output(c, es))
  }

  /** All earlier tuples leave with one punctuation, and the new one starts the next window. */
  ghost predicate StartsOver<T>(c: Config<T>, es: seq<Event<T>>, x: T) {
    var all := es + [Event(x, false)];
    && Window(c, all) == [x]
    && Expired(DataOf(Output(c, all))) == Expired(DataOf(Output(c, es))) + Window(c, es)
    && Expirations(Output(c, all)) == Expirations(Output(c, es)) + 1
  }

  lemma {:induction false} WindowNext<T>(c: Config<T>, es: seq<Event<T>>, x: T)
    ensures Window(c, es + [Event(x, false)]) == Kept(c, Window(c, es) + [x])
  {
    assert (es + [Event(x, false)])[..|es|] == es;
  }

  lemma {:induction false} OutputNext<T>(c: Config<T>, es: seq<Event<T>>, x: T)
    requires NewOnly(es)
    ensures var all, buf := es + [Event(x, false)], Window(c, es) + [x];
            && Expired(DataOf(Output(c, all))) == Expired(DataOf(Output(c, es))) + Given(c, buf)
            && Expirations(Output(c, all)) == Expirations(Output(c, es)) + if Expires(c, buf) then 1 else 0
  {
    var all := es + [Event(x, false)];
    assert all[..|all| - 1] == es && all[|all| - 1].data == x;
    OutputStep(c, all);
    DataStep(c, all);
  }

  lemma {:induction false} RangeKept<T>(c: Config<T>, w: seq<T>, x: T)
    requires c.winType.RangeWindow?
    ensures Expires(c, w + [x]) <==> FirstIsOld(c, w, x)
    ensures Expires(c, w + [x]) ==> Given(c, w + [x]) == w && Kept(c, w + [x]) == [x]
    ensures !Expires(c, w + [x]) ==> Given(c, w + [x]) == [] && Kept(c, w + [x]) == w + [x]
  {}

  /** One more tuple in a range window, whatever the order of the timestamps. */
  lemma {:induction false} RangeStep<T>(c: Config<T>, es: seq<Event<T>>, x: T)
    requires c.winType.RangeWindow? && NewOnly(es)
    ensures if FirstIsOld(c, Window(c, es), x) then StartsOver(c, es, x) else OnlyJoins(c, es, x)
  {
    WindowNext(c, es, x);
    OutputNext(c, es, x);
    RangeKept(c, Window(c, es), x);
  }

  /** As long as the newest timestamp has not reached the window size, or all tuples held are younger than it
      minus the window size, the window only grows. */
  lemma {:induction false} RangeGrows<T>(c: Config<T>, es: seq<Event<T>>, x: T)
    requires c.winType.RangeWindow? && NewOnly(es)
    requires c.timestamp(x) < c.winSize
             || forall y :: y in Window(c, es) + [x] ==> c.timestamp(y) > c.timestamp(x) - c.winSize
    ensures var all := es + [Event(x, false)];
            && Window(c, all) == Window(c, es) + [x]
            && Expired(DataOf(Output(c, all))) == Expired(DataOf(Output(c, es)))
            && Expirations(Output(c, all)) == Expirations(Output(c, es))
  {
    RangeStep(c, es, x);
  }

  /** With timestamps in order it expires if and only if the newest timestamp has reached the window size and
      some tuple held is at least the window size older: then every earlier tuple leaves, with one
      punctuation, and the window is the new tuple. Otherwise it only grows. */
  lemma {:induction false} RangeExact<T>(c: Config<T>, es: seq<Event<T>>, x: T)
    requires c.winType.RangeWindow? && NewOnly(es) && NonDecreasing(c.timestamp, Inserted(es) + [x])
    ensures var all, w, last := es + [Event(x, false)], Window(c, es), c.timestamp(x);
            if last >= c.winSize && exists y :: y in w + [x] && c.timestamp(y) <= last - c.winSize then
              && Window(c, all) == [x]
              && Expired(DataOf(Output(c, all))) == Inserted(es)
              && Expirations(Output(c, all)) == Expirations(Output(c, es)) + 1
            else
              && Window(c, all) == w + [x]
              && Expired(DataOf(Output(c, all))) == Expired(DataOf(Output(c, es)))
              && Expirations(Output(c, all)) == Expirations(Output(c, es))
  {
    RangeStep(c, es, x);
    TumblingConserves(c, es);
    HeldInOrder(c.timestamp, Expired(DataOf(Output(c, es))), Window(c, es), x);
    assert (Window(c, es) + [x])[0] in Window(c, es) + [x];
  }

  /** In order, the first tuple held is the oldest one. */
  lemma {:induction false} HeldInOrder<T>(timestamp: T -> int, gone: seq<T>, w: seq<T>, x: T)
    requires NonDecreasing(timestamp, (gone + w) + [x])
    ensures forall y :: y in w + [x] ==> timestamp(y) >= timestamp((w + [x])[0])
  {
    assert (gone + w) + [x] == gone + (w + [x]);
    FrontOldest(timestamp, gone, w + [x]);
  }

  lemma {:induction false} RangeFront<T>(c: Config<T>, es: seq<Event<T>>)
    requires c.winType.RangeWindow? && c.winSize > 0 && NewOnly(es) && es != []
    ensures var w, last := Window(c, es), c.timestamp(es[|es| - 1].data);
            w != [] && w[|w| - 1] == es[|es| - 1].data && (last >= c.winSize ==> c.timestamp(w[0]) > last - c.winSize)
  {
    if |es| == 1 {
    } else {
      RangeFront(c, es[..|es| - 1]);
    }
  }

  /** A range window never spans its size: with timestamps from 0 on, all its tuples are younger than the
      newest one minus the window size. */
  lemma {:induction false} RangeSpan<T>(c: Config<T>, es: seq<Event<T>>)
    requires c.winType.RangeWindow? && c.winSize > 0 && NewOnly(es) && es != []
    requires NonDecreasing(c.timestamp, Inserted(es)) && forall x :: x in Inserted(es) ==> c.timestamp(x) >= 0
    ensures forall x :: x in Window(c, es) ==> c.timestamp(x) > c.timestamp(es[|es| - 1].data) - c.winSize
  {
    RangeFront(c, es);
    TumblingConserves(c, es);
    FrontOldest(c.timestamp, Expired(DataOf(Output(c, es))), Window(c, es));
  }

  lemma {:induction false} FrontOldest<T>(timestamp: T -> int, gone: seq<T>, w: seq<T>)
    requires NonDecreasing(timestamp, gone + w) && w != []
    ensures w[0] in gone + w && forall x :: x in w ==> timestamp(x) >= timestamp(w[0])
  {
    var all, k := gone + w, |gone|;
    assert all[k] == w[0];
    forall x | x in w ensures timestamp(x) >= timestamp(w[0]) {
      var i :| 0 <= i < |w| && w[i] == x;
      assert all[k + i] == x;
      assert i > 0 ==> InOrder(timestamp, all, k, k + i);
    }
  }

  /* ---- the data channel as a stream ---- */

  /** The tuple published for input number `i`. */
  function PublishedFor<T>(c: Config<T>, es: seq<Event<T>>, i: nat): T
    requires i < |es|
  {
    Forwarded(c, Window(c, es[..i]) + [es[i].data], es[i].data)
  }

  /** Every tuple that has left the window was published unchanged. */
  ghost predicate LeavesUnchanged<T>(c: Config<T>, es: seq<Event<T>>) {
    forall i :: 0 <= i < |es| - |Window(c, es)| ==> PublishedFor(c, es, i) == es[i].data
  }

  ghost predicate Publishes<T>(c: Config<T>, es: seq<Event<T>>, published: seq<T>) {
    |published| == |es| && forall i :: 0 <= i < |es| ==> published[i] == PublishedFor(c, es, i)
  }

  lemma {:induction false} PublishesSnoc<T>(c: Config<T>, es: seq<Event<T>>, published: seq<T>, e: Event<T>)
    requires Publishes(c, es, published)
    ensures Publishes(c, es + [e], published + [PublishedFor(c, es + [e], |es|)])
  {
    forall i | 0 <= i < |es| ensures PublishedFor(c, es, i) == PublishedFor(c, es + [e], i) {
      assert (es + [e])[..i] == es[..i];
    }
  }

  lemma {:induction false} PublishedNext<T>(c: Config<T>, es: seq<Event<T>>, x: T)
    requires NewOnly(es)
    ensures var all := es + [Event(x, false)];
            Inserted(DataOf(Output(c, all))) == Inserted(DataOf(Output(c, es))) + [PublishedFor(c, all, |es|)]
  {
    var all := es + [Event(x, false)];
    assert all[..|es|] == es;
    DataStep(c, all);
  }

  /** The output inserts exactly the published tuples. */
  lemma {:induction false} PublishedAt<T>(c: Config<T>, es: seq<Event<T>>)
    requires NewOnly(es)
    ensures Publishes(c, es, Inserted(DataOf(Output(c, es))))
    decreases |es|
  {
    if es == [] {
    } else {
      var init, x := SnocOfNew(es);
      PublishedAt(c, init);
      PublishedNext(c, init, x);
      PublishesSnoc(c, init, Inserted(DataOf(Output(c, init))), Event(x, false));
    }
  }

  /** The window function is called for every tuple, with the window and the tuple before anything expires, and
      its results are published in the order of the input; without a function the tuples themselves are. */
  lemma {:induction false} FunctionApplied<T>(c: Config<T>, es: seq<Event<T>>, i: nat)
    requires NewOnly(es) && i < |es|
    ensures |Inserted(DataOf(Output(c, es)))| == |es|
    ensures Inserted(DataOf(Output(c, es)))[i]
         == if c.op.Some? then c.op.value(Window(c, es[..i]) + [es[i].data], es[i].data) else es[i].data
  {
    PublishedAt(c, es);
    assert Inserted(DataOf(Output(c, es)))[i] == PublishedFor(c, es, i);
  }

  /** The incoming tuple is never outdated before it was published. */
  predicate PublishedInTime<T>(c: Config<T>, n: nat) {
    c.op.Some? || c.winType.RangeWindow? || c.winSize == 0 || n < c.winSize
  }

  /** The data channel after one more tuple `x`, published as `e`, in the order of the two cases. */
  function NextData<T>(c: Config<T>, data: seq<Event<T>>, w: seq<T>, x: T, e: Event<T>): seq<Event<T>> {
    if c.op.Some? then (data + [e]) + Outdate(Given(c, w + [x])) else (data + Outdate(Given(c, w + [x]))) + [e]
  }

  lemma {:induction false} DataOfNext<T>(c: Config<T>, init: seq<Event<T>>, x: T)
    requires NewOnly(init)
    ensures DataOf(Output(c, init + [Event(x, false)]))
         == NextData(c, DataOf(Output(c, init)), Window(c, init), x,
                     Event(Forwarded(c, Window(c, init) + [x], x), false))
  {
    assert (init + [Event(x, false)])[..|init|] == init;
    OutputStep(c, init + [Event(x, false)]);
  }

  /** The numbers of tuples published and outdated before. */
  lemma {:induction false} Lengths<T>(c: Config<T>, es: seq<Event<T>>)
    requires NewOnly(es)
    ensures |Inserted(DataOf(Output(c, es)))| == |es| == |Expired(DataOf(Output(c, es)))| + |Window(c, es)|
  {
    PublishedAt(c, es);
    TumblingConserves(c, es);
    InsertedNew(es);
  }

  lemma {:induction false} NextInTime<T>(c: Config<T>, data: seq<Event<T>>, w: seq<T>, x: T, y: T)
    requires InTime(data) && |Inserted(data)| == |Expired(data)| + |w|
    requires c.op.Some? || |Given(c, w + [x])| <= |w|
    ensures InTime(NextData(c, data, w, x, Event(y, false)))
  {
    var given := Given(c, w + [x]);
    if c.op.Some? {
      InsertInTime(data, y);
      LiveSnoc(data, Event(y, false));
      OutdateInTime(data + [Event(y, false)], given);
    } else {
      OutdateInTime(data, given);
      InsertInTime(data + Outdate(given), y);
    }
  }

  lemma {:induction false} TumblingIsInTime<T>(c: Config<T>, es: seq<Event<T>>)
    requires NewOnly(es) && PublishedInTime(c, |es|)
    ensures InTime(DataOf(Output(c, es)))
    decreases |es|
  {
    if es == [] {
    } else {
      var init, x := SnocOfNew(es);
      TumblingIsInTime(c, init);
      Lengths(c, init);
      DataOfNext(c, init, x);
      if c.op.None? { GivenInTime(c, init, x); }
      NextInTime(c, DataOf(Output(c, init)), Window(c, init), x, Forwarded(c, Window(c, init) + [x], x));
    }
  }

  /** What the next tuple makes leave was in the window before it. */
  lemma {:induction false} GivenInTime<T>(c: Config<T>, init: seq<Event<T>>, x: T)
    requires NewOnly(init) && c.op.None? && PublishedInTime(c, |init| + 1)
    ensures |Given(c, Window(c, init) + [x])| <= |Window(c, init)|
  {
    if c.winType.RowWindow? && c.winSize > 0 { FewTuples(c, init); }
  }

  /** Before the first block is complete the row window is the whole input. */
  lemma {:induction false} FewTuples<T>(c: Config<T>, es: seq<Event<T>>)
    requires c.winType.RowWindow? && c.winSize > 0 && NewOnly(es) && |es| < c.winSize
    ensures |Window(c, es)| == |es|
  {
    RowBlocks(c, es);
    NoBlock(c.winSize, Expirations(Output(c, es)), |Window(c, es)|);
  }

  lemma {:induction false} NoBlock(size: nat, k: nat, w: nat)
    requires size * k + w < size
    ensures k == 0 && size * k == 0
  {
    assert k > 0 ==> size * k >= size;
  }

  /** Without a function, the tuple that completes a row window is outdated before it is published. */
  lemma {:induction false} FirstBlockTooEarly<T>(c: Config<T>, init: seq<Event<T>>, x: T)
    requires c.winType.RowWindow? && c.op.None? && c.winSize > 0 && NewOnly(init) && |init| + 1 == c.winSize
    ensures !InTime(DataOf(Output(c, init + [Event(x, false)])))
  {
    FewTuples(c, init);
    Lengths(c, init);
    DataOfNext(c, init, x);
    FullTooEarly(c, DataOf(Output(c, init)), Window(c, init), x);
  }

  lemma {:induction false} FullTooEarly<T>(c: Config<T>, data: seq<Event<T>>, w: seq<T>, x: T)
    requires c.winType.RowWindow? && c.op.None? && |w| + 1 == c.winSize
    requires |Inserted(data)| == |Expired(data)| + |w|
    ensures !InTime(NextData(c, data, w, x, Event(x, false)))
  {
    TooMany(data, w + [x], [Event(x, false)]);
  }

  lemma {:induction false} LateStaysLate<T>(c: Config<T>, es: seq<Event<T>>)
    requires NewOnly(es) && !PublishedInTime(c, |es|)
    ensures !InTime(DataOf(Output(c, es)))
    decreases |es|
  {
    var init, x := SnocOfNew(es);
    if |es| == c.winSize {
      FirstBlockTooEarly(c, init, x);
    } else {
      LateStaysLate(c, init);
      DataOfNext(c, init, x);
      TooEarlyForever(DataOf(Output(c, init)), DataOf(Output(c, es)));
    }
  }

  /** The output is a FIFO stream exactly when the window has a function, or is a range window, or has not
      completed a block yet (which for size 0 never happens), and every tuple that has left the window was
      published unchanged. */
  lemma {:induction false} TumblingFifoExact<T>(c: Config<T>, es: seq<Event<T>>)
    requires NewOnly(es)
    ensures Fifo(DataOf(Output(c, es))) <==> PublishedInTime(c, |es|) && LeavesUnchanged(c, es)
  {
    var data := DataOf(Output(c, es));
    FifoIsInOrder(data);
    if PublishedInTime(c, |es|) { TumblingIsInTime(c, es); } else { LateStaysLate(c, es); }
    TumblingConserves(c, es);
    InsertedNew(es);
    PublishedAt(c, es);
    ExpiredUnchanged(Expired(data), Window(c, es), Inserted(es), Inserted(data));
  }

  /** What was published for the tuples in the window. */
  ghost function PublishedWindow<T>(c: Config<T>, es: seq<Event<T>>): seq<T> {
    var n := |Window(c, es)|;
    seq(n, j requires 0 <= j < n => PublishedFor(c, es, |es| - n + j))
  }

  /** The live elements of a FIFO output are what was published for the tuples in the window. */
  lemma {:induction false} TumblingLive<T>(c: Config<T>, es: seq<Event<T>>)
    requires NewOnly(es) && PublishedInTime(c, |es|) && LeavesUnchanged(c, es)
    ensures Live(DataOf(Output(c, es))) == multiset(PublishedWindow(c, es))
  {
    TumblingFifoExact(c, es);
    Lengths(c, es);
    FifoLive(DataOf(Output(c, es)));
    PublishedTail(c, es, |Expired(DataOf(Output(c, es)))|);
  }

  lemma {:induction false} ShownAt<T>(c: Config<T>, es: seq<Event<T>>, j: nat)
    requires j < |Window(c, es)|
    ensures PublishedWindow(c, es)[j] == PublishedFor(c, es, |es| - |Window(c, es)| + j)
  {}

  lemma {:induction false} PublishedTail<T>(c: Config<T>, es: seq<Event<T>>, k: nat)
    requires NewOnly(es) && k + |Window(c, es)| == |es|
    ensures k <= |Inserted(DataOf(Output(c, es)))|
    ensures Inserted(DataOf(Output(c, es)))[k..] == PublishedWindow(c, es)
  {
    PublishedAt(c, es);
    var ins, shown := Inserted(DataOf(Output(c, es))), PublishedWindow(c, es);
    forall j | 0 <= j < |shown| ensures ins[k + j] == shown[j] {
      ShownAt(c, es, j);
    }
    TailIs(ins, k, shown);
  }
}

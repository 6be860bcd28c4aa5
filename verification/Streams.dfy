/** Streams of insert and outdate events and the elements they leave alive. */
module Streams {
  datatype Event<T> = Event(data: T, outdated: bool)

  /** An outdate event takes back one earlier insert of its element. */
  function Live<T(==)>(es: seq<Event<T>>): multiset<T> {
    if es == [] then multiset{}
    else
      var e := es[|es| - 1];
      if e.outdated then Live(es[..|es| - 1]) - multiset{e.data} else Live(es[..|es| - 1]) + multiset{e.data}
  }

  /** Every outdate event refers to a live element. */
  ghost predicate RefersToLive<T>(es: seq<Event<T>>) {
    forall i :: 0 <= i < |es| && es[i].outdated ==> Live(es[..i])[es[i].data] >= 1
  }

  /** Every outdate event refers to an element that is live exactly once. */
  ghost predicate SingleExpiry<T>(es: seq<Event<T>>) {
    forall i :: 0 <= i < |es| && es[i].outdated ==> Live(es[..i])[es[i].data] == 1
  }

  function Inserted<T>(es: seq<Event<T>>): seq<T> {
    if es == [] then []
    else Inserted(es[..|es| - 1]) + if es[|es| - 1].outdated then [] else [es[|es| - 1].data]
  }

  function Expired<T>(es: seq<Event<T>>): seq<T> {
    if es == [] then []
    else Expired(es[..|es| - 1]) + if es[|es| - 1].outdated then [es[|es| - 1].data] else []
  }

  /** Elements expire in the order in which they were inserted, and not before. */
  ghost predicate Fifo<T>(es: seq<Event<T>>) {
    forall i :: 0 <= i <= |es| ==> Expired(es[..i]) <= Inserted(es[..i])
  }

  /* ---- prefixes ---- */

  /** A nonempty sequence in two parts, without the terms `es[..|es| - 1]` that would unroll recursive
      functions. */
  lemma {:induction false} SnocOf<T>(es: seq<T>) returns (init: seq<T>, e: T)
    requires es != []
    ensures es == init + [e] && |init| == |es| - 1
  {
    init, e := es[..|es| - 1], es[|es| - 1];
  }

  lemma {:induction false} LiveSnoc<T>(es: seq<Event<T>>, e: Event<T>)
    ensures Live(es + [e]) == if e.outdated then Live(es) - multiset{e.data} else Live(es) + multiset{e.data}
    ensures Inserted(es + [e]) == if e.outdated then Inserted(es) else Inserted(es) + [e.data]
    ensures Expired(es + [e]) == if e.outdated then Expired(es) + [e.data] else Expired(es)
  {
    assert (es + [e])[..|es|] == es;
  }

  lemma {:induction false} SingleExpirySnoc<T>(es: seq<Event<T>>, e: Event<T>)
    ensures SingleExpiry(es + [e]) <==> SingleExpiry(es) && (e.outdated ==> Live(es)[e.data] == 1)
  {
    var all := es + [e];
    assert forall i :: 0 <= i < |es| ==> all[..i] == es[..i] && all[i] == es[i];
    assert all[..|es|] == es && all[|es|] == e;
  }

  lemma {:induction false} RefersToLiveSnoc<T>(es: seq<Event<T>>, e: Event<T>)
    ensures RefersToLive(es + [e]) <==> RefersToLive(es) && (e.outdated ==> Live(es)[e.data] >= 1)
  {
    var all := es + [e];
    assert forall i :: 0 <= i < |es| ==> all[..i] == es[..i] && all[i] == es[i];
    assert all[..|es|] == es && all[|es|] == e;
  }

  lemma {:induction false} FifoSnoc<T>(es: seq<Event<T>>, e: Event<T>)
    ensures Fifo(es + [e]) <==> Fifo(es) && Expired(es + [e]) <= Inserted(es + [e])
  {
    var all := es + [e];
    assert forall i :: 0 <= i <= |es| ==> all[..i] == es[..i];
    assert all[..|all|] == all;
  }

  /** Never more elements expired than were inserted. */
  ghost predicate InTime<T>(es: seq<Event<T>>) {
    forall i :: 0 <= i <= |es| ==> |Expired(es[..i])| <= |Inserted(es[..i])|
  }

  lemma {:induction false} InTimeSnoc<T>(es: seq<Event<T>>, e: Event<T>)
    ensures InTime(es + [e]) <==> InTime(es) && |Expired(es + [e])| <= |Inserted(es + [e])|
  {
    var all := es + [e];
    assert forall i :: 0 <= i <= |es| ==> all[..i] == es[..i];
    assert all[..|all|] == all;
  }

  /** Elements inserted and expired so far stay in front. */
  lemma {:induction false} SidesGrow<T>(es: seq<Event<T>>, i: nat)
    requires i <= |es|
    ensures Inserted(es[..i]) <= Inserted(es) && Expired(es[..i]) <= Expired(es)
  {
    if i == |es| {
      assert es[..i] == es;
    } else {
      SidesGrow(es[..|es| - 1], i);
      assert es[..|es| - 1][..i] == es[..i];
    }
  }

  /** FIFO is: not before the insert, and in the end in the order of the inserts. */
  lemma {:induction false} FifoIsInOrder<T>(es: seq<Event<T>>)
    ensures Fifo(es) <==> InTime(es) && Expired(es) <= Inserted(es)
  {
    assert es[..|es|] == es;
    if InTime(es) && Expired(es) <= Inserted(es) {
      forall i | 0 <= i <= |es| ensures Expired(es[..i]) <= Inserted(es[..i]) {
        SidesGrow(es, i);
      }
    }
  }

  lemma {:induction false} FifoLength<T>(es: seq<Event<T>>)
    requires Fifo(es)
    ensures Expired(es) <= Inserted(es)
  {
    assert es[..|es|] == es;
  }

  /** With FIFO expiry the live elements are the inserted ones that have not expired yet. */
  lemma {:induction false} FifoLive<T>(es: seq<Event<T>>)
    requires Fifo(es)
    ensures Expired(es) <= Inserted(es)
    ensures Live(es) == multiset(Inserted(es)[|Expired(es)|..])
  {
    FifoLength(es);
    if es == [] {
    } else {
      var init, e := es[..|es| - 1], es[|es| - 1];
      assert es == init + [e];
      FifoSnoc(init, e);
      FifoLive(init);
      LiveSnoc(init, e);
      if e.outdated {
        assert Inserted(es)[|Expired(init)|] == Expired(es)[|Expired(init)|];
        TailFirst(Inserted(init), |Expired(init)|);
      } else {
        TailSnoc(Inserted(init), |Expired(init)|, e.data);
      }
    }
  }

  lemma {:induction false} TailFirst<T>(xs: seq<T>, n: nat)
    requires n < |xs|
    ensures multiset(xs[n + 1..]) == multiset(xs[n..]) - multiset{xs[n]}
  {
    assert xs[n..] == [xs[n]] + xs[n + 1..];
  }

  lemma {:induction false} TailSnoc<T>(xs: seq<T>, n: nat, x: T)
    requires n <= |xs|
    ensures multiset((xs + [x])[n..]) == multiset(xs[n..]) + multiset{x}
  {
    assert (xs + [x])[n..] == xs[n..] + [x];
  }

  /** FIFO expiry never expires an element that is not live. */
  lemma {:induction false} FifoRefersToLive<T>(es: seq<Event<T>>)
    requires Fifo(es)
    ensures RefersToLive(es)
  {
    forall i | 0 <= i < |es| && es[i].outdated ensures Live(es[..i])[es[i].data] >= 1 {
      FifoOutdate(es, i);
    }
  }

  lemma {:induction false} FifoOutdate<T>(es: seq<Event<T>>, i: nat)
    requires Fifo(es) && i < |es| && es[i].outdated
    ensures Live(es[..i])[es[i].data] >= 1
  {
    var before := es[..i];
    FifoPrefix(es, i);
    FifoLive(before);
    assert es[..i + 1] == before + [es[i]];
    LiveSnoc(before, es[i]);
    NextExpires(Expired(before), Inserted(before), es[i].data);
  }

  lemma {:induction false} FifoPrefix<T>(es: seq<Event<T>>, i: nat)
    requires Fifo(es) && i <= |es|
    ensures Fifo(es[..i])
  {
    assert forall j :: 0 <= j <= i ==> es[..i][..j] == es[..j];
  }

  lemma {:induction false} NextExpires<T>(expired: seq<T>, inserted: seq<T>, x: T)
    requires expired + [x] <= inserted
    ensures multiset(inserted[|expired|..])[x] >= 1
  {
    assert (expired + [x])[|expired|] == inserted[|expired|] == x;
    assert inserted[|expired|..][0] == x;
  }

  /* ---- sequences as multisets ---- */

  lemma {:induction false} WithoutAt<T>(xs: seq<T>, i: nat)
    requires i < |xs|
    ensures multiset(xs) == multiset(xs[..i] + xs[i + 1..]) + multiset{xs[i]}
  {
    assert xs == xs[..i] + [xs[i]] + xs[i + 1..];
  }

  lemma {:induction false} Cancel<T>(m: multiset<T>, m': multiset<T>, x: T)
    requires m + multiset{x} == m' + multiset{x}
    ensures m == m'
  {
    assert m == (m + multiset{x}) - multiset{x};
    assert m' == (m' + multiset{x}) - multiset{x};
  }

  /* ---- the events of one partition or group ---- */

  /** The events whose element has value `p` under `f`. */
  function Part<T, P(==)>(f: T -> P, es: seq<Event<T>>, p: P): seq<Event<T>> {
    if es == [] then []
    else if f(es[|es| - 1].data) == p then Part(f, es[..|es| - 1], p) + [es[|es| - 1]]
    else Part(f, es[..|es| - 1], p)
  }

  lemma {:induction false} PartSnoc<T, P>(f: T -> P, es: seq<Event<T>>, e: Event<T>, p: P)
    ensures Part(f, es + [e], p) == if f(e.data) == p then Part(f, es, p) + [e] else Part(f, es, p)
  {
    assert (es + [e])[..|es|] == es;
  }

  lemma {:induction false} LiveOfPart<T, P>(f: T -> P, es: seq<Event<T>>, p: P, x: T)
    ensures Live(Part(f, es, p))[x] == if f(x) == p then Live(es)[x] else 0
  {
    if es == [] {
    } else {
      var init, e := es[..|es| - 1], es[|es| - 1];
      assert es == init + [e];
      LiveOfPart(f, init, p, x);
      LiveOfPart(f, init, p, e.data);
      LiveSnoc(init, e);
      LiveSnoc(Part(f, init, p), e);
    }
  }

  lemma {:induction false} PartExpiresOnce<T, P>(f: T -> P, es: seq<Event<T>>, p: P)
    requires SingleExpiry(es)
    ensures SingleExpiry(Part(f, es, p))
  {
    if es == [] {
    } else {
      var init, e := es[..|es| - 1], es[|es| - 1];
      assert es == init + [e];
      SingleExpirySnoc(init, e);
      PartExpiresOnce(f, init, p);
      LiveOfPart(f, init, p, e.data);
      SingleExpirySnoc(Part(f, init, p), e);
    }
  }

  lemma {:induction false} PartRefersToLive<T, P>(f: T -> P, es: seq<Event<T>>, p: P)
    requires RefersToLive(es)
    ensures RefersToLive(Part(f, es, p))
  {
    if es == [] {
    } else {
      var init, e := es[..|es| - 1], es[|es| - 1];
      assert es == init + [e];
      RefersToLiveSnoc(init, e);
      PartRefersToLive(f, init, p);
      LiveOfPart(f, init, p, e.data);
      RefersToLiveSnoc(Part(f, init, p), e);
    }
  }
}

/** Grouping ordered triples into tuples: the Tuplifier operator in ORDERED mode. */
module Tuplifier {
  datatype Triple = Triple(subj: string, pred: string, obj: string)

  type Record = seq<string>

  /* ---- the reference: maximal runs of triples with equal subject ---- */

  datatype Run = Run(subj: string, triples: seq<Triple>)

  /** The runs of one more triple. */
  function NextRuns(rs: seq<Run>, e: Triple): seq<Run> {
    if rs != [] && rs[|rs| - 1].subj == e.subj then rs[..|rs| - 1] + [Run(e.subj, rs[|rs| - 1].triples + [e])]
    else rs + [Run(e.subj, [e])]
  }

  function Runs(input: seq<Triple>): seq<Run> {
    if input == [] then [] else NextRuns(Runs(input[..|input| - 1]), input[|input| - 1])
  }

  /** The object of the last triple with predicate `p`. */
  function LastObject(ts: seq<Triple>, p: string): string {
    if ts == [] then "" else if ts[|ts| - 1].pred == p then ts[|ts| - 1].obj else LastObject(ts[..|ts| - 1], p)
  }

  /** The subject, and for each predicate the object given last. */
  function TupleOf(preds: seq<string>, subj: string, ts: seq<Triple>): Record {
    [subj] + seq(|preds|, i requires 0 <= i < |preds| => LastObject(ts, preds[i]))
  }

  /** The triples whose predicate is wanted. */
  function Relevant(preds: seq<string>, ts: seq<Triple>): seq<Triple> {
    if ts == [] then []
    else if ts[|ts| - 1].pred in preds then Relevant(preds, ts[..|ts| - 1]) + [ts[|ts| - 1]]
    else Relevant(preds, ts[..|ts| - 1])
  }

  /** The runs with a relevant triple. */
  function RelevantRuns(preds: seq<string>, rs: seq<Run>): seq<Run> {
    if rs == [] then []
    else if Relevant(preds, rs[|rs| - 1].triples) == [] then RelevantRuns(preds, rs[..|rs| - 1])
    else RelevantRuns(preds, rs[..|rs| - 1]) + [rs[|rs| - 1]]
  }

  function TuplesOf(preds: seq<string>, rs: seq<Run>): (out: seq<Record>)
    ensures |out| == |rs| && forall i :: 0 <= i < |rs| ==> out[i] == TupleOf(preds, rs[i].subj, rs[i].triples)
  {
    seq(|rs|, i requires 0 <= i < |rs| => TupleOf(preds, rs[i].subj, rs[i].triples))
  }

  /** One tuple for every run with a relevant triple, in order. */
  function Tuples(preds: seq<string>, rs: seq<Run>): seq<Record> { TuplesOf(preds, RelevantRuns(preds, rs)) }

  /* ---- what the reference means ---- */

  function Flat(rs: seq<Run>): seq<Triple> {
    if rs == [] then [] else Flat(rs[..|rs| - 1]) + rs[|rs| - 1].triples
  }

  /** Not empty, and all its triples have its subject. */
  ghost predicate RunOk(r: Run) {
    r.triples != [] && forall t :: t in r.triples ==> t.subj == r.subj
  }

  predicate NewSubject(rs: seq<Run>, i: nat)
    requires 0 < i < |rs|
  {
    rs[i - 1].subj != rs[i].subj
  }

  /** Runs of one subject each whose neighbours differ. */
  ghost predicate Maximal(rs: seq<Run>) {
    (forall i :: 0 <= i < |rs| ==> RunOk(rs[i])) && (forall i :: 0 < i < |rs| ==> NewSubject(rs, i))
  }

  lemma {:induction false} MaximalSnoc(rs: seq<Run>, r: Run)
    ensures Maximal(rs + [r]) <==> Maximal(rs) && RunOk(r) && (rs != [] ==> rs[|rs| - 1].subj != r.subj)
  {
    var all := rs + [r];
    assert forall i :: 0 <= i < |rs| ==> all[i] == rs[i];
    assert all[|rs|] == r;
    if Maximal(all) {
      forall i | 0 <= i < |rs| ensures RunOk(rs[i]) { assert RunOk(all[i]); }
      forall i | 0 < i < |rs| ensures NewSubject(rs, i) { assert NewSubject(all, i); }
      assert RunOk(all[|rs|]);
      if rs != [] { assert NewSubject(all, |rs|); }
    } else if Maximal(rs) && RunOk(r) && (rs != [] ==> rs[|rs| - 1].subj != r.subj) {
      forall i | 0 < i < |all| ensures NewSubject(all, i) {
        if i < |rs| { assert NewSubject(rs, i); }
      }
    }
  }

  lemma {:induction false} RunOkSnoc(subj: string, ts: seq<Triple>, e: Triple)
    ensures RunOk(Run(subj, ts + [e])) <==> e.subj == subj && (ts == [] || RunOk(Run(subj, ts)))
  {
    assert e in ts + [e];
    assert forall t :: t in ts + [e] <==> t in ts || t == e;
  }

  lemma {:induction false} FlatSnoc(rs: seq<Run>, r: Run)
    ensures Flat(rs + [r]) == Flat(rs) + r.triples
  {
    assert (rs + [r])[..|rs|] == rs;
  }

  lemma {:induction false} RunsSnoc(input: seq<Triple>, e: Triple)
    ensures Runs(input + [e]) == NextRuns(Runs(input), e)
  {
    assert (input + [e])[..|input|] == input;
  }

  /** The runs cut the input into runs of one subject each whose neighbours differ. */
  lemma {:induction false} RunsAreMaximal(input: seq<Triple>)
    ensures Flat(Runs(input)) == input && Maximal(Runs(input))
    decreases |input|
  {
    if input == [] {
    } else {
      var init, e := input[..|input| - 1], input[|input| - 1];
      assert input == init + [e];
      RunsAreMaximal(init);
      RunsSnoc(init, e);
      MaximalNext(Runs(init), e);
    }
  }

  lemma {:induction false} MaximalNext(rs: seq<Run>, e: Triple)
    requires Maximal(rs)
    ensures Flat(NextRuns(rs, e)) == Flat(rs) + [e] && Maximal(NextRuns(rs, e))
  {
    if rs != [] && rs[|rs| - 1].subj == e.subj {
      assert rs == rs[..|rs| - 1] + [rs[|rs| - 1]];
      LongerRun(rs[..|rs| - 1], rs[|rs| - 1], e);
    } else {
      FlatSnoc(rs, Run(e.subj, [e]));
      RunOkSnoc(e.subj, [], e);
      assert [] + [e] == [e];
      MaximalSnoc(rs, Run(e.subj, [e]));
    }
  }

  lemma {:induction false} LongerRun(first: seq<Run>, last: Run, e: Triple)
    requires Maximal(first + [last]) && last.subj == e.subj
    ensures Flat(first + [Run(e.subj, last.triples + [e])]) == Flat(first + [last]) + [e]
    ensures Maximal(first + [Run(e.subj, last.triples + [e])])
  {
    FlatSnoc(first, last);
    FlatSnoc(first, Run(e.subj, last.triples + [e]));
    Assoc(Flat(first), last.triples, e);
    MaximalSnoc(first, last);
    RunOkSnoc(e.subj, last.triples, e);
    MaximalSnoc(first, Run(e.subj, last.triples + [e]));
  }

  /** The runs are exactly the maximal ones: there is one way to cut the input into non-empty runs of one
      subject each whose neighbours differ, and this is it. */
  lemma {:induction false} RunsExact(input: seq<Triple>, rs: seq<Run>)
    ensures rs == Runs(input) <==> Flat(rs) == input && Maximal(rs)
  {
    RunsAreMaximal(input);
    if Flat(rs) == input && Maximal(rs) {
      OneWay(rs);
    }
  }

  lemma {:induction false} OneWay(rs: seq<Run>)
    requires Maximal(rs)
    ensures rs == Runs(Flat(rs))
    decreases |Flat(rs)|
  {
    if rs == [] {
    } else {
      var first, subj, ts, e := LastTriple(rs);
      if ts == [] {
        OneWay(first);
        RunsSnoc(Flat(first), e);
      } else {
        var shorter := first + [Run(subj, ts)];
        OneWay(shorter);
        RunsSnoc(Flat(shorter), e);
        assert shorter[..|first|] == first;
      }
    }
  }

  /** Taking the last triple away shortens or removes the last run. */
  lemma {:induction false} LastTriple(rs: seq<Run>)
    returns (first: seq<Run>, subj: string, ts: seq<Triple>, e: Triple)
    requires Maximal(rs) && rs != []
    ensures rs == first + [Run(subj, ts + [e])] && e.subj == subj && Maximal(first)
    ensures first != [] ==> first[|first| - 1].subj != subj
    ensures ts == [] ==> Flat(rs) == Flat(first) + [e]
    ensures ts != [] ==> Maximal(first + [Run(subj, ts)]) && Flat(rs) == Flat(first + [Run(subj, ts)]) + [e]
  {
    var last;
    first, last := rs[..|rs| - 1], rs[|rs| - 1];
    subj, ts, e := last.subj, last.triples[..|last.triples| - 1], last.triples[|last.triples| - 1];
    assert rs == first + [last] && last == Run(subj, ts + [e]);
    MaximalSnoc(first, last);
    RunOkSnoc(subj, ts, e);
    FlatSnoc(first, last);
    if ts == [] {
      assert ts + [e] == [e];
    } else {
      FlatSnoc(first, Run(subj, ts));
      MaximalSnoc(first, Run(subj, ts));
      Assoc(Flat(first), ts, e);
    }
  }

  lemma {:induction false} RelevantConcat(preds: seq<string>, a: seq<Triple>, b: seq<Triple>)
    ensures Relevant(preds, a + b) == Relevant(preds, a) + Relevant(preds, b)
    decreases |b|
  {
    if b == [] {
      assert a + b == a;
    } else {
      var init, t := b[..|b| - 1], b[|b| - 1];
      RelevantConcat(preds, a, init);
      assert a + b == (a + init) + [t] && b == init + [t];
      RelevantSnoc(preds, a + init, t);
      RelevantSnoc(preds, init, t);
    }
  }

  lemma {:induction false} NoneRelevant(preds: seq<string>, ts: seq<Triple>)
    ensures Relevant(preds, ts) == [] <==> forall t :: t in ts ==> t.pred !in preds
  {
    if ts == [] {
    } else {
      var init, t := ts[..|ts| - 1], ts[|ts| - 1];
      NoneRelevant(preds, init);
      assert ts == init + [t] && t in ts;
    }
  }

  /** The wanted triples, in order and as often as they come. */
  lemma {:induction false} RelevantIsFilter(preds: seq<string>, a: seq<Triple>, t: Triple, b: seq<Triple>)
    ensures Relevant(preds, a + b) == Relevant(preds, a) + Relevant(preds, b)
    ensures Relevant(preds, [t]) == if t.pred in preds then [t] else []
    ensures Relevant(preds, b) == [] <==> forall u :: u in b ==> u.pred !in preds
  {
    RelevantConcat(preds, a, b);
    RelevantSnoc(preds, [], t);
    assert [] + [t] == [t];
    NoneRelevant(preds, b);
  }

  lemma {:induction false} RelevantRunsSnoc(preds: seq<string>, rs: seq<Run>, r: Run)
    ensures RelevantRuns(preds, rs + [r])
         == if Wanted(preds, r) then RelevantRuns(preds, rs) + [r] else RelevantRuns(preds, rs)
  {
    assert (rs + [r])[..|rs|] == rs;
    NoneRelevant(preds, r.triples);
  }

  predicate Wanted(preds: seq<string>, r: Run) { exists t :: t in r.triples && t.pred in preds }

  lemma {:induction false} RelevantRunsConcat(preds: seq<string>, a: seq<Run>, b: seq<Run>)
    ensures RelevantRuns(preds, a + b) == RelevantRuns(preds, a) + RelevantRuns(preds, b)
    decreases |b|
  {
    if b == [] {
      assert a + b == a;
    } else {
      var init, last := b[..|b| - 1], b[|b| - 1];
      RelevantRunsConcat(preds, a, init);
      assert b == init + [last];
      RelevantRunsLonger(preds, a, init, last);
    }
  }

  lemma {:induction false} RelevantRunsLonger(preds: seq<string>, a: seq<Run>, b: seq<Run>, r: Run)
    requires RelevantRuns(preds, a + b) == RelevantRuns(preds, a) + RelevantRuns(preds, b)
    ensures RelevantRuns(preds, a + (b + [r])) == RelevantRuns(preds, a) + RelevantRuns(preds, b + [r])
  {
    assert a + (b + [r]) == (a + b) + [r];
    RelevantRunsSnoc(preds, a + b, r);
    RelevantRunsSnoc(preds, b, r);
  }

  /** The runs in which some triple is wanted, in order. */
  lemma {:induction false} RelevantRunsAreFilter(preds: seq<string>, a: seq<Run>, r: Run, b: seq<Run>)
    ensures RelevantRuns(preds, a + b) == RelevantRuns(preds, a) + RelevantRuns(preds, b)
    ensures RelevantRuns(preds, [r]) == if exists t :: t in r.triples && t.pred in preds then [r] else []
  {
    RelevantRunsConcat(preds, a, b);
    RelevantRunsSnoc(preds, [], r);
    assert [] + [r] == [r];
  }

  /** `v` is the object given last for the predicate, or empty if it was never given. */
  ghost predicate GivenLast(ts: seq<Triple>, p: string, v: string) {
    && ((forall i :: 0 <= i < |ts| ==> ts[i].pred != p) ==> v == "")
    && (forall i :: 0 <= i < |ts| && ts[i].pred == p && (forall j :: i < j < |ts| ==> ts[j].pred != p)
          ==> v == ts[i].obj)
  }

  lemma {:induction false} GivenLastSnoc(ts: seq<Triple>, t: Triple, p: string, v: string)
    requires GivenLast(ts, p, v)
    ensures GivenLast(ts + [t], p, if t.pred == p then t.obj else v)
  {
    var all := ts + [t];
    assert all[|ts|] == t && forall i :: 0 <= i < |ts| ==> all[i] == ts[i];
    if t.pred != p {
      forall i | 0 <= i < |all| && all[i].pred == p && (forall j :: i < j < |all| ==> all[j].pred != p)
        ensures v == all[i].obj
      {
        assert ts[i].pred == p && forall j :: i < j < |ts| ==> all[j].pred != p;
      }
    }
  }

  lemma {:induction false} LastObjectSnoc(ts: seq<Triple>, t: Triple, p: string)
    ensures LastObject(ts + [t], p) == if t.pred == p then t.obj else LastObject(ts, p)
  {
    assert (ts + [t])[..|ts|] == ts;
  }

  lemma {:induction false} LastObjectExact(ts: seq<Triple>, p: string)
    ensures GivenLast(ts, p, LastObject(ts, p))
  {
    if ts == [] {
    } else {
      var init, t := ts[..|ts| - 1], ts[|ts| - 1];
      LastObjectExact(init, p);
      assert ts == init + [t];
      GivenLastSnoc(init, t, p, LastObject(init, p));
      LastObjectSnoc(init, t, p);
    }
  }

  /** A tuple is the subject and one field per predicate, in the order of the list: the object given last, and an
      empty field for a predicate never given. */
  lemma {:induction false} TupleExact(preds: seq<string>, subj: string, ts: seq<Triple>, i: nat)
    requires i < |preds|
    ensures |TupleOf(preds, subj, ts)| == |preds| + 1 && TupleOf(preds, subj, ts)[0] == subj
    ensures (forall k :: 0 <= k < |ts| ==> ts[k].pred != preds[i]) ==> TupleOf(preds, subj, ts)[i + 1] == ""
    ensures forall k :: 0 <= k < |ts| && ts[k].pred == preds[i] && (forall j :: k < j < |ts| ==> ts[j].pred != preds[i])
              ==> TupleOf(preds, subj, ts)[i + 1] == ts[k].obj
  {
    LastObjectExact(ts, preds[i]);
  }

  /* ---- the operator, as functions of its state ---- */

  datatype State = State(tupleBuffer: map<string, seq<Triple>>, currentSubj: string, out: seq<Record>)

  function Add(preds: seq<string>, buffer: map<string, seq<Triple>>, e: Triple): map<string, seq<Triple>> {
    if e.pred !in preds then buffer
    else if e.subj in buffer then buffer[e.subj := buffer[e.subj] + [e]]
    else buffer[e.subj := [e]]
  }

  function Produce(preds: seq<string>, s: State, subj: string): State {
    if subj !in s.tupleBuffer then s
    else State(s.tupleBuffer - {subj}, s.currentSubj, s.out + [TupleOf(preds, subj, s.tupleBuffer[subj])])
  }

  function Step(preds: seq<string>, s: State, e: Triple): State {
    if s.currentSubj == "" || e.subj == s.currentSubj then
      State(Add(preds, s.tupleBuffer, e), if s.currentSubj == "" then e.subj else s.currentSubj, s.out)
    else
      var p := Produce(preds, s, s.currentSubj);
      State(Add(preds, p.tupleBuffer, e), e.subj, p.out)
  }

  /** The state after the given triples, without a punctuation. */
  function After(preds: seq<string>, input: seq<Triple>): State {
    if input == [] then State(map[], "", []) else Step(preds, After(preds, input[..|input| - 1]), input[|input| - 1])
  }

  /** The output once the final punctuation has arrived. */
  function FinalOutput(preds: seq<string>, input: seq<Triple>): seq<Record> {
    var s := After(preds, input);
    Produce(preds, s, s.currentSubj).out
  }

  /* ---- the operator ---- */

  ghost predicate Distinct(preds: seq<string>) {
    forall i, j :: 0 <= i < j < |preds| ==> preds[i] != preds[j]
  }

  class Tuplifier {
    ghost const predList: seq<string>
    var predicates: map<string, nat>
    var tupleBuffer: map<string, seq<Triple>>
    var currentSubj: string
    var out: seq<Record>

    ghost function Abstract(): State
      reads this
    {
      State(tupleBuffer, currentSubj, out)
    }

    /** The field of a predicate is its position in the list plus one. */
    ghost predicate FieldsOk()
      reads this
    {
      && Distinct(predList) && |predicates| == |predList|
      && (forall p :: p in predicates <==> p in predList)
      && (forall i :: 0 <= i < |predList| ==> predList[i] in predicates && predicates[predList[i]] == i + 1)
    }

    ghost predicate Valid()
      reads this
    {
      FieldsOk() && forall s :: s in tupleBuffer ==> OfSubject(s, tupleBuffer[s], predList)
    }

    static ghost predicate OfSubject(s: string, ts: seq<Triple>, preds: seq<string>) {
      ts != [] && forall t :: t in ts ==> t.subj == s && t.pred in preds
    }

    constructor (preds: seq<string>)
      requires Distinct(preds)
      ensures Valid() && predList == preds && Abstract() == State(map[], "", [])
    {
      predList := preds;
      tupleBuffer, currentSubj, out := map[], "", [];
      var fields: map<string, nat> := map[];
      for i := 0 to |preds|
        invariant |fields| == i
        invariant forall p :: p in fields <==> p in preds[..i]
        invariant forall j :: 0 <= j < i ==> preds[j] in fields && fields[preds[j]] == j + 1
      {
        assert preds[i] !in preds[..i];
        fields := fields[preds[i] := i + 1];
        assert preds[..i + 1] == preds[..i] + [preds[i]];
      }
      assert preds[..|preds|] == preds;
      predicates := fields;
    }

    method ProcessDataElement(data: Triple)
      requires Valid()
      modifies this
      ensures Valid() && Abstract() == Step(predList, old(Abstract()), data)
    {
      if currentSubj == "" || data.subj == currentSubj {
        AddToBuffer(data);
        if currentSubj == "" { currentSubj := data.subj; }
      } else {
        ProduceTupleForSubject(currentSubj);
        currentSubj := data.subj;
        AddToBuffer(data);
      }
    }

    method ProcessPunctuation()
      requires Valid()
      modifies this
      ensures Valid() && Abstract() == Produce(predList, old(Abstract()), old(currentSubj))
    {
      ProduceTupleForSubject(currentSubj);
    }

    method ProduceTupleForSubject(subj: string)
      requires Valid()
      modifies this`tupleBuffer, this`out
      ensures Valid() && Abstract() == Produce(predList, old(Abstract()), subj)
    {
      if subj !in tupleBuffer { return; }
      ProduceTuple(tupleBuffer[subj]);
      tupleBuffer := tupleBuffer - {subj};
    }

    method AddToBuffer(data: Triple)
      requires Valid()
      modifies this`tupleBuffer
      ensures Valid() && tupleBuffer == Add(predList, old(tupleBuffer), data)
    {
      if data.pred !in predicates { return; }
      if data.subj in tupleBuffer {
        tupleBuffer := tupleBuffer[data.subj := tupleBuffer[data.subj] + [data]];
      } else {
        tupleBuffer := tupleBuffer[data.subj := [data]];
      }
    }

    /** The fields of a tuple, one after the other overwritten by the triples. */
    method ProduceTuple(tbuf: seq<Triple>)
      requires FieldsOk() && tbuf != [] && forall t :: t in tbuf ==> t.pred in predList
      modifies this`out
      ensures out == old(out) + [TupleOf(predList, tbuf[0].subj, tbuf)]
    {
      var data := seq(|predicates| + 1, _ => "");
      data := data[0 := tbuf[0].subj];
      for it := 0 to |tbuf|
        invariant out == old(out) && data == TupleOf(predList, tbuf[0].subj, tbuf[..it])
      {
        assert tbuf[it] in tbuf;
        var field := predicates[tbuf[it].pred];
        NextObject(predList, tbuf[0].subj, tbuf[..it], tbuf[it], field - 1);
        assert tbuf[..it + 1] == tbuf[..it] + [tbuf[it]];
        data := data[field := tbuf[it].obj];
      }
      assert tbuf[..|tbuf|] == tbuf;
      out := out + [data];
    }
  }

  lemma {:induction false} NextObject(preds: seq<string>, subj: string, ts: seq<Triple>, t: Triple, i: nat)
    requires Distinct(preds) && i < |preds| && preds[i] == t.pred
    ensures TupleOf(preds, subj, ts + [t]) == TupleOf(preds, subj, ts)[i + 1 := t.obj]
  {
    assert (ts + [t])[..|ts|] == ts;
  }

  /* ---- the output in closed form ---- */

  /** The runs with a non-empty subject. */
  function Named(rs: seq<Run>): seq<Run> {
    if rs == [] then []
    else if rs[|rs| - 1].subj == "" then Named(rs[..|rs| - 1])
    else Named(rs[..|rs| - 1]) + [rs[|rs| - 1]]
  }

  /** The relevant triples of all runs with an empty subject. */
  function Unnamed(preds: seq<string>, rs: seq<Run>): seq<Triple> {
    if rs == [] then []
    else if rs[|rs| - 1].subj == "" then Unnamed(preds, rs[..|rs| - 1]) + Relevant(preds, rs[|rs| - 1].triples)
    else Unnamed(preds, rs[..|rs| - 1])
  }

  lemma {:induction false} RelevantSnoc(preds: seq<string>, ts: seq<Triple>, t: Triple)
    ensures Relevant(preds, ts + [t]) == if t.pred in preds then Relevant(preds, ts) + [t] else Relevant(preds, ts)
  {
    assert (ts + [t])[..|ts|] == ts;
  }

  lemma {:induction false} LastObjectRelevant(preds: seq<string>, ts: seq<Triple>, p: string)
    requires p in preds
    ensures LastObject(Relevant(preds, ts), p) == LastObject(ts, p)
  {
    if ts == [] {
    } else {
      var init := ts[..|ts| - 1];
      LastObjectRelevant(preds, init, p);
      assert (Relevant(preds, init) + [ts[|ts| - 1]])[..|Relevant(preds, init)|] == Relevant(preds, init);
    }
  }

  /** Irrelevant triples do not change a tuple. */
  lemma {:induction false} TupleOfRelevant(preds: seq<string>, subj: string, ts: seq<Triple>)
    ensures TupleOf(preds, subj, Relevant(preds, ts)) == TupleOf(preds, subj, ts)
  {
    forall i | 0 <= i < |preds| ensures LastObject(Relevant(preds, ts), preds[i]) == LastObject(ts, preds[i]) {
      LastObjectRelevant(preds, ts, preds[i]);
    }
  }

  /** What the buffer holds for a subject. */
  function Content(preds: seq<string>, rs: seq<Run>, subj: string): seq<Triple> {
    if subj == "" then Unnamed(preds, rs)
    else if rs != [] && rs[|rs| - 1].subj == subj then Relevant(preds, rs[|rs| - 1].triples)
    else []
  }

  ghost predicate Entry(buffer: map<string, seq<Triple>>, subj: string, ts: seq<Triple>) {
    if ts == [] then subj !in buffer else subj in buffer && buffer[subj] == ts
  }

  ghost predicate Buffers(preds: seq<string>, buffer: map<string, seq<Triple>>, rs: seq<Run>) {
    forall subj :: Entry(buffer, subj, Content(preds, rs, subj))
  }

  /** What a triple adds to the list of a subject. */
  function Added(preds: seq<string>, e: Triple, subj: string): seq<Triple> {
    if e.subj == subj && e.pred in preds then [e] else []
  }

  lemma {:induction false} AddEntry(preds: seq<string>, buffer: map<string, seq<Triple>>, e: Triple, subj: string,
      ts: seq<Triple>)
    requires Entry(buffer, subj, ts)
    ensures Entry(Add(preds, buffer, e), subj, ts + Added(preds, e, subj))
  {
    assert ts + [] == ts && (ts == [] ==> ts + [e] == [e]);
  }

  /** The state after the runs `rs`: the named runs before the last one are published. */
  ghost predicate Reached(preds: seq<string>, s: State, rs: seq<Run>) {
    && Buffers(preds, s.tupleBuffer, rs)
    && (if rs == [] then s.currentSubj == "" && s.out == []
        else s.currentSubj == rs[|rs| - 1].subj && s.out == Tuples(preds, Named(rs[..|rs| - 1])))
  }

  lemma {:induction false} NewRun(rs: seq<Run>, r: Run)
    ensures (rs + [r])[..|rs|] == rs && (rs + [r])[|rs|] == r
  {}

  lemma {:induction false} TuplesSnoc(preds: seq<string>, rs: seq<Run>, r: Run)
    ensures Tuples(preds, rs + [r]) ==
            if Relevant(preds, r.triples) == [] then Tuples(preds, rs)
            else Tuples(preds, rs) + [TupleOf(preds, r.subj, r.triples)]
  {
    NewRun(rs, r);
    NewRun(RelevantRuns(preds, rs), r);
  }

  /** The triple continues the last run. */
  lemma {:induction false} SameRun(preds: seq<string>, s: State, rs: seq<Run>, e: Triple)
    requires rs != [] && rs[|rs| - 1].subj == e.subj && Reached(preds, s, rs)
    ensures Reached(preds, Step(preds, s, e), rs[..|rs| - 1] + [Run(e.subj, rs[|rs| - 1].triples + [e])])
  {
    var rs' := rs[..|rs| - 1] + [Run(e.subj, rs[|rs| - 1].triples + [e])];
    NewRun(rs[..|rs| - 1], Run(e.subj, rs[|rs| - 1].triples + [e]));
    forall subj ensures Entry(Add(preds, s.tupleBuffer, e), subj, Content(preds, rs', subj)) {
      assert Entry(s.tupleBuffer, subj, Content(preds, rs, subj));
      AddEntry(preds, s.tupleBuffer, e, subj, Content(preds, rs, subj));
      ContentSameRun(preds, rs, e, subj);
    }
  }

  lemma {:induction false} ContentSameRun(preds: seq<string>, rs: seq<Run>, e: Triple, subj: string)
    requires rs != [] && rs[|rs| - 1].subj == e.subj
    ensures Content(preds, rs[..|rs| - 1] + [Run(e.subj, rs[|rs| - 1].triples + [e])], subj)
         == Content(preds, rs, subj) + Added(preds, e, subj)
  {
    var init, last := rs[..|rs| - 1], rs[|rs| - 1];
    NewRun(init, Run(e.subj, last.triples + [e]));
    RelevantSnoc(preds, last.triples, e);
    if e.subj == subj && e.pred in preds {
      Assoc(Unnamed(preds, init), Relevant(preds, last.triples), e);
    } else {
      assert Content(preds, rs, subj) + [] == Content(preds, rs, subj);
    }
  }

  lemma {:induction false} Assoc(a: seq<Triple>, b: seq<Triple>, e: Triple)
    ensures a + (b + [e]) == (a + b) + [e]
  {}

  lemma {:induction false} ContentNewRun(preds: seq<string>, rs: seq<Run>, e: Triple, subj: string)
    ensures Content(preds, rs + [Run(e.subj, [e])], subj)
        == (if subj == "" then Unnamed(preds, rs) else []) + Added(preds, e, subj)
  {
    NewRun(rs, Run(e.subj, [e]));
    RelevantSnoc(preds, [], e);
    assert [] + [e] == [e];
    assert Unnamed(preds, rs) + [] == Unnamed(preds, rs);
  }

  /** What the buffer holds while no run is open. */
  ghost predicate Pending(preds: seq<string>, buffer: map<string, seq<Triple>>, rs: seq<Run>) {
    forall subj :: PendingEntry(preds, buffer, rs, subj)
  }

  ghost predicate PendingEntry(preds: seq<string>, buffer: map<string, seq<Triple>>, rs: seq<Run>, subj: string) {
    Entry(buffer, subj, if subj == "" then Unnamed(preds, rs) else [])
  }

  lemma {:induction false} OpenRun(preds: seq<string>, buffer: map<string, seq<Triple>>, rs: seq<Run>, e: Triple)
    requires Pending(preds, buffer, rs)
    ensures Buffers(preds, Add(preds, buffer, e), rs + [Run(e.subj, [e])])
  {
    forall subj ensures Entry(Add(preds, buffer, e), subj, Content(preds, rs + [Run(e.subj, [e])], subj)) {
      assert PendingEntry(preds, buffer, rs, subj);
      AddEntry(preds, buffer, e, subj, if subj == "" then Unnamed(preds, rs) else []);
      ContentNewRun(preds, rs, e, subj);
    }
  }

  /** The triple starts a run after none or one with an empty subject, which is not published. */
  lemma {:induction false} RunAfterUnnamed(preds: seq<string>, s: State, rs: seq<Run>, e: Triple)
    requires (rs == [] || (rs[|rs| - 1].subj == "" && e.subj != "")) && Reached(preds, s, rs)
    ensures Reached(preds, Step(preds, s, e), rs + [Run(e.subj, [e])])
  {
    NewRun(rs, Run(e.subj, [e]));
    forall subj ensures PendingEntry(preds, s.tupleBuffer, rs, subj) {
      assert Entry(s.tupleBuffer, subj, Content(preds, rs, subj));
    }
    OpenRun(preds, s.tupleBuffer, rs, e);
  }

  /** The last run is published. */
  lemma {:induction false} Produced(preds: seq<string>, s: State, rs: seq<Run>)
    requires rs != [] && rs[|rs| - 1].subj != "" && Reached(preds, s, rs)
    ensures var p := Produce(preds, s, s.currentSubj);
            p.out == Tuples(preds, Named(rs)) && Pending(preds, p.tupleBuffer, rs)
  {
    var last, p := rs[|rs| - 1], Produce(preds, s, s.currentSubj);
    TupleOfRelevant(preds, last.subj, last.triples);
    TuplesSnoc(preds, Named(rs[..|rs| - 1]), last);
    assert Entry(s.tupleBuffer, last.subj, Content(preds, rs, last.subj));
    forall subj ensures PendingEntry(preds, p.tupleBuffer, rs, subj) {
      assert Entry(s.tupleBuffer, subj, Content(preds, rs, subj));
    }
  }

  /** The triple ends a run with a non-empty subject, which is published. */
  lemma {:induction false} RunAfterNamed(preds: seq<string>, s: State, rs: seq<Run>, e: Triple)
    requires rs != [] && rs[|rs| - 1].subj != "" && rs[|rs| - 1].subj != e.subj && Reached(preds, s, rs)
    ensures Reached(preds, Step(preds, s, e), rs + [Run(e.subj, [e])])
  {
    NewRun(rs, Run(e.subj, [e]));
    Produced(preds, s, rs);
    OpenRun(preds, Produce(preds, s, s.currentSubj).tupleBuffer, rs, e);
  }

  lemma {:induction false} AfterReached(preds: seq<string>, input: seq<Triple>)
    ensures Reached(preds, After(preds, input), Runs(input)) && (input != [] ==> Runs(input) != [])
  {
    if input == [] {
    } else {
      var init, e := input[..|input| - 1], input[|input| - 1];
      AfterReached(preds, init);
      var s, rs := After(preds, init), Runs(init);
      if rs != [] && rs[|rs| - 1].subj == e.subj {
        SameRun(preds, s, rs, e);
      } else if rs == [] || rs[|rs| - 1].subj == "" {
        RunAfterUnnamed(preds, s, rs, e);
      } else {
        RunAfterNamed(preds, s, rs, e);
      }
    }
  }

  predicate EndsUnnamed(rs: seq<Run>) { rs != [] && rs[|rs| - 1].subj == "" }

  /** For any input: the runs with a non-empty subject come out as one tuple each, in order; all triples
      with an empty subject come out as one tuple at the end if the last subject is empty, and are lost
      otherwise. */
  lemma {:induction false} OrderedOutput(preds: seq<string>, input: seq<Triple>)
    ensures var rs := Runs(input);
            FinalOutput(preds, input) == Tuples(preds, Named(rs)) +
              if EndsUnnamed(rs) && Unnamed(preds, rs) != [] then [TupleOf(preds, "", Unnamed(preds, rs))] else []
  {
    AfterReached(preds, input);
    var s, rs := After(preds, input), Runs(input);
    if rs == [] || rs[|rs| - 1].subj == "" {
      assert Entry(s.tupleBuffer, "", Content(preds, rs, ""));
    } else {
      Produced(preds, s, rs);
    }
  }

  /* ---- when the output is one tuple per run ---- */

  ghost predicate NoneUnnamed(l: seq<Run>) {
    forall i :: 0 <= i < |l| ==> l[i].subj != ""
  }

  lemma {:induction false} AllNamed(preds: seq<string>, rs: seq<Run>)
    requires NoneUnnamed(RelevantRuns(preds, rs))
    ensures Tuples(preds, Named(rs)) == Tuples(preds, rs) && Unnamed(preds, rs) == []
  {
    if rs == [] {
    } else {
      var init, last := rs[..|rs| - 1], rs[|rs| - 1];
      NoneUnnamedInit(preds, rs);
      AllNamed(preds, init);
      assert rs == init + [last];
      TuplesSnoc(preds, init, last);
      TuplesSnoc(preds, Named(init), last);
    }
  }

  lemma {:induction false} NoneUnnamedInit(preds: seq<string>, rs: seq<Run>)
    requires rs != [] && NoneUnnamed(RelevantRuns(preds, rs))
    ensures NoneUnnamed(RelevantRuns(preds, rs[..|rs| - 1]))
    ensures rs[|rs| - 1].subj != "" || Relevant(preds, rs[|rs| - 1].triples) == []
  {
    var l, l' := RelevantRuns(preds, rs), RelevantRuns(preds, rs[..|rs| - 1]);
    assert forall i :: 0 <= i < |l'| ==> l[i] == l'[i];
    if Relevant(preds, rs[|rs| - 1].triples) != [] {
      assert l[|l'|] == rs[|rs| - 1];
    }
  }

  /** Only the last relevant run has an empty subject. */
  ghost predicate OnlyLastUnnamed(preds: seq<string>, rs: seq<Run>) {
    var l := RelevantRuns(preds, rs);
    && l != [] && l[|l| - 1].subj == ""
    && forall i :: 0 <= i < |l| - 1 ==> l[i].subj != ""
  }

  lemma {:induction false} LastUnnamed(preds: seq<string>, rs: seq<Run>)
    requires OnlyLastUnnamed(preds, rs)
    ensures Unnamed(preds, rs) != []
    ensures Tuples(preds, rs) == Tuples(preds, Named(rs)) + [TupleOf(preds, "", Unnamed(preds, rs))]
  {
    var init, last := rs[..|rs| - 1], rs[|rs| - 1];
    assert rs == init + [last];
    TuplesSnoc(preds, init, last);
    TuplesSnoc(preds, Named(init), last);
    if Relevant(preds, last.triples) == [] {
      LastUnnamed(preds, init);
      assert Unnamed(preds, init) + [] == Unnamed(preds, init);
    } else {
      BeforeLast(preds, rs);
      AllNamed(preds, init);
      assert [] + Relevant(preds, last.triples) == Relevant(preds, last.triples);
      TupleOfRelevant(preds, "", last.triples);
    }
  }

  lemma {:induction false} BeforeLast(preds: seq<string>, rs: seq<Run>)
    requires OnlyLastUnnamed(preds, rs) && Relevant(preds, rs[|rs| - 1].triples) != []
    ensures NoneUnnamed(RelevantRuns(preds, rs[..|rs| - 1])) && rs[|rs| - 1].subj == ""
  {
    var l, l' := RelevantRuns(preds, rs), RelevantRuns(preds, rs[..|rs| - 1]);
    assert l == l' + [rs[|rs| - 1]];
    assert forall i :: 0 <= i < |l'| ==> l[i] == l'[i];
  }

  /** Every relevant run with an empty subject is the last relevant one, and the input ends with an empty
      subject. */
  ghost predicate Kept(preds: seq<string>, rs: seq<Run>) {
    var l := RelevantRuns(preds, rs);
    forall i :: 0 <= i < |l| && l[i].subj == "" ==> i == |l| - 1 && EndsUnnamed(rs)
  }

  lemma {:induction false} NamedTuples(preds: seq<string>, rs: seq<Run>)
    ensures forall i :: 0 <= i < |Tuples(preds, Named(rs))| ==>
      Tuples(preds, Named(rs))[i] != [] && Tuples(preds, Named(rs))[i][0] != ""
  {
    if rs == [] {
    } else {
      NamedTuples(preds, rs[..|rs| - 1]);
      TuplesSnoc(preds, Named(rs[..|rs| - 1]), rs[|rs| - 1]);
    }
  }

  lemma {:induction false} LostRun(preds: seq<string>, input: seq<Triple>)
    requires FinalOutput(preds, input) == Tuples(preds, Runs(input))
    ensures Kept(preds, Runs(input))
  {
    var rs := Runs(input);
    var l, named := RelevantRuns(preds, rs), Tuples(preds, Named(rs));
    OrderedOutput(preds, input);
    NamedTuples(preds, rs);
    forall i | 0 <= i < |l| && l[i].subj == "" ensures i == |l| - 1 && EndsUnnamed(rs) {
      assert Tuples(preds, rs)[i][0] == "";
      Behind(named, FinalOutput(preds, input), i);
    }
  }

  /** An empty subject is not found among the tuples of the named runs. */
  lemma {:induction false} Behind(named: seq<Record>, out: seq<Record>, i: nat)
    requires named <= out && i < |out| && out[i] != [] && out[i][0] == ""
    requires forall j :: 0 <= j < |named| ==> named[j] != [] && named[j][0] != ""
    ensures i >= |named|
  {}

  /** The output is one tuple per relevant run, with the last object per predicate, exactly when no run
      with an empty subject gets lost or out of order. */
  lemma {:induction false} OrderedExact(preds: seq<string>, input: seq<Triple>)
    ensures FinalOutput(preds, input) == Tuples(preds, Runs(input)) <==> Kept(preds, Runs(input))
  {
    var rs := Runs(input);
    var l := RelevantRuns(preds, rs);
    if FinalOutput(preds, input) == Tuples(preds, rs) {
      LostRun(preds, input);
    }
    if Kept(preds, rs) {
      OrderedOutput(preds, input);
      if l != [] && l[|l| - 1].subj == "" {
        LastUnnamed(preds, rs);
      } else {
        AllNamed(preds, rs);
        assert Tuples(preds, Named(rs)) + [] == Tuples(preds, rs);
      }
    }
  }

  lemma {:induction false} RunsNamed(input: seq<Triple>)
    requires forall t :: t in input ==> t.subj != ""
    ensures forall r :: r in Runs(input) ==> r.subj != ""
  {
    if input == [] {
    } else {
      RunsNamed(input[..|input| - 1]);
    }
  }

  lemma {:induction false} RelevantAreRuns(preds: seq<string>, rs: seq<Run>)
    ensures forall r :: r in RelevantRuns(preds, rs) ==> r in rs
  {
    if rs == [] {
    } else {
      RelevantAreRuns(preds, rs[..|rs| - 1]);
    }
  }

  /** With non-empty subjects every relevant run comes out, in order. */
  lemma {:induction false} OrderedTuples(preds: seq<string>, input: seq<Triple>)
    requires forall t :: t in input ==> t.subj != ""
    ensures FinalOutput(preds, input) == Tuples(preds, Runs(input))
  {
    RunsNamed(input);
    RelevantAreRuns(preds, Runs(input));
    OrderedExact(preds, input);
  }

  lemma {:induction false} TuplesOfOneMore(preds: seq<string>, rs: seq<Run>, a: Triple)
    requires a.pred in preds
    ensures Tuples(preds, rs + [Run(a.subj, [a])]) == Tuples(preds, rs) + [TupleOf(preds, a.subj, [a])]
  {
    RelevantSnoc(preds, [], a);
    assert [] + [a] == [a];
    TuplesSnoc(preds, rs, Run(a.subj, [a]));
  }

  lemma {:induction false} TuplesOfTwo(preds: seq<string>, a: Triple, b: Triple)
    requires a.pred in preds && b.pred in preds
    ensures Tuples(preds, [Run(b.subj, [b])]) == [TupleOf(preds, b.subj, [b])]
    ensures Tuples(preds, [Run(a.subj, [a]), Run(b.subj, [b])])
         == [TupleOf(preds, a.subj, [a]), TupleOf(preds, b.subj, [b])]
  {
    var q, r := Run(a.subj, [a]), Run(b.subj, [b]);
    TuplesOfOneMore(preds, [], a);
    TuplesOfOneMore(preds, [], b);
    TuplesOfOneMore(preds, [q], b);
    assert [] + [q] == [q] && [] + [r] == [r] && [q] + [r] == [q, r];
  }

  lemma {:induction false} RunsOfTwo(a: Triple, b: Triple)
    requires a.subj != b.subj
    ensures Runs([a, b]) == [Run(a.subj, [a]), Run(b.subj, [b])]
    ensures a.subj == "" && b.subj != "" ==> Named(Runs([a, b])) == [Run(b.subj, [b])]
  {
    var q, r := Run(a.subj, [a]), Run(b.subj, [b]);
    assert [] + [a] == [a] && [a] + [b] == [a, b] && [] + [q] == [q] && [q] + [r] == [q, r] && [] + [r] == [r];
    RunsSnoc([], a);
    RunsSnoc([a], b);
    NamedSnoc([], q);
    NamedSnoc([q], r);
  }

  lemma {:induction false} NamedSnoc(rs: seq<Run>, r: Run)
    ensures Named(rs + [r]) == if r.subj == "" then Named(rs) else Named(rs) + [r]
  {
    NewRun(rs, r);
  }

  /** A run with an empty subject is lost when another subject follows. */
  lemma {:induction false} EmptySubjectIsLost(preds: seq<string>, s: string, p: string, o: string)
    requires s != "" && p in preds
    ensures var input := [Triple("", p, o), Triple(s, p, o)];
            && FinalOutput(preds, input) == [TupleOf(preds, s, [Triple(s, p, o)])]
            && Tuples(preds, Runs(input))
                == [TupleOf(preds, "", [Triple("", p, o)]), TupleOf(preds, s, [Triple(s, p, o)])]
            && !Kept(preds, Runs(input))
  {
    var a, b := Triple("", p, o), Triple(s, p, o);
    RunsOfTwo(a, b);
    TuplesOfTwo(preds, a, b);
    OrderedOutput(preds, [a, b]);
    assert !EndsUnnamed(Runs([a, b]));
    OrderedExact(preds, [a, b]);
  }
}

/** Whole runs of the two-table protocol: one commit per writer, after a vote for each table. */
module BoccRuns {
  import opened Wrappers
  import opened BoccCore
  import opened BoccProtocol

  /** How many writers have begun. */
  function Begins(run: seq<Action>): nat {
    if run == [] then 0 else Begins(run[..|run| - 1]) + if run[|run| - 1].Begin? then 1 else 0
  }

  /** What happened since the last writer began. */
  function SinceBegin(run: seq<Action>): seq<Action> {
    if run == [] || run[|run| - 1].Begin? then [] else SinceBegin(run[..|run| - 1]) + [run[|run| - 1]]
  }

  /** The tuples buffered for table `t`, in order. */
  function Buffered(run: seq<Action>, t: Tab): seq<Write> {
    if run == [] then []
    else
      var a := run[|run| - 1];
      if a.Buffer? && a.t == t then Buffered(run[..|run| - 1], t) + [(a.k, a.v)] else Buffered(run[..|run| - 1], t)
  }

  predicate BothVoted(run: seq<Action>) { Vote(T0) in run && Vote(T1) in run }

  function AllBuffered(run: seq<Action>): Pair<seq<Write>> { Pair(Buffered(run, T0), Buffered(run, T1)) }

  /** How writer and history follow from the current writer's part `cur` of the run. */
  ghost predicate WriterOk(begins: nat, cur: seq<Action>, s: State) {
    && begins == |s.hist| + (if s.writer.Open? then 1 else 0)
    && (s.writer.Open? ==>
          && !BothVoted(cur) && s.writer.buf == AllBuffered(cur)
          && s.writer.vote == Pair(Vote(T0) in cur, Vote(T1) in cur))
    && (s.writer.Committing? ==> s.hist != [])
    && (!s.writer.Open? && s.hist != [] ==> BothVoted(cur) && s.hist[|s.hist| - 1] == AllBuffered(cur))
  }

  lemma {:induction false} RunSnoc(run: seq<Action>, a: Action)
    ensures Begins(run + [a]) == Begins(run) + if a.Begin? then 1 else 0
    ensures SinceBegin(run + [a]) == if a.Begin? then [] else SinceBegin(run) + [a]
  {
    assert (run + [a])[..|run|] == run;
  }

  lemma {:induction false} BufferedSnoc(run: seq<Action>, a: Action, t: Tab)
    ensures Buffered(run + [a], t)
        == (if a.Buffer? && a.t == t then Buffered(run, t) + [(a.k, a.v)] else Buffered(run, t))
  {
    assert (run + [a])[..|run|] == run;
  }

  /** Steps other than those of an open writer. */
  predicate LeavesWriter(a: Action) { !a.Begin? && !a.Buffer? && !a.Vote? }

  lemma {:induction false} OtherStep(s: State, a: Action, s': State)
    requires LeavesWriter(a) && Step(s, a) == Some(s')
    ensures s'.hist == s.hist && (s'.writer.Open? || s.writer.Open? ==> s'.writer == s.writer)
    ensures s'.writer.Committing? ==> s.writer.Committing?
  {
    if a.Commit? {
      CommitStep(s, s');
    } else if a.Oldest? {
      assert DoOldest(s, a.oldest) == Some(s');
    } else {
      ReaderStep(s, a, s');
    }
  }

  lemma {:induction false} CommitStep(s: State, s': State)
    requires DoCommit(s) == Some(s')
    ensures s'.hist == s.hist && !s'.writer.Open? && s.writer.Committing?
  {}

  lemma {:induction false} ReaderStep(s: State, a: Action, s': State)
    requires LeavesWriter(a) && !a.Commit? && !a.Oldest? && Step(s, a) == Some(s')
    ensures s'.hist == s.hist && s'.writer == s.writer
  {}

  lemma {:induction false} WriterStep(begins: nat, cur: seq<Action>, s: State, a: Action, s': State)
    requires WriterOk(begins, cur, s) && Step(s, a) == Some(s')
    ensures if a.Begin? then WriterOk(begins + 1, [], s') else WriterOk(begins, cur + [a], s')
  {
    BufferedSnoc(cur, a, T0);
    BufferedSnoc(cur, a, T1);
    assert forall b :: b in cur + [a] <==> b in cur || b == a;
    if LeavesWriter(a) {
      OtherStep(s, a, s');
    } else if a.Vote? {
      assert a == Vote(T0) || a == Vote(T1);
    }
  }

  lemma {:induction false} RunWriterOk(data: Pair<Data>, clock: nat, run: seq<Action>, s: State)
    requires Exec(Init(data, clock), run) == Some(s)
    ensures WriterOk(Begins(run), SinceBegin(run), s)
  {
    if run == [] {
    } else {
      var init, a := run[..|run| - 1], run[|run| - 1];
      var before := Exec(Init(data, clock), init).value;
      RunWriterOk(data, clock, init, before);
      assert run == init + [a];
      RunSnoc(init, a);
      WriterStep(Begins(init), SinceBegin(init), before, a, s);
    }
  }

  /** In every run each writer starts exactly one commit: none while a vote for one of the tables is
      missing, and one, of everything it has buffered for both tables, from the moment both are there. */
  lemma {:induction false} OneCommitPerWriter(data: Pair<Data>, clock: nat, run: seq<Action>, s: State)
    requires Exec(Init(data, clock), run) == Some(s) && Begins(run) > 0
    ensures |s.hist| == if BothVoted(SinceBegin(run)) then Begins(run) else Begins(run) - 1
    ensures BothVoted(SinceBegin(run)) ==> s.hist[|s.hist| - 1] == AllBuffered(SinceBegin(run))
    ensures s.writer.Open? <==> !BothVoted(SinceBegin(run))
  {
    RunWriterOk(data, clock, run, s);
  }
}

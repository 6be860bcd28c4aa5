/** When the chunked reader produces the lines of the file. */
module LineReaderTheorems {
  import opened LineReader

  /* ---- lines of concatenated texts ---- */

  lemma {:induction false} LinesSnoc(s: string, x: char)
    ensures Lines(s + [x]) == if x == '\n' then Lines(s) + [Rest(s)] else Lines(s)
    ensures Rest(s + [x]) == if x == '\n' then [] else Rest(s) + [x]
  {
    assert (s + [x])[..|s|] == s;
  }

  lemma {:induction false} SplitLast(x: string, y: string)
    requires y != []
    ensures (x + y[..|y| - 1]) + [y[|y| - 1]] == x + y
  {}

  /** Every line with a newline behind it, one after the other. */
  function Unlines(lines: seq<string>): string {
    if lines == [] then [] else Unlines(lines[..|lines| - 1]) + lines[|lines| - 1] + ['\n']
  }

  /** The text is these lines, each closed by a newline, and this rest; no newline is inside any of them. */
  ghost predicate Splits(s: string, lines: seq<string>, rest: string) {
    s == Unlines(lines) + rest && '\n' !in rest && forall l :: l in lines ==> '\n' !in l
  }

  lemma {:induction false} UnlinesSnoc(lines: seq<string>, l: string)
    ensures Unlines(lines + [l]) == Unlines(lines) + l + ['\n']
  {
    assert (lines + [l])[..|lines|] == lines;
  }

  lemma {:induction false} LinesSplit(s: string)
    ensures Splits(s, Lines(s), Rest(s))
    decreases |s|
  {
    if s == [] {
    } else {
      var init, x := s[..|s| - 1], s[|s| - 1];
      assert s == init + [x];
      LinesSplit(init);
      LinesSnoc(init, x);
      SplitsNext(init, Lines(init), Rest(init), x);
    }
  }

  lemma {:induction false} SplitsNext(s: string, lines: seq<string>, rest: string, x: char)
    requires Splits(s, lines, rest)
    ensures if x == '\n' then Splits(s + [x], lines + [rest], []) else Splits(s + [x], lines, rest + [x])
  {
    if x == '\n' {
      UnlinesSnoc(lines, rest);
      assert Unlines(lines + [rest]) + [] == s + [x];
    } else {
      assert (Unlines(lines) + rest) + [x] == Unlines(lines) + (rest + [x]);
    }
  }

  lemma {:induction false} SplitsOnce(lines: seq<string>, rest: string)
    requires '\n' !in rest && forall l :: l in lines ==> '\n' !in l
    ensures Lines(Unlines(lines) + rest) == lines && Rest(Unlines(lines) + rest) == rest
    decreases |lines|
  {
    PlainAppend(Unlines(lines), rest);
    if lines == [] {
    } else {
      var init, l := lines[..|lines| - 1], lines[|lines| - 1];
      assert lines == init + [l] && l in lines;
      assert forall k :: k in init ==> k in lines;
      SplitsOnce(init, l);
      UnlinesSnoc(init, l);
      LinesSnoc(Unlines(init) + l, '\n');
    }
    assert [] + rest == rest;
  }

  /** The lines and the rest of a text: there is one way to split it at its newlines, and this is it. */
  lemma {:induction false} LinesExact(s: string, lines: seq<string>, rest: string)
    ensures lines == Lines(s) && rest == Rest(s) <==> Splits(s, lines, rest)
  {
    LinesSplit(s);
    if Splits(s, lines, rest) {
      SplitsOnce(lines, rest);
    }
  }

  /** Text without a newline only extends the rest. */
  lemma {:induction false} PlainAppend(s: string, x: string)
    requires '\n' !in x
    ensures Lines(s + x) == Lines(s) && Rest(s + x) == Rest(s) + x
  {
    if x == [] {
      assert s + x == s;
    } else {
      var init := x[..|x| - 1];
      PlainAppend(s, init);
      SplitLast(s, x);
      LinesSnoc(s + init, x[|x| - 1]);
      SplitLast(Rest(s), x);
    }
  }

  lemma {:induction false} LinesGrow(s: string, x: string)
    ensures Lines(s) <= Lines(s + x)
  {
    if x == [] {
      assert s + x == s;
    } else {
      LinesGrow(s, x[..|x| - 1]);
      SplitLast(s, x);
      LinesSnoc(s + x[..|x| - 1], x[|x| - 1]);
    }
  }

  lemma {:induction false} FitsPrefix(s: string, x: string)
    requires Fits(s + x)
    ensures Fits(s)
  {
    if x == [] {
      assert s + x == s;
    } else {
      var t, c := s + x[..|x| - 1], x[|x| - 1];
      SplitLast(s, x);
      LinesSnoc(t, c);
      if c == '\n' { assert Rest(t) in Lines(s + x); }
      assert forall l :: l in Lines(t) ==> l in Lines(s + x);
      FitsPrefix(s, x[..|x| - 1]);
    }
  }

  /* ---- one chunk ---- */

  predicate Below(limit: nat, n: nat) { limit == 0 || n < limit }

  /** The reader is where it should be after the text `t`. */
  ghost predicate Good(st: State, t: string, limit: nat) {
    match st
    case Running(lines, carry, _) => lines == Lines(t) && carry == Rest(t) && Below(limit, |lines|)
    case Finished(lines) => 0 < limit <= |Lines(t)| && lines == Lines(t)[..limit]
    case TooLong => false
  }

  /** Passing the newline at `f` completes a line. */
  lemma {:induction false} NextLine(s: string, c: string, p: nat, f: nat)
    requires p <= f < |c| && c[f] == '\n' && '\n' !in c[p..f]
    ensures Lines(s + c[..f + 1]) == Lines(s + c[..p]) + [Rest(s + c[..p]) + c[p..f]] && Rest(s + c[..f + 1]) == []
  {
    var t := s + c[..p];
    assert t + c[p..f] == s + c[..f];
    PlainAppend(t, c[p..f]);
    assert s + c[..f + 1] == (s + c[..f]) + [c[f]];
    LinesSnoc(s + c[..f], c[f]);
  }

  lemma {:induction false} PrefixFits(s: string, c: string, k: nat)
    requires k <= |c| && Fits(s + c)
    ensures Fits(s + c[..k]) && Lines(s + c[..k]) <= Lines(s + c)
  {
    assert (s + c[..k]) + c[k..] == s + c;
    FitsPrefix(s + c[..k], c[k..]);
    LinesGrow(s + c[..k], c[k..]);
  }

  /** A chunk with a newline is read right, and so is a first chunk. */
  lemma {:induction false} ScanGood(s: string, lines: seq<string>, carry: string, remaining: nat, c: string, p: nat,
      limit: nat)
    requires p <= |c| && lines == Lines(s + c[..p]) && carry == Rest(s + c[..p]) && Below(limit, |lines|) && Fits(s + c)
    requires Find(c, p) < |c| || (remaining == p && carry == [])
    ensures Good(Scan(lines, carry, remaining, c, p, limit), s + c, limit)
    decreases |c| - p
  {
    var f := Find(c, p);
    if f < |c| {
      var more := lines + [carry + c[p..f]];
      LineFits(s, c, p, f);
      ScanFitting(lines, carry, remaining, c, p, limit);
      if |more| == limit {
        Enough(more, s + c, limit);
      } else {
        ScanGood(s, more, [], f + 1, c, f + 1, limit);
      }
    } else {
      ScanTail(s, lines, carry, c, p, limit);
    }
  }

  lemma {:induction false} ScanFitting(lines: seq<string>, carry: string, remaining: nat, c: string, p: nat,
      limit: nat)
    requires p <= |c| && Find(c, p) < |c| && |carry + c[p..Find(c, p)]| + 1 < MAX_TUPLE_SIZE
    ensures var more, next := lines + [carry + c[p..Find(c, p)]], Find(c, p) + 1;
            Scan(lines, carry, remaining, c, p, limit)
              == if |more| == limit then Finished(more) else Scan(more, [], next, c, next, limit)
  {
    ScanLine(lines, carry, remaining, c, p, limit);
  }

  lemma {:induction false} Enough(lines: seq<string>, t: string, limit: nat)
    requires lines != [] && lines <= Lines(t) && |lines| == limit
    ensures Good(Finished(lines), t, limit)
  {}

  /** The next line is not too long, and belongs to the lines of the whole text. */
  lemma {:induction false} LineFits(s: string, c: string, p: nat, f: nat)
    requires p <= f < |c| && c[f] == '\n' && '\n' !in c[p..f] && Fits(s + c)
    ensures var line := Rest(s + c[..p]) + c[p..f];
            && |line| + 1 < MAX_TUPLE_SIZE
            && Lines(s + c[..f + 1]) == Lines(s + c[..p]) + [line] && Rest(s + c[..f + 1]) == []
            && Lines(s + c[..f + 1]) <= Lines(s + c)
  {
    NextLine(s, c, p, f);
    PrefixFits(s, c, f + 1);
    assert Rest(s + c[..p]) + c[p..f] in Lines(s + c[..f + 1]);
  }

  /** Behind the last newline of the chunk the rest is kept. */
  lemma {:induction false} ScanTail(s: string, lines: seq<string>, carry: string, c: string, p: nat, limit: nat)
    requires p <= |c| && lines == Lines(s + c[..p]) && carry == Rest(s + c[..p]) == [] && Below(limit, |lines|)
    requires Fits(s + c)
    requires Find(c, p) == |c|
    ensures Good(Scan(lines, carry, p, c, p, limit), s + c, limit)
  {
    assert (s + c[..p]) + c[p..] == s + c;
    assert c[p..|c|] == c[p..];
    PlainAppend(s + c[..p], c[p..]);
  }

  /** Behind a newline, or with a carry, so that a chunk without a newline is not kept whole. */
  predicate Moved(st: State) {
    st.Running? ==> st.remaining > 0 || st.carry != []
  }

  lemma {:induction false} ScanMoves(lines: seq<string>, carry: string, remaining: nat, c: string, p: nat, limit: nat)
    requires p <= |c| && c != [] && (p == 0 || remaining > 0)
    ensures Moved(Scan(lines, carry, remaining, c, p, limit))
    decreases |c| - p
  {
    var f := Find(c, p);
    if f == |c| {
    } else {
      ScanMoves(lines + [carry + c[p..f]], [], f + 1, c, f + 1, limit);
    }
  }

  lemma {:induction false} ScanGrows(lines: seq<string>, carry: string, remaining: nat, c: string, p: nat, limit: nat)
    requires p <= |c|
    ensures var st := Scan(lines, carry, remaining, c, p, limit); !st.TooLong? ==> lines <= st.lines
    decreases |c| - p
  {
    var f := Find(c, p);
    if f == |c| {
    } else {
      ScanGrows(lines + [carry + c[p..f]], [], f + 1, c, f + 1, limit);
    }
  }

  /** A later chunk without a newline drops something. */
  lemma {:induction false} ScanDrops(s: string, lines: seq<string>, carry: string, remaining: nat, c: string,
      limit: nat)
    requires lines == Lines(s) && '\n' !in c && c != [] && Fits(s + c)
    requires |carry| < |Rest(s)| || (carry == Rest(s) && (remaining > 0 || carry != []))
    ensures var st := Scan(lines, carry, remaining, c, 0, limit);
            st.Running? && st.lines == Lines(s + c) && |st.carry| < |Rest(s + c)|
  {
    PlainAppend(s, c);
    assert Find(c, 0) == |c|;
  }

  /** Some line is wrong. */
  ghost predicate Wrong(st: State, t: string) {
    !st.TooLong? ==> exists k :: 0 <= k < |st.lines| && k < |Lines(t)| && st.lines[k] != Lines(t)[k]
  }

  predicate HasLine(c: string) { '\n' in c }

  lemma {:induction false} FindsLine(c: string)
    ensures HasLine(c) ==> Find(c, 0) < |c|
  {
    assert Find(c, 0) == |c| ==> c[0..Find(c, 0)] == c;
  }

  /** The line that ends in the next chunk lacks what was dropped. */
  lemma {:induction false} ScanWrong(s: string, lines: seq<string>, carry: string, remaining: nat, c: string,
      limit: nat)
    requires lines == Lines(s) && |carry| < |Rest(s)| && HasLine(c)
    ensures Wrong(Scan(lines, carry, remaining, c, 0, limit), s + c)
  {
    var f := Find(c, 0);
    FindsLine(c);
    var line := carry + c[0..f];
    NextLine(s, c, 0, f);
    assert s + c[..0] == s;
    assert s + c[..f + 1] + c[f + 1..] == s + c;
    LinesGrow(s + c[..f + 1], c[f + 1..]);
    ScanGrows(lines + [line], [], f + 1, c, f + 1, limit);
    var st := Scan(lines, carry, remaining, c, 0, limit);
    if !st.TooLong? {
      assert st.lines[|lines|] == line && Lines(s + c)[|lines|] == Rest(s) + c[0..f];
      assert |line| != |Rest(s) + c[0..f]|;
    }
  }

  lemma {:induction false} WrongStays(st: State, t: string, st': State, x: string)
    requires Wrong(st, t) && !st.TooLong? && (!st'.TooLong? ==> st.lines <= st'.lines)
    ensures Wrong(st', t + x)
  {
    LinesGrow(t, x);
    var k :| 0 <= k < |st.lines| && k < |Lines(t)| && st.lines[k] != Lines(t)[k];
    if !st'.TooLong? {
      assert st'.lines[k] != Lines(t + x)[k];
    }
  }

  /* ---- all chunks ---- */

  /** All lines up to the limit end before chunk `i`. */
  ghost predicate DoneBefore(chunks: seq<string>, i: nat, limit: nat)
    requires i <= |chunks|
  {
    0 < limit <= |Lines(Concat(chunks[..i]))|
  }

  /** No chunk but the first is without a newline, except behind the last line that is read. */
  ghost predicate Sound(chunks: seq<string>, limit: nat) {
    forall i, j :: 1 <= i < j < |chunks| && !HasLine(chunks[i]) && HasLine(chunks[j]) ==> DoneBefore(chunks, i, limit)
  }

  lemma {:induction false} SoundSnoc(chunks: seq<string>, c: string, limit: nat)
    ensures Sound(chunks + [c], limit) <==>
            (Sound(chunks, limit) &&
             (HasLine(c) ==>
                forall i :: 1 <= i < |chunks| && !HasLine(chunks[i]) ==> DoneBefore(chunks, i, limit)))
  {
    var all := chunks + [c];
    assert forall i :: 0 <= i < |chunks| ==> all[i] == chunks[i] && all[..i] == chunks[..i];
    assert forall i :: 0 <= i < |chunks| ==> (DoneBefore(all, i, limit) <==> DoneBefore(chunks, i, limit));
    assert all[|chunks|] == c;
  }

  lemma {:induction false} ConcatSnoc(chunks: seq<string>, c: string)
    ensures Concat(chunks + [c]) == Concat(chunks) + c
  {
    assert (chunks + [c])[..|chunks|] == chunks;
  }

  lemma {:induction false} NoMoreLines(chunks: seq<string>, i: nat)
    requires i <= |chunks| && forall j :: i <= j < |chunks| ==> !HasLine(chunks[j])
    ensures Lines(Concat(chunks)) == Lines(Concat(chunks[..i]))
  {
    if i == |chunks| {
      assert chunks[..i] == chunks;
    } else {
      var init := chunks[..|chunks| - 1];
      NoMoreLines(init, i);
      assert init[..i] == chunks[..i];
      PlainAppend(Concat(init), chunks[|chunks| - 1]);
    }
  }

  /** The last chunk was not the first and had no newline. */
  predicate Dropped(chunks: seq<string>) {
    |chunks| >= 2 && !HasLine(chunks[|chunks| - 1])
  }

  /** The state of the reader, for sound and unsound chunks. */
  ghost predicate Status(chunks: seq<string>, limit: nat) {
    var t, st := Concat(chunks), Read(chunks, limit);
    if !Sound(chunks, limit) then Wrong(st, t)
    else if st.Running? && Dropped(chunks) then
      st.lines == Lines(t) && Below(limit, |st.lines|) && |st.carry| < |Rest(t)|
    else Good(st, t, limit) && (chunks == [] || Moved(st))
  }

  lemma {:induction false} AfterFinish(chunks: seq<string>, c: string, limit: nat)
    requires Read(chunks, limit).Finished? && Status(chunks, limit)
    ensures Status(chunks + [c], limit)
  {
    var all, t := chunks + [c], Concat(chunks);
    assert all[..|all| - 1] == chunks;
    assert Read(all, limit) == Read(chunks, limit);
    ConcatSnoc(chunks, c);
    SoundSnoc(chunks, c, limit);
    LinesGrow(t, c);
    if Sound(chunks, limit) {
      forall i | 1 <= i < |chunks| && !HasLine(chunks[i]) ensures DoneBefore(chunks, i, limit) {
        if forall j :: i <= j < |chunks| ==> !HasLine(chunks[j]) {
          NoMoreLines(chunks, i);
        }
      }
    } else {
      WrongStays(Read(chunks, limit), t, Read(all, limit), c);
    }
  }

  lemma {:induction false} AfterTooLong(chunks: seq<string>, c: string, limit: nat)
    requires Read(chunks, limit).TooLong? && Status(chunks, limit)
    ensures Status(chunks + [c], limit)
  {
    var all := chunks + [c];
    assert all[..|all| - 1] == chunks;
    SoundSnoc(chunks, c, limit);
  }

  lemma {:induction false} AfterUnsound(chunks: seq<string>, c: string, limit: nat)
    requires Read(chunks, limit).Running? && Status(chunks, limit) && !Sound(chunks, limit)
    ensures Status(chunks + [c], limit)
  {
    var all, st := chunks + [c], Read(chunks, limit);
    assert all[..|all| - 1] == chunks;
    ConcatSnoc(chunks, c);
    SoundSnoc(chunks, c, limit);
    ScanGrows(st.lines, st.carry, st.remaining, c, 0, limit);
    WrongStays(st, Concat(chunks), Read(all, limit), c);
  }

  lemma {:induction false} AfterDropped(chunks: seq<string>, c: string, limit: nat)
    requires Read(chunks, limit).Running? && Status(chunks, limit) && Sound(chunks, limit) && Dropped(chunks)
    requires c != [] && Fits(Concat(chunks) + c)
    ensures Status(chunks + [c], limit)
  {
    var all, st := chunks + [c], Read(chunks, limit);
    assert all[..|all| - 1] == chunks && all[|all| - 1] == c;
    ConcatSnoc(chunks, c);
    SoundSnoc(chunks, c, limit);
    if HasLine(c) {
      var last := |chunks| - 1;
      NoMoreLines(chunks, last);
      assert !DoneBefore(chunks, last, limit);
      ScanWrong(Concat(chunks), st.lines, st.carry, st.remaining, c, limit);
    } else {
      PlainAppend(Concat(chunks), c);
      ScanDrops(Concat(chunks), st.lines, st.carry, st.remaining, c, limit);
    }
  }

  lemma {:induction false} AfterGood(chunks: seq<string>, c: string, limit: nat)
    requires Read(chunks, limit).Running? && Status(chunks, limit) && Sound(chunks, limit) && !Dropped(chunks)
    requires c != [] && Fits(Concat(chunks) + c)
    ensures Status(chunks + [c], limit)
  {
    if !HasLine(c) && chunks != [] { AfterGoodPlain(chunks, c, limit); } else { AfterGoodLine(chunks, c, limit); }
  }

  lemma {:induction false} AfterGoodPlain(chunks: seq<string>, c: string, limit: nat)
    requires Read(chunks, limit).Running? && Status(chunks, limit) && Sound(chunks, limit) && !Dropped(chunks)
    requires c != [] && Fits(Concat(chunks) + c) && !HasLine(c) && chunks != []
    ensures Status(chunks + [c], limit)
  {
    var all, st := chunks + [c], Read(chunks, limit);
    assert all[..|all| - 1] == chunks && all[|all| - 1] == c;
    ConcatSnoc(chunks, c);
    SoundSnoc(chunks, c, limit);
    PlainAppend(Concat(chunks), c);
    ScanDrops(Concat(chunks), st.lines, st.carry, st.remaining, c, limit);
  }

  /** A chunk with a newline after sound chunks without a gap leaves them sound. */
  lemma {:induction false} StaysSound(chunks: seq<string>, c: string, limit: nat)
    requires Sound(chunks, limit) && !Dropped(chunks)
    ensures Sound(chunks + [c], limit)
  {
    SoundSnoc(chunks, c, limit);
    if chunks != [] {
      var last := |chunks| - 1;
      assert forall i :: 1 <= i < last && !HasLine(chunks[i]) && HasLine(chunks[last]) ==> DoneBefore(chunks, i, limit);
    }
  }

  lemma {:induction false} AfterGoodLine(chunks: seq<string>, c: string, limit: nat)
    requires Read(chunks, limit).Running? && Status(chunks, limit) && Sound(chunks, limit) && !Dropped(chunks)
    requires c != [] && Fits(Concat(chunks) + c) && (HasLine(c) || chunks == [])
    ensures Status(chunks + [c], limit)
  {
    var all, st, t := chunks + [c], Read(chunks, limit), Concat(chunks);
    assert all[..|all| - 1] == chunks && all[|all| - 1] == c;
    ConcatSnoc(chunks, c);
    StaysSound(chunks, c, limit);
    FindsLine(c);
    assert t + c[..0] == t;
    ScanGood(t, st.lines, st.carry, st.remaining, c, 0, limit);
    ScanMoves(st.lines, st.carry, st.remaining, c, 0, limit);
  }

  lemma {:induction false} StatusOf(chunks: seq<string>, limit: nat)
    requires Fits(Concat(chunks)) && forall c :: c in chunks ==> c != []
    ensures Status(chunks, limit)
  {
    if chunks == [] {
    } else {
      var init, c := chunks[..|chunks| - 1], chunks[|chunks| - 1];
      assert chunks == init + [c] && c in chunks;
      FitsPrefix(Concat(init), c);
      assert forall d :: d in init ==> d in chunks;
      StatusOf(init, limit);
      match Read(init, limit)
      case Finished(_) => AfterFinish(init, c, limit);
      case TooLong => AfterTooLong(init, c, limit);
      case Running(_, _, _) =>
        if !Sound(init, limit) { AfterUnsound(init, c, limit); }
        else if Dropped(init) { AfterDropped(init, c, limit); }
        else { AfterGood(init, c, limit); }
    }
  }

  /** Exactly the lines of the file are produced, in order and cut at a positive limit. */
  ghost predicate Correct(st: State, content: string, limit: nat) {
    !st.TooLong? && st.lines == Cut(Lines(content), limit)
  }

  /** When all lines fit, the reader is correct exactly for sound chunks: a chunk without a newline, other
      than the first, must not come before a line that is still read. */
  lemma {:induction false} ReadExact(chunks: seq<string>, limit: nat)
    requires Fits(Concat(chunks)) && forall c :: c in chunks ==> c != []
    ensures Correct(Read(chunks, limit), Concat(chunks), limit) <==> Sound(chunks, limit)
  {
    StatusOf(chunks, limit);
    if !Sound(chunks, limit) {
      WrongIsIncorrect(Read(chunks, limit), Concat(chunks), limit);
    }
  }

  lemma {:induction false} WrongIsIncorrect(st: State, t: string, limit: nat)
    requires Wrong(st, t)
    ensures !Correct(st, t, limit)
  {
    if !st.TooLong? {
      var k :| 0 <= k < |st.lines| && k < |Lines(t)| && st.lines[k] != Lines(t)[k];
      var cut := Cut(Lines(t), limit);
      assert k < |cut| ==> cut[k] == Lines(t)[k];
    }
  }

  /** Every chunk but the last has a newline. */
  lemma {:induction false} LineInEveryChunk(chunks: seq<string>, limit: nat)
    requires Fits(Concat(chunks)) && forall c :: c in chunks ==> c != []
    requires forall i :: 0 <= i < |chunks| - 1 ==> HasLine(chunks[i])
    ensures Correct(Read(chunks, limit), Concat(chunks), limit)
  {
    ReadExact(chunks, limit);
  }

  /** A chunk longer than a tuple holds a newline. */
  lemma {:induction false} LongChunkHasLine(chunks: seq<string>, i: nat)
    requires Fits(Concat(chunks)) && i < |chunks| && |chunks[i]| > MAX_TUPLE_SIZE
    ensures HasLine(chunks[i])
    decreases |chunks|
  {
    var init, c := chunks[..|chunks| - 1], chunks[|chunks| - 1];
    assert chunks == init + [c];
    ConcatSnoc(init, c);
    FitsPrefix(Concat(init), c);
    if i < |init| {
      LongChunkHasLine(init, i);
    } else if !HasLine(c) {
      PlainAppend(Concat(init), c);
      assert |Rest(Concat(chunks))| > MAX_TUPLE_SIZE;
      assert false;
    }
  }

  /** A file whose reads are all full, except for the last one, is always read right. */
  lemma {:induction false} FullReadsAreCorrect(chunks: seq<string>, limit: nat)
    requires Fits(Concat(chunks)) && forall c :: c in chunks ==> c != []
    requires forall i :: 0 <= i < |chunks| - 1 ==> |chunks[i]| == BUFFER_SIZE
    ensures Correct(Read(chunks, limit), Concat(chunks), limit)
  {
    forall i | 0 <= i < |chunks| - 1 ensures HasLine(chunks[i]) {
      LongChunkHasLine(chunks, i);
    }
    LineInEveryChunk(chunks, limit);
  }

  /* ---- lines that are too long ---- */

  lemma {:induction false} FitsLine(t: string, lines: seq<string>, line: string, t': string)
    requires Lines(t') == Lines(t) + [line] && Rest(t') == [] && Fits(t) && |line| + 1 < MAX_TUPLE_SIZE
    ensures Fits(t')
  {}

  lemma {:induction false} ScanTooLong(s: string, lines: seq<string>, carry: string, remaining: nat, c: string, p: nat)
    requires p <= |c| && lines == Lines(s + c[..p]) && carry == Rest(s + c[..p])
    requires Fits(s + c[..p]) && !Fits(s + c)
    requires Find(c, p) < |c| || (remaining == p && carry == [])
    ensures Scan(lines, carry, remaining, c, p, 0) == TooLong
    decreases |c| - p
  {
    var f := Find(c, p);
    if f < |c| {
      var line := carry + c[p..f];
      NextLine(s, c, p, f);
      if |line| + 1 < MAX_TUPLE_SIZE {
        ScanFitting(lines, carry, remaining, c, p, 0);
        FitsLine(s + c[..p], lines, line, s + c[..f + 1]);
        ScanTooLong(s, lines + [line], [], f + 1, c, f + 1);
      } else {
        ScanLine(lines, carry, remaining, c, p, 0);
      }
    } else {
      TailTooLong(s, c, p);
    }
  }

  lemma {:induction false} TailTooLong(s: string, c: string, p: nat)
    requires p <= |c| && '\n' !in c[p..] && Rest(s + c[..p]) == [] && Fits(s + c[..p]) && !Fits(s + c)
    ensures |c| - p > MAX_TUPLE_SIZE
  {
    assert (s + c[..p]) + c[p..] == s + c;
    PlainAppend(s + c[..p], c[p..]);
    assert [] + c[p..] == c[p..];
  }

  /** If every chunk has a newline, the reader gives up exactly when some line with its newline, or the rest of
      the file, is too long; otherwise it produces all lines. */
  lemma {:induction false} TooLongExactly(chunks: seq<string>)
    requires forall i :: 0 <= i < |chunks| ==> HasLine(chunks[i])
    ensures Read(chunks, 0) == TooLong <==> !Fits(Concat(chunks))
    ensures Fits(Concat(chunks)) ==> Read(chunks, 0).Running? && Read(chunks, 0).lines == Lines(Concat(chunks))
    decreases |chunks|
  {
    if Fits(Concat(chunks)) {
      AllRead(chunks);
    } else if chunks == [] {
    } else {
      var init, c := chunks[..|chunks| - 1], chunks[|chunks| - 1];
      assert chunks == init + [c] && forall i :: 0 <= i < |init| ==> HasLine(init[i]);
      TooLongExactly(init);
      if Fits(Concat(init)) {
        ConcatSnoc(init, c);
        AllRead(init);
        assert HasLine(c);
        FindsLine(c);
        var st := Read(init, 0);
        assert Concat(init) + c[..0] == Concat(init);
        ScanTooLong(Concat(init), st.lines, st.carry, st.remaining, c, 0);
      }
    }
  }

  lemma {:induction false} AllRead(chunks: seq<string>)
    requires Fits(Concat(chunks)) && forall i :: 0 <= i < |chunks| ==> HasLine(chunks[i])
    ensures Good(Read(chunks, 0), Concat(chunks), 0)
  {
    StatusOf(chunks, 0);
  }

  /* ---- text that gets lost ---- */

  lemma {:induction false} LinesOfThree(x: char, y: char, z: char)
    requires x != '\n' && y != '\n' && z != '\n'
    ensures Lines([x, '\n', y, z, '\n']) == [[x], [y, z]] && Rest([x, '\n', y, z, '\n']) == []
  {
    LinesExact([x, '\n', y, z, '\n'], [[x], [y, z]], []);
    UnlinesSnoc([], [x]);
    UnlinesSnoc([[x]], [y, z]);
    assert [] + [[x]] == [[x]] && [[x]] + [[y, z]] == [[x], [y, z]];
    assert [] + [x] + ['\n'] == [x, '\n'] && [x, '\n'] + [y, z] + ['\n'] == [x, '\n', y, z, '\n'];
  }

  lemma {:induction false} ConcatOfThree(a: string, b: string, c: string)
    ensures Concat([a, b, c]) == a + b + c
  {
    ConcatSnoc([], a);
    ConcatSnoc([a], b);
    ConcatSnoc([a, b], c);
    assert [] + [a] == [a] && [a] + [b] == [a, b] && [a, b] + [c] == [a, b, c];
  }

  lemma {:induction false} ScanOneLine(lines: seq<string>, remaining: nat, x: char)
    requires x != '\n'
    ensures Scan(lines, [], remaining, [x, '\n'], 0, 0) == Running(lines + [[x]], [], 2)
  {
    var c: string := [x, '\n'];
    assert Find(c, 1) == 1 && Find(c, 0) == 1 && Find(c, 2) == 2;
    assert [] + c[0..1] == [x];
    assert Scan(lines + [[x]], [], 2, c, 2, 0) == Running(lines + [[x]], [], 2);
  }

  lemma {:induction false} ReadOfThree(x: char, y: char, z: char)
    requires x != '\n' && y != '\n' && z != '\n'
    ensures Read([[x, '\n'], [y], [z, '\n']], 0) == Running([[x], [z]], [], 2)
  {
    var cs: seq<string> := [[x, '\n'], [y], [z, '\n']];
    assert cs[..2][..1] == cs[..1] && cs[..1][..0] == [];
    ScanOneLine([], 0, x);
    assert [] + [[x]] == [[x]];
    assert Read(cs[..1], 0) == Running([[x]], [], 2);
    assert Find([y], 1) == 1 && Find([y], 0) == 1;
    assert Read(cs[..2], 0) == Running([[x]], [], 2);
    ScanOneLine([[x]], 2, z);
  }

  /** Three short reads of a file with short lines: the second one has no newline, and its text is lost. */
  lemma {:induction false} ChunkIsLost(x: char, y: char, z: char)
    requires x != '\n' && y != '\n' && z != '\n'
    ensures var cs: seq<string> := [[x, '\n'], [y], [z, '\n']];
            && Fits(Concat(cs)) && (forall c :: c in cs ==> c != []) && !Sound(cs, 0)
            && Lines(Concat(cs)) == [[x], [y, z]]
            && Read(cs, 0).Running? && Read(cs, 0).lines == [[x], [z]]
            && !Correct(Read(cs, 0), Concat(cs), 0)
  {
    var cs: seq<string> := [[x, '\n'], [y], [z, '\n']];
    ConcatOfThree([x, '\n'], [y], [z, '\n']);
    assert [x, '\n'] + [y] + [z, '\n'] == [x, '\n', y, z, '\n'];
    LinesOfThree(x, y, z);
    ReadOfThree(x, y, z);
    assert !HasLine(cs[1]) && HasLine(cs[2]) && !DoneBefore(cs, 1, 0);
  }
}

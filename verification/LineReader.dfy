/** Reading the lines of a file in chunks, as TextFileSource does with plain reads. */
module LineReader {
  const MAX_TUPLE_SIZE: nat := 10240
  const BUFFER_SIZE: nat := 16 * 1024

  /* ---- the lines of a text ---- */

  function Lines(s: string): seq<string> {
    if s == [] then []
    else if s[|s| - 1] == '\n' then Lines(s[..|s| - 1]) + [Rest(s[..|s| - 1])]
    else Lines(s[..|s| - 1])
  }

  /** What follows the last newline. */
  function Rest(s: string): string {
    if s == [] || s[|s| - 1] == '\n' then [] else Rest(s[..|s| - 1]) + [s[|s| - 1]]
  }

  /** A positive limit cuts the list of lines. */
  function Cut(lines: seq<string>, limit: nat): seq<string> {
    if 0 < limit < |lines| then lines[..limit] else lines
  }

  /** All lines with their newline are shorter than the maximum, and the rest is not longer. */
  ghost predicate Fits(s: string) {
    (forall l :: l in Lines(s) ==> |l| + 1 < MAX_TUPLE_SIZE) && |Rest(s)| <= MAX_TUPLE_SIZE
  }

  function Concat(chunks: seq<string>): string {
    if chunks == [] then [] else Concat(chunks[..|chunks| - 1]) + chunks[|chunks| - 1]
  }

  /* ---- what the reader does ---- */

  /** The first newline from `p` on, or the length. */
  function Find(c: string, p: nat): (f: nat)
    requires p <= |c|
    ensures p <= f <= |c| && (f < |c| ==> c[f] == '\n') && '\n' !in c[p..f]
    decreases |c| - p
  {
    if p == |c| || c[p] == '\n' then p
    else
      var f := Find(c, p + 1);
      assert c[p..f] == [c[p]] + c[p + 1..f];
      f
  }

  /** `carry` is the kept part of an unfinished line. */
  datatype State =
    | Running(lines: seq<string>, carry: string, remaining: nat)
    | Finished(lines: seq<string>)   // the limit is reached
    | TooLong                        // the assertion fails, or the copy would leave the store

  /** One chunk, from position `p` on. `remaining` is only set behind a newline. */
  function Scan(lines: seq<string>, carry: string, remaining: nat, c: string, p: nat, limit: nat): State
    requires p <= |c|
    decreases |c| - p
  {
    var f := Find(c, p);
    if f < |c| then
      if f - p + 1 + |carry| >= MAX_TUPLE_SIZE then TooLong
      else
        var more := lines + [carry + c[p..f]];
        if |more| == limit then Finished(more) else Scan(more, [], f + 1, c, f + 1, limit)
    else if remaining < |c| then
      if |c| - remaining > MAX_TUPLE_SIZE then TooLong else Running(lines, c[remaining..], remaining)
    else Running(lines, carry, remaining)
  }

  /** Scanning one line. */
  lemma {:induction false} ScanLine(lines: seq<string>, carry: string, remaining: nat, c: string, p: nat, limit: nat)
    requires p <= |c| && Find(c, p) < |c|
    ensures var more, next := lines + [carry + c[p..Find(c, p)]], Find(c, p) + 1;
            Scan(lines, carry, remaining, c, p, limit)
              == if next - p + |carry| >= MAX_TUPLE_SIZE then TooLong
                 else if |more| == limit then Finished(more)
                 else Scan(more, [], next, c, next, limit)
  {}

  function Read(chunks: seq<string>, limit: nat): State {
    if chunks == [] then Running([], [], 0)
    else
      match Read(chunks[..|chunks| - 1], limit)
      case Running(lines, carry, remaining) => Scan(lines, carry, remaining, chunks[|chunks| - 1], 0, limit)
      case other => other
  }

  method Memchr(c: string, p: nat) returns (f: nat)
    requires p <= |c|
    ensures f == Find(c, p)
  {
    f := p;
    while f < |c| && c[f] != '\n'
      invariant p <= f <= |c| && Find(c, p) == Find(c, f)
    {
      f := f + 1;
    }
  }

  /** memcpy into the store. */
  method Copy(store: array<char>, at: nat, bytes: string)
    requires at + |bytes| <= store.Length
    modifies store
    ensures store[..at] == old(store[..at]) && store[at..at + |bytes|] == bytes
  {
    for i := 0 to |bytes|
      invariant store[..at] == old(store[..at]) && store[at..at + i] == bytes[..i]
    {
      store[at + i] := bytes[i];
    }
  }

  /** Completes the line in the store with the bytes up to the newline at `f`. */
  method CompleteLine(store: array<char>, start: nat, buf: string, p: nat, f: nat) returns (line: string)
    requires p <= f < |buf| && f - p + 1 + start < MAX_TUPLE_SIZE == store.Length
    modifies store
    ensures line == old(store[..start]) + buf[p..f]
  {
    Copy(store, start, buf[p..f + 1]);
    assert buf[p..f + 1][..f - p] == buf[p..f];
    assert store[start..f - p + start] == store[start..start + |buf[p..f + 1]|][..f - p];
    store[f - p + start] := '\0';
    line := store[..f - p + start];
    assert line == store[..start] + store[start..f - p + start];
  }

  /** Behind the last newline of a chunk the rest replaces the kept part of the line. */
  method KeepRest(buf: string, store: array<char>, lines: seq<string>, start0: nat, remaining: nat, ghost p: nat,
      ghost maxTuples: nat)
    returns (r: State, start: nat)
    requires store.Length == MAX_TUPLE_SIZE && start0 <= MAX_TUPLE_SIZE && p <= |buf| && Find(buf, p) == |buf|
    modifies store
    ensures r == Scan(lines, old(store[..start0]), remaining, buf, p, maxTuples)
    ensures start <= MAX_TUPLE_SIZE && (r.Running? ==> r.carry == store[..start])
  {
    start := start0;
    if remaining < |buf| {
      if |buf| - remaining > MAX_TUPLE_SIZE {
        return TooLong, start;
      }
      Copy(store, 0, buf[remaining..]);
      start := |buf| - remaining;
      assert store[..start] == store[0..0 + |buf[remaining..]|];
    }
    r := Running(lines, store[..start], remaining);
  }

  /** The loop body for one chunk; afterwards the kept part of the line is in the store. */
  method ReadChunk(buf: string, store: array<char>, lines: seq<string>, start0: nat, remaining0: nat, maxTuples: nat)
    returns (r: State, start: nat)
    requires store.Length == MAX_TUPLE_SIZE && start0 <= MAX_TUPLE_SIZE
    modifies store
    ensures r == Scan(lines, old(store[..start0]), remaining0, buf, 0, maxTuples)
    ensures start <= MAX_TUPLE_SIZE && (r.Running? ==> r.carry == store[..start])
  {
    var produced := lines;
    var remaining: nat, p: nat := remaining0, 0;
    start := start0;
    var f := Memchr(buf, p);
    while f < |buf|
      invariant p <= |buf| && f == Find(buf, p) && start <= MAX_TUPLE_SIZE
      invariant Scan(lines, old(store[..start0]), remaining0, buf, 0, maxTuples)
             == Scan(produced, store[..start], remaining, buf, p, maxTuples)
      decreases |buf| - p
    {
      ScanLine(produced, store[..start], remaining, buf, p, maxTuples);
      if f - p + 1 + start >= MAX_TUPLE_SIZE {
        return TooLong, start;
      }
      var line := CompleteLine(store, start, buf, p, f);
      produced := produced + [line];
      if |produced| == maxTuples {
        return Finished(produced), start;
      }
      start, remaining, p := 0, f + 1, f + 1;
      assert store[..0] == [];
      f := Memchr(buf, p);
    }
    r, start := KeepRest(buf, store, produced, start, remaining, p, maxTuples);
  }

  /** Reads the chunks that read() returns until the end of the file; every write stays in the store. */
  method ReadRawFile(chunks: seq<string>, maxTuples: nat) returns (r: State)
    ensures r == Read(chunks, maxTuples)
  {
    var store := new char[MAX_TUPLE_SIZE];
    var start: nat := 0;
    r := Running([], [], 0);
    assert chunks[..0] == [];
    for k := 0 to |chunks|
      invariant start <= MAX_TUPLE_SIZE == store.Length
      invariant r == Read(chunks[..k], maxTuples) && r.Running? && r.carry == store[..start]
    {
      assert chunks[..k + 1][..k] == chunks[..k];
      r, start := ReadChunk(chunks[k], store, r.lines, start, r.remaining, maxTuples);
      if !r.Running? {
        ReadStops(chunks, k + 1, maxTuples);
        return;
      }
    }
    assert chunks[..|chunks|] == chunks;
  }

  lemma {:induction false} ReadStops(chunks: seq<string>, k: nat, limit: nat)
    requires k <= |chunks| && !Read(chunks[..k], limit).Running?
    ensures Read(chunks, limit) == Read(chunks[..k], limit)
  {
    if k == |chunks| {
      assert chunks[..k] == chunks;
    } else {
      assert chunks[..|chunks| - 1][..k] == chunks[..k];
      ReadStops(chunks[..|chunks| - 1], k, limit);
    }
  }
}

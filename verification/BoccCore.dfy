/** Values shared by the transactional table classes and by the interleaving model:
    write sets, the list of committed write sets, backward validation and pruning. */
module BoccCore {
  import opened Wrappers

  type Key(==,!new)
  type Val(==,!new)
  type Write = (Key, Val)
  type Data = map<Key, Val>

  /** The end timestamp of a write set whose transaction is still writing. */
  const DTS_INF: nat := 0xFFFF_FFFF_FFFF_FFFF

  /** One committed write set: its keys, its validation and its completion timestamp. */
  datatype Entry = Entry(keys: set<Key>, valTS: nat, endTS: nat)

  function KeysOf(ws: seq<Write>): set<Key> {
    set i | 0 <= i < |ws| :: ws[i].0
  }

  /** Inserting the buffered writes one after the other; the table insert overwrites. */
  function ApplyAll(data: Data, ws: seq<Write>): Data {
    if ws == [] then data
    else ApplyAll(data, ws[..|ws| - 1])[ws[|ws| - 1].0 := ws[|ws| - 1].1]
  }

  /** The buffered value of `k` that survives the commit: the last one written. */
  function LastWrite(ws: seq<Write>, k: Key): Option<Val> {
    if ws == [] then None
    else if ws[|ws| - 1].0 == k then Some(ws[|ws| - 1].1)
    else LastWrite(ws[..|ws| - 1], k)
  }

  /** Write number `i` is the last one of its key. */
  predicate LastOfKey(ws: seq<Write>, i: nat)
    requires i < |ws|
  {
    forall j :: i < j < |ws| ==> ws[j].0 != ws[i].0
  }

  lemma {:induction false} LastWriteIs(ws: seq<Write>, i: nat)
    requires i < |ws| && LastOfKey(ws, i)
    ensures LastWrite(ws, ws[i].0) == Some(ws[i].1)
  {
    if i == |ws| - 1 {
    } else {
      assert ws[|ws| - 1].0 != ws[i].0;
      LastWriteIs(ws[..|ws| - 1], i);
    }
  }

  lemma {:induction false} ApplyAllLastWins(data: Data, ws: seq<Write>, k: Key)
    ensures LastWrite(ws, k).Some? <==> k in KeysOf(ws)
    ensures LastWrite(ws, k).Some? ==>
              k in ApplyAll(data, ws) && ApplyAll(data, ws)[k] == LastWrite(ws, k).value
    ensures LastWrite(ws, k).None? ==>
              (k in ApplyAll(data, ws) <==> k in data) &&
              (k in data ==> ApplyAll(data, ws)[k] == data[k])
  {
    if ws == [] {
    } else {
      var init := ws[..|ws| - 1];
      ApplyAllLastWins(data, init, k);
      assert KeysOf(ws) == KeysOf(init) + {ws[|ws| - 1].0} by {
        KeysOfSnoc(init, ws[|ws| - 1]);
        assert ws == init + [ws[|ws| - 1]];
      }
    }
  }

  lemma {:induction false} KeysOfSnoc(ws: seq<Write>, w: Write)
    ensures KeysOf(ws + [w]) == KeysOf(ws) + {w.0}
  {
    var all := ws + [w];
    assert forall i | 0 <= i < |ws| :: all[i] == ws[i];
    forall k | k in KeysOf(ws) + {w.0} ensures k in KeysOf(all) {
      if k == w.0 {
        assert all[|ws|].0 == k;
      } else {
        var i :| 0 <= i < |ws| && ws[i].0 == k;
        assert all[i].0 == k;
      }
    }
  }

  /* ---- backward validation ---- */

  predicate Overlaps(e: Entry, keys: seq<Key>) {
    exists i :: 0 <= i < |keys| && keys[i] in e.keys
  }

  /** The write set makes a reader that started at `reader` and validates at `valTS` abort. */
  predicate Blocks(e: Entry, reader: nat, valTS: nat, keys: seq<Key>) {
    reader < e.endTS && valTS > e.valTS && Overlaps(e, keys)
  }

  predicate Passes(wss: seq<Entry>, reader: nat, valTS: nat, keys: seq<Key>) {
    forall j :: 0 <= j < |wss| ==> !Blocks(wss[j], reader, valTS, keys)
  }

  /* ---- pruning ---- */

  /** Position of the first write set that ended no later than `oldest`. */
  function FirstOld(wss: seq<Entry>, oldest: nat): (n: nat)
    ensures n <= |wss|
    ensures forall j :: 0 <= j < n ==> wss[j].endTS > oldest
    ensures n < |wss| ==> wss[n].endTS <= oldest
  {
    if wss == [] || wss[0].endTS <= oldest then 0 else 1 + FirstOld(wss[1..], oldest)
  }

  /** `kept` is `wss` up to the first write set that ended by `bound`. */
  predicate CutAt(wss: seq<Entry>, kept: seq<Entry>, bound: nat) {
    && kept <= wss
    && (forall j :: 0 <= j < |kept| ==> kept[j].endTS > bound)
    && (|kept| < |wss| ==> wss[|kept|].endTS <= bound)
  }

  function Prune(wss: seq<Entry>, oldest: nat): (kept: seq<Entry>)
    ensures CutAt(wss, kept, oldest)
  {
    wss[..FirstOld(wss, oldest)]
  }

  lemma {:induction false} CutIsUnique(wss: seq<Entry>, a: seq<Entry>, b: seq<Entry>, bound: nat)
    requires CutAt(wss, a, bound) && CutAt(wss, b, bound)
    ensures a == b
  {
    assert a == wss[..|a|] && b == wss[..|b|];
    assert |a| >= |b|;
    assert |b| >= |a|;
  }

  /** In a list that is newest first, exactly the write sets that ended later than the bound are kept. */
  lemma {:induction false} CutIsExact(wss: seq<Entry>, kept: seq<Entry>, bound: nat)
    requires CutAt(wss, kept, bound) && NewestFirst(wss)
    ensures forall j :: 0 <= j < |wss| ==> (j < |kept| <==> wss[j].endTS > bound)
  {
    forall j | 0 <= j < |wss| ensures j < |kept| <==> wss[j].endTS > bound {
      if j < |kept| {
        assert kept[j] == wss[j];
      } else if j > |kept| {
        assert wss[j].endTS < wss[|kept|].endTS;
      }
    }
  }

  /** Strictly decreasing in both timestamps. */
  predicate NewestFirst(wss: seq<Entry>) {
    forall i, j :: 0 <= i < j < |wss| ==> wss[j].valTS < wss[i].valTS && wss[j].endTS < wss[i].endTS
  }
}

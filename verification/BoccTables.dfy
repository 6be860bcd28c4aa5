/** The table and context objects of the transactional tables, as the threads use them. The steps of
    the interleaving model are the pieces of these methods: both are stated with the functions of
    BoccCore (ApplyAll, KeysOf, Passes, Prune). */
module BoccTables {
  import opened Wrappers
  import opened BoccCore

  datatype Status = Active | Commit | Abort
  datatype Errc = SUCCESS | ABORT | NOT_FOUND

  /** One entry of the active-transaction array with its bit of the used-slot mask. */
  datatype Slot = Slot(used: bool, id: nat, status: (Status, Status))

  predicate Voted(s: Slot, tbl: nat) { (if tbl == 0 then s.status.0 else s.status.1) == Commit }

  function WithVote(s: Slot, tbl: nat): Slot {
    s.(status := if tbl == 0 then (Commit, s.status.1) else (s.status.0, Commit))
  }

  /** Voting for one table records just that vote. */
  lemma {:induction false} VoteIsRecorded(s: Slot, tbl: nat, other: nat)
    ensures Voted(WithVote(s, tbl), other) <==> (tbl == 0 <==> other == 0) || Voted(s, other)
    ensures WithVote(s, tbl).id == s.id && WithVote(s, tbl).used == s.used
  {}

  /** The smallest id of a used slot; DTS_INF if there is none. */
  ghost predicate IsOldest(slots: seq<Slot>, oldest: nat) {
    && oldest <= DTS_INF
    && (forall p :: 0 <= p < |slots| && slots[p].used ==> oldest <= slots[p].id)
    && (oldest == DTS_INF || exists p :: 0 <= p < |slots| && slots[p].used && slots[p].id == oldest)
  }

  /** The time up to which a committing transaction drops write sets: the oldest active transaction, or
      its own validation timestamp when that is the transaction itself. */
  ghost predicate IsBound(slots: seq<Slot>, txnID: nat, valTS: nat, bound: nat) {
    if IsOldest(slots, txnID) then bound == valTS else IsOldest(slots, bound)
  }

  /** The first slot holding the id, used or not. */
  function PosOf(slots: seq<Slot>, txnID: nat): (pos: nat)
    requires exists p :: 0 <= p < |slots| && slots[p].id == txnID
    ensures pos < |slots| && slots[pos].id == txnID && forall p :: 0 <= p < pos ==> slots[p].id != txnID
  {
    if slots[0].id == txnID then 0
    else
      assert exists p :: 0 <= p < |slots[1..]| && slots[1..][p].id == txnID by {
        var p :| 0 <= p < |slots| && slots[p].id == txnID;
        assert slots[1..][p - 1].id == txnID;
      }
      var rest := PosOf(slots[1..], txnID);
      assert forall p :: 1 <= p < rest + 1 ==> slots[p] == slots[1..][p - 1];
      rest + 1
  }

  class StateContext {
    var nextTxID: nat
    var slots: seq<Slot>
    var lastCTS: nat

    /** The transaction gets the first free slot. Without one it gets the position behind the array, so
        that no slot is its own; what is written there is not modelled. */
    method NewTx() returns (txnID: nat, pos: nat)
      modifies this
      ensures txnID == old(nextTxID) && nextTxID == txnID + 1 && lastCTS == old(lastCTS)
      ensures pos <= |old(slots)| && forall p :: 0 <= p < pos ==> old(slots)[p].used
      ensures pos < |old(slots)| ==> !old(slots)[pos].used
      ensures pos < |old(slots)| ==> slots == old(slots)[pos := Slot(true, txnID, (Active, Active))]
      ensures pos == |old(slots)| ==> slots == old(slots)
    {
      txnID := nextTxID;
      nextTxID := nextTxID + 1;
      pos := 0;
      while pos < |slots| && slots[pos].used
        invariant pos <= |slots| && forall p :: 0 <= p < pos ==> slots[p].used
      {
        pos := pos + 1;
      }
      if pos < |slots| {
        slots := slots[pos := Slot(true, txnID, (Active, Active))];
      }
    }

    method GetNewTS() returns (ts: nat)
      modifies this`nextTxID
      ensures ts == old(nextTxID) && nextTxID == ts + 1
    {
      ts := nextTxID;
      nextTxID := nextTxID + 1;
    }

    method GetOldestActiveTx() returns (oldest: nat)
      ensures IsOldest(slots, oldest)
    {
      oldest := DTS_INF;
      for pos := 0 to |slots|
        invariant oldest <= DTS_INF
        invariant forall p :: 0 <= p < pos && slots[p].used ==> oldest <= slots[p].id
        invariant oldest == DTS_INF || exists p :: 0 <= p < pos && slots[p].used && slots[p].id == oldest
      {
        if slots[pos].used {
          oldest := if slots[pos].id < oldest then slots[pos].id else oldest;
        }
      }
    }

    method GetPosFromTxnID(txnID: nat) returns (pos: nat)
      requires exists p :: 0 <= p < |slots| && slots[p].id == txnID
      ensures pos == PosOf(slots, txnID)
    {
      pos := 0;
      while slots[pos].id != txnID
        invariant pos < |slots| && forall p :: 0 <= p < pos ==> slots[p].id != txnID
        decreases |slots| - pos
      {
        pos := pos + 1;
      }
    }
  }

  class BoccTable {
    const tblID: nat
    const ctx: StateContext
    var writeTxn: nat
    var writeSet: seq<Write>
    var committedWSs: seq<Entry>
    var tbl: Data

    constructor (tblID: nat, ctx: StateContext)
      ensures this.tblID == tblID && this.ctx == ctx
      ensures writeSet == [] && committedWSs == [] && tbl == map[]
    {
      this.tblID, this.ctx := tblID, ctx;
      writeTxn, writeSet, committedWSs, tbl := 0, [], [], map[];
    }

    method TransactionBegin(txnID: nat)
      modifies this`writeTxn
      ensures writeTxn == txnID
    {
      writeTxn := txnID;
    }

    method Insert(k: Key, v: Val)
      modifies this`writeSet
      ensures writeSet == old(writeSet) + [(k, v)]
    {
      writeSet := writeSet + [(k, v)];
    }

    /** A reader sees the table; the writing transaction sees its first buffered write of the key. */
    method GetByKey(txnID: nat, k: Key) returns (r: Errc, v: Option<Val>)
      ensures r == SUCCESS <==> v.Some?
      ensures writeTxn != txnID || k !in KeysOf(writeSet) ==> v == if k in tbl then Some(tbl[k]) else None
      ensures writeTxn == txnID && k in KeysOf(writeSet) ==>
                exists i :: 0 <= i < |writeSet| && writeSet[i].0 == k && v == Some(writeSet[i].1) &&
                            forall j :: 0 <= j < i ==> writeSet[j].0 != k
    {
      if writeTxn == txnID {
        for i := 0 to |writeSet|
          invariant forall j :: 0 <= j < i ==> writeSet[j].0 != k
        {
          if writeSet[i].0 == k {
            return SUCCESS, Some(writeSet[i].1);
          }
        }
      }
      if k in tbl {
        return SUCCESS, Some(tbl[k]);
      }
      return NOT_FOUND, None;
    }

    method SaveWriteSet()
      modifies this`committedWSs, ctx`nextTxID
      ensures ctx.nextTxID == old(ctx.nextTxID) + 1
      ensures committedWSs == [Entry(KeysOf(writeSet), old(ctx.nextTxID), DTS_INF)] + old(committedWSs)
    {
      var valTS := ctx.GetNewTS();
      var keys: set<Key> := {};
      for i := 0 to |writeSet|
        invariant keys == KeysOf(writeSet[..i])
        invariant committedWSs == old(committedWSs) && ctx.nextTxID == old(ctx.nextTxID) + 1
      {
        KeysOfSnoc(writeSet[..i], writeSet[i]);
        assert writeSet[..i + 1] == writeSet[..i] + [writeSet[i]];
        keys := keys + {writeSet[i].0};
      }
      assert writeSet[..|writeSet|] == writeSet;
      committedWSs := [Entry(keys, valTS, DTS_INF)] + committedWSs;
    }

    /** The buffered tuples reach the table, the own write set gets its end timestamp, and everything
        that ended before the oldest active transaction is dropped. */
    method TransactionCommit(txnID: nat) returns (bound: nat)
      requires committedWSs != []
      modifies this`tbl, this`writeSet, this`writeTxn, this`committedWSs, ctx`nextTxID
      ensures tbl == ApplyAll(old(tbl), old(writeSet))
      ensures writeSet == [] && writeTxn == 0
      ensures ctx.nextTxID == old(ctx.nextTxID) + 1
      ensures CutAt(old(committedWSs)[0 := old(committedWSs)[0].(endTS := old(ctx.nextTxID))], committedWSs, bound)
      ensures IsBound(ctx.slots, txnID, old(committedWSs)[0].valTS, bound)
    {
      for i := 0 to |writeSet|
        invariant writeSet == old(writeSet) && committedWSs == old(committedWSs)
        invariant tbl == ApplyAll(old(tbl), writeSet[..i])
        invariant ctx.nextTxID == old(ctx.nextTxID)
      {
        assert writeSet[..i + 1][..i] == writeSet[..i];
        tbl := tbl[writeSet[i].0 := writeSet[i].1];
      }
      assert writeSet[..|writeSet|] == writeSet;
      var endTS := ctx.GetNewTS();
      committedWSs := committedWSs[0 := committedWSs[0].(endTS := endTS)];
      writeSet, writeTxn := [], 0;

      var oldestTx := ctx.GetOldestActiveTx();
      if oldestTx == txnID {
        oldestTx := committedWSs[0].valTS;
      }
      bound := oldestTx;
      ghost var stamped := committedWSs;
      for it := 0 to |committedWSs|
        invariant committedWSs == stamped && ctx.nextTxID == old(ctx.nextTxID) + 1
        invariant writeSet == [] && writeTxn == 0 && tbl == ApplyAll(old(tbl), old(writeSet))
        invariant forall j :: 0 <= j < it ==> stamped[j].endTS > oldestTx
      {
        if committedWSs[it].endTS <= oldestTx {
          committedWSs := committedWSs[..it];
          return;
        }
      }
    }

    /** Backward validation of a reader. */
    method ReadCommit(txnID: nat, keys: seq<Key>, until: nat) returns (r: Errc)
      requires until <= |keys|
      modifies ctx`nextTxID
      ensures ctx.nextTxID == old(ctx.nextTxID) + 2
      ensures r == if Passes(committedWSs, txnID, old(ctx.nextTxID) + 1, keys[..until]) then SUCCESS else ABORT
      ensures r == SUCCESS <==>
                forall w, i :: 0 <= w < |committedWSs| && 0 <= i < until ==>
                  committedWSs[w].endTS <= txnID || committedWSs[w].valTS >= old(ctx.nextTxID) + 1 ||
                  keys[i] !in committedWSs[w].keys
    {
      var _ := ctx.GetNewTS();
      var valTS := ctx.GetNewTS();
      for w := 0 to |committedWSs|
        invariant ctx.nextTxID == old(ctx.nextTxID) + 2
        invariant forall j :: 0 <= j < w ==> !Blocks(committedWSs[j], txnID, valTS, keys[..until])
      {
        var ws := committedWSs[w];
        if txnID < ws.endTS && valTS > ws.valTS {
          for i := 0 to until
            invariant ctx.nextTxID == old(ctx.nextTxID) + 2
            invariant forall j :: 0 <= j < i ==> keys[j] !in ws.keys
          {
            if ws.keys != {} && keys[i] in ws.keys {
              assert keys[..until][i] in ws.keys;
              return ABORT;
            }
          }
        }
      }
      return SUCCESS;
    }
  }

  /** Votes do not change who is active. */
  lemma {:induction false} SameBound(slots: seq<Slot>, voted: seq<Slot>, txnID: nat)
    requires |slots| == |voted|
    requires forall p :: 0 <= p < |slots| ==> voted[p].used == slots[p].used && voted[p].id == slots[p].id
    ensures forall valTS, bound: nat :: IsBound(voted, txnID, valTS, bound) == IsBound(slots, txnID, valTS, bound)
  {
    forall o: nat ensures IsOldest(voted, o) == IsOldest(slots, o) {
      if p :| 0 <= p < |slots| && slots[p].used && slots[p].id == o {
        assert voted[p].used && voted[p].id == o;
      }
    }
  }

  /** Lists both write sets, with open end; no tuple is inserted yet. */
  method ListBoth(table: BoccTable, other: BoccTable)
    requires table != other && table.ctx == other.ctx
    modifies table`committedWSs, other`committedWSs, table.ctx`nextTxID
    ensures table.ctx.nextTxID == old(table.ctx.nextTxID) + 2
    ensures table.committedWSs
         == [Entry(KeysOf(table.writeSet), old(table.ctx.nextTxID), DTS_INF)] + old(table.committedWSs)
    ensures other.committedWSs
         == [Entry(KeysOf(other.writeSet), old(table.ctx.nextTxID) + 1, DTS_INF)] + old(other.committedWSs)
  {
    table.SaveWriteSet();
    other.SaveWriteSet();
  }

  /** Applies both write sets; each has been listed, with open end, by ListBoth. */
  method CommitBoth(table: BoccTable, other: BoccTable, txnID: nat)
    requires table != other && table.ctx == other.ctx
    modifies table`tbl, table`writeSet, table`writeTxn, table`committedWSs
    modifies other`tbl, other`writeSet, other`writeTxn, other`committedWSs, table.ctx`nextTxID
    ensures table.tbl == ApplyAll(old(table.tbl), old(table.writeSet))
    ensures other.tbl == ApplyAll(old(other.tbl), old(other.writeSet))
    ensures table.writeSet == [] && other.writeSet == []
    ensures
      var now := old(table.ctx.nextTxID);
      && table.ctx.nextTxID == now + 4
      && Listed(table.ctx.slots, txnID, table.committedWSs, KeysOf(old(table.writeSet)), now, now + 2,
          old(table.committedWSs))
      && Listed(table.ctx.slots, txnID, other.committedWSs, KeysOf(old(other.writeSet)), now + 1, now + 3,
          old(other.committedWSs))
  {
    ListBoth(table, other);
    ghost var slots, now := table.ctx.slots, old(table.ctx.nextTxID);
    ghost var mine, others := table.committedWSs, other.committedWSs;
    var first := table.TransactionCommit(txnID);
    var second := other.TransactionCommit(txnID);
    ListedAfter(slots, txnID, mine, table.committedWSs, KeysOf(old(table.writeSet)), now, now + 2,
                old(table.committedWSs), first);
    ListedAfter(slots, txnID, others, other.committedWSs, KeysOf(old(other.writeSet)), now + 1, now + 3,
                old(other.committedWSs), second);
  }

  /** Stamping and pruning a list with an open entry in front. */
  lemma {:induction false} ListedAfter(slots: seq<Slot>, txnID: nat, listed: seq<Entry>, wss: seq<Entry>,
      keys: set<Key>, valTS: nat, endTS: nat, before: seq<Entry>, bound: nat)
    requires listed == [Entry(keys, valTS, DTS_INF)] + before && IsBound(slots, txnID, valTS, bound)
    requires CutAt(listed[0 := listed[0].(endTS := endTS)], wss, bound)
    ensures Listed(slots, txnID, wss, keys, valTS, endTS, before)
  {
    assert listed[0 := listed[0].(endTS := endTS)] == [Entry(keys, valTS, endTS)] + before;
  }

  /** The vote of `table`; the second vote commits both tables, `table` first. */
  method TransactionPreCommit(table: BoccTable, other: BoccTable, txnID: nat)
    requires table != other && table.ctx == other.ctx && {table.tblID, other.tblID} == {0, 1}
    requires exists p :: 0 <= p < |table.ctx.slots| && table.ctx.slots[p].id == txnID
    modifies table`tbl, table`writeSet, table`writeTxn, table`committedWSs
    modifies other`tbl, other`writeSet, other`writeTxn, other`committedWSs, table.ctx
    ensures
      var slots, pos, now := old(table.ctx.slots), PosOf(old(table.ctx.slots), txnID), old(table.ctx.nextTxID);
      if !Voted(slots[pos], other.tblID) then
        // the first vote is recorded and nothing else happens
        && table.ctx.slots == slots[pos := WithVote(slots[pos], table.tblID)]
        && table.ctx.nextTxID == now
        && table.tbl == old(table.tbl) && other.tbl == old(other.tbl)
        && table.writeSet == old(table.writeSet) && other.writeSet == old(other.writeSet)
        && table.committedWSs == old(table.committedWSs) && other.committedWSs == old(other.committedWSs)
      else
        // both tables receive all their buffered writes and the transaction leaves
        && table.ctx.slots == slots[pos := WithVote(slots[pos], table.tblID).(used := false)]
        && table.ctx.lastCTS == txnID
        && table.ctx.nextTxID == now + 4
        && table.tbl == ApplyAll(old(table.tbl), old(table.writeSet))
        && other.tbl == ApplyAll(old(other.tbl), old(other.writeSet))
        && table.writeSet == [] && other.writeSet == []
        && Listed(slots, txnID, table.committedWSs, KeysOf(old(table.writeSet)), now, now + 2, old(table.committedWSs))
        && Listed(slots, txnID, other.committedWSs, KeysOf(old(other.writeSet)), now + 1, now + 3,
            old(other.committedWSs))
  {
    var ctx := table.ctx;
    var pos := ctx.GetPosFromTxnID(txnID);
    ctx.slots := ctx.slots[pos := WithVote(ctx.slots[pos], table.tblID)];
    if Voted(ctx.slots[pos], other.tblID) {
      CommitBoth(table, other, txnID);
      ctx.lastCTS := txnID;
      ctx.slots := ctx.slots[pos := ctx.slots[pos].(used := false)];
      ghost var slots := old(table.ctx.slots);
      SameBound(slots, slots[pos := WithVote(slots[pos], table.tblID)], txnID);
    }
  }

  /** The list holds the new write set in front and then what was there before, without what ended up to
      the bound. */
  ghost predicate Listed(slots: seq<Slot>, txnID: nat, wss: seq<Entry>, keys: set<Key>, valTS: nat, endTS: nat,
      before: seq<Entry>) {
    exists bound: nat :: IsBound(slots, txnID, valTS, bound) &&
        CutAt([Entry(keys, valTS, endTS)] + before, wss, bound)
  }

  /** What that means for what was listed before: exactly the write sets that ended later are still there. */
  lemma {:induction false} ListedExactly(slots: seq<Slot>, txnID: nat, wss: seq<Entry>, keys: set<Key>, valTS: nat,
      endTS: nat, before: seq<Entry>)
    returns (bound: nat)
    requires Listed(slots, txnID, wss, keys, valTS, endTS, before)
    requires NewestFirst([Entry(keys, valTS, endTS)] + before)
    ensures IsBound(slots, txnID, valTS, bound)
    ensures var all := [Entry(keys, valTS, endTS)] + before;
            wss <= all && forall j :: 0 <= j < |all| ==> (j < |wss| <==> all[j].endTS > bound)
  {
    bound :| IsBound(slots, txnID, valTS, bound) && CutAt([Entry(keys, valTS, endTS)] + before, wss, bound);
    CutIsExact([Entry(keys, valTS, endTS)] + before, wss, bound);
  }
}

// Write batches: pending writes, and their commit as one transaction.

module Batch {
  import opened Coding
  import opened LogRecords
  import opened Replay
  import opened Disk
  import opened Db
  import Lex

  type Pending = seq<(seq<int>, LogRecord)>

  // A batch that has not been committed: keys in std::map order, C strings,
  // each record under its own key, and small enough to be stored.
  ghost predicate PendingValid(ps: Pending) {
    && Lex.Sorted(ps)
    && forall i :: 0 <= i < |ps| ==>
         && ps[i].0 == ps[i].1.key && 0 !in ps[i].1.key && Fits(ps[i].1.key, ps[i].1.value)
         && (ps[i].1.kind == NORMAL || ps[i].1.kind == DELETED)
  }

  function WritesOf(ps: Pending): (ws: seq<Write>)
    ensures |ws| == |ps|
    ensures forall i :: 0 <= i < |ps| ==> ws[i] == Write(ps[i].1.key, ps[i].1.value, ps[i].1.kind)
  {
    seq(|ps|, i requires 0 <= i < |ps| => Write(ps[i].1.key, ps[i].1.value, ps[i].1.kind))
  }

  predicate IsBytes(s: seq<int>) {
    forall j :: 0 <= j < |s| ==> 0 <= s[j] < 256
  }

  // What a commit requires, also of a batch that was committed before: its
  // records may then stand under keys other than their own.
  ghost predicate Committable(ps: Pending) {
    && Lex.Sorted(ps) && DistinctKeys(WritesOf(ps))
    && forall i :: 0 <= i < |ps| ==>
         && IsBytes(ps[i].0)
         && 0 !in ps[i].1.key && Fits(ps[i].1.key, ps[i].1.value)
         && (ps[i].1.kind == NORMAL || ps[i].1.kind == DELETED)
  }

  // The writes as the index sees them: under the keys of the batch.
  ghost function NamesOf(ps: Pending): (ns: seq<Write>)
    requires Committable(ps)
    ensures |ns| == |ps|
    ensures forall i :: 0 <= i < |ps| ==> ns[i] == Write(ps[i].0, ps[i].1.value, ps[i].1.kind)
  {
    seq(|ps|, i requires 0 <= i < |ps| => Write(ps[i].0, ps[i].1.value, ps[i].1.kind))
  }

  lemma NamesOk(ps: Pending)
    requires Committable(ps)
    ensures WritesOk(WritesOf(ps)) && WritesOk(NamesOf(ps))
  {
    hide Lex.Less;
    forall i, j | 0 <= i < j < |ps|
      ensures ps[i].0 != ps[j].0
    {
      assert Lex.Less(ps[i].0, ps[j].0);
      Lex.LessIrreflexive(ps[i].0);
    }
  }

  // In a batch that was never committed the two views agree.
  lemma PendingIsCommittable(ps: Pending)
    requires PendingValid(ps)
    ensures Committable(ps) && NamesOf(ps) == WritesOf(ps)
  {
    hide Lex.Less;
    forall i, j | 0 <= i < j < |ps|
      ensures ps[i].1.key != ps[j].1.key
    {
      assert Lex.Less(ps[i].0, ps[j].0);
      Lex.LessIrreflexive(ps[i].0);
    }
  }

  // The batch after a commit with the given id.
  function Renamed(ps: Pending, txn: nat): (r: Pending)
    requires txn < TWO28
    ensures |r| == |ps|
    ensures forall i :: 0 <= i < |ps| ==> r[i] == (ps[i].0, ps[i].1.(key := TxnKey(ps[i].1.key, txn)))
  {
    seq(|ps|, i requires 0 <= i < |ps| => (ps[i].0, ps[i].1.(key := TxnKey(ps[i].1.key, txn))))
  }

  // The appended entries under the keys of the batch.
  ghost function Named(ps: seq<Placed>, ns: seq<Write>, txn: nat): (r: seq<Placed>)
    requires |ns| == |ps|
    ensures |r| == |ps| && Carries(r, ns, txn) && forall i :: 0 <= i < |ps| ==> r[i].pst == ps[i].pst
  {
    seq(|ps|, i requires 0 <= i < |ps| => Placed(ps[i].pst, BatchEntry(ns[i], txn)))
  }

  lemma BatchEntryOk(ps: Pending, i: nat, txn: nat)
    requires Committable(ps) && i < |ps| && txn < TWO28
    ensures 0 !in ps[i].1.key && EntryOk(BatchEntry(WritesOf(ps)[i], txn))
    ensures ToRecord(BatchEntry(WritesOf(ps)[i], txn)) == ps[i].1.(key := TxnKey(ps[i].1.key, txn))
  {
    FitsIsEnough(BatchEntry(WritesOf(ps)[i], txn));
  }

  lemma FinishEntryOk(txn: nat)
    requires txn < TWO28
    ensures EntryOk(FinishEntry(txn))
    ensures ToRecord(FinishEntry(txn)) == LogRecord(TxnKey(FINISH_KEY, txn), [], TXN_FINISHED)
  {
    FitsIsEnough(FinishEntry(txn));
  }

  class WriteBatch {
    const db: DB
    const maxBatch: nat
    var pending: Pending
    var committed: bool
    var rolledBack: bool

    constructor (db: DB, maxBatch: nat)
      ensures this.db == db && this.maxBatch == maxBatch && pending == [] && !committed && !rolledBack
    {
      this.db, this.maxBatch, pending, committed, rolledBack := db, maxBatch, [], false, false;
    }

    // A second put of the same key is ignored.
    method Put(key: Bytes, value: Bytes) returns (status: Status)
      requires PendingValid(pending) && Fits(key, value)
      modifies this`pending
      ensures PendingValid(pending)
      ensures status == if key == [] then InvalidArgument else Ok
      ensures key == [] || Lex.Has(old(pending), CStr(key)) ==> pending == old(pending)
      ensures key != [] && !Lex.Has(old(pending), CStr(key)) ==>
        exists i :: 0 <= i <= |old(pending)| &&
          pending == old(pending)[..i] + [(CStr(key), LogRecord(CStr(key), CStr(value), NORMAL))] + old(pending)[i..]
    {
      hide Lex.Less, Lex.Emplace, CStr;
      if key == [] { return InvalidArgument; }
      var r := LogRecord(CStr(key), CStr(value), NORMAL);
      Lex.EmplaceSorted(pending, r.key, r);
      pending := Lex.Emplace(pending, r.key, r);
      return Ok;
    }

    method Rollback() returns (status: Status)
      modifies this`pending, this`rolledBack
      ensures status == Ok <==> !committed && !old(rolledBack)
      ensures status == Ok ==> pending == [] && rolledBack
      ensures status != Ok ==> status == CheckError && pending == old(pending) && rolledBack == old(rolledBack)
    {
      if committed { return CheckError; }
      if rolledBack { return CheckError; }
      pending, rolledBack := [], true;
      return Ok;
    }

    // The appends of a commit. Every record key is replaced by its encoding.
    method AppendAll(txn: nat) returns (positions: map<seq<int>, Pst>, ghost ps: seq<Placed>)
      requires Committable(pending) && db.FilesOk() && txn < TWO28
      modifies this`pending, db`disk, db`activeId, db`writeOff, db`nextFileId, db`segs
      ensures db.FilesOk()
      ensures Flatten(db.segs) == old(Flatten(db.segs)) + ps
      ensures Carries(ps, WritesOf(old(pending)), txn)
      ensures pending == Renamed(old(pending), txn)
      ensures forall i :: 0 <= i < |ps| ==>
        old(pending)[i].0 in positions && positions[old(pending)[i].0] == ps[i].pst
      ensures Limited(old(db.segs), db.limit) ==> Limited(db.segs, db.limit)
    {
      hide EntryOk, Flatten, ToRecord, TxnKey, Stored, DB.FilesOk, Committable, CStr, WritesOf, Limited, Filed, Encode;
      ghost var todo := pending;
      ghost var ws := WritesOf(todo);
      assert forall i, j :: 0 <= i < j < |todo| ==> todo[i].0 != todo[j].0 by { DistinctNames(todo); }
      positions, ps := map[], [];
      assert Flatten(db.segs) + [] == Flatten(db.segs);
      for i := 0 to |pending|
        invariant |pending| == |todo| && |ps| == i && db.FilesOk()
        invariant forall j :: i <= j < |todo| ==> pending[j] == todo[j]
        invariant forall j :: 0 <= j < i ==> pending[j] == (todo[j].0, todo[j].1.(key := TxnKey(todo[j].1.key, txn)))
        invariant forall j :: 0 <= j < i ==> ps[j].entry == BatchEntry(ws[j], txn)
        invariant forall j :: 0 <= j < i ==> todo[j].0 in positions && positions[todo[j].0] == ps[j].pst
        invariant Flatten(db.segs) == old(Flatten(db.segs)) + ps
        invariant Limited(old(db.segs), db.limit) ==> Limited(db.segs, db.limit)
      {
        var (k, r) := pending[i];
        BatchEntryOk(todo, i, txn);
        var encoded := EncodeLogRecordWithTxnID(r.key, txn);
        pending := pending[i := (k, r.(key := encoded))];
        var pst := db.AppendLogRecord(r.(key := encoded), BatchEntry(ws[i], txn));
        positions := positions[k := pst];
        ps := ps + [Placed(pst, BatchEntry(ws[i], txn))];
      }
    }

    // The index update of a commit, in key order, stopping at a failed delete.
    method IndexAll(positions: map<seq<int>, Pst>,
                    ghost ps: seq<Placed>, ghost ws: seq<Write>, ghost txn: nat, ghost live: map<Bytes, Placed>)
      returns (ok: bool)
      requires WritesOk(ws) && Carries(ps, ws, txn) && |pending| == |ws| && db.index == Psts(live)
      requires forall i :: 0 <= i < |ws| ==> pending[i].0 == ws[i].key && pending[i].1.kind == ws[i].kind
      requires forall i :: 0 <= i < |ws| ==> ws[i].key in positions && positions[ws[i].key] == ps[i].pst
      modifies db`index
      ensures ok <==> UpdateAll(live, ps).Updated?
      ensures ok ==> db.index == Psts(UpdateAll(live, ps).live)
    {
      assert ps[..0] == [] && UpdateAll(live, []) == Updated(live);
      hide UpdateAll;
      for i := 0 to |pending|
        invariant UpdateAll(live, ps[..i]).Updated?
        invariant db.index == Psts(UpdateAll(live, ps[..i]).live)
      {
        UpdateNext(live, ps, i);
        assert ps[i].entry == BatchEntry(ws[i], txn);
        var key: Bytes := pending[i].0;
        if pending[i].1.kind == NORMAL {
          db.index := db.index[key := positions[key]];
        } else if pending[i].1.kind == DELETED {
          if key !in db.index {
            MissingStaysMissing(live, ps, i + 1);
            return false;
          }
          db.index := db.index - {key};
        }
      }
      assert ps[..|ps|] == ps;
      return true;
    }

    // What is written becomes visible in the log with the finish record, all of
    // it or nothing; a tombstone that names a missing key makes the log
    // unrecoverable. On a batch that was not committed before, the running
    // database agrees with its log again.
    method Commit() returns (status: Status)
      requires Committable(pending) && db.Valid() && db.txnId + 1 < TWO28
      modifies this`pending, this`committed, db
      ensures |old(pending)| > maxBatch || old(pending) == [] ==>
        && status == (if old(pending) == [] then Ok else NotSupported)
        && db.Valid() && db.segs == old(db.segs) && pending == old(pending)
      ensures 0 < |old(pending)| <= maxBatch ==>
        && db.txnId == old(db.txnId) + 1 && pending == Renamed(old(pending), db.txnId) && db.FilesOk()
        && (status == if TombstonesIndexed(old(db.Contents()).Keys, NamesOf(old(pending))) then Ok else CheckError)
        && var ws := WritesOf(old(pending));
           if TombstonesIndexed(old(db.Contents()).Keys, ws) then
             db.Outcome().Running? && Values(db.Outcome().state.live) == ApplyWrites(old(db.Contents()), ws)
           else db.Outcome().Failed?
      ensures status == Ok && old(pending) != [] ==> committed
      ensures 0 < |old(pending)| <= maxBatch && PendingValid(old(pending)) && status == Ok ==>
        db.Valid() && db.Contents() == ApplyWrites(old(db.Contents()), WritesOf(old(pending)))
      ensures Limited(old(db.segs), db.limit) ==> Limited(db.segs, db.limit)
    {
      hide Limited, ReplayLog, Flatten, Values, DB.FilesOk, UpdateAll, Psts, Committable, PendingValid, WritesOf, Renamed;
      if pending == [] { return Ok; }
      if |pending| > maxBatch { return NotSupported; }
      ghost var ns, live := NamesOf(pending), db.Outcome().state.live;
      NamesOk(pending);
      SameKeys(live);
      var positions;
      ghost var ps;
      positions, ps := AppendBatch();
      ghost var named := Named(ps, ns, db.txnId);
      assert PendingValid(old(pending)) ==> ns == WritesOf(old(pending)) && named == ps by {
        if PendingValid(old(pending)) { PendingIsCommittable(old(pending)); }
      }
      UpdateAllWrites(live, named, ns, db.txnId);
      var ok := IndexAll(positions, named, ns, db.txnId, live);
      if !ok { return CheckError; }
      committed := true;
      return Ok;
    }

    // A new id, the records of the batch, and the finish record.
    method AppendBatch() returns (positions: map<seq<int>, Pst>, ghost ps: seq<Placed>)
      requires Committable(pending) && pending != [] && db.Valid() && db.txnId + 1 < TWO28
      modifies this`pending, db`txnId, db`disk, db`activeId, db`writeOff, db`nextFileId, db`segs
      ensures db.FilesOk() && db.txnId == old(db.txnId) + 1 && pending == Renamed(old(pending), db.txnId)
      ensures Carries(ps, WritesOf(old(pending)), db.txnId)
      ensures forall i :: 0 <= i < |ps| ==>
        old(pending)[i].0 in positions && positions[old(pending)[i].0] == ps[i].pst
      ensures var ws, live := WritesOf(old(pending)), old(db.Outcome().state.live);
        if TombstonesIndexed(live.Keys, ws) then
          && db.Outcome().Running? && db.Outcome().state.maxTxn == db.txnId
          && UpdateAll(live, ps) == Updated(db.Outcome().state.live)
          && Values(db.Outcome().state.live) == ApplyWrites(Values(live), ws)
        else db.Outcome().Failed?
      ensures Limited(old(db.segs), db.limit) ==> Limited(db.segs, db.limit)
    {
      hide Limited, Filed, Encode, ReplayLog, EntryOk, Flatten, ToRecord;
      hide TxnKey, Stored, Values, DB.FilesOk, UpdateAll, Psts;
      hide Committable, WritesOf, Renamed, ApplyWrites, Carries, Coding.Varint;
      ghost var log, ws := Flatten(db.segs), WritesOf(pending);
      NamesOk(pending);
      db.txnId := db.txnId + 1;
      var txn := db.txnId;
      positions, ps := AppendAll(txn);
      FinishEntryOk(txn);
      var encoded := EncodeLogRecordWithTxnID(FINISH_KEY, txn);
      var pst := db.AppendLogRecord(LogRecord(encoded, [], TXN_FINISHED), FinishEntry(txn));
      FinishIsAtomic(log, ps, ws, txn, Placed(pst, FinishEntry(txn)));
    }
  }

  lemma DistinctNames(ps: Pending)
    requires Committable(ps)
    ensures forall i, j :: 0 <= i < j < |ps| ==> ps[i].0 != ps[j].0
  {
    NamesOk(ps);
    var ns := NamesOf(ps);
    forall i, j | 0 <= i < j < |ps| ensures ps[i].0 != ps[j].0 { assert ns[i].key != ns[j].key; }
  }

  // A commit leaves every record under its encoded key, and the batch can be
  // committed again.
  lemma RenamedIsCommittable(ps: Pending, txn: nat)
    requires Committable(ps) && 0 < txn < TWO28
    requires forall i :: 0 <= i < |ps| ==> Fits(TxnKey(ps[i].1.key, txn), ps[i].1.value)
    ensures Committable(Renamed(ps, txn))
  {
    hide Lex.Less, TxnKey;
    var again := Renamed(ps, txn);
    forall i | 0 <= i < |ps| ensures 0 !in again[i].1.key { KeyGrows(ps[i].1.key, txn); }
    var ws, rs := WritesOf(ps), WritesOf(again);
    forall i, j | 0 <= i < j < |ps| ensures rs[i].key != rs[j].key { KeysStayApart(ws[i].key, ws[j].key, txn); }
  }

  // The second commit appends what is pending then: it adds every write to the
  // log again, under another key, and recovery shows it there.
  lemma SecondCommitRenames(ps: Pending, first: nat, i: nat, contents: map<Bytes, Bytes>)
    requires Committable(ps) && 0 < first < TWO28 && i < |ps| && Committable(Renamed(ps, first))
    ensures var ws, again := WritesOf(ps), WritesOf(Renamed(ps, first));
            && again[i] == ws[i].(key := TxnKey(ws[i].key, first)) && again[i].key != ws[i].key
            && (ws[i].kind == NORMAL ==>
                  again[i].key in ApplyWrites(contents, again)
                  && ApplyWrites(contents, again)[again[i].key] == ws[i].value)
  {
    hide ApplyWrites, Lex.Less, TxnKey;
    var ws, again := WritesOf(ps), WritesOf(Renamed(ps, first));
    KeyGrows(ws[i].key, first);
    if ws[i].kind == NORMAL { WriteIsThere(contents, again, i); }
  }

  lemma KeyGrows(key: Bytes, txn: nat)
    requires 0 !in key && 0 < txn < TWO28
    ensures TxnKey(key, txn) != key && 0 !in TxnKey(key, txn)
  {
    CStrIdentity(key);
    VarintHasNoZero(txn);
    assert |TxnKey(key, txn)| > |key|;
  }

  lemma {:induction false} VarintHasNoZero(v: nat)
    requires v > 0
    ensures 0 !in Varint(v)
  {
    if v >= 128 { VarintHasNoZero(v / 128); }
  }

  lemma KeysStayApart(a: Bytes, b: Bytes, txn: nat)
    requires 0 !in a && 0 !in b && a != b && txn < TWO28
    ensures TxnKey(a, txn) != TxnKey(b, txn)
  {
    CStrIdentity(a);
    CStrIdentity(b);
    if TxnKey(a, txn) == TxnKey(b, txn) { VarintPrefixFree(txn, txn, a, b); }
  }

  // What a batch puts is there afterwards: it names every key once.
  lemma {:induction false} WriteIsThere(contents: map<Bytes, Bytes>, ws: seq<Write>, i: nat)
    requires DistinctKeys(ws) && i < |ws| && ws[i].kind != DELETED
    ensures var after := ApplyWrites(contents, ws); ws[i].key in after && after[ws[i].key] == ws[i].value
    decreases |ws|
  {
    var n := |ws| - 1;
    if i < n {
      assert ws[..n][i] == ws[i];
      WriteIsThere(contents, ws[..n], i);
    }
  }
}

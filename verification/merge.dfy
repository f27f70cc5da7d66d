// Merge: copying the live records into a fresh log, with a hint file that
// records where each of them went.

module Merge {
  import opened Coding
  import opened LogRecords
  import opened Replay
  import opened Disk
  import opened Db

  /* ---- re-encoding a record without its transaction id ---- */

  lemma {:induction false} VarintMonotone(a: nat, b: nat)
    requires a <= b
    ensures |Varint(a)| <= |Varint(b)|
  {
    if a >= 128 { VarintMonotone(a / 128, b / 128); }
  }

  lemma EncodedLength(r: LogRecord)
    requires r.key != [] && |r.key| < TWO32 && |r.value| < TWO32
    ensures |Encode(r)| == 5 + |Varint(|r.key|)| + |Varint(|r.value|)| + |r.key| + |r.value|
  {
    hide Varint, Crc32c.Crc;
  }

  lemma PlainEntryOk(e: Entry)
    requires EntryOk(e)
    ensures EntryOk(e.(txn := NO_TXN))
  {
    hide Varint, Encode, CStr;
    var r, s := ToRecord(e), ToRecord(e.(txn := NO_TXN));
    VarintMonotone(NO_TXN, e.txn);
    VarintMonotone(|s.key|, |r.key|);
    EncodedLength(r);
    EncodedLength(s);
  }

  /* ---- the hint file ---- */

  datatype Hint = Hint(key: Bytes, pst: Pst)

  // The record type of a hint is never set.
  function HintRecord(h: Hint): LogRecord {
    LogRecord(h.key, EncodePst(h.pst), 0)
  }

  function HintRecords(hs: seq<Hint>): (rs: seq<LogRecord>)
    ensures |rs| == |hs|
  {
    seq(|hs|, i requires 0 <= i < |hs| => HintRecord(hs[i]))
  }

  function HintMap(hs: seq<Hint>): map<Bytes, Pst> {
    if hs == [] then map[] else HintMap(hs[..|hs| - 1])[hs[|hs| - 1].key := hs[|hs| - 1].pst]
  }

  // An empty key is not encoded, so a hint for it adds nothing to the file.
  method WriteHintRecord(file: Bytes, h: Hint, ghost hs: seq<Hint>) returns (r: Bytes)
    requires file == EncodeAll(HintRecords(hs)) && 0 !in h.key
    ensures r == EncodeAll(HintRecords(if h.key == [] then hs else hs + [h]))
  {
    hide EncodeAll, Encode;
    var bytes := EncodeLogRecord(LogRecord(h.key, EncodePst(h.pst), 0));
    r := file + bytes;
    if h.key == [] {
      EmptyKeyEncodesToNothing(HintRecord(h));
      assert file + [] == file;
    } else {
      assert HintRecords(hs + [h]) == HintRecords(hs) + [HintRecord(h)];
      EncodeAllAppend(HintRecords(hs), HintRecord(h));
    }
  }

  lemma EmptyKeyEncodesToNothing(r: LogRecord)
    requires r.key == []
    ensures Encode(r) == []
  {
  }

  predicate HintOk(h: Hint) {
    Storable(HintRecord(h)) && h.pst.fid < TWO32 && h.pst.offset < TWO31
  }

  lemma HintReads(hs: seq<Hint>, n: nat)
    requires n <= |hs| && forall i :: 0 <= i < |hs| ==> HintOk(hs[i])
    ensures AllStorable(HintRecords(hs))
    ensures n < |hs| ==> DecodePst(HintRecords(hs)[n].value) == GotPst(hs[n].pst)
  {
    hide Encode, EncodePst, DecodePst;
    if n < |hs| { PstRoundTrip(hs[n].pst); }
  }

  // LoadIndexFromHintFile.
  method LoadHints(file: Bytes, ghost hs: seq<Hint>) returns (status: Status, index: map<Bytes, Pst>)
    requires file == EncodeAll(HintRecords(hs)) && forall i :: 0 <= i < |hs| ==> HintOk(hs[i])
    ensures status == Ok <==> file != []
    ensures status == Ok ==> index == HintMap(hs)
  {
    hide EncodeAll, ReadLogRecord, Offset, HintOk, DecodePst, EncodePst, Encode;
    ghost var rs := HintRecords(hs);
    HintReads(hs, 0);
    ReadBoundary(rs, 0);
    OffsetEnd(rs);
    index := map[];
    var offset: nat := 0;
    ghost var n: nat := 0;
    while true
      invariant n <= |hs| && offset == Offset(rs, n) && index == HintMap(hs[..n])
      decreases |hs| - n
    {
      HintReads(hs, n);
      ReadBoundary(rs, n);
      var next := ReadLogRecord(file, offset);
      if next.EndOfFile? {
        assert hs[..n] == hs;
        return Ok, index;
      }
      if !next.Got? { return IOErr, index; }
      var pst := DecodePst(next.record.value);
      if pst.BadPst? { return CheckError, index; }
      assert hs[..n + 1][..n] == hs[..n];
      index := index[next.record.key := pst.pst];
      offset := offset + next.size;
      n := n + 1;
    }
  }

  /* ---- the marker file ---- */

  // std::to_string, in bytes.
  function Ascii(n: nat): (r: Bytes)
    ensures r != []
  {
    if n < 10 then [48 + n] else Ascii(n / 10) + [48 + n % 10]
  }

  // std::stoi on digits.
  function Number(bs: Bytes): int {
    if bs == [] then 0 else 10 * Number(bs[..|bs| - 1]) + bs[|bs| - 1] as int - 48
  }

  lemma {:induction false} AsciiRoundTrip(n: nat)
    ensures Number(Ascii(n)) == n
  {
    if n >= 10 {
      AsciiRoundTrip(n / 10);
      assert Ascii(n)[..|Ascii(n)| - 1] == Ascii(n / 10);
    } else {
      assert Ascii(n)[..0] == [];
    }
  }

  lemma {:induction false} AsciiLength(n: nat)
    requires n < TWO31
    ensures |Ascii(n)| <= 10
  {
    AsciiShort(n, 10);
  }

  lemma {:induction false} AsciiShort(n: nat, k: nat)
    requires 1 <= k <= 10 && n < Tens(k)
    ensures |Ascii(n)| <= k
  {
    if n >= 10 { AsciiShort(n / 10, k - 1); }
  }

  function Tens(k: nat): nat {
    if k == 0 then 1 else 10 * Tens(k - 1)
  }

  const MERGED_KEY: Bytes := [109, 101, 114, 103, 101, 100]   // merged

  function MarkerRecord(fid: nat): LogRecord {
    LogRecord(MERGED_KEY, Ascii(fid), 0)
  }

  // GetNonMergedFileID gives back what Merge wrote.
  method GetNonMergedFileID(marker: Bytes, ghost fid: nat) returns (id: int)
    requires fid < TWO31 && marker == Encode(MarkerRecord(fid))
    ensures id == fid
  {
    hide Encode, Ascii, Number, ReadLogRecord;
    MarkerStorable(fid);
    ReadEncoded([], MarkerRecord(fid), []);
    assert [] + marker + [] == marker;
    AsciiRoundTrip(fid);
    var r := ReadLogRecord(marker, 0);
    id := Number(r.record.value);
  }

  lemma MarkerStorable(fid: nat)
    requires fid < TWO31
    ensures Storable(MarkerRecord(fid))
  {
    hide Encode, Varint, Ascii;
    AsciiLength(fid);
    EncodedLength(MarkerRecord(fid));
    VarintLength(6);
    VarintLength(|Ascii(fid)|);
  }

  /* ---- merging ---- */

  datatype MergeStatus =
    | NothingToDo
    | ReadFailed                 // an empty file
    | NullFile                   // no live record: the C++ dereferences a null file
    | Merged

  // The live contents whose records lie in the part of the log seen so far.
  function Copied(live: map<Bytes, Placed>, seen: seq<Placed>): map<Bytes, Bytes> {
    map k | k in live && live[k] in seen :: live[k].entry.value
  }

  // The hints for a log of plain records.
  function HintsOf(log: seq<Placed>): seq<Hint> {
    if log == [] then []
    else
      var p := log[|log| - 1];
      var hs := HintsOf(log[..|log| - 1]);
      if p.entry.key == [] then hs else hs + [Hint(p.entry.key, p.pst)]
  }

  lemma HintsAppend(log: seq<Placed>, p: Placed)
    ensures HintsOf(log + [p]) == if p.entry.key == [] then HintsOf(log) else HintsOf(log) + [Hint(p.entry.key, p.pst)]
  {
    assert (log + [p])[..|log|] == log;
  }

  lemma {:induction false} HintFrom(log: seq<Placed>, i: nat)
    requires i < |HintsOf(log)|
    ensures exists p :: p in log && p.entry.key != [] && HintsOf(log)[i] == Hint(p.entry.key, p.pst)
  {
    var front, p := log[..|log| - 1], log[|log| - 1];
    if i < |HintsOf(front)| { HintFrom(front, i); } else { assert p in log; }
  }

  // The log is compact: it holds one record for each key of contents, with its
  // value, and the hint file leads to each of them.
  ghost predicate CompactLog(log: seq<Placed>, hint: Bytes, contents: map<Bytes, Bytes>) {
    && ReplayLog(log).Running?
    && var live := ReplayLog(log).state.live;
    && Values(live) == contents
    && |log| == |live|
    && hint == EncodeAll(HintRecords(HintsOf(log)))
    && HintMap(HintsOf(log)) == Psts(live) - {[]}
  }

  ghost predicate Compact(db: DB, hint: Bytes, contents: map<Bytes, Bytes>)
    reads db
  {
    && db.FilesOk()
    && CompactLog(Flatten(db.segs), hint, contents)
    && (db.activeId == -1 <==> Flatten(db.segs) == [])
    && Limited(db.segs, db.limit)
  }

  lemma PutRest(m: map<Bytes, Pst>, key: Bytes, pst: Pst)
    ensures m[key := pst] - {[]} == if key == [] then m - {[]} else (m - {[]})[key := pst]
  {
  }

  lemma CompactAppend(log: seq<Placed>, p: Placed, hint: Bytes, hint': Bytes, contents: map<Bytes, Bytes>)
    requires CompactLog(log, hint, contents)
    requires p.entry.txn == NO_TXN && p.entry.kind != DELETED && p.entry.key !in contents
    requires var hs, h := HintsOf(log), Hint(p.entry.key, p.pst);
             hint' == EncodeAll(HintRecords(if h.key == [] then hs else hs + [h]))
    ensures CompactLog(log + [p], hint', contents[p.entry.key := p.entry.value])
  {
    hide ReplayLog, EncodeAll, HintMap, HintsOf, Values, Psts, HintRecords;
    SameKeys(ReplayLog(log).state.live);
    ReplayPut(log, p);
    HintsAppend(log, p);
    HintMapAppend(HintsOf(log), Hint(p.entry.key, p.pst));
    PutRest(Psts(ReplayLog(log).state.live), p.entry.key, p.pst);
  }

  lemma CopyStep(live: map<Bytes, Placed>, seen: seq<Placed>, p: Placed)
    requires p !in seen && forall k :: k in live ==> live[k].entry.key == k
    ensures Copied(live, seen + [p]) ==
      if p.entry.key in live && live[p.entry.key] == p then Copied(live, seen)[p.entry.key := p.entry.value]
      else Copied(live, seen)
    ensures p.entry.key in live && live[p.entry.key] == p ==> p.entry.key !in Copied(live, seen)
  {
  }

  lemma HintMapAppend(hs: seq<Hint>, h: Hint)
    ensures HintMap(hs + [h]) == HintMap(hs)[h.key := h.pst]
  {
    assert (hs + [h])[..|hs|] == hs;
  }

  lemma PlainRecord(e: Entry)
    requires EntryOk(e)
    ensures 0 !in e.key
    ensures ToRecord(e.(txn := NO_TXN)) == LogRecord(TxnKey(e.key, NO_TXN), e.value, e.kind)
  {
  }

  lemma HasFile(db: DB)
    requires db.FilesOk() && Flatten(db.segs) != []
    ensures db.activeId != -1
  {
  }

  // One record: copied if the index points at it, and noted in the hint file.
  method MergeRecord(p: Placed, index: map<Bytes, Pst>, temp: DB, hint: Bytes,
                     ghost live: map<Bytes, Placed>, ghost seen: seq<Placed>)
    returns (hint': Bytes)
    requires Compact(temp, hint, Copied(live, seen)) && EntryOk(p.entry)
    requires index == Psts(live) && (forall k :: k in live ==> live[k].entry.key == k)
    requires p !in seen
    requires p.entry.key in live && live[p.entry.key].pst == p.pst ==> live[p.entry.key] == p && p.entry.kind != DELETED
    modifies temp
    ensures Compact(temp, hint', Copied(live, seen + [p]))
  {
    hide ReplayLog, Values, HintMap, HintRecords, HintsOf, EncodeAll, Copied;
    hide Flatten, EntryOk, ToRecord, TxnKey, Stored, DB.FilesOk, Limited, Filed, Encode;
    hint' := hint;
    CopyStep(live, seen, p);
    var key := p.entry.key;
    if key in index && index[key] == p.pst {
      ghost var log := Flatten(temp.segs);
      ghost var e := p.entry.(txn := NO_TXN);
      PlainEntryOk(p.entry);
      PlainRecord(p.entry);
      var encoded := EncodeLogRecordWithTxnID(key, NO_TXN);
      var pst := temp.AppendLogRecord(LogRecord(encoded, p.entry.value, p.entry.kind), e);
      hint' := WriteHintRecord(hint, Hint(key, pst), HintsOf(log));
      CompactAppend(log, Placed(pst, e), hint, hint', Copied(live, seen));
      HasFile(temp);
    }
  }

  lemma EarlierFile(disk: seq<Bytes>, segs: seq<Segment>, f: nat, p: Placed)
    requires DiskOk(disk, segs) && f <= |segs| && p in Flatten(segs[..f])
    ensures p.pst.fid < f
  {
    hide Flatten;
    var g, m := FindPlaced(segs[..f], p);
    assert SegOk(segs[g], g);
  }

  lemma Unseen(disk: seq<Bytes>, segs: seq<Segment>, f: nat, n: nat)
    requires DiskOk(disk, segs) && f < |segs| && n < |segs[f]|
    ensures segs[f][n] !in Flatten(segs[..f]) + segs[f][..n]
  {
    hide Flatten, Offset, EntryOk, Records;
    var p := segs[f][n];
    RecordsStorable(segs[f], f);
    assert SegOk(segs[f], f);
    if p in segs[f][..n] {
      var m :| 0 <= m < n && segs[f][m] == p;
      OffsetsIncrease(Records(segs[f]), m, n);
    } else if p in Flatten(segs[..f]) {
      EarlierFile(disk, segs, f, p);
    }
  }

  // The index points at a record only if that record is the live one.
  lemma PointedAt(disk: seq<Bytes>, segs: seq<Segment>, f: nat, n: nat)
    requires DiskOk(disk, segs) && f < |segs| && n < |segs[f]| && ReplayLog(Flatten(segs)).Running?
    ensures EntryOk(segs[f][n].entry)
    ensures var live, p := ReplayLog(Flatten(segs)).state.live, segs[f][n];
            && (forall k :: k in live ==> live[k].entry.key == k)
            && (p.entry.key in live && live[p.entry.key].pst == p.pst ==>
                  live[p.entry.key] == p && p.entry.kind != DELETED)
  {
    hide Flatten, ReplayLog, EntryOk;
    assert SegOk(segs[f], f);
    var p := segs[f][n];
    PlacedInFlatten(segs, f, n);
    ReplayFacts(Flatten(segs));
    var live := ReplayLog(Flatten(segs)).state.live;
    if p.entry.key in live && live[p.entry.key].pst == p.pst {
      PositionsAreUnique(disk, segs, live[p.entry.key], p);
    }
  }

  // One file, from byte 0 to its end.
  method MergeFile(disk: seq<Bytes>, f: nat, index: map<Bytes, Pst>, temp: DB, hint: Bytes,
                   ghost segs: seq<Segment>, ghost live: map<Bytes, Placed>)
    returns (ok: bool, hint': Bytes)
    requires DiskOk(disk, segs) && f < |disk| && ReplayLog(Flatten(segs)).Running?
    requires live == ReplayLog(Flatten(segs)).state.live && index == Psts(live)
    requires Compact(temp, hint, Copied(live, Flatten(segs[..f])))
    modifies temp
    ensures ok <==> disk[f] != []
    ensures ok ==> Compact(temp, hint', Copied(live, Flatten(segs[..f]) + segs[f]))
  {
    hide ReadLogRecord, SegBytes, SegOk, ReplayLog, FromRecord, Boundary, Compact, EntryOk, Flatten, Psts, Copied;
    ghost var seg, before := segs[f], Flatten(segs[..f]);
    hint' := hint;
    var offset: nat := 0;
    ghost var n: nat := 0;
    assert before + seg[..0] == before;
    ReadSegment(seg, f, 0);
    while true
      invariant n <= |seg| && offset == Boundary(seg, n) && Compact(temp, hint', Copied(live, before + seg[..n]))
      decreases |seg| - n
    {
      ReadSegment(seg, f, n);
      var next := ReadLogRecord(disk[f], offset);
      if next.EndOfFile? {
        assert seg[..n] == seg;
        return true, hint';
      }
      if !next.Got? { return false, hint'; }
      var p := Placed(Pst(f, offset), FromRecord(next.record));
      Unseen(disk, segs, f, n);
      PointedAt(disk, segs, f, n);
      assert before + seg[..n + 1] == before + seg[..n] + [p];
      hint' := MergeRecord(p, index, temp, hint', live, before + seg[..n]);
      offset := offset + next.size;
      n := n + 1;
    }
  }

  lemma NoFiles(db: DB)
    requires db.FilesOk()
    ensures (db.activeId == -1 <==> db.disk == []) && db.activeId == |db.disk| - 1
    ensures DiskOk(db.disk, db.segs)
  {
  }

  lemma EmptyMerge(t: DB, live: map<Bytes, Placed>)
    requires t.Valid() && t.segs == []
    ensures Compact(t, [], Copied(live, Flatten([])))
  {
    assert t.Outcome() == Running(EMPTY);
  }

  // Once the whole log is seen, everything live is copied.
  lemma AllCopied(log: seq<Placed>)
    requires ReplayLog(log).Running?
    ensures Copied(ReplayLog(log).state.live, log) == Values(ReplayLog(log).state.live)
  {
    hide ReplayLog;
    ReplayFacts(log);
  }

  lemma CompactSize(t: DB, hint: Bytes, contents: map<Bytes, Bytes>)
    requires Compact(t, hint, contents)
    ensures |Flatten(t.segs)| == |contents|
    ensures t.activeId == -1 <==> contents == map[]
  {
    hide ReplayLog, HintsOf, HintMap, EncodeAll;
    var live := t.Outcome().state.live;
    SameKeys(live);
    assert |live| == |live.Keys| == |contents.Keys| == |contents|;
  }

  // DB::Merge. The running database gains an empty file and is otherwise
  // unchanged. The merge completes exactly when there are files, none is empty
  // and some key is live; then the new log is a compact copy of the contents.
  method MergeDb(db: DB) returns (status: MergeStatus, temp: DB?, hint: Bytes, marker: Bytes)
    requires db.Valid()
    modifies db
    ensures db.Valid() && db.Contents() == old(db.Contents())
    ensures db.segs == if status == NothingToDo then old(db.segs) else old(db.segs) + [[]]
    ensures status == if old(db.disk) == [] then NothingToDo
                      else if !NoEmptyFile(old(db.disk)) then ReadFailed
                      else if old(db.Contents()) == map[] then NullFile
                      else Merged
    ensures status == Merged ==> temp != null && fresh(temp) && Compact(temp, hint, db.Contents())
    ensures status == Merged ==> marker == Encode(MarkerRecord(|old(db.disk)| - 1))
  {
    hide ReplayLog, DiskOk, Flatten, Values, Psts, Copied, DB.FilesOk, Compact, Encode;
    NoFiles(db);
    temp, hint, marker := null, [], [];
    if db.activeId == -1 { return NothingToDo, null, [], []; }
    var disk, index, nonMerged: nat := db.disk, db.index, db.activeId;
    ghost var segs, live := db.segs, db.Outcome().state.live;
    FlattenNewFile(segs);
    AllCopied(Flatten(segs));
    db.NewActiveDataFile();
    var t := new DB.Fresh(db.limit);
    EmptyMerge(t, live);
    assert segs[..0] == [];
    for f := 0 to |disk|
      modifies t
      invariant Compact(t, hint, Copied(live, Flatten(segs[..f])))
      invariant forall g :: 0 <= g < f ==> disk[g] != []
    {
      FlattenNext(segs, f);
      var ok;
      ok, hint := MergeFile(disk, f, index, t, hint, segs, live);
      if !ok { return ReadFailed, null, hint, []; }
    }
    assert segs[..|disk|] == segs by { SameLength(disk, segs); }
    CompactSize(t, hint, Values(live));
    if t.activeId == -1 { return NullFile, null, hint, []; }
    marker := EncodeLogRecord(LogRecord(MERGED_KEY, Ascii(nonMerged), 0));
    return Merged, t, hint, marker;
  }

  lemma SameLength(disk: seq<Bytes>, segs: seq<Segment>)
    requires DiskOk(disk, segs)
    ensures |disk| == |segs|
  {
  }

  // Loading the hints: they fit their encoding when the new files are below
  // two gigabytes and the keys leave room for a position.
  lemma HintsLoad(disk: seq<Bytes>, segs: seq<Segment>, i: nat)
    requires DiskOk(disk, segs) && |disk| <= TWO32 && i < |HintsOf(Flatten(segs))|
    requires forall f :: 0 <= f < |disk| ==> |disk[f]| <= TWO31
    requires forall p :: p in Flatten(segs) ==> Fits(p.entry.key, [])
    ensures HintOk(HintsOf(Flatten(segs))[i])
  {
    hide HintsOf, Flatten, Encode, Varint;
    HintFrom(Flatten(segs), i);
    var p :| p in Flatten(segs) && p.entry.key != [] && HintsOf(Flatten(segs))[i] == Hint(p.entry.key, p.pst);
    var f, n := FindPlaced(segs, p);
    ReadPlaced(disk, segs, f, n);
    HintFits(Hint(p.entry.key, p.pst));
  }

  lemma HintFits(h: Hint)
    requires h.key != [] && Fits(h.key, []) && h.pst.fid < TWO32 && h.pst.offset < TWO31
    ensures HintOk(h)
  {
    hide Encode;
    VarintLength(h.pst.fid);
    VarintLength(h.pst.offset);
    EncodedLength(HintRecord(h));
    VarintLength(|h.key|);
    VarintLength(|EncodePst(h.pst)|);
  }
}

// The database object: an append-only log over rotating files, and an
// in-memory index into it.

module Db {
  import opened Coding
  import opened LogRecords
  import opened Replay
  import opened Disk

  datatype Status = Ok | NotFound | InvalidArgument | NotSupported | IOErr | CheckError

  /* ---- sizes ---- */

  // Well below the four-gigabyte limit of the size fields.
  predicate Fits(key: Bytes, value: Bytes) {
    |key| + |value| < 0xFFFF_FF00
  }

  lemma FitsIsEnough(e: Entry)
    requires 0 !in e.key && e.txn < TWO28 && Fits(e.key, e.value)
    ensures EntryOk(e)
  {
    hide Crc32c.Crc;
    var r := ToRecord(e);
    VarintLength(e.txn);
    HeaderLength(r);
    assert |Encode(r)| == 4 + |Header(r)| + |r.key| + |r.value|;
  }

  /* ---- rotation ---- */

  // The files when the write of e happens: a first file if there is none, a
  // further one if e would overflow the current one.
  function Room(segs: seq<Segment>, e: Entry, limit: nat): (r: seq<Segment>)
    ensures r != []
  {
    var s := if segs == [] then [[]] else segs;
    if |SegBytes(s[|s| - 1])| + |Encode(ToRecord(e))| > limit then s + [[]] else s
  }

  function Stored(segs: seq<Segment>, e: Entry, limit: nat): seq<Segment> {
    Appended(Room(segs, e, limit), e)
  }

  function PlaceOf(segs: seq<Segment>, e: Entry, limit: nat): Placed {
    Disk.Next(Room(segs, e, limit), e)
  }

  lemma StoredFlat(segs: seq<Segment>, e: Entry, limit: nat)
    ensures Flatten(Stored(segs, e, limit)) == Flatten(segs) + [PlaceOf(segs, e, limit)]
    ensures PlaceOf(segs, e, limit).entry == e
  {
    assert PlaceOf(segs, e, limit).entry == e;
    hide SegBytes, Encode, ToRecord, Flatten, Appended, Disk.Next;
    var s := if segs == [] then [[]] else segs;
    assert Flatten(s) == Flatten(segs) by {
      if segs == [] { FlattenNewFile([]); assert [] + [[]] == s; }
    }
    FlattenNewFile(s);
    FlattenAppend(Room(segs, e, limit), e);
  }

  // No file is larger than the limit, unless it holds a single record.
  predicate Limited(segs: seq<Segment>, limit: nat) {
    forall f :: 0 <= f < |segs| ==> |SegBytes(segs[f])| <= limit || |segs[f]| == 1
  }

  // A record went into a new file only because it did not fit the one before.
  predicate Packed(segs: seq<Segment>, limit: nat) {
    forall f :: 0 < f < |segs| && segs[f] != [] && segs[f - 1] != [] ==>
      |SegBytes(segs[f - 1])| + |Encode(ToRecord(segs[f][0].entry))| > limit
  }

  // The current file is empty, or the record fits it.
  predicate HasRoom(segs: seq<Segment>, e: Entry, limit: nat) {
    && segs != []
    && var last := segs[|segs| - 1];
       last == [] || |SegBytes(last)| + |Encode(ToRecord(e))| <= limit
  }

  lemma AppendedLimited(segs: seq<Segment>, e: Entry, limit: nat)
    requires SegmentsOk(segs) && HasRoom(segs, e, limit) && Limited(segs, limit) && EntryOk(e)
    ensures Limited(Appended(segs, e), limit)
  {
    hide SegBytes, Encode, ToRecord, EntryOk;
    SegmentAppend(segs[|segs| - 1], |segs| - 1, e);
  }

  lemma RoomIsRoom(segs: seq<Segment>, e: Entry, limit: nat)
    ensures HasRoom(Room(segs, e, limit), e, limit)
  {
    hide SegBytes, Encode, ToRecord;
  }

  lemma RoomKeeps(segs: seq<Segment>, e: Entry, limit: nat)
    ensures SegmentsOk(segs) ==> SegmentsOk(Room(segs, e, limit))
    ensures Limited(segs, limit) ==> Limited(Room(segs, e, limit), limit)
  {
    hide SegBytes, Encode, ToRecord, SegmentsOk, Limited;
    var s: seq<Segment> := if segs == [] then [[]] else segs;
    OneMoreFile(segs, limit);
    OneMoreFile(s, limit);
    if segs == [] { assert s == segs + [[]]; }
  }

  lemma OneMoreFile(segs: seq<Segment>, limit: nat)
    ensures SegmentsOk(segs) ==> SegmentsOk(segs + [[]])
    ensures Limited(segs, limit) ==> Limited(segs + [[]], limit)
    ensures segs == [] ==> SegmentsOk(segs) && Limited(segs, limit)
  {
    assert SegBytes([]) == [];
    hide SegBytes;
  }

  lemma StoredLimited(segs: seq<Segment>, e: Entry, limit: nat)
    requires SegmentsOk(segs) && Limited(segs, limit) && EntryOk(e)
    ensures SegmentsOk(Stored(segs, e, limit)) && Limited(Stored(segs, e, limit), limit)
  {
    hide SegmentsOk, Limited, EntryOk, HasRoom, Room;
    RoomIsRoom(segs, e, limit);
    RoomKeeps(segs, e, limit);
    SegmentsAppend(Room(segs, e, limit), e);
    AppendedLimited(Room(segs, e, limit), e, limit);
  }

  lemma StoredPacked(segs: seq<Segment>, e: Entry, limit: nat)
    requires Packed(segs, limit) && (segs == [] || segs[|segs| - 1] != [])
    ensures var out := Stored(segs, e, limit); Packed(out, limit) && out[|out| - 1] != []
  {
    hide SegBytes, Encode, ToRecord;
    var room: seq<Segment>, out: seq<Segment> := Room(segs, e, limit), Stored(segs, e, limit);
    forall f | 0 < f < |out| && out[f] != [] && out[f - 1] != []
      ensures |SegBytes(out[f - 1])| + |Encode(ToRecord(out[f][0].entry))| > limit
    {
      assert out[f - 1] == room[f - 1];
    }
  }

  // The files after a sequence of writes to an empty directory.
  function StoredAll(es: seq<Entry>, limit: nat): seq<Segment> {
    if es == [] then [] else Stored(StoredAll(es[..|es| - 1], limit), es[|es| - 1], limit)
  }

  predicate Writes(log: seq<Placed>, es: seq<Entry>) {
    |log| == |es| && forall i :: 0 <= i < |es| ==> log[i].entry == es[i]
  }

  // Whatever is written: the files hold it in order, none of them beyond the
  // limit but with a single record, and each of them as full as can be.
  lemma {:induction false} FilesAreFull(es: seq<Entry>, limit: nat)
    requires forall i :: 0 <= i < |es| ==> EntryOk(es[i])
    ensures var segs := StoredAll(es, limit);
            && SegmentsOk(segs) && Writes(Flatten(segs), es)
            && Limited(segs, limit) && Packed(segs, limit) && (segs == [] || segs[|segs| - 1] != [])
    decreases |es|
  {
    hide EntryOk, Stored, Limited, Packed, Flatten, SegmentsOk, Writes, PlaceOf;
    if es == [] {
      NoFilesAreFull(limit);
    } else {
      var before, e := es[..|es| - 1], es[|es| - 1];
      FilesAreFull(before, limit);
      var segs := StoredAll(before, limit);
      StoredFlat(segs, e, limit);
      WritesOneMore(Flatten(segs), PlaceOf(segs, e, limit), es);
      StoredLimited(segs, e, limit);
      StoredPacked(segs, e, limit);
    }
  }

  lemma NoFilesAreFull(limit: nat)
    ensures SegmentsOk([]) && Limited([], limit) && Packed([], limit) && Writes(Flatten([]), [])
  {
  }

  lemma WritesOneMore(log: seq<Placed>, p: Placed, es: seq<Entry>)
    requires es != [] && Writes(log, es[..|es| - 1])
    ensures p.entry == es[|es| - 1] ==> Writes(log + [p], es)
  {
    forall i | 0 <= i < |log| ensures log[i].entry == es[i] { assert es[..|es| - 1][i] == es[i]; }
  }

  predicate NoEmptySegment(segs: seq<Segment>) {
    forall f :: 0 <= f < |segs| ==> segs[f] != []
  }

  // A write leaves an empty file behind exactly when it is larger than a whole
  // file and finds the current file empty, or when one was empty before.
  lemma WriteLeavesEmptyFile(segs: seq<Segment>, e: Entry, limit: nat)
    requires SegmentsOk(segs) && EntryOk(e)
    ensures var n := |segs| - 1;
            NoEmptySegment(Stored(segs, e, limit)) <==>
            && (segs == [] || NoEmptySegment(segs[..n]))
            && (segs == [] || segs[n] == [] ==> |Encode(ToRecord(e))| <= limit)
  {
    hide Encode, ToRecord;
    var s := if segs == [] then [[]] else segs;
    var r := Room(segs, e, limit);
    EmptySegment(s[|s| - 1], |s| - 1);
    var out := Stored(segs, e, limit);
    assert out[|r| - 1] != [];
    assert forall f :: 0 <= f < |r| - 1 ==> out[f] == r[f];
    if segs != [] {
      assert forall f :: 0 <= f < |segs| - 1 ==> segs[..|segs| - 1][f] == segs[f] == out[f];
    }
    if |r| > |s| { assert out[|s| - 1] == s[|s| - 1]; }
  }

  /* ---- recovery ---- */

  lemma {:induction false} MissingStaysMissing(live: map<Bytes, Placed>, ps: seq<Placed>, i: nat)
    requires i <= |ps| && UpdateAll(live, ps[..i]).Missing?
    ensures UpdateAll(live, ps).Missing?
    decreases |ps| - i
  {
    if i < |ps| {
      assert ps[..i + 1][..i] == ps[..i];
      MissingStaysMissing(live, ps, i + 1);
    } else {
      assert ps[..i] == ps;
    }
  }

  lemma UpdateNext(live: map<Bytes, Placed>, ps: seq<Placed>, i: nat)
    requires i < |ps| && UpdateAll(live, ps[..i]).Updated?
    ensures UpdateAll(live, ps[..i + 1]) == UpdateIndex(UpdateAll(live, ps[..i]).live, ps[i])
  {
    assert ps[..i + 1][..i] == ps[..i];
  }

  // The loop over the records of a finished transaction.
  method ApplyPending(index: map<Bytes, Pst>, ps: seq<Placed>, ghost live: map<Bytes, Placed>)
    returns (ok: bool, r: map<Bytes, Pst>)
    requires index == Psts(live)
    ensures ok <==> UpdateAll(live, ps).Updated?
    ensures ok ==> r == Psts(UpdateAll(live, ps).live)
  {
    r := index;
    assert ps[..0] == [];
    for i := 0 to |ps|
      invariant UpdateAll(live, ps[..i]).Updated?
      invariant r == Psts(UpdateAll(live, ps[..i]).live)
    {
      UpdateNext(live, ps, i);
      if ps[i].entry.kind == DELETED {
        if ps[i].entry.key !in r {
          MissingStaysMissing(live, ps, i + 1);
          return false, r;
        }
        r := r - {ps[i].entry.key};
      } else {
        r := r[ps[i].entry.key := ps[i].pst];
      }
    }
    assert ps[..|ps|] == ps;
    ok := true;
  }

  // What recovery knows in the middle of a scan.
  datatype Scan = Scan(index: map<Bytes, Pst>, pending: map<nat, seq<Placed>>, txn: nat)

  ghost predicate Scanned(scan: Scan, from: Replayed, log: seq<Placed>) {
    && ReplayFrom(from, log).Running?
    && scan.index == Psts(ReplayFrom(from, log).state.live)
    && scan.pending == ReplayFrom(from, log).state.pending
    && scan.txn == ReplayFrom(from, log).state.maxTxn
  }

  // One record of the scan.
  method LoadRecord(scan: Scan, p: Placed, ghost from: Replayed, ghost log: seq<Placed>) returns (ok: bool, r: Scan)
    requires Scanned(scan, from, log)
    ensures ok <==> ReplayFrom(from, log + [p]).Running?
    ensures ok ==> Scanned(r, from, log + [p])
  {
    ReplayOneMore(from, log, p);
    hide ReplayFrom;
    ghost var st := ReplayFrom(from, log).state;
    var e := p.entry;
    var index, pending := scan.index, scan.pending;
    if e.txn == NO_TXN {
      if e.kind == DELETED {
        if e.key !in index { return false, scan; }
        index := index - {e.key};
      } else {
        index := index[e.key := p.pst];
      }
    } else {
      var ps := if e.txn in pending then pending[e.txn] else [];
      if e.kind == TXN_FINISHED {
        var applied;
        applied, index := ApplyPending(index, ps, st.live);
        if !applied { return false, scan; }
        pending := pending - {e.txn};
      } else {
        pending := pending[e.txn := ps + [p]];
      }
    }
    return true, Scan(index, pending, if e.txn > scan.txn then e.txn else scan.txn);
  }

  // Where the n-th entry of a file starts, and what reading there gives.
  function Boundary(seg: Segment, n: nat): nat
    requires n <= |seg|
  {
    Offset(Records(seg), n)
  }

  lemma ReadSegment(seg: Segment, fid: nat, n: nat)
    requires SegOk(seg, fid) && n <= |seg|
    ensures Boundary(seg, 0) == 0 && Boundary(seg, n) <= |SegBytes(seg)|
    ensures SegBytes(seg) == [] <==> seg == []
    ensures n == |seg| ==> Boundary(seg, n) == |SegBytes(seg)|
    ensures var r := ReadLogRecord(SegBytes(seg), Boundary(seg, n));
            if seg == [] then r == IOError
            else if n == |seg| then r == EndOfFile
            else r.Got? && Placed(Pst(fid, Boundary(seg, n)), FromRecord(r.record)) == seg[n]
                 && Boundary(seg, n) + r.size == Boundary(seg, n + 1)
  {
    hide ReadLogRecord, EncodeAll, ToRecord, FromRecord;
    RecordsStorable(seg, fid);
    EmptySegment(seg, fid);
    OffsetEnd(Records(seg));
    ReadBoundary(Records(seg), n);
    if n < |seg| { EntryRoundTrip(seg[n].entry); }
  }

  // One file of the scan, from byte 0 to its end.
  method LoadFile(file: Bytes, fid: nat, start: Scan, ghost seg: Segment, ghost from: Replayed, ghost log: seq<Placed>)
    returns (status: Status, r: Scan, end: nat)
    requires SegOk(seg, fid) && file == SegBytes(seg) && Scanned(start, from, log)
    ensures status == Ok <==> file != [] && ReplayFrom(from, log + seg).Running?
    ensures file == [] ==> status == IOErr
    ensures status == Ok ==> Scanned(r, from, log + seg) && end == |file|
  {
    hide ReadLogRecord, SegBytes, SegOk, ReplayFrom, FromRecord, Boundary;
    r, end := start, 0;
    ghost var n: nat := 0;
    assert log + seg[..0] == log;
    ReadSegment(seg, fid, 0);
    while true
      invariant n <= |seg| && end == Boundary(seg, n) && Scanned(r, from, log + seg[..n])
      decreases |seg| - n
    {
      ReadSegment(seg, fid, n);
      var next := ReadLogRecord(file, end);
      if next.EndOfFile? {
        assert seg[..n] == seg;
        return Ok, r, end;
      }
      if !next.Got? { return IOErr, r, end; }
      var p := Placed(Pst(fid, end), FromRecord(next.record));
      assert log + seg[..n + 1] == log + seg[..n] + [p];
      var ok;
      ok, r := LoadRecord(r, p, from, log + seg[..n]);
      if !ok {
        assert log + seg == log + seg[..n + 1] + seg[n + 1..];
        NotRunning(from, log + seg[..n + 1], seg[n + 1..]);
        return CheckError, r, end;
      }
      end := end + next.size;
      n := n + 1;
    }
  }

  lemma NotRunning(from: Replayed, log: seq<Placed>, more: seq<Placed>)
    requires !ReplayFrom(from, log).Running?
    ensures !ReplayFrom(from, log + more).Running?
  {
    FailedStaysFailed(from, log, more);
  }

  lemma {:induction false} FlattenSplit(segs: seq<Segment>, f: nat)
    requires f <= |segs|
    ensures exists more :: Flatten(segs) == Flatten(segs[..f]) + more
    decreases |segs| - f
  {
    if f == |segs| {
      assert segs[..f] == segs;
      assert Flatten(segs) == Flatten(segs[..f]) + [];
    } else {
      FlattenSplit(segs, f + 1);
      var more :| Flatten(segs) == Flatten(segs[..f + 1]) + more;
      assert segs[..f + 1][..f] == segs[..f];
      assert Flatten(segs) == Flatten(segs[..f]) + (segs[f] + more);
    }
  }

  lemma PrefixFails(from: Replayed, segs: seq<Segment>, f: nat)
    requires f <= |segs| && !ReplayFrom(from, Flatten(segs[..f])).Running?
    ensures !ReplayFrom(from, Flatten(segs)).Running?
  {
    hide ReplayFrom, Flatten;
    FlattenSplit(segs, f);
    var more :| Flatten(segs) == Flatten(segs[..f]) + more;
    NotRunning(from, Flatten(segs[..f]), more);
  }

  lemma FlattenNext(segs: seq<Segment>, f: nat)
    requires f < |segs|
    ensures Flatten(segs[..f + 1]) == Flatten(segs[..f]) + segs[f]
  {
    assert segs[..f + 1][..f] == segs[..f];
  }

  // LoadIndexFromDataFiles. Files below `skip` are covered by the index that
  // the hint file gave. It succeeds exactly when no other file is empty and
  // every tombstone in them names a key, and then computes what they mean.
  method LoadIndex(disk: seq<Bytes>, skip: nat, hinted: map<Bytes, Pst>, ghost segs: seq<Segment>, ghost from: Replayed)
    returns (status: Status, index: map<Bytes, Pst>, txn: nat, end: nat)
    requires DiskOk(disk, segs) && skip <= |disk|
    requires hinted == Psts(from.live) && from.pending == map[] && from.maxTxn == 0
    ensures status == Ok <==> NoEmptyFile(disk[skip..]) && ReplayFrom(from, Flatten(segs[skip..])).Running?
    ensures status == Ok ==>
            && index == Psts(ReplayFrom(from, Flatten(segs[skip..])).state.live)
            && txn == ReplayFrom(from, Flatten(segs[skip..])).state.maxTxn
            && end == if skip < |disk| then |disk[|disk| - 1]| else 0
  {
    hide SegBytes, SegOk, Flatten, ReplayFrom, DiskOk, Psts;
    FileOk(disk, segs, 0);
    ghost var tail := segs[skip..];
    var scan := Scan(hinted, map[], 0);
    end := 0;
    NothingScanned(scan, from, tail);
    for f := skip to |disk|
      invariant Scanned(scan, from, Flatten(tail[..f - skip]))
      invariant forall g :: skip <= g < f ==> disk[g] != []
      invariant end == if skip < f then |disk[f - 1]| else 0
    {
      FlattenNext(tail, f - skip);
      FileOk(disk, segs, f);
      status, scan, end := LoadFile(disk[f], f, scan, segs[f], from, Flatten(tail[..f - skip]));
      if status != Ok {
        if disk[f] != [] { PrefixFails(from, tail, f - skip + 1); } else { assert disk[skip..][f - skip] == []; }
        return status, scan.index, scan.txn, end;
      }
    }
    assert tail[..|disk| - skip] == tail;
    return Ok, scan.index, scan.txn, end;
  }

  lemma FileOk(disk: seq<Bytes>, segs: seq<Segment>, f: nat)
    requires DiskOk(disk, segs)
    ensures |disk| == |segs| && (f < |disk| ==> SegOk(segs[f], f) && disk[f] == SegBytes(segs[f]))
  {
  }

  lemma NothingScanned(scan: Scan, from: Replayed, segs: seq<Segment>)
    requires scan == Scan(Psts(from.live), map[], 0) && from.pending == map[] && from.maxTxn == 0
    ensures Scanned(scan, from, Flatten(segs[..0]))
  {
    assert segs[..0] == [];
  }

  /* ---- the database ---- */

  // The new bytes stand behind the last file if they fit there, and otherwise in
  // a file of their own behind it; the position says where. A first record that
  // is larger than a file leaves file 0 empty.
  predicate Filed(disk: seq<Bytes>, after: seq<Bytes>, bytes: Bytes, limit: nat, pst: Pst) {
    var n := |disk|;
    if n == 0 then
      if |bytes| <= limit then after == [bytes] && pst == Pst(0, 0) else after == [[], bytes] && pst == Pst(1, 0)
    else if |disk[n - 1]| + |bytes| <= limit then
      after == disk[..n - 1] + [disk[n - 1] + bytes] && pst == Pst(n - 1, |disk[n - 1]|)
    else after == disk + [bytes] && pst == Pst(n, 0)
  }

  // The bytes of all files.
  function Images(segs: seq<Segment>): (r: seq<Bytes>)
    ensures |r| == |segs| && forall f :: 0 <= f < |segs| ==> r[f] == SegBytes(segs[f])
  {
    seq(|segs|, f requires 0 <= f < |segs| => SegBytes(segs[f]))
  }

  lemma FilesAreImages(disk: seq<Bytes>, segs: seq<Segment>)
    requires DiskOk(disk, segs)
    ensures SegmentsOk(segs) && disk == Images(segs)
  {
    hide SegBytes, SegOk;
  }

  lemma ImagesAppended(segs: seq<Segment>, e: Entry)
    requires SegmentsOk(segs) && segs != [] && EntryOk(e)
    ensures var n := |segs| - 1;
            Images(Appended(segs, e)) == Images(segs)[n := SegBytes(segs[n]) + Encode(ToRecord(e))]
  {
    hide SegBytes, Encode, ToRecord, EntryOk, SegOk;
    SegmentAppend(segs[|segs| - 1], |segs| - 1, e);
  }

  lemma ImagesRoom(segs: seq<Segment>, e: Entry, limit: nat)
    ensures var size := |Encode(ToRecord(e))|;
            var s := if segs == [] then [[]] else Images(segs);
            Images(Room(segs, e, limit)) == if |s[|s| - 1]| + size > limit then s + [[]] else s
  {
    assert SegBytes([]) == [];
    hide SegBytes, Encode, ToRecord;
    var s: seq<Segment> := if segs == [] then [[]] else segs;
    assert Images(s + [[]]) == Images(s) + [[]];
    assert Images([[]]) == [[]];
  }

  lemma StoredFiled(segs: seq<Segment>, e: Entry, limit: nat)
    requires SegmentsOk(segs) && EntryOk(e)
    ensures Filed(Images(segs), Images(Stored(segs, e, limit)), Encode(ToRecord(e)), limit, PlaceOf(segs, e, limit).pst)
  {
    hide SegBytes, Encode, ToRecord, EntryOk, SegmentsOk, Room, Images, Filed;
    var room, bytes := Room(segs, e, limit), Encode(ToRecord(e));
    RoomKeeps(segs, e, limit);
    ImagesRoom(segs, e, limit);
    ImagesAppended(room, e);
    WrittenBehind(Images(segs), bytes, limit, Images(room));
  }

  lemma WrittenBehind(disk: seq<Bytes>, bytes: Bytes, limit: nat, room: seq<Bytes>)
    requires var s := if disk == [] then [[]] else disk;
             room == if |s[|s| - 1]| + |bytes| > limit then s + [[]] else s
    ensures var n := |room| - 1; Filed(disk, room[n := room[n] + bytes], bytes, limit, Pst(n, |room[n]|))
  {
    var n := |room| - 1;
    var after := room[n := room[n] + bytes];
    assert [] + bytes == bytes;
    if disk == [] {
      assert after == if |bytes| <= limit then [bytes] else [[], bytes];
    } else if |disk[|disk| - 1]| + |bytes| <= limit {
      assert after == disk[..n] + [disk[n] + bytes];
    } else {
      assert after == disk + [bytes];
    }
  }

  lemma KeepsLimit(disk: seq<Bytes>, segs: seq<Segment>, e: Entry, limit: nat)
    requires DiskOk(disk, segs) && EntryOk(e)
    ensures Limited(segs, limit) ==> Limited(Stored(segs, e, limit), limit)
  {
    hide Limited, Stored;
    if Limited(segs, limit) { StoredLimited(segs, e, limit); }
  }

  class DB {
    const limit: nat                  // options.data_file_size
    var disk: seq<Bytes>              // data files, by file id
    var activeId: int                 // -1 while there is no active file
    var writeOff: nat
    var nextFileId: nat
    var index: map<Bytes, Pst>
    var txnId: nat
    ghost var segs: seq<Segment>      // what the files hold

    ghost predicate FilesOk()
      reads this`disk, this`activeId, this`writeOff, this`nextFileId, this`segs
    {
      && DiskOk(disk, segs)
      && activeId == |disk| - 1 && nextFileId == |disk|
      && (disk != [] ==> writeOff == |disk[|disk| - 1]|)
    }

    ghost function Outcome(): Outcome
      reads this`segs
    {
      ReplayLog(Flatten(segs))
    }

    // The index and the transaction counter are what replaying the log gives.
    ghost predicate Valid()
      reads this
    {
      && FilesOk()
      && Outcome().Running?
      && index == Psts(Outcome().state.live)
      && txnId == Outcome().state.maxTxn
    }

    // The key-value map a user sees.
    ghost function Contents(): map<Bytes, Bytes>
      reads this
      requires Valid()
    {
      Values(Outcome().state.live)
    }

    constructor Fresh(limit: nat)
      ensures Valid() && Contents() == map[] && this.limit == limit && disk == [] && txnId == 0
      ensures segs == []
    {
      this.limit := limit;
      disk, activeId, writeOff, nextFileId, index, txnId, segs := [], -1, 0, 0, map[], 0, [];
    }

    constructor Loaded(limit: nat, disk: seq<Bytes>, index: map<Bytes, Pst>, txnId: nat, writeOff: nat,
                       ghost segs: seq<Segment>)
      ensures this.limit == limit && this.disk == disk && this.index == index && this.txnId == txnId
      ensures this.writeOff == writeOff && this.segs == segs
      ensures activeId == |disk| - 1 && nextFileId == |disk|
    {
      this.limit, this.disk, this.index, this.txnId, this.writeOff, this.segs := limit, disk, index, txnId, writeOff, segs;
      activeId, nextFileId := |disk| - 1, |disk|;
    }

    // DB::Open without merging. It succeeds exactly on a log that replays, in
    // files none of which is empty, and then serves that log's contents.
    static method Open(disk: seq<Bytes>, limit: nat, ghost segs: seq<Segment>) returns (status: Status, db: DB?)
      requires DiskOk(disk, segs)
      ensures status == Ok <==> NoEmptyFile(disk) && ReplayLog(Flatten(segs)).Running?
      ensures status == Ok <==> db != null
      ensures db != null ==> fresh(db) && db.Valid() && db.disk == disk && db.segs == segs && db.limit == limit
      ensures db != null ==> db.Contents() == Values(ReplayLog(Flatten(segs)).state.live)
    {
      hide ReplayFrom, DiskOk, Flatten;
      var index, txn, end;
      assert disk[0..] == disk && segs[0..] == segs && Psts(EMPTY.live) == map[];
      status, index, txn, end := LoadIndex(disk, 0, map[], segs, EMPTY);
      if status != Ok { return status, null; }
      db := new DB.Loaded(limit, disk, index, txn, end, segs);
    }

    method NewActiveDataFile()
      requires FilesOk()
      modifies this`disk, this`activeId, this`writeOff, this`nextFileId, this`segs
      ensures FilesOk() && segs == old(segs) + [[]]
    {
      DiskNewFile(disk, segs);
      disk := disk + [[]];
      activeId, nextFileId, writeOff := nextFileId, nextFileId + 1, 0;
      segs := segs + [[]];
    }

    method AppendLogRecord(r: LogRecord, ghost e: Entry) returns (pst: Pst)
      requires FilesOk() && EntryOk(e) && r == ToRecord(e)
      modifies this`disk, this`activeId, this`writeOff, this`nextFileId, this`segs
      ensures FilesOk()
      ensures segs == Stored(old(segs), e, limit)
      ensures Flatten(segs) == old(Flatten(segs)) + [Placed(pst, e)]
      ensures Filed(old(disk), disk, Encode(r), limit, pst)
      ensures Limited(old(segs), limit) ==> Limited(segs, limit)
    {
      hide Encode, SegBytes, ToRecord, EntryOk, SegOk, Flatten, Limited, Filed, Images;
      StoredFlat(segs, e, limit);
      KeepsLimit(disk, segs, e, limit);
      StoredFiled(segs, e, limit);
      if activeId == -1 { NewActiveDataFile(); }
      var bytes := EncodeLogRecord(r);
      if writeOff + |bytes| > limit { NewActiveDataFile(); }
      ghost var room := segs;
      pst := Pst(activeId, writeOff);
      DiskAppend(disk, segs, e);
      disk := disk[activeId := disk[activeId] + bytes];
      writeOff := writeOff + |bytes|;
      segs := Appended(segs, e);
      FilesAreImages(old(disk), old(segs));
      FilesAreImages(disk, segs);
    }

    method Put(key: Bytes, value: Bytes) returns (status: Status)
      requires Valid() && Fits(key, value)
      modifies this
      ensures Valid()
      ensures key == [] ==> status == InvalidArgument && segs == old(segs) && Contents() == old(Contents())
      ensures key != [] ==> status == Ok && Contents() == old(Contents())[CStr(key) := CStr(value)]
      ensures Limited(old(segs), limit) ==> Limited(segs, limit)
    {
      hide ReplayLog, EntryOk, FilesOk, Flatten, ToRecord, TxnKey, Values, Psts, Stored, CStr, Limited, Filed, Encode;
      if key == [] { return InvalidArgument; }
      ghost var e := Entry(CStr(key), NO_TXN, CStr(value), NORMAL);
      PutEntryOk(key, value, e);
      var encoded := EncodeLogRecordWithTxnID(key, NO_TXN);
      ghost var log := Flatten(segs);
      var pst := AppendLogRecord(LogRecord(encoded, CStr(value), NORMAL), e);
      ReplayPut(log, Placed(pst, e));
      index := index[CStr(key) := pst];
      return Ok;
    }

    method Get(key: Bytes) returns (status: Status, value: Bytes)
      requires Valid()
      ensures key == [] ==> status == InvalidArgument
      ensures key != [] ==> status == if CStr(key) in Contents() then Ok else NotFound
      ensures status == Ok ==> value == Contents()[CStr(key)]
    {
      hide ReplayLog, ReadLogRecord, Flatten, ToRecord;
      if key == [] { return InvalidArgument, []; }
      if CStr(key) !in index { return NotFound, []; }
      var pst := index[CStr(key)];
      LiveRead(disk, segs, CStr(key));
      var r := ReadLogRecord(disk[pst.fid], pst.offset);
      if !r.Got? { return IOErr, []; }
      if r.record.kind == DELETED { return NotFound, []; }
      return Ok, r.record.value;
    }

    method Delete(key: Bytes) returns (status: Status)
      requires Valid() && Fits(key, [])
      modifies this
      ensures Valid()
      ensures key == [] ==> status == InvalidArgument && segs == old(segs)
      ensures key != [] ==> status == Ok
      ensures key != [] && CStr(key) !in old(Contents()) ==> segs == old(segs)
      ensures Contents() == if key == [] then old(Contents()) else old(Contents()) - {CStr(key)}
      ensures Limited(old(segs), limit) ==> Limited(segs, limit)
    {
      hide ReplayLog, EntryOk, FilesOk, Flatten, ToRecord, TxnKey, Values, Psts, Stored, CStr, Limited, Filed, Encode;
      if key == [] { return InvalidArgument; }
      SameKeys(Outcome().state.live);
      if CStr(key) !in index { return Ok; }
      ghost var e := Entry(CStr(key), NO_TXN, [], DELETED);
      PutEntryOk(key, [], e);
      var encoded := EncodeLogRecordWithTxnID(key, NO_TXN);
      ghost var log := Flatten(segs);
      var pst := AppendLogRecord(LogRecord(encoded, [], DELETED), e);
      ReplayDelete(log, Placed(pst, e));
      index := index[CStr(key) := pst];   // the stored position is overwritten, then dropped
      index := index - {CStr(key)};
      return Ok;
    }
  }

  lemma SameKeys(live: map<Bytes, Placed>)
    ensures Psts(live).Keys == live.Keys == Values(live).Keys
  {
  }

  lemma PutEntryOk(key: Bytes, value: Bytes, e: Entry)
    requires Fits(key, value) && e.key == CStr(key) && e.txn == NO_TXN && |e.value| <= |value|
    ensures EntryOk(e) && ToRecord(e) == LogRecord(TxnKey(key, NO_TXN), e.value, e.kind)
  {
    CStrIdentity(key);
    FitsIsEnough(e);
  }

  // The index leads to the entry, and the entry's bytes are there.
  lemma LiveRead(disk: seq<Bytes>, segs: seq<Segment>, key: Bytes)
    requires DiskOk(disk, segs) && ReplayLog(Flatten(segs)).Running?
    requires key in ReplayLog(Flatten(segs)).state.live
    ensures var p := ReplayLog(Flatten(segs)).state.live[key];
            && p.pst.fid < |disk| && p.pst.offset <= |disk[p.pst.fid]|
            && p.entry.kind != DELETED
            && var r := ReadLogRecord(disk[p.pst.fid], p.pst.offset);
               r.Got? && r.record.kind == p.entry.kind && r.record.value == p.entry.value
  {
    hide ReplayLog, ReadLogRecord, Flatten, TxnKey;
    ReplayFacts(Flatten(segs));
    var p := ReplayLog(Flatten(segs)).state.live[key];
    var f, n := FindPlaced(segs, p);
    ReadPlaced(disk, segs, f, n);
  }
}

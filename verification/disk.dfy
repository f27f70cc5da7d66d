// Data files on disk: which entries they hold, and where.

module Disk {
  import opened Coding
  import opened LogRecords
  import opened Replay

  // The entries of one file, in order.
  type Segment = seq<Placed>

  function Records(seg: Segment): (rs: seq<LogRecord>)
    ensures |rs| == |seg|
  {
    seq(|seg|, n requires 0 <= n < |seg| => ToRecord(seg[n].entry))
  }

  function SegBytes(seg: Segment): Bytes {
    EncodeAll(Records(seg))
  }

  ghost predicate SegOk(seg: Segment, fid: nat) {
    forall n :: 0 <= n < |seg| ==> EntryOk(seg[n].entry) && seg[n].pst == Pst(fid, Offset(Records(seg), n))
  }

  ghost predicate SegmentsOk(segs: seq<Segment>) {
    forall f :: 0 <= f < |segs| ==> SegOk(segs[f], f)
  }

  // Files 0, 1, 2, ... of the directory, and what they hold.
  ghost predicate DiskOk(disk: seq<Bytes>, segs: seq<Segment>) {
    && |disk| == |segs|
    && forall f :: 0 <= f < |segs| ==> SegOk(segs[f], f) && disk[f] == SegBytes(segs[f])
  }

  // All entries in scanning order.
  function Flatten(segs: seq<Segment>): seq<Placed> {
    if segs == [] then [] else Flatten(segs[..|segs| - 1]) + segs[|segs| - 1]
  }

  predicate NoEmptyFile(disk: seq<Bytes>) {
    forall f :: 0 <= f < |disk| ==> disk[f] != []
  }

  lemma RecordsStorable(seg: Segment, fid: nat)
    requires SegOk(seg, fid)
    ensures AllStorable(Records(seg))
  {
  }

  lemma EmptySegment(seg: Segment, fid: nat)
    requires SegOk(seg, fid)
    ensures SegBytes(seg) == [] <==> seg == []
  {
    RecordsStorable(seg, fid);
    ReadBoundary(Records(seg), 0);
  }

  /* ---- appending ---- */

  function Next(segs: seq<Segment>, e: Entry): Placed
    requires segs != []
  {
    Placed(Pst(|segs| - 1, |SegBytes(segs[|segs| - 1])|), e)
  }

  function Appended(segs: seq<Segment>, e: Entry): seq<Segment>
    requires segs != []
  {
    segs[|segs| - 1 := segs[|segs| - 1] + [Next(segs, e)]]
  }

  lemma SegmentAppend(seg: Segment, fid: nat, e: Entry)
    requires SegOk(seg, fid) && EntryOk(e)
    ensures var longer := seg + [Placed(Pst(fid, |SegBytes(seg)|), e)];
            SegOk(longer, fid) && SegBytes(longer) == SegBytes(seg) + Encode(ToRecord(e))
  {
    hide Encode, Concat, ToRecord, Storable;
    var longer := seg + [Placed(Pst(fid, |SegBytes(seg)|), e)];
    assert Records(longer) == Records(seg) + [ToRecord(e)];
    EncodeAllAppend(Records(seg), ToRecord(e));
  }

  lemma SegmentsAppend(segs: seq<Segment>, e: Entry)
    requires SegmentsOk(segs) && segs != [] && EntryOk(e)
    ensures SegmentsOk(Appended(segs, e))
  {
    hide SegBytes, EntryOk;
    SegmentAppend(segs[|segs| - 1], |segs| - 1, e);
  }

  lemma FlattenAppend(segs: seq<Segment>, e: Entry)
    requires segs != []
    ensures Flatten(Appended(segs, e)) == Flatten(segs) + [Next(segs, e)]
  {
    var n := |segs| - 1;
    assert Appended(segs, e)[..n] == segs[..n];
  }

  lemma FlattenNewFile(segs: seq<Segment>)
    ensures Flatten(segs + [[]]) == Flatten(segs)
  {
    assert (segs + [[]])[..|segs|] == segs;
  }

  lemma DiskAppend(disk: seq<Bytes>, segs: seq<Segment>, e: Entry)
    requires DiskOk(disk, segs) && segs != [] && EntryOk(e)
    ensures var n := |segs| - 1;
            DiskOk(disk[n := disk[n] + Encode(ToRecord(e))], Appended(segs, e))
  {
    hide SegBytes, Encode, ToRecord;
    var n := |segs| - 1;
    SegmentAppend(segs[n], n, e);
  }

  lemma DiskNewFile(disk: seq<Bytes>, segs: seq<Segment>)
    requires DiskOk(disk, segs)
    ensures DiskOk(disk + [[]], segs + [[]])
  {
    assert SegBytes([]) == [] by { EmptySegment([], 0); }
  }

  /* ---- reading ---- */

  // A read at a position returns the entry placed there.
  lemma ReadPlaced(disk: seq<Bytes>, segs: seq<Segment>, f: nat, n: nat)
    requires DiskOk(disk, segs) && f < |segs| && n < |segs[f]|
    ensures segs[f][n].pst.offset <= |disk[f]|
    ensures var r := ReadLogRecord(disk[f], segs[f][n].pst.offset);
            r.Got? && r.record == ToRecord(segs[f][n].entry)
  {
    hide ReadLogRecord, EncodeAll, ToRecord;
    RecordsStorable(segs[f], f);
    ReadBoundary(Records(segs[f]), n);
  }

  lemma {:induction false} FindPlaced(segs: seq<Segment>, p: Placed) returns (f: nat, n: nat)
    requires p in Flatten(segs)
    ensures f < |segs| && n < |segs[f]| && segs[f][n] == p
    decreases |segs|
  {
    var last := |segs| - 1;
    if p in segs[last] {
      f := last;
      n :| 0 <= n < |segs[last]| && segs[last][n] == p;
    } else {
      f, n := FindPlaced(segs[..last], p);
    }
  }

  lemma {:induction false} PlacedInFlatten(segs: seq<Segment>, f: nat, n: nat)
    requires f < |segs| && n < |segs[f]|
    ensures segs[f][n] in Flatten(segs)
    decreases |segs|
  {
    if f < |segs| - 1 { PlacedInFlatten(segs[..|segs| - 1], f, n); }
  }

  // Positions identify entries.
  lemma PositionsAreUnique(disk: seq<Bytes>, segs: seq<Segment>, p: Placed, q: Placed)
    requires DiskOk(disk, segs) && p in Flatten(segs) && q in Flatten(segs) && p.pst == q.pst
    ensures p == q
  {
    hide EncodeAll, ToRecord, Offset, Flatten, EntryOk, Storable;
    var f, n := FindPlaced(segs, p);
    var g, m := FindPlaced(segs, q);
    assert SegOk(segs[f], f) && SegOk(segs[g], g);
    RecordsStorable(segs[f], f);
    if n < m { OffsetsIncrease(Records(segs[f]), n, m); }
    if m < n { OffsetsIncrease(Records(segs[f]), m, n); }
  }
}

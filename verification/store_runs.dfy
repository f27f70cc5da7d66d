// Every run of the store, with a crash possible between any two appends.

module StoreRuns {
  import opened Coding
  import opened LogRecords
  import opened Replay
  import opened Disk
  import opened Db

  // A commit in progress holds the database lock.
  datatype Commit = Idle | Writing(ws: seq<Write>, done: seq<Placed>)

  datatype Memory = Closed | Open(live: map<Bytes, Placed>, txn: nat, commit: Commit)

  // `committed` is the map the user's operations have built so far: it
  // changes with a put, a delete, and at once with the end of a commit.
  datatype Store = Store(segs: seq<Segment>, mem: Memory, committed: map<Bytes, Bytes>)

  datatype Step =
    | NewFile
    | PutStep(key: Bytes, value: Bytes)
    | DeleteStep(key: Bytes)
    | Begin(ws: seq<Write>)
    | AppendNext
    | Finish
    | Crash
    | Reopen

  ghost predicate Storing(s: Store, e: Entry) {
    s.segs != [] && EntryOk(e)
  }

  // What the operations require before each append. Files may be rotated at
  // any time, which covers every size limit.
  ghost predicate Enabled(s: Store, step: Step) {
    match step
    case NewFile => s.mem.Open?
    case PutStep(key, value) => s.mem.Open? && s.mem.commit.Idle? && Storing(s, Entry(key, NO_TXN, value, NORMAL))
    case DeleteStep(key) =>
      s.mem.Open? && s.mem.commit.Idle? && key in s.mem.live && Storing(s, Entry(key, NO_TXN, [], DELETED))
    case Begin(ws) =>
      && s.mem.Open? && s.mem.commit.Idle? && s.mem.txn + 1 < TWO28
      && ws != [] && WritesOk(ws) && TombstonesIndexed(s.mem.live.Keys, ws)
      && forall i :: 0 <= i < |ws| ==> EntryOk(BatchEntry(ws[i], s.mem.txn + 1))
    case AppendNext =>
      s.mem.Open? && s.mem.commit.Writing? && |s.mem.commit.done| < |s.mem.commit.ws| && s.segs != []
    case Finish =>
      && s.mem.Open? && s.mem.commit.Writing? && |s.mem.commit.done| == |s.mem.commit.ws|
      && Storing(s, FinishEntry(s.mem.txn))
    case Crash => s.mem.Open?
    case Reopen => s.mem.Closed? && NoEmptySegment(s.segs) && ReplayLog(Flatten(s.segs)).Running?
  }

  ghost function Next(s: Store, step: Step): Store
    requires Enabled(s, step)
  {
    match step
    case NewFile => s.(segs := s.segs + [[]])
    case PutStep(key, value) =>
      var e := Entry(key, NO_TXN, value, NORMAL);
      Store(Appended(s.segs, e), s.mem.(live := s.mem.live[key := Disk.Next(s.segs, e)]), s.committed[key := value])
    case DeleteStep(key) =>
      var e := Entry(key, NO_TXN, [], DELETED);
      Store(Appended(s.segs, e), s.mem.(live := s.mem.live - {key}), s.committed - {key})
    case Begin(ws) => s.(mem := s.mem.(txn := s.mem.txn + 1, commit := Writing(ws, [])))
    case AppendNext =>
      var c := s.mem.commit;
      var e := BatchEntry(c.ws[|c.done|], s.mem.txn);
      s.(segs := Appended(s.segs, e), mem := s.mem.(commit := c.(done := c.done + [Disk.Next(s.segs, e)])))
    case Finish =>
      var c := s.mem.commit;
      var live := match UpdateAll(s.mem.live, c.done)
                  case Updated(l) => l
                  case Missing => s.mem.live;
      Store(Appended(s.segs, FinishEntry(s.mem.txn)), s.mem.(live := live, commit := Idle), ApplyWrites(s.committed, c.ws))
    case Crash => s.(mem := Closed)
    case Reopen =>
      var st := ReplayLog(Flatten(s.segs)).state;
      s.(mem := Open(st.live, st.maxTxn, Idle))
  }

  /* ---- AppendLogRecord in these steps ---- */

  ghost function Rotations(s: Store, k: nat): (t: Store)
    requires s.mem.Open?
    ensures t.mem == s.mem && t.committed == s.committed
  {
    if k == 0 then s else Next(Rotations(s, k - 1), NewFile)
  }

  // The record is not larger than a whole file.
  predicate Fitting(e: Entry, limit: nat) {
    |Encode(ToRecord(e))| <= limit
  }

  // How many files AppendLogRecord opens before it writes.
  function NewFiles(segs: seq<Segment>, e: Entry, limit: nat): nat {
    |Room(segs, e, limit)| - |segs|
  }

  // Whatever the size limit, a write of the database is at most two rotations
  // and one append of this transition system; one rotation if the record fits.
  lemma AppendIsSteps(s: Store, e: Entry, limit: nat)
    requires s.mem.Open?
    ensures Fitting(e, limit) ==> NewFiles(s.segs, e, limit) <= 1
    ensures var k := NewFiles(s.segs, e, limit);
            var t := Rotations(s, k);
            && k <= 2 && t == s.(segs := Room(s.segs, e, limit)) && HasRoom(t.segs, e, limit)
            && Appended(t.segs, e) == Stored(s.segs, e, limit)
            && Disk.Next(t.segs, e) == PlaceOf(s.segs, e, limit)
  {
    hide Encode, ToRecord, Appended, Disk.Next, Rotations;
    RoomCases(s.segs, e, limit);
    RoomIsRoom(s.segs, e, limit);
    Rotated(s);
  }

  lemma RoomCases(segs: seq<Segment>, e: Entry, limit: nat)
    ensures var room := Room(segs, e, limit);
            && (room == segs || room == segs + [[]] || (segs == [] && room == segs + [[]] + [[]]))
            && (Fitting(e, limit) ==> |room| <= |segs| + 1)
  {
    hide Encode, ToRecord;
    assert SegBytes([]) == [];
  }

  lemma Rotated(s: Store)
    requires s.mem.Open?
    ensures Rotations(s, 0) == s && Rotations(s, 1) == s.(segs := s.segs + [[]])
    ensures Rotations(s, 2) == s.(segs := s.segs + [[]] + [[]])
  {
    assert Rotations(s, 1) == Next(Rotations(s, 0), NewFile);
    assert Rotations(s, 2) == Next(Rotations(s, 1), NewFile);
  }

  /* ---- the invariant ---- */

  ghost predicate CommitOk(st: Replayed, txn: nat, c: Commit) {
    match c
    case Idle => txn == st.maxTxn
    case Writing(ws, done) =>
      && 0 < txn < TWO28 && st.maxTxn <= txn && (st.maxTxn == txn ==> done != [])
      && PendingOf(st, txn) == done
      && WritesOk(ws) && ws != [] && TombstonesIndexed(st.live.Keys, ws)
      && (forall i :: 0 <= i < |ws| ==> EntryOk(BatchEntry(ws[i], txn)))
      && |done| <= |ws| && Carries(done, ws[..|done|], txn)
  }

  // In every state, also in the middle of a commit, the log on disk replays to
  // exactly the committed map.
  ghost predicate Inv(s: Store) {
    && SegmentsOk(s.segs)
    && ReplayLog(Flatten(s.segs)).Running?
    && var st := ReplayLog(Flatten(s.segs)).state;
       && Values(st.live) == s.committed
       && (s.mem.Open? ==> s.mem.live == st.live && CommitOk(st, s.mem.txn, s.mem.commit))
  }

  lemma NewFileKeeps(s: Store)
    requires Inv(s) && Enabled(s, NewFile)
    ensures Inv(Next(s, NewFile))
  {
    hide ReplayLog, Flatten;
    FlattenNewFile(s.segs);
  }

  lemma PutKeeps(s: Store, key: Bytes, value: Bytes)
    requires Inv(s) && Enabled(s, PutStep(key, value))
    ensures Inv(Next(s, PutStep(key, value)))
  {
    hide ReplayLog, Flatten, EntryOk, Values, SegmentsOk;
    var e := Entry(key, NO_TXN, value, NORMAL);
    SegmentsAppend(s.segs, e);
    FlattenAppend(s.segs, e);
    ReplayPut(Flatten(s.segs), Disk.Next(s.segs, e));
  }

  lemma DeleteKeeps(s: Store, key: Bytes)
    requires Inv(s) && Enabled(s, DeleteStep(key))
    ensures Inv(Next(s, DeleteStep(key)))
  {
    hide ReplayLog, Flatten, EntryOk, Values, SegmentsOk;
    var e := Entry(key, NO_TXN, [], DELETED);
    SegmentsAppend(s.segs, e);
    FlattenAppend(s.segs, e);
    ReplayDelete(Flatten(s.segs), Disk.Next(s.segs, e));
  }

  lemma BeginKeeps(s: Store, ws: seq<Write>)
    requires Inv(s) && Enabled(s, Begin(ws))
    ensures Inv(Next(s, Begin(ws)))
  {
    hide ReplayLog, Flatten, EntryOk, Values, SegmentsOk;
    ReplayFacts(Flatten(s.segs));
  }

  lemma AppendNextKeeps(s: Store)
    requires Inv(s) && Enabled(s, AppendNext)
    ensures Inv(Next(s, AppendNext))
  {
    hide ReplayLog, Flatten, EntryOk, Values, SegmentsOk, UpdateIndex;
    var c := s.mem.commit;
    var n := |c.done|;
    var e := BatchEntry(c.ws[n], s.mem.txn);
    var p := Disk.Next(s.segs, e);
    SegmentsAppend(s.segs, e);
    FlattenAppend(s.segs, e);
    ReplayAppend(Flatten(s.segs), p);
    assert c.ws[n].kind != TXN_FINISHED;
    assert Carries(c.done + [p], c.ws[..n + 1], s.mem.txn);
  }

  lemma FinishKeeps(s: Store)
    requires Inv(s) && Enabled(s, Finish)
    ensures Inv(Next(s, Finish))
  {
    hide ReplayLog, Flatten, EntryOk, Values, SegmentsOk, UpdateIndex, UpdateAll, ApplyWrites;
    var c := s.mem.commit;
    var f := FinishEntry(s.mem.txn);
    SegmentsAppend(s.segs, f);
    FlattenAppend(s.segs, f);
    ReplayAppend(Flatten(s.segs), Disk.Next(s.segs, f));
    assert c.ws[..|c.ws|] == c.ws;
    UpdateAllWrites(s.mem.live, c.done, c.ws, s.mem.txn);
  }

  lemma OpenCloseKeeps(s: Store, step: Step)
    requires Inv(s) && Enabled(s, step) && (step.Crash? || step.Reopen?)
    ensures Inv(Next(s, step))
  {
    hide ReplayLog, Flatten, Values, SegmentsOk;
  }

  lemma StepKeeps(s: Store, step: Step)
    requires Inv(s) && Enabled(s, step)
    ensures Inv(Next(s, step))
  {
    hide Inv, Next, Enabled;
    match step
    case NewFile => NewFileKeeps(s);
    case PutStep(key, value) => PutKeeps(s, key, value);
    case DeleteStep(key) => DeleteKeeps(s, key);
    case Begin(ws) => BeginKeeps(s, ws);
    case AppendNext => AppendNextKeeps(s);
    case Finish => FinishKeeps(s);
    case _ => OpenCloseKeeps(s, step);
  }

  /* ---- runs ---- */

  datatype Run = Run(states: seq<Store>, steps: seq<Step>)

  ghost predicate StepAt(r: Run, k: int) {
    && 0 <= k < |r.steps| && k + 1 < |r.states|
    && Enabled(r.states[k], r.steps[k]) && r.states[k + 1] == Next(r.states[k], r.steps[k])
  }

  const START := Store([], Open(map[], 0, Idle), map[])

  ghost predicate IsRun(r: Run) {
    && |r.states| == |r.steps| + 1
    && r.states[0] == START
    && forall k {:trigger StepAt(r, k)} :: 0 <= k < |r.steps| ==> StepAt(r, k)
  }

  lemma {:induction false} RunsKeepInv(r: Run, k: nat)
    requires IsRun(r) && k < |r.states|
    ensures Inv(r.states[k])
  {
    if k == 0 {
      StartInv();
    } else {
      hide Inv, Next, Enabled;
      RunsKeepInv(r, k - 1);
      assert StepAt(r, k - 1);
      StepKeeps(r.states[k - 1], r.steps[k - 1]);
    }
  }

  lemma StartInv()
    ensures Inv(START)
  {
  }

  // At any moment of any run, a crash loses nothing committed and shows
  // nothing uncommitted: the scan succeeds exactly when no file is empty, and
  // then yields the committed map and the live positions.
  lemma CrashRecovers(r: Run, k: nat, disk: seq<Bytes>)
    requires IsRun(r) && k < |r.states| && DiskOk(disk, r.states[k].segs)
    ensures ReplayLog(Flatten(r.states[k].segs)).Running?
    ensures Values(ReplayLog(Flatten(r.states[k].segs)).state.live) == r.states[k].committed
    ensures NoEmptyFile(disk) <==> NoEmptySegment(r.states[k].segs)
    ensures r.states[k].mem.Open? ==> ReplayLog(Flatten(r.states[k].segs)).state.live == r.states[k].mem.live
  {
    RunsKeepInv(r, k);
    var segs := r.states[k].segs;
    forall f | 0 <= f < |segs|
      ensures disk[f] == [] <==> segs[f] == []
    {
      EmptySegment(segs[f], f);
    }
  }

  /* ---- runs in which every record fits ---- */

  predicate IsWrite(step: Step) {
    step.PutStep? || step.DeleteStep? || step.AppendNext? || step.Finish?
  }

  ghost function EntryOf(s: Store, step: Step): Entry
    requires Enabled(s, step) && IsWrite(step)
  {
    match step
    case PutStep(key, value) => Entry(key, NO_TXN, value, NORMAL)
    case DeleteStep(key) => Entry(key, NO_TXN, [], DELETED)
    case AppendNext => BatchEntry(s.mem.commit.ws[|s.mem.commit.done|], s.mem.txn)
    case Finish => FinishEntry(s.mem.txn)
  }

  // A file is opened only for a record that fits a file and not the current
  // one, and that record is written next, unless there is a crash.
  ghost predicate RotatesFor(r: Run, k: nat, e: Entry, limit: nat)
    requires IsRun(r) && k < |r.steps|
  {
    var segs := r.states[k].segs;
    && Fitting(e, limit)
    && (segs == [] || |SegBytes(segs[|segs| - 1])| + |Encode(ToRecord(e))| > limit)
    && (k + 1 == |r.steps| || r.steps[k + 1].Crash? || r.steps[k + 1].NewFile? || IsWrite(r.steps[k + 1]))
  }

  // cause[k] is the record that step k writes or rotates for.
  ghost predicate FittingRun(r: Run, cause: seq<Entry>, limit: nat) {
    && IsRun(r) && |cause| == |r.steps|
    && forall k {:trigger FittingAt(r, cause, limit, k)} :: 0 <= k < |r.steps| ==> FittingAt(r, cause, limit, k)
  }

  ghost predicate FittingAt(r: Run, cause: seq<Entry>, limit: nat, k: nat)
    requires IsRun(r) && |cause| == |r.steps|
  {
    k < |r.steps| && (r.steps[k].NewFile? ==>
      RotatesFor(r, k, cause[k], limit) && (k + 1 < |r.steps| && r.steps[k + 1].NewFile? ==> cause[k + 1] == cause[k]))
  }

  // A file has just been opened, and the record it is for is not written yet.
  predicate Rotating(r: Run, k: nat)
    requires k <= |r.steps|
  {
    k > 0 && (r.steps[k - 1].NewFile? || (r.steps[k - 1].Crash? && Rotating(r, k - 1)))
  }

  // What a step does to the files.
  lemma StepSegs(s: Store, step: Step)
    requires Enabled(s, step)
    ensures var t := Next(s, step);
            && (s.mem.Closed? ==> step.Reopen?)
            && (step.NewFile? ==> t.segs == s.segs + [[]])
            && (step.Crash? ==> t.mem.Closed? && t.segs == s.segs)
            && (step.Reopen? ==> NoEmptySegment(s.segs) && t.segs == s.segs)
            && (step.Begin? ==> t.segs == s.segs)
            && (IsWrite(step) ==> s.segs != [] && t.segs == Appended(s.segs, EntryOf(s, step)))
  {
    hide Appended, EntryOk, ReplayLog, Flatten;
  }

  // A crash closes the store, and two rotations never follow each other.
  lemma OneRotation(r: Run, cause: seq<Entry>, limit: nat, k: nat)
    requires FittingRun(r, cause, limit) && k < |r.steps| && !r.steps[k].Crash? && !r.steps[k].Reopen?
    ensures !(IsWrite(r.steps[k])) ==> !Rotating(r, k)
    ensures Rotating(r, k) ==> k > 0 && r.steps[k - 1].NewFile?
  {
    assert SegBytes([]) == [];
    hide Next, Enabled, SegBytes, Encode, ToRecord;
    assert StepAt(r, k) && FittingAt(r, cause, limit, k);
    StepSegs(r.states[k], r.steps[k]);
    if k > 0 {
      assert StepAt(r, k - 1) && FittingAt(r, cause, limit, k - 1);
      StepSegs(r.states[k - 1], r.steps[k - 1]);
    }
  }

  lemma AppendedNotEmpty(segs: seq<Segment>, e: Entry)
    requires segs != [] && NoEmptySegment(segs[..|segs| - 1])
    ensures NoEmptySegment(Appended(segs, e))
  {
    var out := Appended(segs, e);
    forall f | 0 <= f < |out| ensures out[f] != [] {
      if f < |segs| - 1 { assert out[f] == segs[..|segs| - 1][f]; }
    }
  }

  // No file is empty, except between the opening of a file and the write of
  // the record it was opened for.
  lemma {:induction false} NoFileStaysEmpty(r: Run, cause: seq<Entry>, limit: nat, k: nat)
    requires FittingRun(r, cause, limit) && k < |r.states|
    ensures NoEmptySegment(r.states[k].segs) <==> !Rotating(r, k)
    decreases k
  {
    hide Next, Enabled, Appended;
    if k > 0 {
      var s, step := r.states[k - 1], r.steps[k - 1];
      assert StepAt(r, k - 1);
      StepSegs(s, step);
      NoFileStaysEmpty(r, cause, limit, k - 1);
      if step.NewFile? {
        assert r.states[k].segs[|s.segs|] == [];
      } else if step.Begin? {
        OneRotation(r, cause, limit, k - 1);
      } else if IsWrite(step) {
        WriteAfterRotation(r, cause, limit, k - 1);
        AppendedNotEmpty(s.segs, EntryOf(s, step));
      }
    }
  }

  lemma {:induction false} WriteAfterRotation(r: Run, cause: seq<Entry>, limit: nat, k: nat)
    requires FittingRun(r, cause, limit) && k < |r.steps| && IsWrite(r.steps[k])
    requires NoEmptySegment(r.states[k].segs) <==> !Rotating(r, k)
    ensures r.states[k].segs != [] && NoEmptySegment(r.states[k].segs[..|r.states[k].segs| - 1])
    decreases k
  {
    hide Next, Enabled, Appended;
    assert StepAt(r, k);
    StepSegs(r.states[k], r.steps[k]);
    var segs := r.states[k].segs;
    if Rotating(r, k) {
      OneRotation(r, cause, limit, k);
      assert StepAt(r, k - 1);
      StepSegs(r.states[k - 1], r.steps[k - 1]);
      OneRotation(r, cause, limit, k - 1);
      NoFileStaysEmpty(r, cause, limit, k - 1);
      assert segs[..|segs| - 1] == r.states[k - 1].segs;
    } else {
      assert forall f :: 0 <= f < |segs| - 1 ==> segs[..|segs| - 1][f] == segs[f];
    }
  }

  // So recovery never fails: when every record fits a file, a crash at any
  // moment but inside a rotation leaves files that LoadIndex loads, to exactly
  // the committed map.
  lemma RecoveryNeverFails(r: Run, cause: seq<Entry>, limit: nat, k: nat, disk: seq<Bytes>)
    requires FittingRun(r, cause, limit) && k < |r.states| && DiskOk(disk, r.states[k].segs)
    ensures NoEmptyFile(disk) && ReplayLog(Flatten(r.states[k].segs)).Running? <==> !Rotating(r, k)
    ensures ReplayLog(Flatten(r.states[k].segs)).Running?
    ensures Values(ReplayLog(Flatten(r.states[k].segs)).state.live) == r.states[k].committed
  {
    hide IsRun, ReplayLog, Flatten, Values;
    CrashRecovers(r, k, disk);
    NoFileStaysEmpty(r, cause, limit, k);
  }

  /* ---- sizes ---- */

  // Every write finds room, as AppendIsSteps says it does.
  ghost predicate RoomAt(r: Run, limit: nat, k: nat)
    requires IsRun(r)
  {
    k < |r.steps| && StepAt(r, k) &&
    (IsWrite(r.steps[k]) ==> HasRoom(r.states[k].segs, EntryOf(r.states[k], r.steps[k]), limit))
  }

  ghost predicate LimitedRun(r: Run, limit: nat) {
    && IsRun(r)
    && forall k {:trigger RoomAt(r, limit, k)} :: 0 <= k < |r.steps| ==> RoomAt(r, limit, k)
  }

  // Then no file ever grows beyond the limit, but one with a single record.
  lemma {:induction false} FilesStayLimited(r: Run, limit: nat, k: nat)
    requires LimitedRun(r, limit) && k < |r.states|
    ensures Limited(r.states[k].segs, limit)
    decreases k
  {
    hide Next, Enabled, Appended, Limited, HasRoom, Inv;
    if k == 0 {
      OneMoreFile([], limit);
    } else {
      var s, step := r.states[k - 1], r.steps[k - 1];
      FilesStayLimited(r, limit, k - 1);
      assert RoomAt(r, limit, k - 1);
      StepSegs(s, step);
      RunsKeepInv(r, k - 1);
      assert SegmentsOk(s.segs) by { InvSegments(s); }
      if step.NewFile? {
        OneMoreFile(s.segs, limit);
      } else if IsWrite(step) {
        EntryIsOk(s, step);
        AppendedLimited(s.segs, EntryOf(s, step), limit);
      }
    }
  }

  lemma InvSegments(s: Store)
    requires Inv(s)
    ensures SegmentsOk(s.segs)
  {
  }

  lemma EntryIsOk(s: Store, step: Step)
    requires Inv(s) && Enabled(s, step) && IsWrite(step)
    ensures EntryOk(EntryOf(s, step))
  {
    hide EntryOk, ReplayLog, Flatten, SegmentsOk, Values;
  }

  // When every record fits a file, no file is ever larger than the limit.
  lemma {:induction false} NoFileIsTooLarge(r: Run, limit: nat, k: nat, disk: seq<Bytes>, f: nat)
    requires LimitedRun(r, limit) && k < |r.states| && DiskOk(disk, r.states[k].segs) && f < |disk|
    requires forall p :: p in Flatten(r.states[k].segs) ==> Fitting(p.entry, limit)
    ensures |disk[f]| <= limit
  {
    hide LimitedRun, Fitting;
    FilesStayLimited(r, limit, k);
    var seg := r.states[k].segs[f];
    if |seg| == 1 {
      PlacedInFlatten(r.states[k].segs, f, 0);
      SingleRecord(seg[0]);
      assert seg == [seg[0]] && Fitting(seg[0].entry, limit);
    }
  }

  lemma SingleRecord(p: Placed)
    ensures forall limit :: Fitting(p.entry, limit) <==> |SegBytes([p])| <= limit
  {
    hide Encode, ToRecord;
    assert Frames(Records([p])) == [Encode(ToRecord(p.entry))];
    ConcatOne(Encode(ToRecord(p.entry)));
  }

  // Recovered ids dominate every id on disk, so a crashed batch is never
  // finished by a later one: a batch that begins uses an id not on disk.
  lemma FreshIds(r: Run, k: nat, p: Placed)
    requires IsRun(r) && k < |r.states| && p in Flatten(r.states[k].segs) && r.states[k].mem.Open?
    requires r.states[k].mem.commit.Idle?
    ensures p.entry.txn <= r.states[k].mem.txn
  {
    RunsKeepInv(r, k);
    ReplayFacts(Flatten(r.states[k].segs));
  }
}

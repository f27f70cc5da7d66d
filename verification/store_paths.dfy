// The operations of the database, for any size limit, as steps of the store;
// and a crash between any two of them.

module StorePaths {
  import opened Coding
  import opened LogRecords
  import opened Replay
  import opened Disk
  import opened Db
  import opened StoreRuns

  /* ---- a way on from a state ---- */

  ghost predicate IsPath(r: Run) {
    |r.states| == |r.steps| + 1 && forall k {:trigger StepAt(r, k)} :: 0 <= k < |r.steps| ==> StepAt(r, k)
  }

  ghost predicate PathFrom(r: Run, s: Store) {
    r.states != [] && r.states[0] == s && IsPath(r)
  }

  function Last(r: Run): Store
    requires r.states != []
  {
    r.states[|r.states| - 1]
  }

  function Then(a: Run, b: Run): Run
    requires b.states != []
  {
    Run(a.states + b.states[1..], a.steps + b.steps)
  }

  lemma ThenIsPath(a: Run, b: Run)
    requires a.states != [] && IsPath(a) && PathFrom(b, Last(a))
    ensures PathFrom(Then(a, b), a.states[0]) && Last(Then(a, b)) == Last(b)
    ensures forall k :: |a.steps| <= k < |Then(a, b).states| ==> Then(a, b).states[k] == b.states[k - |a.steps|]
    ensures forall k :: 0 <= k <= |a.steps| ==> Then(a, b).states[k] == a.states[k]
  {
    hide Enabled, StoreRuns.Next;
    var r := Then(a, b);
    forall k | 0 <= k < |r.steps| ensures StepAt(r, k) {
      if k < |a.steps| { assert StepAt(a, k); } else { assert StepAt(b, k - |a.steps|); }
    }
  }

  ghost function One(s: Store, step: Step): Run
    requires Enabled(s, step)
  {
    Run([s, StoreRuns.Next(s, step)], [step])
  }

  lemma OneIsPath(s: Store, step: Step)
    requires Enabled(s, step)
    ensures PathFrom(One(s, step), s) && Last(One(s, step)) == StoreRuns.Next(s, step)
  {
    hide Enabled, StoreRuns.Next;
    var r := One(s, step);
    assert StepAt(r, 0);
  }

  // One step more.
  lemma Longer(front: Run, step: Step) returns (r: Run)
    requires front.states != [] && IsPath(front) && Enabled(Last(front), step)
    ensures PathFrom(r, front.states[0]) && Last(r) == StoreRuns.Next(Last(front), step) && |r.steps| == |front.steps| + 1
    ensures |r.states| == |front.states| + 1
    ensures forall k :: 0 <= k < |r.steps| ==> r.states[k] == front.states[k]
  {
    hide Enabled, StoreRuns.Next;
    var s := Last(front);
    OneIsPath(s, step);
    ThenIsPath(front, One(s, step));
    r := Then(front, One(s, step));
  }

  lemma Standing(s: Store)
    ensures PathFrom(Run([s], []), s)
  {
  }

  /* ---- one write ---- */

  // The write is due: it lacks at most a file to go to.
  ghost predicate Due(s: Store, step: Step) {
    IsWrite(step) && Enabled(s.(segs := [[]]), step)
  }

  ghost function Written(s: Store, step: Step): Entry
    requires Due(s, step)
  {
    EntryOf(s.(segs := [[]]), step)
  }

  lemma {:induction false} RotationsArePath(s: Store, k: nat) returns (r: Run)
    requires s.mem.Open?
    ensures PathFrom(r, s) && Last(r) == Rotations(s, k) && |r.steps| == k && |r.states| == k + 1
    ensures forall i :: 0 <= i < |r.states| ==> r.states[i].committed == s.committed && r.states[i].mem == s.mem
  {
    if k == 0 {
      Standing(s);
      r := Run([s], []);
    } else {
      hide IsPath;
      var front := RotationsArePath(s, k - 1);
      r := Longer(front, NewFile);
    }
  }

  lemma DueWithRoom(s: Store, step: Step, segs: seq<Segment>)
    requires Due(s, step) && segs != []
    ensures Enabled(s.(segs := segs), step) && EntryOf(s.(segs := segs), step) == Written(s, step)
    ensures StoreRuns.Next(s.(segs := segs), step).segs == Appended(segs, Written(s, step))
  {
    hide EntryOk, Appended;
  }

  lemma RoomIsThere(segs: seq<Segment>, e: Entry, limit: nat)
    ensures Room(segs, e, limit) != []
  {
  }

  // A put, a delete or one record of a commit: the files that the size limit
  // asks for, then the record.
  lemma WriteIsSteps(s: Store, step: Step, limit: nat) returns (r: Run)
    requires s.mem.Open? && Due(s, step)
    ensures PathFrom(r, s) && 1 <= |r.steps| <= 3
    ensures var room := s.(segs := Room(s.segs, Written(s, step), limit));
            Enabled(room, step) && Last(r) == StoreRuns.Next(room, step)
    ensures Last(r).segs == Stored(s.segs, Written(s, step), limit)
    ensures |r.states| == |r.steps| + 1
    ensures forall i :: 0 <= i < |r.steps| ==> r.states[i].committed == s.committed && r.states[i].mem == s.mem
  {
    hide IsPath, Enabled, StoreRuns.Next, Due, Room, Appended, Rotations, Written, Stored, Fitting, HasRoom, PlaceOf;
    hide SegBytes, Encode, ToRecord, Disk.Next;
    var e := Written(s, step);
    AppendIsSteps(s, e, limit);
    RoomIsThere(s.segs, e, limit);
    DueWithRoom(s, step, Room(s.segs, e, limit));
    var front := RotationsArePath(s, NewFiles(s.segs, e, limit));
    r := Longer(front, step);
  }

  /* ---- a commit ---- */

  // A commit of ws is under way, which began in `before`: its records so far
  // are the end of the log, and nothing of it is committed.
  ghost predicate Committing(s: Store, ws: seq<Write>, before: Store) {
    && Inv(s) && s.mem.Open? && before.mem.Open?
    && s.mem.commit.Writing? && s.mem.commit.ws == ws && |s.mem.commit.done| <= |ws|
    && s.mem.txn == before.mem.txn + 1 && s.committed == before.committed
    && Flatten(s.segs) == Flatten(before.segs) + s.mem.commit.done
  }

  lemma BeginCommits(s: Store, ws: seq<Write>)
    requires Inv(s) && Enabled(s, Begin(ws))
    ensures var t := StoreRuns.Next(s, Begin(ws)); Committing(t, ws, s) && t.mem.commit.done == []
  {
    BeginKeeps(s, ws);
    assert Flatten(s.segs) + [] == Flatten(s.segs);
    hide Inv, Flatten, EntryOk;
  }

  // In the middle of a commit the next record is due.
  lemma NextIsDue(s: Store, ws: seq<Write>, before: Store)
    requires Committing(s, ws, before)
    ensures Due(s, if |s.mem.commit.done| < |ws| then AppendNext else Finish)
  {
    hide EntryOk, ReplayLog, Flatten, Values, SegmentsOk;
    assert CommitOk(ReplayLog(Flatten(s.segs)).state, s.mem.txn, s.mem.commit);
    FinishIsOk(s.mem.txn);
  }

  lemma FinishIsOk(txn: nat)
    requires txn < TWO28
    ensures EntryOk(FinishEntry(txn))
  {
    FitsIsEnough(FinishEntry(txn));
  }

  lemma {:induction false} PathKeepsInv(r: Run, s: Store, k: nat)
    requires PathFrom(r, s) && Inv(s) && k < |r.states|
    ensures Inv(r.states[k])
  {
    hide Inv, StoreRuns.Next, Enabled;
    if k > 0 {
      PathKeepsInv(r, s, k - 1);
      assert StepAt(r, k - 1);
      StepKeeps(r.states[k - 1], r.steps[k - 1]);
    }
  }

  // What AppendNext and Finish do when there is room.
  lemma OneMoreRecord(s: Store, ws: seq<Write>, before: Store, limit: nat, t: Store)
    requires Committing(s, ws, before) && |s.mem.commit.done| < |ws| && Due(s, AppendNext) && Inv(t)
    requires var room := s.(segs := Room(s.segs, Written(s, AppendNext), limit));
             Enabled(room, AppendNext) && t == StoreRuns.Next(room, AppendNext)
    ensures Committing(t, ws, before) && |t.mem.commit.done| == |s.mem.commit.done| + 1
  {
    hide Room, Flatten, Inv, EntryOk, Encode, ToRecord, SegBytes;
    var e := Written(s, AppendNext);
    StoredFlat(s.segs, e, limit);
    Behind(Flatten(before.segs), s.mem.commit.done, PlaceOf(s.segs, e, limit));
  }

  lemma Behind(a: seq<Placed>, b: seq<Placed>, p: Placed)
    ensures a + b + [p] == a + (b + [p])
  {
  }

  // All of the batch is in the log behind what was there, then its finish
  // record; all of it is committed.
  ghost predicate Committed(t: Store, ws: seq<Write>, before: Store, ps: seq<Placed>, f: Placed) {
    && t.mem.Open? && before.mem.Open? && t.mem.commit.Idle? && t.mem.txn == before.mem.txn + 1
    && t.committed == ApplyWrites(before.committed, ws)
    && Carries(ps, ws, t.mem.txn) && f.entry == FinishEntry(t.mem.txn)
    && Flatten(t.segs) == Flatten(before.segs) + ps + [f]
  }

  lemma LastRecord(s: Store, ws: seq<Write>, before: Store, limit: nat, t: Store) returns (f: Placed)
    requires Committing(s, ws, before) && |s.mem.commit.done| == |ws| && Due(s, Finish)
    requires var room := s.(segs := Room(s.segs, Written(s, Finish), limit));
             Enabled(room, Finish) && t == StoreRuns.Next(room, Finish)
    ensures Committed(t, ws, before, s.mem.commit.done, f)
  {
    assert Carries(s.mem.commit.done, ws, s.mem.txn) by { AllCarried(s); }
    hide Room, Flatten, Inv, EntryOk, Encode, ToRecord, SegBytes, UpdateAll, ApplyWrites, Carries;
    var e := Written(s, Finish);
    f := PlaceOf(s.segs, e, limit);
    StoredFlat(s.segs, e, limit);
  }

  lemma AllCarried(s: Store)
    requires Inv(s) && s.mem.Open? && s.mem.commit.Writing? && |s.mem.commit.done| == |s.mem.commit.ws|
    ensures Carries(s.mem.commit.done, s.mem.commit.ws, s.mem.txn)
  {
    hide ReplayLog, Flatten, SegmentsOk, EntryOk, Values;
    assert CommitOk(ReplayLog(Flatten(s.segs)).state, s.mem.txn, s.mem.commit);
    assert s.mem.commit.ws[..|s.mem.commit.ws|] == s.mem.commit.ws;
  }

  // Until the last step of a path nothing is committed, and the store is open:
  // it may crash.
  ghost predicate Uncommitted(r: Run, committed: map<Bytes, Bytes>) {
    forall k :: 0 <= k < |r.steps| && k < |r.states| ==> r.states[k].mem.Open? && r.states[k].committed == committed
  }

  lemma UncommittedThen(a: Run, b: Run, committed: map<Bytes, Bytes>)
    requires a.states != [] && IsPath(a) && PathFrom(b, Last(a)) && Uncommitted(a, committed) && Uncommitted(b, committed)
    ensures Uncommitted(Then(a, b), committed)
  {
    hide StepAt;
    ThenIsPath(a, b);
  }

  // The steps of one more record of the batch.
  lemma RecordSteps(s: Store, ws: seq<Write>, before: Store, limit: nat) returns (r: Run)
    requires Committing(s, ws, before) && |s.mem.commit.done| < |ws|
    ensures PathFrom(r, s) && Uncommitted(r, before.committed) && r.steps != []
    ensures Committing(Last(r), ws, before) && |Last(r).mem.commit.done| == |s.mem.commit.done| + 1
  {
    hide IsPath, Committing, Due, Inv, Enabled, StoreRuns.Next, Room, Stored, Written;
    NextIsDue(s, ws, before);
    CommittingIsOpen(s, ws, before);
    r := WriteIsSteps(s, AppendNext, limit);
    PathKeepsInv(r, s, |r.states| - 1);
    OneMoreRecord(s, ws, before, limit, Last(r));
  }

  lemma FinishSteps(s: Store, ws: seq<Write>, before: Store, limit: nat) returns (r: Run, f: Placed)
    requires Committing(s, ws, before) && |s.mem.commit.done| == |ws|
    ensures PathFrom(r, s) && Uncommitted(r, before.committed) && r.steps != []
    ensures Committed(Last(r), ws, before, s.mem.commit.done, f)
  {
    hide IsPath, Committing, Committed, Due, Inv, Enabled, StoreRuns.Next, Room, Stored, Written;
    NextIsDue(s, ws, before);
    CommittingIsOpen(s, ws, before);
    r := WriteIsSteps(s, Finish, limit);
    f := LastRecord(s, ws, before, limit, Last(r));
  }

  lemma {:induction false} CommitRest(s: Store, ws: seq<Write>, before: Store, limit: nat)
    returns (r: Run, ps: seq<Placed>, f: Placed)
    requires Committing(s, ws, before)
    ensures PathFrom(r, s) && Uncommitted(r, before.committed) && Committed(Last(r), ws, before, ps, f)
    ensures |r.steps| > |ws| - |s.mem.commit.done|
    decreases |ws| - |s.mem.commit.done|
  {
    CommittingIsOpen(s, ws, before);
    hide IsPath, Committing, Committed, Uncommitted;
    if |s.mem.commit.done| == |ws| {
      ps := s.mem.commit.done;
      r, f := FinishSteps(s, ws, before, limit);
    } else {
      var front := RecordSteps(s, ws, before, limit);
      CommittingIsOpen(Last(front), ws, before);
      r, ps, f := CommitRest(Last(front), ws, before, limit);
      ThenIsPath(front, r);
      UncommittedThen(front, r, before.committed);
      r := Then(front, r);
    }
  }

  lemma CommittingIsOpen(s: Store, ws: seq<Write>, before: Store)
    requires Committing(s, ws, before)
    ensures Inv(s) && s.mem.Open? && s.committed == before.committed
    ensures s.mem.commit.Writing? && |s.mem.commit.done| <= |ws|
  {
  }

  // A commit of the database, whatever the size limit: one id, one record for
  // each write, the finish record.
  lemma CommitIsSteps(s: Store, ws: seq<Write>, limit: nat) returns (r: Run, ps: seq<Placed>, f: Placed)
    requires Inv(s) && Enabled(s, Begin(ws))
    ensures PathFrom(r, s) && Uncommitted(r, s.committed) && Committed(Last(r), ws, s, ps, f)
    ensures |r.steps| > |ws| + 1
  {
    hide IsPath, Committing, Committed, Inv, Enabled, StoreRuns.Next;
    BeginCommits(s, ws);
    var t := StoreRuns.Next(s, Begin(ws));
    var first := One(s, Begin(ws));
    OneIsPath(s, Begin(ws));
    assert Uncommitted(first, s.committed) by { BeginsOpen(s, ws); }
    r, ps, f := CommitRest(t, ws, s, limit);
    ThenIsPath(first, r);
    UncommittedThen(first, r, s.committed);
    r := Then(first, r);
  }

  lemma BeginsOpen(s: Store, ws: seq<Write>)
    requires Enabled(s, Begin(ws))
    ensures s.mem.Open?
  {
    hide EntryOk;
  }

  /* ---- a crash anywhere ---- */

  function Prefix(r: Run, k: nat): Run
    requires k < |r.states| && k <= |r.steps|
  {
    Run(r.states[..k + 1], r.steps[..k])
  }

  lemma PrefixIsPath(r: Run, s: Store, k: nat)
    requires PathFrom(r, s) && k <= |r.steps|
    ensures PathFrom(Prefix(r, k), s) && Last(Prefix(r, k)) == r.states[k]
  {
    hide Enabled, StoreRuns.Next;
    var p := Prefix(r, k);
    forall i | 0 <= i < k ensures StepAt(p, i) { assert StepAt(r, i); }
  }

  lemma RunThenPath(a: Run, b: Run)
    requires IsRun(a) && a.states != [] && PathFrom(b, Last(a))
    ensures Then(a, b).states != [] && IsRun(Then(a, b)) && Last(Then(a, b)) == Last(b)
  {
    hide StepAt;
    ThenIsPath(a, b);
  }

  // Whatever has happened before: a commit can be cut off by a crash after any
  // number of its steps, and what is on disk then replays to exactly what was
  // committed before it, or, after its last step, to all of it.
  lemma CutCommit(r: Run, ws: seq<Write>, limit: nat) returns (path: Run)
    requires IsRun(r) && r.states != [] && Enabled(Last(r), Begin(ws))
    ensures PathFrom(path, Last(r)) && |path.steps| > |ws| + 1
    ensures forall k :: 0 <= k <= |path.steps| ==> CrashedAfter(r, ws, path, k)
  {
    var s := Last(r);
    RunsKeepInv(r, |r.states| - 1);
    var ps, f;
    path, ps, f := CommitIsSteps(s, ws, limit);
    hide IsRun, IsPath, Inv, Enabled, StoreRuns.Next;
    forall k | 0 <= k <= |path.steps| ensures CrashedAfter(r, ws, path, k) { CrashAfter(r, ws, path, k); }
  }

  // The run up to step k of the path, then a crash: what recovery then shows.
  ghost predicate CrashedAfter(r: Run, ws: seq<Write>, path: Run, k: nat)
    requires r.states != []
  {
    exists e :: IsCrashOf(r, path, k, e) && Recovers(e, if k < |path.steps| then Last(r).committed
                                                         else ApplyWrites(Last(r).committed, ws))
  }

  ghost predicate IsCrashOf(r: Run, path: Run, k: nat, e: Run) {
    && IsRun(e) && k < |path.states| && e.states != []
    && r.states <= e.states && r.steps <= e.steps && |e.steps| == |r.steps| + k + 1
    && e.steps[|e.steps| - 1] == Crash && Last(e).segs == path.states[k].segs
  }

  ghost predicate Recovers(e: Run, contents: map<Bytes, Bytes>)
    requires e.states != []
  {
    && ReplayLog(Flatten(Last(e).segs)).Running?
    && Values(ReplayLog(Flatten(Last(e).segs)).state.live) == contents
  }

  lemma CrashAfter(r: Run, ws: seq<Write>, path: Run, k: nat)
    requires IsRun(r) && r.states != [] && PathFrom(path, Last(r)) && k <= |path.steps|
    requires Uncommitted(path, Last(r).committed) && Last(path).mem.Open?
    requires Last(path).committed == ApplyWrites(Last(r).committed, ws)
    ensures CrashedAfter(r, ws, path, k)
  {
    var p := Prefix(path, k);
    PrefixIsPath(path, Last(r), k);
    var s := path.states[k];
    assert s.mem.Open?;
    assert Enabled(s, Crash);
    OneIsPath(s, Crash);
    ThenIsPath(p, One(s, Crash));
    var q := Then(p, One(s, Crash));
    RunThenPath(r, q);
    var e := Then(r, q);
    RunsKeepInv(e, |e.states| - 1);
    assert Last(e) == StoreRuns.Next(s, Crash) && Inv(Last(e));
    hide IsRun, IsPath, ReplayLog, Flatten, Values;
    assert IsCrashOf(r, path, k, e);
  }
}

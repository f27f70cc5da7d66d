// What a log of records means: the fold that recovery computes, and how each
// append changes it.

module Replay {
  import opened Coding
  import opened LogRecords

  // A record with its key split into transaction id and user key.
  datatype Entry = Entry(key: Bytes, txn: nat, value: Bytes, kind: byte)

  const NO_TXN := 0

  const FINISH_KEY: Bytes := [84, 120, 110, 45, 102, 105, 110, 105, 115, 104, 101, 100]  // Txn-finished

  predicate EntryOk(e: Entry) {
    0 !in e.key && e.txn < TWO28 && Storable(ToRecord(e))
  }

  function ToRecord(e: Entry): (r: LogRecord) {
    if e.txn < TWO28 then LogRecord(TxnKey(e.key, e.txn), e.value, e.kind)
    else LogRecord([], e.value, e.kind)
  }

  function FromRecord(r: LogRecord): (e: Entry) {
    match DecodeTxnKey(r.key)
    case BadKey => Entry([], 0, r.value, r.kind)
    case Key(key, txn) => Entry(key, txn, r.value, r.kind)
  }

  lemma EntryRoundTrip(e: Entry)
    requires EntryOk(e)
    ensures FromRecord(ToRecord(e)) == e
  {
    TxnKeyRoundTrip(e.key, e.txn);
  }

  // An entry and where it sits on disk.
  datatype Placed = Placed(pst: Pst, entry: Entry)

  /* ---- the fold ---- */

  datatype Replayed = Replayed(live: map<Bytes, Placed>, pending: map<nat, seq<Placed>>, maxTxn: nat)

  // Failed: a tombstone named a key that is not indexed.
  datatype Outcome = Failed | Running(state: Replayed)

  datatype Update = Missing | Updated(live: map<Bytes, Placed>)

  function UpdateIndex(live: map<Bytes, Placed>, p: Placed): Update {
    if p.entry.kind == DELETED then
      if p.entry.key in live then Updated(live - {p.entry.key}) else Missing
    else Updated(live[p.entry.key := p])
  }

  function UpdateAll(live: map<Bytes, Placed>, ps: seq<Placed>): Update
    decreases |ps|
  {
    if ps == [] then Updated(live)
    else
      match UpdateAll(live, ps[..|ps| - 1])
      case Missing => Missing
      case Updated(l) => UpdateIndex(l, ps[|ps| - 1])
  }

  function PendingOf(st: Replayed, txn: nat): seq<Placed> {
    if txn in st.pending then st.pending[txn] else []
  }

  function Max(a: nat, b: nat): nat {
    if a > b then a else b
  }

  function ReplayStep(st: Replayed, p: Placed): Outcome {
    var e := p.entry;
    var top := Max(st.maxTxn, e.txn);
    if e.txn == NO_TXN then
      match UpdateIndex(st.live, p)
      case Missing => Failed
      case Updated(live) => Running(st.(live := live, maxTxn := top))
    else if e.kind == TXN_FINISHED then
      match UpdateAll(st.live, PendingOf(st, e.txn))
      case Missing => Failed
      case Updated(live) => Running(Replayed(live, st.pending - {e.txn}, top))
    else Running(st.(pending := st.pending[e.txn := PendingOf(st, e.txn) + [p]], maxTxn := top))
  }

  const EMPTY := Replayed(map[], map[], 0)

  function ReplayFrom(start: Replayed, log: seq<Placed>): Outcome
    decreases |log|
  {
    if log == [] then Running(start)
    else
      match ReplayFrom(start, log[..|log| - 1])
      case Failed => Failed
      case Running(st) => ReplayStep(st, log[|log| - 1])
  }

  function ReplayLog(log: seq<Placed>): Outcome {
    ReplayFrom(EMPTY, log)
  }

  lemma ReplayOneMore(start: Replayed, log: seq<Placed>, p: Placed)
    ensures ReplayFrom(start, log + [p]) ==
      match ReplayFrom(start, log)
      case Failed => Failed
      case Running(st) => ReplayStep(st, p)
  {
    assert (log + [p])[..|log|] == log;
  }

  lemma ReplayAppend(log: seq<Placed>, p: Placed)
    ensures ReplayLog(log + [p]) ==
      match ReplayLog(log)
      case Failed => Failed
      case Running(st) => ReplayStep(st, p)
  {
    ReplayOneMore(EMPTY, log, p);
  }

  lemma {:induction false} FailedStaysFailed(start: Replayed, log: seq<Placed>, more: seq<Placed>)
    requires ReplayFrom(start, log).Failed?
    ensures ReplayFrom(start, log + more).Failed?
    decreases |more|
  {
    if more == [] {
      assert log + more == log;
    } else {
      FailedStaysFailed(start, log, more[..|more| - 1]);
      assert (log + more)[..|log + more| - 1] == log + more[..|more| - 1];
    }
  }

  /* ---- what the fold keeps ---- */

  ghost predicate LiveOk(log: seq<Placed>, live: map<Bytes, Placed>) {
    forall k :: k in live ==> live[k] in log && live[k].entry.key == k && live[k].entry.kind != DELETED
  }

  ghost predicate PendingOk(log: seq<Placed>, st: Replayed) {
    forall t :: t in st.pending ==>
      0 < t <= st.maxTxn && forall p :: p in st.pending[t] ==> p in log && p.entry.txn == t && p.entry.kind != TXN_FINISHED
  }

  lemma {:induction false} UpdateAllLive(log: seq<Placed>, live: map<Bytes, Placed>, ps: seq<Placed>)
    requires LiveOk(log, live) && (forall p :: p in ps ==> p in log)
    ensures UpdateAll(live, ps).Updated? ==> LiveOk(log, UpdateAll(live, ps).live)
    decreases |ps|
  {
    if ps != [] {
      assert forall p :: p in ps[..|ps| - 1] ==> p in ps;
      UpdateAllLive(log, live, ps[..|ps| - 1]);
    }
  }

  // Indexed entries are entries of the log, under their own key, and no id
  // waiting for its finish record exceeds the largest id seen.
  lemma {:induction false} ReplayFacts(log: seq<Placed>)
    requires ReplayLog(log).Running?
    ensures var st := ReplayLog(log).state; LiveOk(log, st.live) && PendingOk(log, st)
    ensures forall p :: p in log ==> p.entry.txn <= ReplayLog(log).state.maxTxn
    decreases |log|
  {
    if log != [] {
      var prefix, p := log[..|log| - 1], log[|log| - 1];
      ReplayFacts(prefix);
      assert log == prefix + [p];
      FactsStep(prefix, ReplayLog(prefix).state, p);
    }
  }

  lemma FactsStep(log: seq<Placed>, st: Replayed, p: Placed)
    requires LiveOk(log, st.live) && PendingOk(log, st) && ReplayStep(st, p).Running?
    ensures var t := ReplayStep(st, p).state; LiveOk(log + [p], t.live) && PendingOk(log + [p], t)
  {
    assert LiveOk(log + [p], st.live) && PendingOk(log + [p], st);
    UpdateAllLive(log + [p], st.live, PendingOf(st, p.entry.txn));
  }

  /* ---- the contents a user sees ---- */

  function Values(live: map<Bytes, Placed>): map<Bytes, Bytes> {
    map k | k in live :: live[k].entry.value
  }

  function Psts(live: map<Bytes, Placed>): map<Bytes, Pst> {
    map k | k in live :: live[k].pst
  }

  /* ---- single writes ---- */

  lemma ReplayPut(log: seq<Placed>, p: Placed)
    requires ReplayLog(log).Running? && p.entry.txn == NO_TXN && p.entry.kind != DELETED
    ensures var st := ReplayLog(log).state;
            ReplayLog(log + [p]) == Running(st.(live := st.live[p.entry.key := p]))
    ensures Values(ReplayLog(log + [p]).state.live) == Values(ReplayLog(log).state.live)[p.entry.key := p.entry.value]
    ensures Psts(ReplayLog(log + [p]).state.live) == Psts(ReplayLog(log).state.live)[p.entry.key := p.pst]
  {
    ReplayAppend(log, p);
  }

  lemma ReplayDelete(log: seq<Placed>, p: Placed)
    requires ReplayLog(log).Running? && p.entry.txn == NO_TXN && p.entry.kind == DELETED
    ensures var st := ReplayLog(log).state;
            ReplayLog(log + [p]) ==
              if p.entry.key in st.live then Running(st.(live := st.live - {p.entry.key})) else Failed
    ensures p.entry.key in ReplayLog(log).state.live ==>
            && Values(ReplayLog(log + [p]).state.live) == Values(ReplayLog(log).state.live) - {p.entry.key}
            && Psts(ReplayLog(log + [p]).state.live) == Psts(ReplayLog(log).state.live) - {p.entry.key}
  {
    ReplayAppend(log, p);
  }

  /* ---- batches ---- */

  // One pending write of a batch.
  datatype Write = Write(key: Bytes, value: Bytes, kind: byte)

  function BatchEntry(w: Write, txn: nat): Entry {
    Entry(w.key, txn, w.value, w.kind)
  }

  function FinishEntry(txn: nat): Entry {
    Entry(FINISH_KEY, txn, [], TXN_FINISHED)
  }

  predicate DistinctKeys(ws: seq<Write>) {
    forall i, j :: 0 <= i < j < |ws| ==> ws[i].key != ws[j].key
  }

  predicate WritesOk(ws: seq<Write>) {
    DistinctKeys(ws) && forall i :: 0 <= i < |ws| ==> ws[i].kind == NORMAL || ws[i].kind == DELETED
  }

  // The user's view of a batch: all of it at once.
  function ApplyWrites(contents: map<Bytes, Bytes>, ws: seq<Write>): map<Bytes, Bytes>
    decreases |ws|
  {
    if ws == [] then contents
    else
      var before := ApplyWrites(contents, ws[..|ws| - 1]);
      var w := ws[|ws| - 1];
      if w.kind == DELETED then before - {w.key} else before[w.key := w.value]
  }

  // A key has what the batch says about it, and otherwise what it had.
  lemma {:induction false} ApplyWritesAt(contents: map<Bytes, Bytes>, ws: seq<Write>, k: Bytes)
    requires DistinctKeys(ws)
    ensures var after := ApplyWrites(contents, ws);
            && (forall i :: 0 <= i < |ws| && ws[i].key == k ==>
                 if ws[i].kind == DELETED then k !in after else k in after && after[k] == ws[i].value)
            && ((forall i :: 0 <= i < |ws| ==> ws[i].key != k) ==>
                 (k in after <==> k in contents) && (k in contents ==> after[k] == contents[k]))
    decreases |ws|
  {
    if ws != [] {
      var n := |ws| - 1;
      assert forall i :: 0 <= i < n ==> ws[..n][i] == ws[i];
      ApplyWritesAt(contents, ws[..n], k);
    }
  }

  // The appended entries of a batch, in order.
  ghost predicate Carries(ps: seq<Placed>, ws: seq<Write>, txn: nat) {
    |ps| == |ws| && forall i :: 0 <= i < |ws| ==> ps[i].entry == BatchEntry(ws[i], txn)
  }

  predicate TombstonesIndexed(keys: set<Bytes>, ws: seq<Write>) {
    forall i :: 0 <= i < |ws| && ws[i].kind == DELETED ==> ws[i].key in keys
  }

  lemma OneUpdate(live: map<Bytes, Placed>, p: Placed)
    ensures UpdateIndex(live, p).Updated? <==> (p.entry.kind == DELETED ==> p.entry.key in live)
    ensures UpdateIndex(live, p).Updated? ==>
      Values(UpdateIndex(live, p).live) ==
        if p.entry.kind == DELETED then Values(live) - {p.entry.key} else Values(live)[p.entry.key := p.entry.value]
  {
  }

  // Applying the entries of a batch fails exactly when a tombstone names a key
  // that was not there, and otherwise has exactly the user's effect.
  lemma {:induction false} UpdateAllWrites(live: map<Bytes, Placed>, ps: seq<Placed>, ws: seq<Write>, txn: nat)
    requires WritesOk(ws) && Carries(ps, ws, txn)
    ensures UpdateAll(live, ps).Updated? <==> TombstonesIndexed(live.Keys, ws)
    ensures UpdateAll(live, ps).Updated? ==> Values(UpdateAll(live, ps).live) == ApplyWrites(Values(live), ws)
    decreases |ws|
  {
    if ws != [] {
      var n := |ws| - 1;
      hide TombstonesIndexed, Values, UpdateIndex;
      UpdateAllWrites(live, ps[..n], ws[..n], txn);
      TombstonesSplit(live.Keys, ws);
      if UpdateAll(live, ps[..n]).Updated? {
        LiveAfter(live, ps[..n], ws[..n], txn, ws[n].key);
        OneUpdate(UpdateAll(live, ps[..n]).live, ps[n]);
        assert ps[n].entry == BatchEntry(ws[n], txn);
      }
    }
  }

  lemma TombstonesSplit(keys: set<Bytes>, ws: seq<Write>)
    requires ws != []
    ensures var n := |ws| - 1;
            TombstonesIndexed(keys, ws) <==>
            TombstonesIndexed(keys, ws[..n]) && (ws[n].kind == DELETED ==> ws[n].key in keys)
  {
    var n := |ws| - 1;
    assert forall i :: 0 <= i < n ==> ws[..n][i] == ws[i];
  }

  // A batch does not touch a key it does not name.
  lemma {:induction false} LiveAfter(live: map<Bytes, Placed>, ps: seq<Placed>, ws: seq<Write>, txn: nat, k: Bytes)
    requires Carries(ps, ws, txn) && UpdateAll(live, ps).Updated?
    requires forall i :: 0 <= i < |ws| ==> ws[i].key != k
    ensures k in UpdateAll(live, ps).live <==> k in live
    decreases |ws|
  {
    if ws != [] {
      var n := |ws| - 1;
      LiveAfter(live, ps[..n], ws[..n], txn, k);
      assert ps[n].entry == BatchEntry(ws[n], txn);
    }
  }

  lemma WaitingStep(before: Outcome, p: Placed)
    requires p.entry.txn != NO_TXN && p.entry.kind != TXN_FINISHED
    ensures before.Running? ==>
      var st, t := before.state, p.entry.txn;
      ReplayStep(st, p) == Running(st.(pending := st.pending[t := PendingOf(st, t) + [p]],
                                       maxTxn := if t > st.maxTxn then t else st.maxTxn))
  {
  }

  lemma OneMoreWaits(pending: map<nat, seq<Placed>>, st: Replayed, txn: nat, ps: seq<Placed>, p: Placed)
    requires txn !in pending && st.pending == if ps == [] then pending else pending[txn := ps]
    ensures st.pending[txn := PendingOf(st, txn) + [p]] == pending[txn := ps + [p]]
  {
  }

  // Until its finish record a batch changes nothing a user can see.
  lemma {:induction false} UnfinishedIsInvisible(log: seq<Placed>, ps: seq<Placed>, ws: seq<Write>, txn: nat)
    requires ReplayLog(log).Running? && WritesOk(ws) && Carries(ps, ws, txn)
    requires txn > ReplayLog(log).state.maxTxn
    ensures ReplayLog(log + ps).Running?
    ensures var st, after := ReplayLog(log).state, ReplayLog(log + ps).state;
            && after.live == st.live
            && after.maxTxn == (if ps == [] then st.maxTxn else txn)
            && after.pending == (if ps == [] then st.pending else st.pending[txn := ps])
            && txn !in st.pending
    decreases |ps|
  {
    if ps == [] {
      assert log + ps == log;
      ReplayFacts(log);
    } else {
      hide ReplayLog, ReplayStep, PendingOf;
      var n := |ps| - 1;
      UnfinishedIsInvisible(log, ps[..n], ws[..n], txn);
      WaitingStep(ReplayLog(log + ps[..n]), ps[n]);
      assert log + ps == (log + ps[..n]) + [ps[n]];
      ReplayAppend(log + ps[..n], ps[n]);
      assert ps == ps[..n] + [ps[n]];
      OneMoreWaits(ReplayLog(log).state.pending, ReplayLog(log + ps[..n]).state, txn, ps[..n], ps[n]);
    }
  }

  // The finish record makes all of it visible at once, or makes the log
  // unrecoverable when a tombstone names a missing key.
  lemma FinishIsAtomic(log: seq<Placed>, ps: seq<Placed>, ws: seq<Write>, txn: nat, f: Placed)
    requires ReplayLog(log).Running? && WritesOk(ws) && Carries(ps, ws, txn) && ws != []
    requires txn > ReplayLog(log).state.maxTxn && f.entry == FinishEntry(txn)
    ensures var st, outcome := ReplayLog(log).state, ReplayLog(log + ps + [f]);
            && (outcome.Running? <==> TombstonesIndexed(st.live.Keys, ws))
            && (outcome.Running? ==>
                 && UpdateAll(st.live, ps) == Updated(outcome.state.live)
                 && Values(outcome.state.live) == ApplyWrites(Values(st.live), ws)
                 && outcome.state.pending == st.pending
                 && outcome.state.maxTxn == txn)
  {
    UnfinishedIsInvisible(log, ps, ws, txn);
    ReplayAppend(log + ps, f);
    UpdateAllWrites(ReplayLog(log).state.live, ps, ws, txn);
  }
}

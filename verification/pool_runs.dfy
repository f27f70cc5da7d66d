// Runs of the pool: what is conserved, who takes what, and exactly when a stop
// loses an accepted job.

module PoolRuns {
  import opened Pools

  datatype Run = Run(states: seq<Pool>, steps: seq<Step>)

  predicate StepAt(r: Run, k: nat)
    requires k < |r.steps| && |r.states| == |r.steps| + 1
  {
    Shape(r.states[k]) && Enabled(r.states[k], r.steps[k]) && r.states[k + 1] == Next(r.states[k], r.steps[k])
  }

  predicate IsRun(r: Run) {
    && |r.states| == |r.steps| + 1 && Init(r.states[0])
    && forall k {:trigger StepAt(r, k)} :: 0 <= k < |r.steps| ==> StepAt(r, k)
  }

  lemma {:induction false} RunKeepsInv(r: Run, k: nat)
    requires IsRun(r) && k < |r.states|
    ensures Inv(r.states[k])
  {
    hide Inv, Init, Next, Enabled;
    if k == 0 {
      InitInv(r.states[0]);
    } else {
      RunKeepsInv(r, k - 1);
      assert StepAt(r, k - 1);
      StepKeepsInv(r.states[k - 1], r.steps[k - 1]);
    }
  }

  // Every accepted job is, once, in a call that has not pushed it yet, waiting
  // in a queue, in a worker's hands, or resumed.
  lemma NothingIsLostOrDoubled(r: Run, k: nat)
    requires IsRun(r) && k < |r.states|
    ensures Shape(r.states[k])
    ensures var p := r.states[k];
            && p.accepted == InCalls(p.calls) + Waits(p.queues) + Held(p.workers) + p.resumed
            && Taken(p.queues) == p.resumed + Held(p.workers)
  {
    hide IsRun, Pushed, Taken, Held, InCalls, Waits;
    RunKeepsInv(r, k);
    var p := r.states[k];
    PushedIsTakenAndWaiting(p.queues);
    Regroup(InCalls(p.calls), p.resumed, Held(p.workers), Waits(p.queues));
  }

  lemma Regroup(a: multiset<Job>, b: multiset<Job>, c: multiset<Job>, d: multiset<Job>)
    ensures a + ((b + c) + d) == a + d + c + b
  {
  }

  // A job scheduled for a worker goes through that worker's queue, and only
  // that worker takes it.
  lemma PinnedJobsStay(r: Run, k: nat, q: nat, i: nat)
    requires IsRun(r) && k < |r.states| && q < |r.states[k].queues|
    requires i < |r.states[k].queues[q].log| && r.states[k].queues[q].log[i].job.want != ANY
    ensures r.states[k].queues[q].log[i].job.want == q
    ensures i < |r.states[k].queues[q].takers| ==> r.states[k].queues[q].takers[i] == q
  {
    hide IsRun, Conserved;
    RunKeepsInv(r, k);
    assert QueueOk(r.states[k].queues[q], q, r.states[k].steal, r.states[k].stopped);
    assert ItemOk(r.states[k].queues[q].log[i], q, r.states[k].steal);
  }

  // Queues are first in, first out, and what has been pushed or taken stays so.
  predicate Grew(a: Pool, b: Pool) {
    && |a.queues| == |b.queues| && (a.stopped ==> b.stopped)
    && forall q :: 0 <= q < |a.queues| ==> a.queues[q].log <= b.queues[q].log && a.queues[q].takers <= b.queues[q].takers
  }

  lemma StepGrowsAt(p: Pool, s: Step, q: nat)
    requires Shape(p) && Enabled(p, s) && q < |p.queues|
    ensures var t := Next(p, s);
            && |t.queues| == |p.queues| && (p.stopped ==> t.stopped)
            && p.queues[q].log <= t.queues[q].log && p.queues[q].takers <= t.queues[q].takers
  {
    hide Victim, Target;
  }

  lemma StepGrows(p: Pool, s: Step)
    requires Shape(p) && Enabled(p, s)
    ensures Grew(p, Next(p, s))
  {
    hide Next, Enabled;
    StepGrowsAt(p, s, 0);
    forall q | 0 <= q < |p.queues|
      ensures p.queues[q].log <= Next(p, s).queues[q].log && p.queues[q].takers <= Next(p, s).queues[q].takers
    {
      StepGrowsAt(p, s, q);
    }
  }

  lemma {:induction false} RunGrows(r: Run, j: nat, k: nat)
    requires IsRun(r) && j <= k < |r.states|
    ensures Grew(r.states[j], r.states[k])
    decreases k
  {
    hide Init, Next, Enabled;
    if j < k {
      RunGrows(r, j, k - 1);
      assert StepAt(r, k - 1);
      StepGrows(r.states[k - 1], r.steps[k - 1]);
    }
  }

  // A worker that found its queue empty after the stop.
  predicate LookedAndFoundNothing(r: Run, j: nat, w: nat) {
    && j < |r.steps| && j < |r.states| && r.steps[j] == Pop(w) && w < |r.states[j].queues|
    && r.states[j].stopped && r.states[j].queues[w].stop
    && |r.states[j].queues[w].takers| == |r.states[j].queues[w].log|
  }

  lemma ShapeKept(p: Pool, s: Step)
    requires Shape(p) && Enabled(p, s)
    ensures |Next(p, s).workers| == |p.workers|
  {
    hide Victim, Target;
  }

  lemma OnlyPopLooks(p: Pool, s: Step, w: nat)
    requires Inv(p) && Enabled(p, s) && w < |p.workers| && !p.workers[w].Exited? && !p.workers[w].FalsePop?
    requires |Next(p, s).workers| == |p.workers| && (Next(p, s).workers[w].Exited? || Next(p, s).workers[w].FalsePop?)
    ensures s == Pop(w) && p.queues[w].stop && p.stopped && |p.queues[w].takers| == |p.queues[w].log|
  {
    hide Victim, Target;
    hide Conserved, QueueOk;
    if s.Pop? && s.w == w { StopFlag(p, w); }
  }

  // An exit is always preceded by such a look; so whatever was pushed to the
  // worker's queue before it has been taken.
  lemma {:induction false} ExitsOnlyWhenDone(r: Run, k: nat, w: nat)
    requires IsRun(r) && k < |r.states| && w < |r.states[k].workers|
    requires r.states[k].workers[w].Exited? || r.states[k].workers[w].FalsePop?
    ensures exists j :: 0 <= j < k && LookedAndFoundNothing(r, j, w)
  {
    hide Inv, Next, Enabled;
    if k > 0 {
      var p, s := r.states[k - 1], r.steps[k - 1];
      assert StepAt(r, k - 1);
      RunKeepsInv(r, k - 1);
      ShapeKept(p, s);
      if p.workers[w].Exited? || p.workers[w].FalsePop? {
        ExitsOnlyWhenDone(r, k - 1, w);
      } else {
        OnlyPopLooks(p, s, w);
        assert LookedAndFoundNothing(r, k - 1, w);
      }
    }
  }

  // So nothing that was pushed before the look is left behind.
  lemma EarlierPushesAreTaken(r: Run, k: nat, w: nat)
    requires IsRun(r) && k < |r.states| && w < |r.states[k].workers| && r.states[k].workers[w].Exited?
    ensures exists j :: 0 <= j < k && LookedAndFoundNothing(r, j, w) && w < |r.states[k].queues|
              && |r.states[j].queues[w].log| <= |r.states[k].queues[w].takers|
  {
    hide IsRun;
    ExitsOnlyWhenDone(r, k, w);
    var j :| 0 <= j < k && LookedAndFoundNothing(r, j, w);
    RunGrows(r, j, k);
  }

  // The branch that would start over after an empty pop is never taken.
  lemma FalsePopAlwaysExits(r: Run, k: nat, w: nat)
    requires IsRun(r) && k < |r.steps| && r.steps[k] == CheckStop(w)
    ensures w < |r.states[k + 1].workers| && r.states[k + 1].workers[w] == Exited
  {
    hide Conserved, Init, QueueOk;
    RunKeepsInv(r, k);
    assert StepAt(r, k);
  }

  /* ---- who looks where ---- */

  // Step m is worker w's look at queue q, and it took nothing: the lock was
  // held, or there was nothing to steal first in line.
  predicate LookedAt(r: Run, m: nat, w: nat, q: nat) {
    && m < |r.steps| && m < |r.states| && r.steps[m].TrySteal? && r.steps[m].w == w
    && q < |r.states[m].queues| && r.states[m].queues[q].Ok()
    && (!r.steps[m].free || r.states[m].queues[q].Waiting() == [] || !r.states[m].queues[q].Waiting()[0].canSteal)
  }

  predicate Steals(r: Run, x: nat, w: nat) {
    x < |r.states| && w < |r.states[x].workers| && r.states[x].workers[w].Stealing?
  }

  // It did so, and has been going round the queues since.
  predicate LookedSince(r: Run, m: nat, k: nat, w: nat, q: nat) {
    LookedAt(r, m, w, q) && forall x :: m <= x <= k ==> Steals(r, x, w)
  }

  lemma StealStep(p: Pool, s: Step, w: nat)
    requires Shape(p) && Enabled(p, s) && w < |p.workers| && |Next(p, s).workers| == |p.workers|
    requires Next(p, s).workers[w].Stealing? && Next(p, s).workers[w] != p.workers[w] && Next(p, s).workers[w].i > 0
    ensures s.TrySteal? && s.w == w && p.workers[w].Stealing? && Next(p, s).workers[w].i == p.workers[w].i + 1
    ensures var q := Victim(p, w, p.workers[w].i);
            !s.free || p.queues[q].Waiting() == [] || !p.queues[q].Waiting()[0].canSteal
  {
    hide Victim, Target;
  }

  // A worker at its i-th try has looked at each victim before it.
  lemma {:induction false} EarlierLooks(r: Run, k: nat, w: nat, j: nat)
    requires IsRun(r) && k < |r.states| && w < |r.states[k].workers|
    requires r.states[k].workers[w].Stealing? && j < r.states[k].workers[w].i && r.states[k].queues != []
    ensures exists m :: 0 <= m < k && LookedSince(r, m, k, w, Victim(r.states[k], w, j))
    decreases k
  {
    hide Next, Enabled, Victim;
    if k > 0 {
      var p, s := r.states[k - 1], r.steps[k - 1];
      assert StepAt(r, k - 1);
      ShapeKept(p, s);
      StepGrows(p, s);
      SameVictims(p, r.states[k], w, j);
      if p.workers[w] != r.states[k].workers[w] { StealStep(p, s, w); }
      assert Steals(r, k - 1, w) && Steals(r, k, w);
      if j < p.workers[w].i {
        EarlierLooks(r, k - 1, w, j);
        var m :| 0 <= m < k - 1 && LookedSince(r, m, k - 1, w, Victim(p, w, j));
        assert LookedSince(r, m, k, w, Victim(p, w, j));
      } else {
        assert LookedSince(r, k - 1, k, w, Victim(p, w, j));
      }
    }
  }

  lemma SameVictims(p: Pool, t: Pool, w: nat, j: nat)
    requires p.queues != [] && |t.queues| == |p.queues|
    ensures Victim(p, w, j) == Victim(t, w, j)
  {
  }

  predicate NeverIdles(p: Pool) {
    p.steal ==> forall w :: 0 <= w < |p.workers| ==> p.workers[w] != Popping
  }

  lemma NeverIdlesStep(p: Pool, s: Step)
    requires Shape(p) && Enabled(p, s) && NeverIdles(p)
    ensures NeverIdles(Next(p, s))
  {
    hide Victim, Target;
  }

  lemma {:induction false} RunNeverIdles(r: Run, k: nat)
    requires IsRun(r) && k < |r.states|
    ensures NeverIdles(r.states[k])
  {
    hide Next, Enabled;
    if k > 0 {
      RunNeverIdles(r, k - 1);
      assert StepAt(r, k - 1);
      NeverIdlesStep(r.states[k - 1], r.steps[k - 1]);
    }
  }

  // With stealing, a worker waits at its own queue only after it has looked at
  // every queue, its own included.
  lemma LooksEverywhere(r: Run, k: nat, w: nat, q: nat)
    requires IsRun(r) && k < |r.steps| && r.steps[k] == Pop(w) && r.states[k].steal && q < |r.states[k].queues|
    ensures exists m :: 0 <= m < k && LookedSince(r, m, k, w, q)
  {
    assert StepAt(r, k);
    hide IsRun, Victim, Next;
    RunNeverIdles(r, k);
    assert w < |r.states[k].queues| by { RunKeepsReady(r, k); }
    VictimsAreAll(r.states[k], w, q);
    var i :| 0 <= i < |r.states[k].queues| && Victim(r.states[k], w, i) == q;
    EarlierLooks(r, k, w, i);
  }

  /* ---- what a stop loses ---- */

  predicate AllExited(p: Pool) {
    forall w :: 0 <= w < |p.workers| ==> p.workers[w].Exited?
  }

  // Stopped with no call under way: nothing comes in any more.
  predicate Quiet(p: Pool) {
    p.stopped && p.calls == []
  }

  lemma QuietStep(p: Pool, s: Step)
    requires Shape(p) && Enabled(p, s) && Quiet(p)
    ensures Quiet(Next(p, s)) && |Next(p, s).queues| == |p.queues|
    ensures forall q :: 0 <= q < |p.queues| ==> Next(p, s).queues[q].log == p.queues[q].log
  {
    hide Victim, Target;
  }

  lemma {:induction false} QuietRun(r: Run, j: nat, k: nat)
    requires IsRun(r) && j <= k < |r.states| && Quiet(r.states[j])
    ensures Quiet(r.states[k]) && |r.states[k].queues| == |r.states[j].queues|
    ensures forall q :: 0 <= q < |r.states[j].queues| ==> r.states[k].queues[q].log == r.states[j].queues[q].log
    decreases k
  {
    hide Init, Next, Enabled, Quiet;
    if j < k {
      QuietRun(r, j, k - 1);
      assert StepAt(r, k - 1);
      QuietStep(r.states[k - 1], r.steps[k - 1]);
    }
  }

  // The queue of a worker that exited after a quiet stop is empty.
  lemma QuietExit(r: Run, s: nat, k: nat, w: nat)
    requires IsRun(r) && s < |r.steps| && r.steps[s] == SetStopped && r.states[s].calls == []
    requires s < k < |r.states| && w < |r.states[k].workers| && r.states[k].workers[w].Exited?
    ensures w < |r.states[k].queues| && |r.states[k].queues[w].log| <= |r.states[k].queues[w].takers|
  {
    assert StepAt(r, s);
    hide IsRun;
    ExitsOnlyWhenDone(r, k, w);
    var j :| 0 <= j < k && LookedAndFoundNothing(r, j, w);
    if j <= s { RunGrows(r, j, s); } else { QuietRun(r, s + 1, j); QuietRun(r, s + 1, k); RunGrows(r, j, k); }
  }

  lemma NothingHeld(p: Pool)
    requires AllExited(p)
    ensures Held(p.workers) == multiset{}
  {
    hide Sum;
    SumZero(HeldEach(p.workers));
  }

  lemma NothingWaits(p: Pool)
    requires Shape(p) && forall q :: 0 <= q < |p.queues| ==> |p.queues[q].log| <= |p.queues[q].takers|
    ensures Waits(p.queues) == multiset{}
  {
    hide Sum;
    SumZero(WaitsEach(p.queues));
  }

  // If no call is under way when the pool is stopped, then every accepted job
  // has been resumed once all workers have left.
  lemma QuietStopLosesNothing(r: Run, s: nat, k: nat)
    requires IsRun(r) && s < |r.steps| && r.steps[s] == SetStopped && r.states[s].calls == []
    requires s < k < |r.states| && AllExited(r.states[k])
    ensures r.states[k].accepted == r.states[k].resumed
  {
    assert StepAt(r, s);
    hide IsRun, Waits, Held;
    var p := r.states[k];
    NothingIsLostOrDoubled(r, k);
    forall q | 0 <= q < |p.queues| ensures |p.queues[q].log| <= |p.queues[q].takers| { QuietExit(r, s, k, q); }
    NothingWaits(p);
    NothingHeld(p);
    QuietRun(r, s + 1, k);
  }

  /* ---- the other way: a call under way at the stop can be lost ---- */

  // What keeps every step possible that the code is about to take.
  predicate Ready(p: Pool) {
    StopsReady(p) && WorkersReady(p) && CallsReady(p)
  }

  predicate StopsReady(p: Pool) {
    p.stopping <= |p.queues| && forall q :: 0 <= q < p.stopping ==> p.queues[q].stop
  }

  predicate WorkersReady(p: Pool) {
    forall w :: 0 <= w < |p.workers| && p.workers[w].Stealing? ==> p.workers[w].i <= |p.queues|
  }

  predicate CallsReady(p: Pool) {
    forall c :: 0 <= c < |p.calls| ==> CallReady(p.calls[c], |p.queues|)
  }

  predicate CallReady(c: Call, n: nat) {
    c.tries <= 2 * n && (c.job.want == ANY || 0 <= c.job.want < n)
  }

  lemma StepKeepsStops(p: Pool, s: Step)
    requires Shape(p) && Enabled(p, s) && StopsReady(p)
    ensures StopsReady(Next(p, s))
  {
    hide Victim, Target;
    match s
    case TryPush(_, _) =>
    case Push(_, _) =>
    case TrySteal(_, _) =>
    case Pop(_) =>
    case _ =>
  }

  lemma StepKeepsWorkers(p: Pool, s: Step)
    requires Shape(p) && Enabled(p, s) && WorkersReady(p)
    ensures WorkersReady(Next(p, s)) && Shape(Next(p, s))
  {
    hide Victim, Target;
    match s
    case TryPush(_, _) =>
    case Push(_, _) =>
    case TrySteal(_, _) =>
    case Pop(_) =>
    case _ =>
  }

  lemma StepKeepsCalls(p: Pool, s: Step)
    requires Shape(p) && Enabled(p, s) && CallsReady(p)
    ensures CallsReady(Next(p, s))
  {
    hide Victim, Target;
    match s
    case TryPush(_, _) =>
    case Push(_, _) =>
    case TrySteal(_, _) =>
    case Pop(_) =>
    case _ =>
  }

  lemma StepKeepsReady(p: Pool, s: Step)
    requires Shape(p) && Enabled(p, s) && Ready(p)
    ensures Ready(Next(p, s)) && Shape(Next(p, s))
  {
    hide Shape, Enabled, Next, StopsReady, WorkersReady, CallsReady;
    StepKeepsStops(p, s);
    StepKeepsWorkers(p, s);
    StepKeepsCalls(p, s);
  }

  lemma {:induction false} RunKeepsReady(r: Run, k: nat)
    requires IsRun(r) && k < |r.states|
    ensures Shape(r.states[k]) && Ready(r.states[k])
  {
    hide Next, Enabled;
    if k > 0 {
      hide Shape, Ready;
      RunKeepsReady(r, k - 1);
      assert StepAt(r, k - 1);
      StepKeepsReady(r.states[k - 1], r.steps[k - 1]);
    }
  }

  predicate IsPath(r: Run) {
    |r.states| == |r.steps| + 1 && forall k {:trigger StepAt(r, k)} :: 0 <= k < |r.steps| ==> StepAt(r, k)
  }

  // A way on from p.
  predicate PathFrom(r: Run, p: Pool) {
    r.states != [] && r.states[0] == p && IsPath(r)
  }

  function Last(r: Run): Pool
    requires r.states != []
  {
    r.states[|r.states| - 1]
  }

  function Then(a: Run, b: Run): Run
    requires b.states != []
  {
    Run(a.states + b.states[1..], a.steps + b.steps)
  }

  lemma ThenIsPath(a: Run, b: Run)
    requires a.states != [] && IsPath(a) && PathFrom(b, Last(a))
    ensures PathFrom(Then(a, b), a.states[0]) && Last(Then(a, b)) == Last(b)
  {
    hide Shape, Enabled, Next;
    var r := Then(a, b);
    forall k | 0 <= k < |r.steps| ensures StepAt(r, k) {
      if k < |a.steps| { assert StepAt(a, k); } else { assert StepAt(b, k - |a.steps|); }
    }
  }

  function One(p: Pool, s: Step): Run
    requires Shape(p) && Enabled(p, s)
  {
    Run([p, Next(p, s)], [s])
  }

  lemma OneIsPath(p: Pool, s: Step)
    requires Shape(p) && Enabled(p, s)
    ensures PathFrom(One(p, s), p)
  {
    hide Shape, Enabled, Next;
  }

  lemma {:induction false} StopAll(p: Pool) returns (r: Run)
    requires Shape(p) && Ready(p) && p.stopped
    ensures PathFrom(r, p) && Shape(Last(r)) && Ready(Last(r)) && Last(r).stopped
    ensures Last(r).calls == p.calls && Last(r).stopping == |Last(r).queues|
    decreases |p.queues| - p.stopping
  {
    hide IsPath;
    if p.stopping == |p.queues| {
      r := Run([p], []);
      Standing(p);
    } else {
      StepKeepsReady(p, StopNext);
      OneIsPath(p, StopNext);
      var rest := StopAll(Next(p, StopNext));
      ThenIsPath(One(p, StopNext), rest);
      r := Then(One(p, StopNext), rest);
    }
  }

  lemma Standing(p: Pool)
    ensures PathFrom(Run([p], []), p)
  {
  }

  // The step worker w takes next, with every try-lock failing.
  function NextOf(p: Pool, w: nat): Step
    requires w < |p.workers|
  {
    match p.workers[w]
    case Holding(_) => Resume(w)
    case FalsePop => CheckStop(w)
    case Stealing(i) => if i < |p.queues| then TrySteal(w, false) else Pop(w)
    case _ => Pop(w)
  }

  function Rank(ph: Phase, n: nat): nat {
    match ph
    case Exited => 0
    case FalsePop => 1
    case Popping => 2
    case Stealing(i) => if i <= n then 2 + n - i else 0
    case Holding(_) => n + 3
  }

  lemma NextOfDrains(p: Pool, w: nat)
    requires Shape(p) && Ready(p) && p.stopped && p.stopping == |p.queues| && w < |p.workers| && !p.workers[w].Exited?
    ensures Enabled(p, NextOf(p, w))
    ensures var t := Next(p, NextOf(p, w));
            && t.stopped && t.stopping == p.stopping && |t.queues| == |p.queues| && |t.workers| == |p.workers|
            && t.calls == p.calls && t.queues[w].Ok()
            && (forall v :: 0 <= v < |p.workers| && v != w ==> t.workers[v] == p.workers[v])
            && (|t.queues[w].Waiting()| < |p.queues[w].Waiting()|
                || (|t.queues[w].Waiting()| == |p.queues[w].Waiting()|
                    && Rank(t.workers[w], |p.queues|) < Rank(p.workers[w], |p.queues|)))
  {
    assert p.queues[w].stop && p.queues[w].Ok();
  }

  lemma {:induction false} Drain(p: Pool, w: nat) returns (r: Run)
    requires Shape(p) && Ready(p) && p.stopped && p.stopping == |p.queues| && w < |p.workers|
    ensures PathFrom(r, p) && Shape(Last(r)) && Ready(Last(r)) && Last(r).stopped
    ensures Last(r).calls == p.calls && Last(r).stopping == |Last(r).queues| && |Last(r).workers| == |p.workers|
    ensures Last(r).workers[w].Exited?
    ensures forall v :: 0 <= v < |p.workers| && v != w ==> Last(r).workers[v] == p.workers[v]
    decreases |p.queues[w].Waiting()|, Rank(p.workers[w], |p.queues|)
  {
    hide IsPath, Next, Enabled, Ready, NextOf, Rank;
    if p.workers[w].Exited? {
      r := Run([p], []);
      Standing(p);
    } else {
      var s := NextOf(p, w);
      NextOfDrains(p, w);
      StepKeepsReady(p, s);
      OneIsPath(p, s);
      var rest := Drain(Next(p, s), w);
      ThenIsPath(One(p, s), rest);
      r := Then(One(p, s), rest);
    }
  }

  lemma {:induction false} DrainFrom(p: Pool, w: nat) returns (r: Run)
    requires Shape(p) && Ready(p) && p.stopped && p.stopping == |p.queues| && w <= |p.workers|
    requires forall v :: 0 <= v < w ==> p.workers[v].Exited?
    ensures PathFrom(r, p) && Shape(Last(r)) && Ready(Last(r)) && Last(r).stopped
    ensures Last(r).calls == p.calls && AllExited(Last(r))
    decreases |p.workers| - w
  {
    hide IsPath, Ready;
    if w == |p.workers| {
      r := Run([p], []);
      Standing(p);
    } else {
      var first := Drain(p, w);
      var rest := DrainFrom(Last(first), w + 1);
      ThenIsPath(first, rest);
      r := Then(first, rest);
    }
  }

  // The push of the first call under way, on the first try.
  function PushOf(p: Pool): Step
    requires p.calls != []
  {
    var call := p.calls[0];
    if call.job.want != ANY then (if call.job.want >= 0 then Push(0, call.job.want) else Push(0, 0))
    else if p.steal && call.tries < 2 * |p.queues| then TryPush(0, true)
    else Push(0, 0)
  }

  lemma PushOfPushes(p: Pool)
    requires Shape(p) && Ready(p) && p.calls != []
    ensures Enabled(p, PushOf(p))
    ensures var t := Next(p, PushOf(p));
            |t.calls| < |p.calls| && t.workers == p.workers && t.accepted == p.accepted && t.resumed == p.resumed
  {
    assert CallReady(p.calls[0], |p.queues|);
  }

  lemma {:induction false} PushRest(p: Pool) returns (r: Run)
    requires Shape(p) && Ready(p)
    ensures PathFrom(r, p) && Last(r).calls == []
    ensures Last(r).workers == p.workers && Last(r).accepted == p.accepted && Last(r).resumed == p.resumed
    decreases |p.calls|
  {
    hide IsPath, Next, Enabled, Ready, PushOf;
    if p.calls == [] {
      r := Run([p], []);
      Standing(p);
    } else {
      PushOfPushes(p);
      StepKeepsReady(p, PushOf(p));
      OneIsPath(p, PushOf(p));
      var rest := PushRest(Next(p, PushOf(p)));
      ThenIsPath(One(p, PushOf(p)), rest);
      r := Then(One(p, PushOf(p)), rest);
    }
  }

  lemma RunThenPath(a: Run, b: Run)
    requires a.states != [] && IsRun(a) && PathFrom(b, Last(a))
    ensures Then(a, b).states != [] && IsRun(Then(a, b)) && Last(Then(a, b)) == Last(b)
    ensures a.states <= Then(a, b).states && a.steps <= Then(a, b).steps
  {
    hide StepAt, Init;
    ThenIsPath(a, b);
  }

  lemma CallsCount(calls: seq<Call>)
    ensures |InCalls(calls)| == |calls|
  {
  }

  predicate Extends(e: Run, r: Run) {
    r.states <= e.states && r.steps <= e.steps
  }

  // All calls have returned and all workers have left.
  predicate Finished(e: Run) {
    e.states != [] && Last(e).calls == [] && AllExited(Last(e))
  }

  // Whatever has happened before: a stop that finds a call under way can be
  // followed by steps that end with fewer jobs resumed than accepted.
  lemma PendingCallCanBeLost(r: Run) returns (e: Run)
    requires r.states != [] && IsRun(r) && Last(r).stopped && Last(r).calls != []
    ensures IsRun(e) && Extends(e, r) && Finished(e) && |Last(e).resumed| < |Last(e).accepted|
  {
    hide IsRun, IsPath, Ready, Waits, Held, InCalls;
    RunKeepsReady(r, |r.states| - 1);
    var a := StopAll(Last(r));
    RunThenPath(r, a);
    var b := DrainFrom(Last(a), 0);
    var ra := Then(r, a);
    RunThenPath(ra, b);
    var rb := Then(ra, b);
    NothingIsLostOrDoubled(rb, |rb.states| - 1);
    CallsCount(Last(rb).calls);
    var c := PushRest(Last(b));
    RunThenPath(rb, c);
    e := Then(rb, c);
  }

  // Exactly: a stop loses nothing, however the pool goes on, if and only if no
  // call is under way when it happens.
  lemma StopLosesNothingExactly(r: Run)
    requires IsRun(r) && r.steps != [] && r.steps[|r.steps| - 1] == SetStopped
    ensures r.states[|r.steps| - 1].calls == [] <==>
            forall e :: IsRun(e) && Extends(e, r) && Finished(e) ==> Last(e).accepted == Last(e).resumed
  {
    var s := |r.steps| - 1;
    assert StepAt(r, s);
    hide IsRun, Finished;
    if r.states[s].calls == [] {
      forall e | IsRun(e) && Extends(e, r) && Finished(e) ensures Last(e).accepted == Last(e).resumed {
        ExtendedStop(e, r);
      }
    } else {
      var e := PendingCallCanBeLost(r);
      assert Last(e).accepted != Last(e).resumed;
    }
  }

  lemma ExtendedStop(e: Run, r: Run)
    requires IsRun(e) && IsRun(r) && Extends(e, r) && Finished(e) && r.steps != []
    requires r.steps[|r.steps| - 1] == SetStopped && r.states[|r.steps| - 1].calls == []
    ensures Last(e).accepted == Last(e).resumed
  {
    var s := |r.steps| - 1;
    assert e.steps[s] == r.steps[s] && e.states[s] == r.states[s] && |e.states| == |e.steps| + 1;
    QuietStopLosesNothing(e, s, |e.states| - 1);
  }

  // Such stops exist: one worker, and a job scheduled just before the stop.
  lemma LatePushIsLost() returns (e: Run)
    ensures IsRun(e) && Finished(e) && |Last(e).resumed| < |Last(e).accepted|
  {
    var j := Job(0, ANY);
    var s0 := Pool(false, false, 0, [Queue([], [], false)], [Popping], [], multiset{}, multiset{});
    var s1 := s0.(calls := [Call(j, 0)], accepted := multiset{j});
    assert Next(s0, Schedule(j)) == s1;
    var r := Run([s0, s1, s1.(stopped := true)], [Schedule(j), SetStopped]);
    assert StepAt(r, 0) && StepAt(r, 1);
    e := PendingCallCanBeLost(r);
  }
}

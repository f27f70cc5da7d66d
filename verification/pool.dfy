// The work-stealing pool: workers, submitters and the shutdown as one
// transition system over every interleaving of their steps.

module Pools {

  /* ---- one queue ---- */

  const ANY: int := -1

  // A coroutine handle, and the worker it was scheduled for.
  datatype Job = Job(task: nat, want: int)

  datatype Item = Item(job: Job, canSteal: bool)

  // log holds every item ever pushed; takers says who took the first ones.
  datatype Queue = Queue(log: seq<Item>, takers: seq<nat>, stop: bool) {
    predicate Ok() { |takers| <= |log| }
    function Waiting(): seq<Item> requires Ok() { log[|takers|..] }
    function Push(x: Item): Queue { this.(log := log + [x]) }
    function Pop(w: nat): Queue { this.(takers := takers + [w]) }
  }

  // The queue as an object: each method runs under the mutex and takes the
  // same step of the queue as the pool does below.
  class BlockingQueue {
    var queue: seq<Item>
    var stopped: bool
    ghost var log: seq<Item>
    ghost var takers: seq<nat>

    ghost function State(): Queue
      reads this
    {
      Queue(log, takers, stopped)
    }

    ghost predicate Valid()
      reads this
    {
      State().Ok() && queue == State().Waiting()
    }

    constructor ()
      ensures Valid() && State() == Queue([], [], false)
    {
      queue, stopped, log, takers := [], false, [], [];
    }

    method Push(value: Item)
      requires Valid()
      modifies this
      ensures Valid() && State() == old(State()).Push(value)
    {
      queue := queue + [value];
      log := log + [value];
    }

    // free: whether the try-lock succeeds.
    method TryPush(value: Item, free: bool) returns (ok: bool)
      requires Valid()
      modifies this
      ensures Valid() && ok == free
      ensures State() == if free then old(State()).Push(value) else old(State())
    {
      if !free { return false; }
      Push(value);
      return true;
    }

    // The precondition is what the caller waits for; w is the caller.
    method Pop(blank: Item, ghost w: nat) returns (ok: bool, item: Item)
      requires Valid() && (queue != [] || stopped)
      modifies this
      ensures Valid() && (ok <==> old(State()).Waiting() != [])
      ensures ok ==> item == old(State()).Waiting()[0] && State() == old(State()).Pop(w)
      ensures !ok ==> State() == old(State())
    {
      if queue == [] { return false, blank; }
      ok, item := true, queue[0];
      queue := queue[1..];
      takers := takers + [w];
    }

    method TryPopIf(blank: Item, free: bool, ghost w: nat) returns (ok: bool, item: Item)
      requires Valid()
      modifies this
      ensures Valid() && (ok <==> free && old(State()).Waiting() != [] && old(State()).Waiting()[0].canSteal)
      ensures ok ==> item == old(State()).Waiting()[0] && State() == old(State()).Pop(w)
      ensures !ok ==> State() == old(State())
    {
      if !free || queue == [] { return false, blank; }
      if !queue[0].canSteal { return false, blank; }
      ok, item := Pop(blank, w);
    }

    method Stop()
      requires Valid()
      modifies this
      ensures Valid() && State() == old(State()).(stop := true)
    {
      stopped := true;
    }
  }

  /* ---- the pool ---- */

  datatype Phase = Stealing(i: nat) | Popping | FalsePop | Holding(item: Item) | Exited

  // A call of ScheduleById that has passed its checks and not yet pushed.
  datatype Call = Call(job: Job, tries: nat)

  datatype Pool = Pool(
    steal: bool,
    stopped: bool,
    stopping: nat,                  // queues told to stop so far
    queues: seq<Queue>,
    workers: seq<Phase>,
    calls: seq<Call>,
    accepted: multiset<Job>,
    resumed: multiset<Job>)

  datatype Step =
    | Schedule(job: Job)
    | TryPush(c: nat, free: bool)
    | Push(c: nat, q: nat)
    | TrySteal(w: nat, free: bool)
    | Pop(w: nat)
    | CheckStop(w: nat)
    | Resume(w: nat)
    | SetStopped
    | StopNext

  function Restart(p: Pool): Phase {
    if p.steal then Stealing(0) else Popping
  }

  predicate Init(p: Pool) {
    && p.queues != [] && |p.workers| == |p.queues|
    && (forall q :: 0 <= q < |p.queues| ==> p.queues[q] == Queue([], [], false))
    && (forall w :: 0 <= w < |p.workers| ==> p.workers[w] == Restart(p))
    && !p.stopped && p.stopping == 0 && p.calls == []
    && p.accepted == multiset{} && p.resumed == multiset{}
  }

  function Victim(p: Pool, w: nat, i: nat): (q: nat)
    requires p.queues != []
    ensures q < |p.queues|
  {
    (w + i) % |p.queues|
  }

  function Target(p: Pool, tries: nat): (q: nat)
    requires p.queues != []
    ensures q < |p.queues|
  {
    tries % |p.queues|
  }

  predicate Enabled(p: Pool, s: Step) {
    match s
    case Schedule(job) => job.want == ANY || 0 <= job.want < |p.queues|
    case TryPush(c, _) => c < |p.calls| && p.steal && p.calls[c].job.want == ANY && p.calls[c].tries < 2 * |p.queues|
    case Push(c, q) =>
      && c < |p.calls| && q < |p.queues|
      && (if p.calls[c].job.want == ANY then !p.steal || p.calls[c].tries == 2 * |p.queues|
          else q == p.calls[c].job.want)
    case TrySteal(w, _) => w < |p.workers| && p.workers[w].Stealing? && p.workers[w].i < |p.queues|
    case Pop(w) =>
      && w < |p.workers| && w < |p.queues|
      && (p.workers[w] == Popping || p.workers[w] == Stealing(|p.queues|))
      && p.queues[w].Ok() && (p.queues[w].Waiting() != [] || p.queues[w].stop)
    case CheckStop(w) => w < |p.workers| && p.workers[w] == FalsePop
    case Resume(w) => w < |p.workers| && p.workers[w].Holding?
    case SetStopped => !p.stopped
    case StopNext => p.stopped && p.stopping < |p.queues|
  }

  function Enqueue(p: Pool, c: nat, q: nat, x: Item): Pool
    requires c < |p.calls| && q < |p.queues|
  {
    p.(queues := p.queues[q := p.queues[q].Push(x)], calls := p.calls[..c] + p.calls[c + 1..])
  }

  function Take(p: Pool, q: nat, w: nat): Pool
    requires q < |p.queues| && w < |p.workers| && p.queues[q].Ok() && p.queues[q].Waiting() != []
  {
    p.(queues := p.queues[q := p.queues[q].Pop(w)], workers := p.workers[w := Holding(p.queues[q].Waiting()[0])])
  }

  predicate Shape(p: Pool) {
    p.queues != [] && |p.workers| == |p.queues| && forall q :: 0 <= q < |p.queues| ==> p.queues[q].Ok()
  }

  function Next(p: Pool, s: Step): Pool
    requires Shape(p) && Enabled(p, s)
  {
    match s
    case Schedule(job) =>
      if p.stopped then p
      else p.(calls := p.calls + [Call(job, 0)], accepted := p.accepted + multiset{job})
    case TryPush(c, free) =>
      var call := p.calls[c];
      if free then Enqueue(p, c, Target(p, call.tries), Item(call.job, true))
      else p.(calls := p.calls[c := call.(tries := call.tries + 1)])
    case Push(c, q) =>
      var job := p.calls[c].job;
      Enqueue(p, c, q, Item(job, job.want == ANY && p.steal))
    case TrySteal(w, free) =>
      var q := Victim(p, w, p.workers[w].i);
      if free && p.queues[q].Waiting() != [] && p.queues[q].Waiting()[0].canSteal then Take(p, q, w)
      else p.(workers := p.workers[w := Stealing(p.workers[w].i + 1)])
    case Pop(w) =>
      if p.queues[w].Waiting() != [] then Take(p, w, w)
      else p.(workers := p.workers[w := FalsePop])
    case CheckStop(w) => p.(workers := p.workers[w := if p.stopped then Exited else Restart(p)])
    case Resume(w) =>
      p.(workers := p.workers[w := Restart(p)], resumed := p.resumed + multiset{p.workers[w].item.job})
    case SetStopped => p.(stopped := true)
    case StopNext =>
      p.(queues := p.queues[p.stopping := p.queues[p.stopping].(stop := true)], stopping := p.stopping + 1)
  }

  // The tries of a worker visit every queue once, its own first.
  lemma VictimsAreAll(p: Pool, w: nat, q: nat)
    requires q < |p.queues| && w < |p.queues|
    ensures Victim(p, w, 0) == w
    ensures exists i :: 0 <= i < |p.queues| && Victim(p, w, i) == q
    ensures forall i, j :: 0 <= i < j < |p.queues| ==> Victim(p, w, i) != Victim(p, w, j)
  {
    var n := |p.queues|;
    forall i | 0 <= i < n ensures Victim(p, w, i) == if w + i < n then w + i else w + i - n { Wrap(w + i, n); }
    var i := if q >= w then q - w else q + n - w;
    assert Victim(p, w, i) == q;
  }

  // The tries of a call visit every queue twice, in order.
  lemma TargetsAreAll(p: Pool, q: nat)
    requires q < |p.queues|
    ensures Target(p, q) == q && Target(p, |p.queues| + q) == q
  {
    Wrap(q, |p.queues|);
    Wrap(|p.queues| + q, |p.queues|);
  }

  lemma Wrap(x: nat, n: nat)
    requires x < 2 * n
    ensures x % n == if x < n then x else x - n
  {
    if x >= n { assert x == n + (x - n); }
  }

  /* ---- sums ---- */

  function Each(items: seq<Item>): (r: seq<Job>)
    ensures |r| == |items| && forall i :: 0 <= i < |items| ==> r[i] == items[i].job
  {
    seq(|items|, i requires 0 <= i < |items| => items[i].job)
  }

  function Jobs(items: seq<Item>): multiset<Job> {
    multiset(Each(items))
  }

  lemma JobsSplit(a: seq<Item>, b: seq<Item>)
    ensures Jobs(a + b) == Jobs(a) + Jobs(b)
  {
    assert Each(a + b) == Each(a) + Each(b);
  }

  lemma JobsAppend(items: seq<Item>, x: Item)
    ensures Jobs(items + [x]) == Jobs(items) + multiset{x.job}
  {
    assert Each([x]) == [x.job];
    JobsSplit(items, [x]);
  }

  function Sum(ms: seq<multiset<Job>>): multiset<Job> {
    if ms == [] then multiset{} else Sum(ms[..|ms| - 1]) + ms[|ms| - 1]
  }

  lemma SameAdded(a: multiset<Job>, b: multiset<Job>, c: multiset<Job>, d: multiset<Job>, e: multiset<Job>)
    requires a + b == c + d
    ensures a + e + b == c + e + d
  {
    assert a + e + b == (a + b) + e && c + e + d == (c + d) + e;
  }

  lemma {:induction false} SumUpdate(ms: seq<multiset<Job>>, i: nat, m: multiset<Job>)
    requires i < |ms|
    ensures Sum(ms[i := m]) + ms[i] == Sum(ms) + m
  {
    var n := |ms| - 1;
    if i < n {
      SumUpdate(ms[..n], i, m);
      assert ms[i := m][..n] == ms[..n][i := m];
      SameAdded(Sum(ms[..n][i := m]), ms[i], Sum(ms[..n]), m, ms[n]);
    } else {
      assert ms[i := m][..n] == ms[..n];
      assert Sum(ms[..n]) + m + ms[n] == Sum(ms[..n]) + ms[n] + m;
    }
  }

  // The jobs ever pushed to the queues, those taken from them, those that wait
  // in them, those that workers hold and those on their way in.
  function Pushed(qs: seq<Queue>): multiset<Job> {
    Sum(PushedEach(qs))
  }

  function PushedEach(qs: seq<Queue>): (r: seq<multiset<Job>>)
    ensures |r| == |qs| && forall q :: 0 <= q < |qs| ==> r[q] == Jobs(qs[q].log)
  {
    seq(|qs|, q requires 0 <= q < |qs| => Jobs(qs[q].log))
  }

  function TakenFrom(x: Queue): multiset<Job>
    requires x.Ok()
  {
    Jobs(x.log[..|x.takers|])
  }

  function Taken(qs: seq<Queue>): multiset<Job>
    requires forall q :: 0 <= q < |qs| ==> qs[q].Ok()
  {
    Sum(TakenEach(qs))
  }

  function TakenEach(qs: seq<Queue>): (r: seq<multiset<Job>>)
    requires forall q :: 0 <= q < |qs| ==> qs[q].Ok()
    ensures |r| == |qs| && forall q :: 0 <= q < |qs| ==> r[q] == TakenFrom(qs[q])
  {
    seq(|qs|, q requires 0 <= q < |qs| => TakenFrom(qs[q]))
  }

  function Waits(qs: seq<Queue>): multiset<Job>
    requires forall q :: 0 <= q < |qs| ==> qs[q].Ok()
  {
    Sum(WaitsEach(qs))
  }

  function WaitsEach(qs: seq<Queue>): (r: seq<multiset<Job>>)
    requires forall q :: 0 <= q < |qs| ==> qs[q].Ok()
    ensures |r| == |qs| && forall q :: 0 <= q < |qs| ==> r[q] == Jobs(qs[q].Waiting())
  {
    seq(|qs|, q requires 0 <= q < |qs| => Jobs(qs[q].Waiting()))
  }

  function HeldBy(ph: Phase): multiset<Job> {
    if ph.Holding? then multiset{ph.item.job} else multiset{}
  }

  function Held(workers: seq<Phase>): multiset<Job> {
    Sum(HeldEach(workers))
  }

  function HeldEach(workers: seq<Phase>): (r: seq<multiset<Job>>)
    ensures |r| == |workers| && forall w :: 0 <= w < |workers| ==> r[w] == HeldBy(workers[w])
  {
    seq(|workers|, w requires 0 <= w < |workers| => HeldBy(workers[w]))
  }

  function InCalls(calls: seq<Call>): multiset<Job> {
    multiset(EachCall(calls))
  }

  function EachCall(calls: seq<Call>): (r: seq<Job>)
    ensures |r| == |calls| && forall c :: 0 <= c < |calls| ==> r[c] == calls[c].job
  {
    seq(|calls|, c requires 0 <= c < |calls| => calls[c].job)
  }

  lemma PushedUpdate(qs: seq<Queue>, q: nat, x: Queue)
    requires q < |qs|
    ensures Pushed(qs[q := x]) + Jobs(qs[q].log) == Pushed(qs) + Jobs(x.log)
  {
    hide Jobs, Sum;
    SumUpdate(PushedEach(qs), q, Jobs(x.log));
    assert PushedEach(qs[q := x]) == PushedEach(qs)[q := Jobs(x.log)];
  }

  lemma TakenUpdate(qs: seq<Queue>, q: nat, x: Queue)
    requires q < |qs| && x.Ok() && forall i :: 0 <= i < |qs| ==> qs[i].Ok()
    ensures Taken(qs[q := x]) + TakenFrom(qs[q]) == Taken(qs) + TakenFrom(x)
  {
    hide TakenFrom, Sum;
    SumUpdate(TakenEach(qs), q, TakenFrom(x));
    assert TakenEach(qs[q := x]) == TakenEach(qs)[q := TakenFrom(x)];
  }

  lemma HeldUpdate(ws: seq<Phase>, w: nat, ph: Phase)
    requires w < |ws|
    ensures Held(ws[w := ph]) + HeldBy(ws[w]) == Held(ws) + HeldBy(ph)
  {
    hide HeldBy, Sum;
    SumUpdate(HeldEach(ws), w, HeldBy(ph));
    assert HeldEach(ws[w := ph]) == HeldEach(ws)[w := HeldBy(ph)];
  }

  lemma {:induction false} SumOfSums(ms: seq<multiset<Job>>, xs: seq<multiset<Job>>, ys: seq<multiset<Job>>)
    requires |ms| == |xs| == |ys| && forall i :: 0 <= i < |ms| ==> ms[i] == xs[i] + ys[i]
    ensures Sum(ms) == Sum(xs) + Sum(ys)
  {
    if ms != [] {
      var n := |ms| - 1;
      SumOfSums(ms[..n], xs[..n], ys[..n]);
      assert Sum(xs[..n]) + Sum(ys[..n]) + (xs[n] + ys[n]) == Sum(xs[..n]) + xs[n] + (Sum(ys[..n]) + ys[n]);
    }
  }

  // What was pushed is what was taken and what still waits.
  lemma PushedIsTakenAndWaiting(qs: seq<Queue>)
    requires forall q :: 0 <= q < |qs| ==> qs[q].Ok()
    ensures Pushed(qs) == Taken(qs) + Waits(qs)
  {
    hide Jobs, Sum;
    forall q | 0 <= q < |qs| ensures PushedEach(qs)[q] == TakenEach(qs)[q] + WaitsEach(qs)[q] {
      var x := qs[q];
      assert x.log == x.log[..|x.takers|] + x.Waiting();
      JobsSplit(x.log[..|x.takers|], x.Waiting());
    }
    SumOfSums(PushedEach(qs), TakenEach(qs), WaitsEach(qs));
  }

  lemma CallsAppend(calls: seq<Call>, c: Call)
    ensures InCalls(calls + [c]) == InCalls(calls) + multiset{c.job}
  {
    assert EachCall(calls + [c]) == EachCall(calls) + [c.job];
  }

  lemma CallsUpdate(calls: seq<Call>, c: nat, x: Call)
    requires c < |calls| && x.job == calls[c].job
    ensures InCalls(calls[c := x]) == InCalls(calls)
  {
    assert EachCall(calls[c := x]) == EachCall(calls);
  }

  lemma CallsRemove(calls: seq<Call>, c: nat)
    requires c < |calls|
    ensures InCalls(calls[..c] + calls[c + 1..]) + multiset{calls[c].job} == InCalls(calls)
  {
    var front, back := EachCall(calls[..c]), EachCall(calls[c + 1..]);
    assert EachCall(calls[..c] + calls[c + 1..]) == front + back;
    assert EachCall(calls) == front + [calls[c].job] + back;
  }

  /* ---- the invariant ---- */

  // An item pinned to a worker stands in that worker's queue, and whoever took
  // an item that may not be stolen is that queue's worker.
  predicate QueueOk(x: Queue, q: nat, steal: bool, stopped: bool) {
    && x.Ok()
    && (forall k :: 0 <= k < |x.log| ==> ItemOk(x.log[k], q, steal))
    && (forall k :: 0 <= k < |x.takers| ==> x.log[k].canSteal || x.takers[k] == q)
    && (x.stop ==> stopped)
  }

  predicate ItemOk(x: Item, q: nat, steal: bool) {
    && (x.job.want != ANY ==> x.job.want == q && !x.canSteal)
    && (x.canSteal ==> steal)
  }

  predicate Conserved(p: Pool)
    requires Shape(p)
  {
    && p.accepted == InCalls(p.calls) + Pushed(p.queues)
    && Taken(p.queues) == p.resumed + Held(p.workers)
  }

  predicate Inv(p: Pool) {
    && Shape(p)
    && (forall q :: 0 <= q < |p.queues| ==> QueueOk(p.queues[q], q, p.steal, p.stopped))
    && (forall w :: 0 <= w < |p.workers| && (p.workers[w].FalsePop? || p.workers[w].Exited?) ==> p.stopped)
    && Conserved(p)
  }

  lemma {:induction false} SumZero(ms: seq<multiset<Job>>)
    requires forall i :: 0 <= i < |ms| ==> ms[i] == multiset{}
    ensures Sum(ms) == multiset{}
  {
    if ms != [] { SumZero(ms[..|ms| - 1]); }
  }

  lemma InitSums(p: Pool)
    requires Init(p) && Shape(p)
    ensures Pushed(p.queues) == Taken(p.queues) == Held(p.workers) == multiset{}
  {
    hide Sum;
    SumZero(PushedEach(p.queues));
    SumZero(TakenEach(p.queues));
    SumZero(HeldEach(p.workers));
  }

  lemma InitInv(p: Pool)
    requires Init(p)
    ensures Inv(p)
  {
    hide Pushed, Taken, Held;
    InitSums(p);
  }

  lemma EnqueueKeeps(p: Pool, c: nat, q: nat, x: Item)
    requires Inv(p) && c < |p.calls| && q < |p.queues| && x.job == p.calls[c].job && ItemOk(x, q, p.steal)
    ensures Inv(Enqueue(p, c, q, x))
  {
    hide Pushed, Taken, Held, InCalls, Jobs;
    var before := p.queues[q];
    var after := before.Push(x);
    CallsRemove(p.calls, c);
    JobsAppend(before.log, x);
    PushedUpdate(p.queues, q, after);
    assert after.log[..|after.takers|] == before.log[..|before.takers|];
    TakenUpdate(p.queues, q, after);
    var r := Enqueue(p, c, q, x);
    MovedIn(InCalls(r.calls), InCalls(p.calls), Pushed(r.queues), Pushed(p.queues), Jobs(before.log), x.job);
    Cancel(Taken(r.queues), Taken(p.queues), TakenFrom(before));
  }

  lemma MovedIn(calls: multiset<Job>, calls0: multiset<Job>, pushed: multiset<Job>, pushed0: multiset<Job>,
                log: multiset<Job>, job: Job)
    requires calls + multiset{job} == calls0
    requires pushed + log == pushed0 + (log + multiset{job})
    ensures calls + pushed == calls0 + pushed0
  {
    assert pushed0 + (log + multiset{job}) == (pushed0 + multiset{job}) + log;
    Cancel(pushed, pushed0 + multiset{job}, log);
  }

  lemma Cancel(a: multiset<Job>, b: multiset<Job>, c: multiset<Job>)
    requires a + c == b + c
    ensures a == b
  {
    assert a == (a + c) - c && b == (b + c) - c;
  }

  lemma TakeKeeps(p: Pool, q: nat, w: nat)
    requires Inv(p) && q < |p.queues| && w < |p.workers| && p.queues[q].Waiting() != []
    requires !p.workers[w].Holding? && (p.queues[q].Waiting()[0].canSteal || w == q)
    ensures Inv(Take(p, q, w))
  {
    hide Pushed, Taken, Held, InCalls, Jobs;
    var before := p.queues[q];
    var after := before.Pop(w);
    var x := before.Waiting()[0];
    assert after.log[..|after.takers|] == before.log[..|before.takers|] + [x];
    JobsAppend(before.log[..|before.takers|], x);
    TakenUpdate(p.queues, q, after);
    PushedUpdate(p.queues, q, after);
    HeldUpdate(p.workers, w, Holding(x));
    Cancel(Held(p.workers[w := Holding(x)]), Held(p.workers) + multiset{x.job}, multiset{});
    var r := Take(p, q, w);
    Cancel(Pushed(r.queues), Pushed(p.queues), Jobs(before.log));
    MovedOut(Taken(r.queues), Taken(p.queues), Held(r.workers), Held(p.workers), TakenFrom(before), p.resumed, x.job);
  }

  lemma MovedOut(taken: multiset<Job>, taken0: multiset<Job>, held: multiset<Job>, held0: multiset<Job>,
                 from: multiset<Job>, resumed: multiset<Job>, job: Job)
    requires taken + from == taken0 + (from + multiset{job})
    requires held == held0 + multiset{job}
    requires taken0 == resumed + held0
    ensures taken == resumed + held
  {
    assert taken0 + (from + multiset{job}) == (taken0 + multiset{job}) + from;
    Cancel(taken, taken0 + multiset{job}, from);
    assert resumed + held0 + multiset{job} == resumed + (held0 + multiset{job});
  }

  // A change of phase that neither takes nor drops an item.
  lemma PhaseKeeps(p: Pool, w: nat, ph: Phase)
    requires Inv(p) && w < |p.workers| && !p.workers[w].Holding? && !ph.Holding?
    requires ph.FalsePop? || ph.Exited? ==> p.stopped
    ensures Inv(p.(workers := p.workers[w := ph]))
  {
    hide Pushed, Taken, Held, InCalls;
    HeldUpdate(p.workers, w, ph);
    Cancel(Held(p.workers[w := ph]), Held(p.workers), multiset{});
  }

  lemma ResumeKeeps(p: Pool, w: nat)
    requires Inv(p) && Enabled(p, Resume(w))
    ensures Inv(Next(p, Resume(w)))
  {
    hide Pushed, Taken, Held, InCalls;
    var ph, job := Restart(p), p.workers[w].item.job;
    HeldUpdate(p.workers, w, ph);
    var ws := p.workers[w := ph];
    Cancel(Held(ws) + multiset{job}, Held(p.workers), multiset{});
    assert p.resumed + (Held(ws) + multiset{job}) == (p.resumed + multiset{job}) + Held(ws);
  }

  lemma StopNextKeeps(p: Pool)
    requires Inv(p) && Enabled(p, StopNext)
    ensures Inv(Next(p, StopNext))
  {
    hide Pushed, Taken, Held, InCalls;
    var q := p.stopping;
    var x := p.queues[q].(stop := true);
    PushedUpdate(p.queues, q, x);
    TakenUpdate(p.queues, q, x);
    Cancel(Pushed(p.queues[q := x]), Pushed(p.queues), Jobs(x.log));
    Cancel(Taken(p.queues[q := x]), Taken(p.queues), TakenFrom(x));
  }

  lemma CallKeeps(p: Pool, s: Step)
    requires Inv(p) && Enabled(p, s) && (s.Schedule? || (s.TryPush? && !s.free) || s.SetStopped?)
    ensures Inv(Next(p, s))
  {
    hide Pushed, Taken, Held, InCalls;
    match s
    case Schedule(job) =>
      CallsAppend(p.calls, Call(job, 0));
      assert InCalls(p.calls) + multiset{job} + Pushed(p.queues) == InCalls(p.calls) + Pushed(p.queues) + multiset{job};
    case TryPush(c, _) => CallsUpdate(p.calls, c, p.calls[c].(tries := p.calls[c].tries + 1));
    case SetStopped =>
  }

  lemma StepKeepsInv(p: Pool, s: Step)
    requires Inv(p) && Enabled(p, s)
    ensures Inv(Next(p, s))
  {
    hide Conserved, QueueOk;
    match s
    case Schedule(_) => CallKeeps(p, s);
    case SetStopped => CallKeeps(p, s);
    case TryPush(c, free) =>
      var call := p.calls[c];
      if free { EnqueueKeeps(p, c, Target(p, call.tries), Item(call.job, true)); } else { CallKeeps(p, s); }
    case Push(c, q) => EnqueueKeeps(p, c, q, Item(p.calls[c].job, p.calls[c].job.want == ANY && p.steal));
    case TrySteal(w, free) =>
      var q := Victim(p, w, p.workers[w].i);
      if free && p.queues[q].Waiting() != [] && p.queues[q].Waiting()[0].canSteal { TakeKeeps(p, q, w); }
      else { PhaseKeeps(p, w, Stealing(p.workers[w].i + 1)); }
    case Pop(w) =>
      if p.queues[w].Waiting() != [] { TakeKeeps(p, w, w); }
      else {
        StopFlag(p, w);
        PhaseKeeps(p, w, FalsePop);
      }
    case CheckStop(w) => PhaseKeeps(p, w, if p.stopped then Exited else Restart(p));
    case Resume(w) => ResumeKeeps(p, w);
    case StopNext => StopNextKeeps(p);
  }

  lemma StopFlag(p: Pool, q: nat)
    requires Inv(p) && q < |p.queues| && p.queues[q].stop
    ensures p.stopped
  {
    assert QueueOk(p.queues[q], q, p.steal, p.stopped);
  }
}

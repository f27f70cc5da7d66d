// What every run of the cluster keeps.

module RaftSafety {
  import opened RaftNode
  import opened RaftCluster

  /* ---- history only grows ---- */

  lemma StepGrows(c: Cluster, step: Step, i: int)
    requires Shape(c) && Enabled(c, step) && Timely(c, step)
    requires IsId(c, i) && LocalInv(c.nodes[i], c.past[i])
    ensures var d := Next(c, step);
            && |d.nodes| == |c.nodes| && |d.past| == |c.past|
            && Grows(c.past[i], d.past[i]) && c.nodes[i].term <= d.nodes[i].term
  {
    if step.HandleVote? && step.m.dst == i {
      assert c.nodes[i].role == Candidate ==> c.nodes[i].term !in c.past[i].won;
    }
  }

  lemma GrowsHere(c: Cluster, step: Step, i: int)
    requires Inv(c) && Enabled(c, step) && Timely(c, step) && IsId(c, i)
    ensures var d := Next(c, step);
            && IsId(d, i) && |d.nodes| == |c.nodes|
            && Grows(c.past[i], d.past[i]) && c.nodes[i].term <= d.nodes[i].term
  {
    assert LocalInv(c.nodes[i], c.past[i]);
    StepGrows(c, step, i);
  }

  lemma {:induction false} RunSize(r: Run, n: nat, k: nat)
    requires IsRun(r, n) && k < |r.states|
    ensures |r.states[k].nodes| == n && |r.states[k].past| == n
  {
    if k > 0 {
      RunSize(r, n, k - 1);
      assert StepAt(r, k - 1);
    }
  }

  // One step of a run, seen from node i.
  lemma RunStep(r: Run, n: nat, k: nat, i: nat)
    requires TimelyRun(r, n) && k < |r.steps| && i < n
    ensures IsId(r.states[k], i) && IsId(r.states[k + 1], i)
    ensures Grows(r.states[k].past[i], r.states[k + 1].past[i])
    ensures r.states[k].nodes[i].term <= r.states[k + 1].nodes[i].term
    ensures r.states[k].nodes[i].role == Leader ==> LeadsOn(r.states[k].nodes[i], r.states[k + 1].nodes[i])
  {
    RunSize(r, n, k);
    RunsKeepInv(r, n, k);
    assert TimelyAt(r, k);
    GrowsHere(r.states[k], r.steps[k], i);
    if r.states[k].nodes[i].role == Leader { LeaderHere(r.states[k], r.steps[k], i); }
  }

  lemma {:induction false} RunGrows(r: Run, n: nat, k: nat, l: nat, i: nat)
    requires TimelyRun(r, n) && k <= l < |r.states| && i < n
    ensures IsId(r.states[k], i) && IsId(r.states[l], i)
    ensures Grows(r.states[k].past[i], r.states[l].past[i])
    ensures r.states[k].nodes[i].term <= r.states[l].nodes[i].term
    decreases l - k
  {
    if k == l {
      RunSize(r, n, k);
    } else {
      RunGrows(r, n, k, l - 1, i);
      RunStep(r, n, l - 1, i);
    }
  }

  /* ---- Election Safety (section 5.2 of the Raft paper) ---- */

  ghost predicate LeadsAt(r: Run, k: nat, i: nat, term: int)
    requires k < |r.states|
  {
    i < |r.states[k].nodes| && r.states[k].nodes[i].role == Leader && r.states[k].nodes[i].term == term
  }

  // At whatever two moments of a run two nodes lead the same term, they are one node.
  lemma ElectionSafety(r: Run, n: nat, k: nat, l: nat, i: nat, j: nat, term: int)
    requires TimelyRun(r, n) && k < |r.states| && l < |r.states| && i < n && j < n
    requires LeadsAt(r, k, i, term) && LeadsAt(r, l, j, term)
    ensures i == j
  {
    var last := if k < l then l else k;
    RunsKeepInv(r, n, k);
    RunsKeepInv(r, n, l);
    RunsKeepInv(r, n, last);
    RunGrows(r, n, k, last, i);
    RunGrows(r, n, l, last, j);
    assert LocalInv(r.states[k].nodes[i], r.states[k].past[i]);
    assert LocalInv(r.states[l].nodes[j], r.states[l].past[j]);
    assert OneLeaderPerTerm(r.states[last]);
  }

  // Votes within one term: at most one of them is for another node, and a node
  // that also voted for itself never leads that term, at any time in the run.
  lemma VoteDiscipline(r: Run, n: nat, k: nat, l: nat, v: nat, a: Ballot, b: Ballot)
    requires TimelyRun(r, n) && k < |r.states| && l < |r.states| && v < n
    requires IsId(r.states[k], v)
    requires a in r.states[k].past[v].votes && b in r.states[k].past[v].votes
    requires a.term == b.term && a.candidate != b.candidate
    ensures a.candidate == v || b.candidate == v
    ensures !LeadsAt(r, l, v, a.term)
  {
    var last := if k < l then l else k;
    RunsKeepInv(r, n, k);
    RunsKeepInv(r, n, l);
    RunsKeepInv(r, n, last);
    RunGrows(r, n, k, last, v);
    RunGrows(r, n, l, last, v);
    assert LocalInv(r.states[k].nodes[v], r.states[k].past[v]);
    assert LocalInv(r.states[l].nodes[v], r.states[l].past[v]);
    assert LocalInv(r.states[last].nodes[v], r.states[last].past[v]);
  }

  /* ---- a leader keeps its term and its log ---- */

  ghost predicate ExtendsWithTerm(log: seq<Entry>, longer: seq<Entry>, term: int) {
    && |log| <= |longer| && longer[..|log|] == log
    && forall x :: |log| <= x < |longer| ==> longer[x].term == term
  }

  // Still leading the same term, with a log that only grew; or in a larger term.
  ghost predicate LeadsOn(s: NodeState, t: NodeState) {
    t.term > s.term || (t.term == s.term && t.role == Leader && ExtendsWithTerm(s.log, t.log, s.term))
  }

  lemma LeaderStep(c: Cluster, step: Step, i: int)
    requires Shape(c) && Enabled(c, step) && Timely(c, step) && IsId(c, i)
    requires c.nodes[i].role == Leader
    requires step.HandleAppend? && step.m.dst == i ==> step.m.body.term != c.nodes[i].term
    ensures IsId(Next(c, step), i) && LeadsOn(c.nodes[i], Next(c, step).nodes[i])
  {
    match step
    case Election(_) =>
    case HandleAskVote(_) =>
    case HandleVote(_) =>
    case HandleAppend(_) =>
    case HandleAppendReply(_, _, _, _, _) =>
    case _ =>
  }

  lemma LeaderHere(c: Cluster, step: Step, i: int)
    requires Inv(c) && Enabled(c, step) && Timely(c, step) && IsId(c, i)
    requires c.nodes[i].role == Leader
    ensures IsId(Next(c, step), i) && LeadsOn(c.nodes[i], Next(c, step).nodes[i])
  {
    if step.HandleAppend? { LeaderSeesNoRival(c, step.m); }
    LeaderStep(c, step, i);
  }

  lemma LeadsOnTransitive(s: NodeState, t: NodeState, u: NodeState)
    requires LeadsOn(s, t) && t.term <= u.term && (t.role == Leader ==> LeadsOn(t, u))
    ensures LeadsOn(s, u)
  {
    if u.term == s.term {
      assert u.log[..|s.log|] == u.log[..|t.log|][..|s.log|];
    }
  }

  // Leadership is lost only to a larger term; until then the leader only
  // appends entries of its own term.
  lemma {:induction false} LeaderAppendsOnly(r: Run, n: nat, k: nat, l: nat, i: nat)
    requires TimelyRun(r, n) && k <= l < |r.states| && i < n
    requires IsId(r.states[k], i) && r.states[k].nodes[i].role == Leader
    ensures IsId(r.states[l], i) && LeadsOn(r.states[k].nodes[i], r.states[l].nodes[i])
    decreases l
  {
    if k < l {
      LeaderAppendsOnly(r, n, k, l - 1, i);
      RunStep(r, n, l - 1, i);
      LeadsOnTransitive(r.states[k].nodes[i], r.states[l - 1].nodes[i], r.states[l].nodes[i]);
    }
  }

  /* ---- commit and apply: these hold of every run, timely or not ---- */

  function Actor(step: Step): int {
    match step
    case HandleAskVote(m) => m.dst
    case HandleVote(m) => m.dst
    case HandleAppend(m) => m.dst
    case _ => step.i
  }

  // A step changes no node but its actor.
  lemma OnlyActorChanges(c: Cluster, step: Step)
    requires Shape(c) && Enabled(c, step)
    ensures var i, d := Actor(step), Next(c, step);
            IsId(c, i) && IsId(d, i) && d == With(c, i, d.nodes[i], d.past[i]).(sent := d.sent)
  {
    match step
    case HandleAskVote(m) => assert MessageShape(c, m);
    case HandleVote(m) => assert MessageShape(c, m);
    case HandleAppend(m) => assert MessageShape(c, m);
    case Heartbeat(i, _) => assert c.nodes[i := c.nodes[i]] == c.nodes && c.past[i := c.past[i]] == c.past;
    case Replicate(i, _) => assert c.nodes[i := c.nodes[i]] == c.nodes && c.past[i := c.past[i]] == c.past;
    case _ =>
  }

  lemma ActorShape(c: Cluster, step: Step)
    requires Shape(c) && Enabled(c, step)
    ensures IsId(c, Actor(step)) && |Next(c, step).nodes| == |c.nodes|
    ensures NodeShape(Next(c, step).nodes[Actor(step)], Actor(step), |c.nodes|)
  {
    OnlyActorChanges(c, step);
    assert NodeShape(c.nodes[Actor(step)], Actor(step), |c.nodes|);
    match step
    case HandleAppend(m) => AppendKeepsShape(c.nodes[m.dst], m.dst, |c.nodes|, m.body);
    case HandleAppendReply(i, target, asked, count, answer) =>
      AppendReplyKeepsShape(c.nodes[i], i, |c.nodes|, target, asked, count, answer);
    case _ =>
  }

  lemma SentShape(c: Cluster, step: Step, m: Message)
    requires Shape(c) && Enabled(c, step) && m in Next(c, step).sent
    ensures MessageShape(c, m)
  {
    if step.HandleAskVote? { assert MessageShape(c, step.m); }
  }

  lemma ShapeKept(c: Cluster, step: Step)
    requires Shape(c) && Enabled(c, step)
    ensures Shape(Next(c, step))
  {
    var d := Next(c, step);
    OnlyActorChanges(c, step);
    ActorShape(c, step);
    forall m | m in d.sent ensures MessageShape(c, m) { SentShape(c, step, m); }
    hide Next, Enabled;
    forall i | 0 <= i < |d.nodes| ensures NodeShape(d.nodes[i], i, |d.nodes|) {
      assert NodeShape(c.nodes[i], i, |c.nodes|);
    }
    forall m | m in d.sent ensures MessageShape(d, m) { assert MessageShape(c, m); }
  }

  // The log does not shrink, the commit index does not move back, and the
  // state machine is given each slot once, in order, from inside the log.
  ghost predicate Advances(s: NodeState, t: NodeState) {
    && |s.log| <= |t.log|
    && s.commitIndex <= t.commitIndex
    && 0 <= s.lastApplied <= t.lastApplied <= t.commitIndex
    && t.lastApplied <= |s.log|
    && t.applied == s.applied + Commands(s.log[s.lastApplied..t.lastApplied])
  }

  lemma AppendAdvances(s: NodeState, body: AppendArgs)
    requires LogSafe(s) && 0 <= body.prevIndex
    ensures Advances(s, OnAppend(s, body).0)
  {
    hide MergeLog, PrevMatches, Commands;
    assert Commands(s.log[s.lastApplied..s.lastApplied]) == [];
  }

  lemma Stays(s: NodeState, t: NodeState)
    requires LogSafe(s) && t.log == s.log && t.commitIndex == s.commitIndex
    requires t.lastApplied == s.lastApplied && t.applied == s.applied
    ensures Advances(s, t)
  {
    assert Commands(s.log[s.lastApplied..s.lastApplied]) == [];
  }

  lemma ReplyAdvances(s: NodeState, target: nat, asked: int, sent: nat, reply: AppendReply)
    requires LogSafe(s) && (s.role == Leader ==> Tracks(s, target))
    ensures Advances(s, OnAppendReply(s, target, asked, sent, reply))
  {
    assert Commands(s.log[s.lastApplied..s.lastApplied]) == [];
  }

  lemma ActorAdvances(c: Cluster, step: Step)
    requires Shape(c) && Enabled(c, step) && IsId(c, Actor(step))
    ensures |Next(c, step).nodes| == |c.nodes| && Advances(c.nodes[Actor(step)], Next(c, step).nodes[Actor(step)])
  {
    hide Advances, OnAppend, OnAppendReply;
    var s := c.nodes[Actor(step)];
    assert NodeShape(s, Actor(step), |c.nodes|);
    match step
    case HandleAppend(m) => assert MessageShape(c, m); AppendAdvances(s, m.body);
    case HandleAppendReply(_, target, asked, count, answer) => ReplyAdvances(s, target, asked, count, answer);
    case Apply(_) => ApplyAdvances(s);
    case Submit(_, cmd) => CommandAdvances(s, cmd);
    case _ => Stays(s, Next(c, step).nodes[Actor(step)]);
  }

  lemma ApplyAdvances(s: NodeState)
    requires LogSafe(s)
    ensures Advances(s, ApplyCommitted(s))
  {
  }

  lemma CommandAdvances(s: NodeState, cmd: Command)
    requires LogSafe(s)
    ensures Advances(s, OnCommand(s, cmd))
  {
    assert Commands(s.log[s.lastApplied..s.lastApplied]) == [];
  }

  lemma StepAdvances(c: Cluster, step: Step, i: int)
    requires Shape(c) && Enabled(c, step) && IsId(c, i)
    ensures |Next(c, step).nodes| == |c.nodes| && Advances(c.nodes[i], Next(c, step).nodes[i])
  {
    hide Advances, Next, Enabled;
    OnlyActorChanges(c, step);
    ActorAdvances(c, step);
    assert NodeShape(c.nodes[i], i, |c.nodes|);
    if i != Actor(step) { Stays(c.nodes[i], Next(c, step).nodes[i]); }
  }

  lemma {:induction false} RunCommitsSafely(r: Run, n: nat, k: nat, i: nat)
    requires IsRun(r, n) && k < |r.states| && i < n
    ensures Shape(r.states[k]) && |r.states[k].nodes| == n && LogSafe(r.states[k].nodes[i])
    ensures k > 0 ==> |r.states[k - 1].nodes| == n && Advances(r.states[k - 1].nodes[i], r.states[k].nodes[i])
  {
    if k > 0 {
      RunCommitsSafely(r, n, k - 1, i);
      assert StepAt(r, k - 1);
      ShapeKept(r.states[k - 1], r.steps[k - 1]);
      StepAdvances(r.states[k - 1], r.steps[k - 1], i);
    }
    assert NodeShape(r.states[k].nodes[i], i, n);
  }

  /* ---- what the wire makes of append replies ---- */

  // AppendEntriesReply serializes no field, and the response it is read into
  // starts zeroed, so every reply reads like this.
  const WIRE_REPLY := AppendReply(0, false)

  ghost predicate WireStep(step: Step) {
    step.HandleAppendReply? ==> step.answer == WIRE_REPLY
  }

  ghost predicate Idle(c: Cluster)
    requires Shape(c)
  {
    && (forall i :: IsId(c, i) ==> c.nodes[i].commitIndex == 0)
    && (forall m :: m in c.sent && m.Append? ==> m.body.leaderCommit == 0)
  }

  lemma WireStepStaysIdle(c: Cluster, step: Step)
    requires Shape(c) && Enabled(c, step) && WireStep(step) && Idle(c)
    ensures Shape(Next(c, step)) && Idle(Next(c, step))
  {
    ShapeKept(c, step);
  }

  // With the codec as written no run ever commits or applies anything.
  lemma {:induction false} NothingIsEverApplied(r: Run, n: nat, k: nat, i: nat)
    requires IsRun(r, n) && k < |r.states| && i < n
    requires forall x :: 0 <= x < |r.steps| ==> WireStep(r.steps[x])
    ensures Shape(r.states[k]) && |r.states[k].nodes| == n && Idle(r.states[k])
    ensures r.states[k].nodes[i].commitIndex == 0 && r.states[k].nodes[i].applied == []
  {
    if k > 0 {
      NothingIsEverApplied(r, n, k - 1, i);
      assert StepAt(r, k - 1);
      WireStepStaysIdle(r.states[k - 1], r.steps[k - 1]);
    }
    RunCommitsSafely(r, n, k, i);
  }

  /* ---- log positions ---- */

  // The sender counts log positions from one and the receiver from zero: a
  // follower that accepts a leader's entries always ends with more entries
  // than that leader has, so it never holds the leader's log.
  lemma ReplicationOvershoots(s: NodeState, target: nat, log: seq<Entry>)
    requires Tracks(s, target) && 1 <= s.nextIndex[target] <= |s.log|
    requires PrevMatches(log, EntriesFor(s, target))
    ensures |MergeLog(log, EntriesFor(s, target))| > |s.log|
  {
    var args := EntriesFor(s, target);
    AgreeingIsLongest(log, args.prevIndex + 1, args.entries);
  }

  /* ---- how sharp the hypothesis is ---- */

  // Handling a vote reply keeps the invariant exactly when the reply is
  // timely, or when the voter has, by luck, also voted in the current term.
  lemma VoteReplyExact(c: Cluster, m: Message)
    requires Inv(c) && Enabled(c, HandleVote(m))
    ensures Inv(Next(c, HandleVote(m))) <==>
            (|| Timely(c, HandleVote(m))
             || (m.reply.granted && VotedFor(c, m.src, m.dst, c.nodes[m.dst].term)))
  {
    var s := c.nodes[m.dst];
    var d := Next(c, HandleVote(m));
    assert MessageShape(c, m) && TellsTruth(c, m) && LocalInv(s, c.past[m.dst]);
    if Timely(c, HandleVote(m)) {
      VoteKeeps(c, m);
    } else if m.reply.granted && VotedFor(c, m.src, m.dst, s.term) {
      TallyKeeps(c, m.dst, m.src, true);
    } else if m.reply.granted {
      assert m.src in d.nodes[m.dst].followers && !VotedFor(d, m.src, m.dst, s.term);
      assert !FollowersVoted(d, m.dst);
    } else {
      assert Ballot(s.id, s.term) in d.past[m.dst].votes && d.nodes[m.dst].term < s.term;
      assert !LocalInv(d.nodes[m.dst], d.past[m.dst]);
    }
  }

  // Append replies off the wire are always timely.
  lemma WireRepliesAreTimely(s: NodeState, asked: int)
    requires asked >= 0
    ensures TimelyAppend(s, asked, WIRE_REPLY)
  {
  }

  // So with the codec as written only vote replies have to be timely.
  ghost predicate WireAt(r: Run, k: int) {
    && StepAt(r, k) && WireStep(r.steps[k])
    && match r.steps[k]
       case HandleVote(m) => TimelyVote(r.states[k].nodes[m.dst], m.asked, m.reply)
       case HandleAppendReply(_, _, asked, _, _) => asked >= 0
       case _ => true
  }

  ghost predicate WireRun(r: Run, n: nat) {
    && IsRun(r, n)
    && forall k {:trigger WireAt(r, k)} :: 0 <= k < |r.steps| ==> WireAt(r, k)
  }

  lemma WireRunIsTimely(r: Run, n: nat)
    requires WireRun(r, n)
    ensures TimelyRun(r, n)
  {
    hide Next;
    forall k | 0 <= k < |r.steps| ensures TimelyAt(r, k) { assert WireAt(r, k); }
  }

  lemma WireElectionSafety(r: Run, n: nat, k: nat, l: nat, i: nat, j: nat, term: int)
    requires WireRun(r, n) && k < |r.states| && l < |r.states| && i < n && j < n
    requires LeadsAt(r, k, i, term) && LeadsAt(r, l, j, term)
    ensures i == j
  {
    hide IsRun;
    WireRunIsTimely(r, n);
    ElectionSafety(r, n, k, l, i, j, term);
  }

  /* ---- when every reply is handled in the term it was asked in ---- */

  ghost predicate InTerm(c: Cluster, step: Step)
    requires Shape(c) && Enabled(c, step)
  {
    match step
    case HandleVote(m) => m.asked == c.nodes[m.dst].term
    case HandleAppendReply(i, _, asked, _, _) => asked == c.nodes[i].term
    case _ => true
  }

  ghost predicate OtherLed(c: Cluster, v: int, term: int) {
    exists j :: IsId(c, j) && j != v && term in c.past[j].won
  }

  // A node that voted for itself votes for another, or gives up its
  // candidacy, only once some other node has led that term.
  ghost predicate Excused(c: Cluster, v: int, s: NodeState, h: History) {
    && (forall b :: b in h.votes && b.candidate != v && Ballot(v, b.term) in h.votes ==> OtherLed(c, v, b.term))
    && (s.role == Follower && Ballot(v, s.term) in h.votes ==> OtherLed(c, v, s.term))
  }

  ghost predicate AllExcused(c: Cluster) {
    forall v :: IsId(c, v) ==> Excused(c, v, c.nodes[v], c.past[v])
  }

  lemma ExcusesPersist(c: Cluster, i: int, t: NodeState, g: History, more: set<Message>)
    requires AllExcused(c) && IsId(c, i)
    requires Grows(c.past[i], g) && Excused(c, i, t, g)
    ensures AllExcused(With(c, i, t, g).(sent := more))
  {
    var d := With(c, i, t, g).(sent := more);
    forall v, term | OtherLed(c, v, term)
      ensures OtherLed(d, v, term)
    {
      var j :| IsId(c, j) && j != v && term in c.past[j].won;
      assert IsId(d, j) && term in d.past[j].won;
    }
    forall v | IsId(d, v)
      ensures Excused(d, v, d.nodes[v], d.past[v])
    {
      assert Excused(c, v, c.nodes[v], c.past[v]);
    }
  }

  lemma VoterExcused(c: Cluster, v: int, args: VoteArgs)
    requires Inv(c) && AllExcused(c) && IsId(c, v) && args.candidate != v
    ensures var (u, reply) := OnVoteRequest(c.nodes[v], args);
            var h := AfterRequest(c.past[v], args, reply);
            Grows(c.past[v], h) && Excused(c, v, u, h)
  {
    assert LocalInv(c.nodes[v], c.past[v]) && Excused(c, v, c.nodes[v], c.past[v]);
  }

  // A node that cast no vote: in a larger term, in the same role, or stepping
  // down because another node leads.
  lemma QuietExcused(c: Cluster, i: int, t: NodeState, won: map<int, set<nat>>)
    requires Inv(c) && AllExcused(c) && IsId(c, i)
    requires t.term > c.nodes[i].term || (t.term == c.nodes[i].term &&
      (t.role == c.nodes[i].role || t.role != Follower || OtherLed(c, i, t.term)))
    ensures Excused(c, i, t, c.past[i].(won := won))
  {
    assert LocalInv(c.nodes[i], c.past[i]) && Excused(c, i, c.nodes[i], c.past[i]);
  }

  lemma ElectionExcused(c: Cluster, i: int)
    requires Inv(c) && AllExcused(c) && IsId(c, i)
    ensures var t := ToCandidate(c.nodes[i], c.nodes[i].term + 1); Excused(c, i, t, Voted(c.past[i], i, t.term))
  {
    assert LocalInv(c.nodes[i], c.past[i]) && Excused(c, i, c.nodes[i], c.past[i]);
  }

  lemma AppendExcused(c: Cluster, m: Message)
    requires Inv(c) && AllExcused(c) && Enabled(c, HandleAppend(m))
    ensures Excused(c, m.dst, OnAppend(c.nodes[m.dst], m.body).0, c.past[m.dst])
  {
    assert MessageShape(c, m) && TellsTruth(c, m);
    assert IsId(c, m.src) && m.body.term in c.past[m.src].won;
    QuietExcused(c, m.dst, OnAppend(c.nodes[m.dst], m.body).0, c.past[m.dst].won);
  }

  lemma ReplyGrows(s: NodeState, h: History, t: NodeState)
    requires WinsAreKept(s, h) && (t.role == Leader ==> t.term == s.term)
    ensures Grows(h, AfterReply(h, s, t))
  {
  }

  lemma VoteExcused(c: Cluster, m: Message)
    requires Inv(c) && AllExcused(c) && Enabled(c, HandleVote(m)) && InTerm(c, HandleVote(m))
    ensures var t := OnVoteReply(c.nodes[m.dst], m.src, m.asked, m.reply);
            var h := AfterReply(c.past[m.dst], c.nodes[m.dst], t);
            Grows(c.past[m.dst], h) && Excused(c, m.dst, t, h)
  {
    var s := c.nodes[m.dst];
    var t := OnVoteReply(s, m.src, m.asked, m.reply);
    assert LocalInv(s, c.past[m.dst]);
    ReplyGrows(s, c.past[m.dst], t);
    QuietExcused(c, m.dst, t, AfterReply(c.past[m.dst], s, t).won);
  }

  lemma ActorExcused(c: Cluster, step: Step)
    requires Inv(c) && AllExcused(c) && Enabled(c, step) && InTerm(c, step)
    requires IsId(c, Actor(step)) && IsId(Next(c, step), Actor(step))
    ensures var i, d := Actor(step), Next(c, step);
            Grows(c.past[i], d.past[i]) && Excused(c, i, d.nodes[i], d.past[i])
  {
    var i, d := Actor(step), Next(c, step);
    match step
    case Election(_) => ElectionExcused(c, i);
    case HandleAskVote(m) =>
      assert MessageShape(c, m) && TellsTruth(c, m);
      VoterExcused(c, i, m.args);
    case HandleVote(m) => VoteExcused(c, m);
    case HandleAppend(m) => AppendExcused(c, m);
    case _ => QuietExcused(c, i, d.nodes[i], c.past[i].won);
  }

  lemma InTermStepExcuses(c: Cluster, step: Step)
    requires Inv(c) && AllExcused(c) && Enabled(c, step) && InTerm(c, step)
    ensures AllExcused(Next(c, step))
  {
    var i, d := Actor(step), Next(c, step);
    OnlyActorChanges(c, step);
    ActorExcused(c, step);
    ExcusesPersist(c, i, d.nodes[i], d.past[i], d.sent);
  }

  ghost predicate InTermAt(r: Run, k: int) {
    StepAt(r, k) && InTerm(r.states[k], r.steps[k])
  }

  ghost predicate InTermRun(r: Run, n: nat) {
    && IsRun(r, n)
    && forall k {:trigger InTermAt(r, k)} :: 0 <= k < |r.steps| ==> InTermAt(r, k)
  }

  lemma InTermIsTimely(r: Run, n: nat)
    requires InTermRun(r, n)
    ensures TimelyRun(r, n)
  {
    forall k | 0 <= k < |r.steps|
      ensures TimelyAt(r, k)
    {
      assert InTermAt(r, k);
    }
  }

  lemma {:induction false} SecondVoteFollowsALeader(r: Run, n: nat, k: nat)
    requires InTermRun(r, n) && k < |r.states|
    ensures AllExcused(r.states[k])
  {
    hide Inv, Timely, Next, Enabled;
    if k > 0 {
      SecondVoteFollowsALeader(r, n, k - 1);
      InTermIsTimely(r, n);
      RunsKeepInv(r, n, k - 1);
      assert InTermAt(r, k - 1);
      InTermStepExcuses(r.states[k - 1], r.steps[k - 1]);
    }
  }
}

// What votes, appends and commits mean for the logs: stated over the logs
// themselves, for single handlers and for whole runs.

module RaftLogs {
  import opened RaftNode
  import opened RaftCluster
  import opened RaftSafety

  /* ---- which of two logs is newer (section 5.4.1 of the Raft paper) ---- */

  function LastTerm(log: seq<Entry>): int {
    if log == [] then 0 else log[|log| - 1].term
  }

  predicate NoNewer(a: seq<Entry>, b: seq<Entry>) {
    if LastTerm(a) == LastTerm(b) then |a| <= |b| else LastTerm(a) < LastTerm(b)
  }

  // A total preorder in which a log is older than every log that continues it
  // with terms that do not decrease.
  lemma NewerIsAnOrder(a: seq<Entry>, b: seq<Entry>, c: seq<Entry>, e: Entry)
    ensures NoNewer(a, a) && (NoNewer(a, b) || NoNewer(b, a))
    ensures NoNewer(a, b) && NoNewer(b, c) ==> NoNewer(a, c)
    ensures e.term >= LastTerm(a) ==> NoNewer(a, a + [e]) && !NoNewer(a + [e], a)
    ensures e.term < LastTerm(a) ==> NoNewer(b + [e], a)
  {
  }

  ghost predicate TermsRise(log: seq<Entry>) {
    && (log != [] ==> log[0].term >= 0)
    && forall x :: 0 < x < |log| ==> log[x - 1].term <= log[x].term
  }

  lemma {:induction false} ExtensionIsNewer(a: seq<Entry>, b: seq<Entry>)
    requires a < b && TermsRise(b)
    ensures NoNewer(a, b) && !NoNewer(b, a)
    decreases |b|
  {
    var n := |b| - 1;
    assert b == b[..n] + [b[n]];
    if |a| < n {
      ExtensionIsNewer(a, b[..n]);
      NewerIsAnOrder(b[..n], b, a, b[n]);
    } else {
      assert a == b[..n];
    }
    NewerIsAnOrder(b[..n], a, b, b[n]);
    NewerIsAnOrder(a, b[..n], b, b[n]);
  }

  /* ---- granting a vote ---- */

  // A campaign's request is granted exactly by a running node that is not in a
  // later term, has not voted for somebody else in that term, and whose log is
  // no newer than the candidate's.
  lemma GrantsExactly(s: NodeState, c: NodeState)
    ensures var (t, reply) := OnVoteRequest(s, StartElection(c).1);
            && (reply.granted <==>
                 && !s.stopped && s.term <= c.term + 1
                 && (s.term == c.term + 1 ==> s.voteFor == NO_VOTE || s.voteFor == c.id)
                 && NoNewer(s.log, c.log))
            && (reply.granted ==> t.voteFor == c.id && t.term == c.term + 1 && reply.term == c.term + 1)
            && t.log == s.log
  {
  }

  // Whatever the request: the reply and everything the voter changes.
  lemma VoteRequestExact(s: NodeState, args: VoteArgs)
    ensures var (t, reply) := OnVoteRequest(s, args);
            && (s.stopped ==> t == s && reply == VoteReply(0, false))
            && (!s.stopped ==>
                 && reply.term == t.term == (if args.term > s.term then args.term else s.term)
                 && (args.term <= s.term ==> t == s.(voteFor := t.voteFor))
                 && (args.term > s.term ==>
                       t == s.(role := Follower, term := args.term, followers := {}, voteFor := t.voteFor))
                 && (reply.granted ==> t.voteFor == args.candidate)
                 && (!reply.granted ==> t.voteFor == if args.term > s.term then NO_VOTE else s.voteFor))
  {
  }

  /* ---- counting votes ---- */

  ghost function AllIds(n: nat): (s: set<nat>)
    ensures |s| == n && forall v :: v in s <==> 0 <= v < n
  {
    if n == 0 then {} else AllIds(n - 1) + {n - 1}
  }

  // A majority is a set of nodes that outnumbers the others.
  lemma MajorityOutnumbersTheRest(n: nat, voters: set<nat>)
    requires forall v :: v in voters ==> v < n
    ensures IsMajority(n, |voters|) <==> |AllIds(n) - voters| < |voters|
  {
    assert AllIds(n) * voters == voters;
    assert |AllIds(n) - voters| == n - |voters|;
  }

  // A candidate leads after a reply exactly if those who voted for it, itself
  // included, then outnumber the others.
  lemma VoteReplyElects(s: NodeState, target: nat, asked: int, reply: VoteReply)
    requires s.role == Candidate && s.id !in s.followers && target != s.id && s.id < s.size
    requires target < s.size && forall f :: f in s.followers ==> f < s.size
    ensures var t := OnVoteReply(s, target, asked, reply);
            if reply.term > asked then
              t == s.(role := Follower, term := reply.term, voteFor := NO_VOTE, followers := {})
            else
              var voters := t.followers + {s.id};
              && t.followers == (if reply.term == asked && reply.granted then s.followers + {target} else s.followers)
              && (t.role == Leader <==> |AllIds(s.size) - voters| < |voters|) && t.role != Follower
              && (t.role == Leader ==> forall f :: 0 <= f < s.size ==> t.nextIndex[f] == |s.log| + 1 && t.matchIndex[f] == 0)
              && t == s.(role := t.role, followers := t.followers, nextIndex := t.nextIndex, matchIndex := t.matchIndex)
  {
    var more := if reply.term == asked && reply.granted then s.followers + {target} else s.followers;
    assert |more + {s.id}| == |more| + 1;
    MajorityOutnumbersTheRest(s.size, more + {s.id});
  }

  /* ---- votes over whole runs ---- */

  // Step e is the campaign of node i for a term.
  ghost predicate CampaignAt(r: Run, e: nat, i: nat, term: int) {
    && e < |r.steps| && e < |r.states| && i < |r.states[e].nodes|
    && r.steps[e] == Election(i) && r.states[e].nodes[i].term + 1 == term
  }

  // Step m is node v's vote for node i in a term.
  ghost predicate VoteAt(r: Run, m: nat, v: nat, i: int, term: int) {
    && m < |r.steps| && m < |r.states| && v < |r.states[m].nodes|
    && r.steps[m].HandleAskVote? && r.steps[m].m.AskVote?
    && var msg := r.steps[m].m;
       msg.dst == v && msg.args.candidate == i && msg.args.term == term
       && OnVoteRequest(r.states[m].nodes[v], msg.args).1.granted
  }

  lemma NewRequest(c: Cluster, step: Step, m: Message)
    requires Shape(c) && Enabled(c, step) && m in Next(c, step).sent && m !in c.sent && m.AskVote?
    ensures step == Election(m.src) && IsId(c, m.src) && m.args == StartElection(c.nodes[m.src]).1
    ensures m.args.candidate == m.src && m.args.term == c.nodes[m.src].term + 1
  {
    hide OnAppend, OnAppendReply;
  }

  // Step e is the campaign that sent the request m.
  ghost predicate SentAt(r: Run, e: nat, m: Message) {
    && e < |r.steps| && e < |r.states| && m.AskVote? && 0 <= m.src < |r.states[e].nodes|
    && r.steps[e] == Election(m.src) && m.args == StartElection(r.states[e].nodes[m.src]).1
    && m.args.candidate == m.src && m.args.term == r.states[e].nodes[m.src].term + 1
  }

  // Every request was sent by a campaign.
  lemma {:induction false} RequestsComeFromCampaigns(r: Run, n: nat, k: nat, m: Message)
    requires IsRun(r, n) && k < |r.states| && m in r.states[k].sent && m.AskVote?
    ensures exists e :: 0 <= e < k && SentAt(r, e, m)
  {
    hide Next, Enabled, Shape, StartElection;
    if k > 0 {
      assert StepAt(r, k - 1);
      if m in r.states[k - 1].sent {
        RequestsComeFromCampaigns(r, n, k - 1, m);
      } else {
        NewRequest(r.states[k - 1], r.steps[k - 1], m);
        assert SentAt(r, k - 1, m);
      }
    }
  }

  lemma NewVote(c: Cluster, step: Step, v: int, b: Ballot)
    requires Shape(c) && Enabled(c, step) && IsId(c, v) && IsId(Next(c, step), v)
    requires b in Next(c, step).past[v].votes && b !in c.past[v].votes && b.candidate != v
    ensures step.HandleAskVote? && step.m.AskVote? && step.m.dst == v
    ensures step.m.args.candidate == b.candidate && step.m.args.term == b.term
    ensures OnVoteRequest(c.nodes[v], step.m.args).1.granted
  {
    hide OnAppend, OnAppendReply;
  }

  // Every vote for another node was cast on a request.
  lemma {:induction false} VotesAreCast(r: Run, n: nat, k: nat, v: nat, b: Ballot)
    requires IsRun(r, n) && k < |r.states| && v < n && IsId(r.states[k], v)
    requires b in r.states[k].past[v].votes && b.candidate != v
    ensures exists m :: 0 <= m < k && VoteAt(r, m, v, b.candidate, b.term)
  {
    hide Next, Enabled, Shape, OnVoteRequest;
    if k > 0 {
      assert StepAt(r, k - 1);
      RunSize(r, n, k - 1);
      if b in r.states[k - 1].past[v].votes {
        VotesAreCast(r, n, k - 1, v, b);
      } else {
        NewVote(r.states[k - 1], r.steps[k - 1], v, b);
        assert VoteAt(r, k - 1, v, b.candidate, b.term);
      }
    }
  }

  // Node v voted for i in a term, at step m, on the campaign of step e, and its
  // log was then no newer than the candidate's.
  ghost predicate Behind(r: Run, e: nat, m: nat, v: nat, i: nat, term: int) {
    && e < m && CampaignAt(r, e, i, term) && VoteAt(r, m, v, i, term)
    && NoNewer(r.states[m].nodes[v].log, r.states[e].nodes[i].log)
  }

  // In every run, timely or not.
  lemma VotersAreBehind(r: Run, n: nat, k: nat, v: nat, i: nat, term: int)
    requires IsRun(r, n) && k < |r.states| && v < n && i < n && v != i
    requires VotedFor(r.states[k], v, i, term)
    ensures exists e, m :: 0 <= e < m < k && Behind(r, e, m, v, i, term)
  {
    hide IsRun, OnVoteRequest, StartElection, NoNewer;
    VotesAreCast(r, n, k, v, Ballot(i, term));
    var m :| 0 <= m < k && VoteAt(r, m, v, i, term);
    var msg := r.steps[m].m;
    assert msg in r.states[m].sent by { VoteWasAsked(r, n, m); }
    RequestsComeFromCampaigns(r, n, m, msg);
    var e :| 0 <= e < m && SentAt(r, e, msg);
    GrantsExactly(r.states[m].nodes[v], r.states[e].nodes[i]);
    assert Behind(r, e, m, v, i, term);
  }

  lemma VoteWasAsked(r: Run, n: nat, m: nat)
    requires IsRun(r, n) && m < |r.steps| && r.steps[m].HandleAskVote?
    ensures m < |r.states| && r.steps[m].m in r.states[m].sent
  {
    hide Next, Shape;
    assert StepAt(r, m);
  }

  // A request names its sender, its new term, and the length and last term of
  // its log.
  lemma RequestTells(c: NodeState)
    ensures StartElection(c).1 == VoteArgs(c.term + 1, c.id, |c.log|, LastTerm(c.log))
    ensures StartElection(c).0 == c.(role := Candidate, term := c.term + 1, voteFor := c.id, followers := {})
  {
  }

  // A node that has not fallen back to follower: its log grew, if at all, by
  // entries of its term.
  ghost predicate StandsOn(s: NodeState, t: NodeState) {
    t.term == s.term && t.role != Follower ==> s.role != Follower && ExtendsWithTerm(s.log, t.log, s.term)
  }

  lemma StandingStep(c: Cluster, step: Step, i: int)
    requires Shape(c) && Enabled(c, step) && IsId(c, i) && IsId(Next(c, step), i)
    ensures StandsOn(c.nodes[i], Next(c, step).nodes[i])
  {
    hide MergeLog, PrevMatches, CommitFrom;
    OnlyActorChanges(c, step);
    if i == Actor(step) && step.HandleAppend? { assert MessageShape(c, step.m); }
  }

  // From its campaign on, as long as it leads or stands for that term.
  lemma {:induction false} CandidateKeepsLog(r: Run, n: nat, e: nat, k: nat, i: nat, term: int)
    requires TimelyRun(r, n) && e < k < |r.states| && i < n && CampaignAt(r, e, i, term)
    requires |r.states[k].nodes| == n && r.states[k].nodes[i].role != Follower && r.states[k].nodes[i].term == term
    ensures ExtendsWithTerm(r.states[e].nodes[i].log, r.states[k].nodes[i].log, term)
    decreases k
  {
    hide Next, Enabled, Shape, Timely;
    assert StepAt(r, k - 1);
    if e + 1 == k {
      AfterCampaign(r.states[e], i);
    } else {
      RunSize(r, n, k - 1);
      RunStep(r, n, k - 1, i);
      RunGrows(r, n, e + 1, k - 1, i);
      assert StepAt(r, e);
      AfterCampaign(r.states[e], i);
      StandingStep(r.states[k - 1], r.steps[k - 1], i);
      CandidateKeepsLog(r, n, e, k - 1, i, term);
      var a, b, d := r.states[e].nodes[i].log, r.states[k - 1].nodes[i].log, r.states[k].nodes[i].log;
      assert d[..|a|] == d[..|b|][..|a|];
    }
  }

  lemma AfterCampaign(c: Cluster, i: int)
    requires Shape(c) && Enabled(c, Election(i))
    ensures IsId(Next(c, Election(i)), i) && Next(c, Election(i)).nodes[i] == StartElection(c.nodes[i]).0
  {
  }

  // Leader i of state k was voted for by v, whose log was no newer than the one
  // i campaigned with; and that log is still the beginning of i's own.
  ghost predicate ElectedBy(r: Run, k: nat, e: nat, m: nat, v: nat, i: nat, term: int) {
    && m < k < |r.states| && i < |r.states[k].nodes| && Behind(r, e, m, v, i, term)
    && ExtendsWithTerm(r.states[e].nodes[i].log, r.states[k].nodes[i].log, term)
  }

  // Whoever leads was elected by a majority of such nodes.
  lemma LeadersWereAhead(r: Run, n: nat, k: nat, i: nat, term: int) returns (voters: set<nat>)
    requires TimelyRun(r, n) && k < |r.states| && i < n && LeadsAt(r, k, i, term)
    ensures IsMajority(n, |voters|)
    ensures forall v :: v in voters ==> v < n
    ensures forall v :: v in voters && v != i ==> exists e, m :: ElectedBy(r, k, e, m, v, i, term)
  {
    hide Next, Enabled, Timely;
    RunSize(r, n, k);
    RunsKeepInv(r, n, k);
    assert LocalInv(r.states[k].nodes[i], r.states[k].past[i]) && HasQuorum(r.states[k], i, term);
    voters := r.states[k].past[i].won[term];
    forall v | v in voters && v != i
      ensures exists e, m :: ElectedBy(r, k, e, m, v, i, term)
    {
      assert VotedFor(r.states[k], v, i, term);
      VotersAreBehind(r, n, k, v, i, term);
      var e, m :| 0 <= e < m < k && Behind(r, e, m, v, i, term);
      CandidateKeepsLog(r, n, e, k, i, term);
      assert ElectedBy(r, k, e, m, v, i, term);
    }
  }

  /* ---- appending ---- */

  // An append with entries is accepted exactly by a running node in no later
  // term whose log holds an entry of that term at the place before them.
  predicate HoldsPrev(log: seq<Entry>, index: int, term: int) {
    (index == 0 && term == 0) || (1 <= index <= |log| && log[index - 1].term == term)
  }

  lemma AppendExact(s: NodeState, args: AppendArgs)
    requires 0 <= args.prevIndex
    ensures var (t, reply) := OnAppend(s, args);
            if s.stopped || args.term < s.term then t == s && reply == AppendReply(s.term, false)
            else
              && t == (if args.term == s.term && s.role == Follower then s
                       else s.(role := Follower, term := args.term, voteFor := NO_VOTE, followers := {}))
                      .(log := t.log, commitIndex := t.commitIndex)
              && reply == (if args.entries == [] then AppendReply(0, false)
                           else AppendReply(args.term, HoldsPrev(s.log, args.prevIndex, args.prevTerm)))
              && (!reply.success ==> t.log == s.log && t.commitIndex == s.commitIndex)
  {
    hide MergeLog;
  }

  // The log after an accepted append. From `at` on, the first k entries agree
  // in term with what was there, which stays; the others overwrite what was
  // there; everything else is kept, and a gap is filled with a blank entry.
  ghost predicate Merged(log: seq<Entry>, at: nat, entries: seq<Entry>, k: nat, r: seq<Entry>) {
    && k <= |entries| && |r| == (if |log| < at + |entries| then at + |entries| else |log|)
    && (forall j :: 0 <= j < k ==> at + j < |log| && log[at + j].term == entries[j].term)
    && (k < |entries| ==> at + k >= |log| || log[at + k].term != entries[k].term)
    && (forall j :: k <= j < |entries| ==> r[at + j] == entries[j])
    && (forall x :: 0 <= x < |log| && !(at + k <= x < at + |entries|) ==> r[x] == log[x])
    && (forall x :: |log| <= x < at ==> r[x] == Entry("", 0))
  }

  lemma AppendMerges(s: NodeState, args: AppendArgs) returns (k: nat)
    requires 0 <= args.prevIndex && OnAppend(s, args).1.success
    ensures Merged(s.log, args.prevIndex + 1, args.entries, k, OnAppend(s, args).0.log)
    ensures var (c, last) := (OnAppend(s, args).0.commitIndex, |OnAppend(s, args).0.log| - 1);
            c == if args.leaderCommit <= s.commitIndex then s.commitIndex
                 else if args.leaderCommit < last then args.leaderCommit else last
  {
    k := MergeIs(s.log, args);
  }

  lemma MergeIs(log: seq<Entry>, args: AppendArgs) returns (k: nat)
    requires 0 <= args.prevIndex && PrevMatches(log, args) && args.entries != []
    ensures Merged(log, args.prevIndex + 1, args.entries, k, MergeLog(log, args))
  {
    hide Agreeing, Overwrite, Merged, PrevMatches;
    var at := args.prevIndex + 1;
    k := Agreeing(log, at, args.entries);
    AgreeingIsLongest(log, at, args.entries);
    if k < |args.entries| { OverwriteMerges(log, at, args.entries, k); } else { NothingMerges(log, at, args.entries); }
  }

  lemma NothingMerges(log: seq<Entry>, at: nat, entries: seq<Entry>)
    requires entries != [] && at + |entries| <= |log|
    requires forall j :: 0 <= j < |entries| ==> log[at + j].term == entries[j].term
    ensures Merged(log, at, entries, |entries|, log)
  {
  }

  lemma OverwriteMerges(log: seq<Entry>, at: nat, entries: seq<Entry>, k: nat)
    requires k < |entries| && (k == 0 || at + k <= |log|)
    requires forall j :: 0 <= j < k ==> log[at + j].term == entries[j].term
    requires at + k < |log| ==> log[at + k].term != entries[k].term
    ensures Merged(log, at, entries, k, Overwrite(log, at + k, entries[k..]))
  {
    var r := Overwrite(log, at + k, entries[k..]);
    hide Overwrite;
    forall j | k <= j < |entries| ensures r[at + j] == entries[j] { assert entries[k..][j - k] == entries[j]; }
  }

  // Afterwards the receiver has every entry's term at the entry's place.
  lemma MergedAgrees(log: seq<Entry>, at: nat, entries: seq<Entry>, k: nat, r: seq<Entry>)
    requires Merged(log, at, entries, k, r)
    ensures forall j :: 0 <= j < |entries| ==> r[at + j].term == entries[j].term
  {
  }

  // A message that is delivered twice has the effect of one delivery.
  lemma AppendTwice(s: NodeState, args: AppendArgs)
    requires 0 <= args.prevIndex
    ensures OnAppend(OnAppend(s, args).0, args).0 == OnAppend(s, args).0
    ensures OnAppend(OnAppend(s, args).0, args).1 == OnAppend(s, args).1
  {
    hide OnAppend, Merged, HoldsPrev;
    var (t, reply) := OnAppend(s, args);
    AppendExact(s, args);
    AppendExact(t, args);
    if reply.success {
      var k := AppendMerges(s, args);
      PrevKept(s.log, args, k, t.log);
      var l := AppendMerges(t, args);
      MergedPrefix(s.log, args.prevIndex + 1, args.entries, k, t.log, args.entries, l, OnAppend(t, args).0.log);
    }
  }

  // Nor does an older append that is delivered late: one with fewer of the same
  // entries takes nothing back.
  lemma LateAppendTakesNothingBack(s: NodeState, args: AppendArgs, late: AppendArgs)
    requires 0 <= args.prevIndex == late.prevIndex && OnAppend(s, args).1.success && late.entries <= args.entries
    ensures OnAppend(OnAppend(s, args).0, late).0.log == OnAppend(s, args).0.log
  {
    hide OnAppend, Merged;
    var t := OnAppend(s, args).0;
    AppendExact(t, late);
    if OnAppend(t, late).1.success {
      var k := AppendMerges(s, args);
      var l := AppendMerges(t, late);
      MergedPrefix(s.log, args.prevIndex + 1, args.entries, k, t.log, late.entries, l, OnAppend(t, late).0.log);
    }
  }

  lemma MergedPrefix(log: seq<Entry>, at: nat, entries: seq<Entry>, k: nat, r: seq<Entry>,
                     fewer: seq<Entry>, l: nat, q: seq<Entry>)
    requires Merged(log, at, entries, k, r) && fewer <= entries && Merged(r, at, fewer, l, q)
    ensures q == r
  {
    MergedAgrees(log, at, entries, k, r);
    assert forall j :: 0 <= j < |fewer| ==> fewer[j] == entries[j];
  }

  lemma PrevKept(log: seq<Entry>, args: AppendArgs, k: nat, r: seq<Entry>)
    requires 0 <= args.prevIndex && Merged(log, args.prevIndex + 1, args.entries, k, r)
    ensures HoldsPrev(log, args.prevIndex, args.prevTerm) ==> HoldsPrev(r, args.prevIndex, args.prevTerm)
  {
  }

  /* ---- sending ---- */

  // What goes to a follower is the rest of the log from its next position on,
  // with the place and the term of the entry before it.
  lemma SendsTheRest(s: NodeState, target: nat)
    requires Tracks(s, target) && 1 <= s.nextIndex[target] <= |s.log|
    ensures var args := EntriesFor(s, target);
            && args.prevIndex == s.nextIndex[target] - 1 && s.log == s.log[..args.prevIndex] + args.entries
            && HoldsPrev(s.log, args.prevIndex, args.prevTerm)
            && args.term == s.term && args.leader == s.id && args.leaderCommit == s.commitIndex
            && HeartbeatFor(s, target) == args.(entries := [])
  {
  }

  // Whatever state the cluster is in: what a leader sends next to a follower
  // can arrive at once, and then the follower's log is its own with the rest of
  // the leader's merged in, one place too far.
  lemma ReplicationReaches(c: Cluster, i: int, d: int) returns (m: Message, k: nat)
    requires Shape(c) && Enabled(c, Replicate(i, d))
    ensures var c1 := Next(c, Replicate(i, d));
            && Shape(c1) && Enabled(c1, HandleAppend(m)) && |Next(c1, HandleAppend(m)).nodes| == |c.nodes|
            && var (s, v, t) := (c.nodes[i], c.nodes[d], Next(c1, HandleAppend(m)).nodes[d]);
               var prev := s.nextIndex[d] - 1;
               if !v.stopped && v.term <= s.term && prev <= |v.log|
                  && (prev == 0 || v.log[prev - 1].term == s.log[prev - 1].term)
               then Merged(v.log, prev + 1, s.log[prev..], k, t.log)
               else t.log == v.log
  {
    hide OnAppend, Merged, EntriesFor, Next, Enabled, LogSafe;
    m := SendsAndDelivers(c, i, d);
    k := ReceivesTheRest(c.nodes[i], d, c.nodes[d]);
  }

  lemma SendsAndDelivers(c: Cluster, i: int, d: int) returns (m: Message)
    requires Shape(c) && Enabled(c, Replicate(i, d))
    ensures IsId(c, i) && IsId(c, d) && Tracks(c.nodes[i], d) && 1 <= c.nodes[i].nextIndex[d] <= |c.nodes[i].log|
    ensures var c1 := Next(c, Replicate(i, d));
            && Shape(c1) && Enabled(c1, HandleAppend(m)) && |Next(c1, HandleAppend(m)).nodes| == |c.nodes|
            && Next(c1, HandleAppend(m)).nodes[d] == OnAppend(c.nodes[d], EntriesFor(c.nodes[i], d)).0
  {
    assert NodeShape(c.nodes[i], i, |c.nodes|);
    m := Append(i, d, EntriesFor(c.nodes[i], d));
    ShapeKept(c, Replicate(i, d));
    hide OnAppend, EntriesFor, Shape;
  }

  lemma ReceivesTheRest(s: NodeState, target: nat, v: NodeState) returns (k: nat)
    requires Tracks(s, target) && 1 <= s.nextIndex[target] <= |s.log|
    ensures var prev, t := s.nextIndex[target] - 1, OnAppend(v, EntriesFor(s, target)).0;
            if !v.stopped && v.term <= s.term && prev <= |v.log|
               && (prev == 0 || v.log[prev - 1].term == s.log[prev - 1].term)
            then Merged(v.log, prev + 1, s.log[prev..], k, t.log)
            else t.log == v.log
  {
    hide OnAppend, Merged;
    var args := EntriesFor(s, target);
    AppendExact(v, args);
    k := 0;
    if OnAppend(v, args).1.success { k := AppendMerges(v, args); }
  }

  // The receiver counts positions from zero: every entry of the leader's log
  // that is sent lands one place too far, in every log that accepts it.
  lemma ReplicationShifts(s: NodeState, target: nat, v: NodeState)
    requires Tracks(s, target) && 1 <= s.nextIndex[target] <= |s.log|
    requires OnAppend(v, EntriesFor(s, target)).1.success
    ensures var log := OnAppend(v, EntriesFor(s, target)).0.log;
            |log| > |s.log| && forall x :: s.nextIndex[target] - 1 <= x < |s.log| ==> log[x + 1].term == s.log[x].term
  {
    hide OnAppend, Merged, HoldsPrev;
    var args := EntriesFor(s, target);
    SendsTheRest(s, target);
    hide EntriesFor, Tracks;
    var k := AppendMerges(v, args);
    ShiftedBy(s.log, args.prevIndex, args.entries, v.log, k, OnAppend(v, args).0.log);
  }

  lemma ShiftedBy(log: seq<Entry>, prev: nat, entries: seq<Entry>, before: seq<Entry>, k: nat, r: seq<Entry>)
    requires prev <= |log| && log == log[..prev] + entries && Merged(before, prev + 1, entries, k, r)
    ensures |r| > |log| && forall x :: prev <= x < |log| ==> r[x + 1].term == log[x].term
  {
    MergedAgrees(before, prev + 1, entries, k, r);
    forall x | prev <= x < |log| ensures r[x + 1].term == log[x].term { assert entries[x - prev] == log[x]; }
  }

  /* ---- committing ---- */

  // The leader and the followers known to hold position x are more than half of
  // size + 1.
  ghost predicate HeldByMost(s: NodeState, x: int) {
    2 * (1 + |set f | f in s.followers && f < |s.matchIndex| && s.matchIndex[f] >= x|) > s.size + 1
  }

  ghost predicate Committable(s: NodeState, x: int, term: int) {
    0 <= x < |s.log| && s.log[x].term == term && HeldByMost(s, x)
  }

  lemma {:induction false} CommitIsLast(s: NodeState, i: nat, term: int, commit: int)
    ensures var c := CommitFrom(s, i, term, commit);
            && (c == commit || (i <= c && Committable(s, c, term)))
            && (forall x :: i <= x && Committable(s, x, term) ==> i <= c && x <= c)
    decreases |s.log| - i
  {
    if i < |s.log| {
      assert Matching(s.followers, s.matchIndex, i)
          == set f | f in s.followers && f < |s.matchIndex| && s.matchIndex[f] >= i;
      CommitIsLast(s, i + 1, term, if s.log[i].term == term && Replicated(s, i) then i else commit);
    }
  }

  // What a reply to an append changes: the indices of its sender, and the
  // commit index, which moves to the last position behind it that has the
  // reply's term and is held by most.
  lemma AppendReplyExact(s: NodeState, target: nat, asked: int, sent: nat, reply: AppendReply)
    requires (s.role == Leader ==> Tracks(s, target)) && 0 <= s.commitIndex
    ensures var t := OnAppendReply(s, target, asked, sent, reply);
            if reply.term > asked then
              t == s.(role := Follower, term := reply.term, voteFor := NO_VOTE, followers := {})
            else if s.role != Leader || reply.term < asked then t == s
            else if !reply.success then t == s.(nextIndex := s.nextIndex[target := s.nextIndex[target] - 1])
            else
              var next := s.nextIndex[target] + sent;
              && t == s.(nextIndex := s.nextIndex[target := next], matchIndex := s.matchIndex[target := next - 1],
                         commitIndex := t.commitIndex)
              && (t.commitIndex == s.commitIndex
                  || (s.commitIndex < t.commitIndex && Committable(t, t.commitIndex, reply.term)))
              && (forall x :: s.commitIndex < x && Committable(t, x, reply.term) ==> x <= t.commitIndex)
  {
    hide CommitFrom, Committable;
    if reply.term == asked && s.role == Leader && reply.success {
      var next := s.nextIndex[target] + sent;
      var u := s.(nextIndex := s.nextIndex[target := next], matchIndex := s.matchIndex[target := next - 1]);
      CommitIsLast(u, s.commitIndex + 1, reply.term, s.commitIndex);
      var t := OnAppendReply(s, target, asked, sent, reply);
      assert t == u.(commitIndex := t.commitIndex);
      forall x ensures Committable(t, x, reply.term) <==> Committable(u, x, reply.term) {
        SameCommittable(u, t.commitIndex, x, reply.term);
      }
    }
  }

  lemma SameCommittable(s: NodeState, commit: int, x: int, term: int)
    ensures Committable(s.(commitIndex := commit), x, term) <==> Committable(s, x, term)
  {
  }

  /* ---- heartbeats and stopping ---- */

  // A heartbeat can arrive at once, and then its receiver follows the sender's
  // term, unless it is stopped or in a later one; its log is as it was.
  lemma HeartbeatReaches(c: Cluster, i: int, d: int) returns (m: Message)
    requires Shape(c) && Enabled(c, Heartbeat(i, d))
    ensures var c1 := Next(c, Heartbeat(i, d));
            && Shape(c1) && Enabled(c1, HandleAppend(m)) && |Next(c1, HandleAppend(m)).nodes| == |c.nodes|
            && var (s, v, t) := (c.nodes[i], c.nodes[d], Next(c1, HandleAppend(m)).nodes[d]);
               if v.stopped || v.term > s.term then t == v
               else t.role == Follower && t.term == s.term && t.log == v.log && t.commitIndex == v.commitIndex
  {
    assert NodeShape(c.nodes[i], i, |c.nodes|);
    var args := HeartbeatFor(c.nodes[i], d);
    m := Append(i, d, args);
    ShapeKept(c, Heartbeat(i, d));
    AppendExact(c.nodes[d], args);
    hide OnAppend, Shape;
  }

  // What a stopped node keeps: its votes, its log, and that it is stopped.
  ghost predicate StaysStopped(s: NodeState, h: History, t: NodeState, g: History) {
    t.stopped && t.log == s.log && g.votes == h.votes
  }

  lemma StoppedStep(c: Cluster, step: Step, i: int)
    requires Shape(c) && Enabled(c, step) && IsId(c, i) && IsId(Next(c, step), i) && c.nodes[i].stopped
    ensures StaysStopped(c.nodes[i], c.past[i], Next(c, step).nodes[i], Next(c, step).past[i])
  {
    hide MergeLog, PrevMatches, CommitFrom;
    OnlyActorChanges(c, step);
    if i == Actor(step) && step.HandleAppend? { assert MessageShape(c, step.m); }
  }

  // From the step that stops it a node never votes or changes its log again.
  lemma {:induction false} StopIsForGood(r: Run, n: nat, k: nat, l: nat, i: nat)
    requires IsRun(r, n) && k < |r.steps| && r.steps[k] == Stop(i) && k < l < |r.states| && i < n
    ensures IsId(r.states[k], i) && IsId(r.states[l], i)
    ensures StaysStopped(r.states[k].nodes[i], r.states[k].past[i], r.states[l].nodes[i], r.states[l].past[i])
    decreases l
  {
    RunSize(r, n, k);
    RunSize(r, n, l);
    assert StepAt(r, l - 1);
    if l > k + 1 {
      hide Next, Enabled, Shape;
      RunSize(r, n, l - 1);
      StopIsForGood(r, n, k, l - 1, i);
      StoppedStep(r.states[l - 1], r.steps[l - 1], i);
    }
  }
}

// A cluster of Raft nodes exchanging messages that may be lost, duplicated and
// reordered: nothing is ever removed from the set of sent messages, and a step
// may handle any of them, any number of times.

module RaftCluster {
  import opened RaftNode

  datatype Message =
    | AskVote(src: int, dst: int, args: VoteArgs)
    | Vote(src: int, dst: int, asked: int, reply: VoteReply)  // answers a request of term `asked`
    | Append(src: int, dst: int, body: AppendArgs)

  // History of one node: every vote it cast (a candidacy is a vote for
  // oneself), and every term it won, with the voters that were counted.
  datatype Ballot = Ballot(candidate: int, term: int)
  datatype History = History(votes: set<Ballot>, won: map<int, set<nat>>)

  datatype Cluster = Cluster(nodes: seq<NodeState>, past: seq<History>, sent: set<Message>)

  datatype Step =
    | Election(i: int)
    | HandleAskVote(m: Message)
    | HandleVote(m: Message)
    | Heartbeat(i: int, dst: int)
    | Replicate(i: int, dst: int)
    | HandleAppend(m: Message)
    | HandleAppendReply(i: int, target: int, asked: int, count: nat, answer: AppendReply)
    | Submit(i: int, cmd: Command)
    | Apply(i: int)
    | Stop(i: int)

  predicate IsId(c: Cluster, i: int) {
    0 <= i < |c.nodes| && |c.past| == |c.nodes|
  }

  ghost predicate NodeShape(s: NodeState, i: int, n: nat) {
    && s.id == i && s.size == n
    && (s.role == Leader ==> |s.nextIndex| == n && |s.matchIndex| == n)
    && LogSafe(s)
  }

  ghost predicate MessageShape(c: Cluster, m: Message) {
    && IsId(c, m.src) && IsId(c, m.dst) && m.src != m.dst
    && (m.Append? ==> 0 <= m.body.prevIndex)
  }

  // Ids, sizes and indices in range. Init has it and every step keeps it.
  ghost predicate Shape(c: Cluster) {
    && |c.past| == |c.nodes|
    && (forall i :: 0 <= i < |c.nodes| ==> NodeShape(c.nodes[i], i, |c.nodes|))
    && (forall m :: m in c.sent ==> MessageShape(c, m))
  }

  // Every node starts with whatever log its storage holds.
  ghost predicate Initial(c: Cluster, n: nat) {
    && |c.nodes| == n && |c.past| == n && c.sent == {}
    && forall i :: 0 <= i < n ==> c.nodes[i] == Fresh(i, n, c.nodes[i].log) && c.past[i] == History({}, map[])
  }

  // When the code can take a step. A leader that has walked next_index below
  // one reads outside its log; sending is modelled for the others.
  ghost predicate Enabled(c: Cluster, step: Step)
    requires Shape(c)
  {
    match step
    case Election(i) => IsId(c, i) && !c.nodes[i].stopped && c.nodes[i].role != Leader
    case HandleAskVote(m) => m in c.sent && m.AskVote?
    case HandleVote(m) => m in c.sent && m.Vote?
    case Heartbeat(i, d) =>
      IsId(c, i) && IsId(c, d) && d != i && c.nodes[i].role == Leader && 1 <= c.nodes[i].nextIndex[d]
    case Replicate(i, d) =>
      && IsId(c, i) && IsId(c, d) && d != i && c.nodes[i].role == Leader
      && 1 <= c.nodes[i].nextIndex[d] <= |c.nodes[i].log|
    case HandleAppend(m) => m in c.sent && m.Append?
    case HandleAppendReply(i, target, _, _, _) => IsId(c, i) && IsId(c, target) && target != i
    case Submit(i, _) => IsId(c, i)
    case Apply(i) => IsId(c, i)
    case Stop(i) => IsId(c, i)
  }

  function With(c: Cluster, i: int, s: NodeState, h: History): Cluster
    requires IsId(c, i)
  {
    c.(nodes := c.nodes[i := s], past := c.past[i := h])
  }

  function Voted(h: History, candidate: int, term: int): History {
    h.(votes := h.votes + {Ballot(candidate, term)})
  }

  function AfterRequest(h: History, args: VoteArgs, reply: VoteReply): History {
    if reply.granted then Voted(h, args.candidate, args.term) else h
  }

  function AfterReply(h: History, s: NodeState, t: NodeState): History {
    if s.role == Candidate && t.role == Leader then h.(won := h.won[t.term := t.followers + {t.id}]) else h
  }

  ghost function Requests(c: Cluster, i: int, args: VoteArgs): set<Message> {
    set d | 0 <= d < |c.nodes| && d != i :: AskVote(i, d, args)
  }

  ghost function Next(c: Cluster, step: Step): Cluster
    requires Shape(c) && Enabled(c, step)
  {
    match step
    case Election(i) =>
      var (t, args) := StartElection(c.nodes[i]);
      With(c, i, t, Voted(c.past[i], i, t.term)).(sent := c.sent + Requests(c, i, args))
    case HandleAskVote(m) =>
      var (t, reply) := OnVoteRequest(c.nodes[m.dst], m.args);
      With(c, m.dst, t, AfterRequest(c.past[m.dst], m.args, reply)).(
        sent := c.sent + {Vote(m.dst, m.src, m.args.term, reply)})
    case HandleVote(m) =>
      var t := OnVoteReply(c.nodes[m.dst], m.src, m.asked, m.reply);
      With(c, m.dst, t, AfterReply(c.past[m.dst], c.nodes[m.dst], t))
    case Heartbeat(i, d) => c.(sent := c.sent + {Append(i, d, HeartbeatFor(c.nodes[i], d))})
    case Replicate(i, d) => c.(sent := c.sent + {Append(i, d, EntriesFor(c.nodes[i], d))})
    case HandleAppend(m) => With(c, m.dst, OnAppend(c.nodes[m.dst], m.body).0, c.past[m.dst])
    case HandleAppendReply(i, target, asked, count, answer) =>
      With(c, i, OnAppendReply(c.nodes[i], target, asked, count, answer), c.past[i])
    case Submit(i, cmd) => With(c, i, OnCommand(c.nodes[i], cmd), c.past[i])
    case Apply(i) => With(c, i, ApplyCommitted(c.nodes[i]), c.past[i])
    case Stop(i) => With(c, i, c.nodes[i].(stopped := true), c.past[i])
  }

  /* ---- runs ---- */

  datatype Run = Run(states: seq<Cluster>, steps: seq<Step>)

  ghost predicate StepTo(c: Cluster, step: Step, d: Cluster) {
    Shape(c) && Enabled(c, step) && d == Next(c, step)
  }

  ghost predicate StepAt(r: Run, k: int) {
    0 <= k < |r.steps| && k + 1 < |r.states| && StepTo(r.states[k], r.steps[k], r.states[k + 1])
  }

  ghost predicate IsRun(r: Run, n: nat) {
    && |r.states| == |r.steps| + 1
    && Initial(r.states[0], n)
    && forall k {:trigger StepAt(r, k)} :: 0 <= k < |r.steps| ==> StepAt(r, k)
  }

  // The code keeps the term a request was sent in but never compares it with
  // the current one. These are the replies for which that is harmless: every
  // reply that arrives in the term it was asked in, and more.
  predicate TimelyVote(s: NodeState, asked: int, reply: VoteReply) {
    s.role == Candidate && asked != s.term ==>
      !(reply.term == asked && reply.granted) && !(asked < reply.term < s.term)
  }

  predicate TimelyAppend(s: NodeState, asked: int, reply: AppendReply) {
    reply.term > asked ==> reply.term > s.term || (reply.term == s.term && s.role == Candidate)
  }

  ghost predicate Timely(c: Cluster, step: Step)
    requires Shape(c) && Enabled(c, step)
  {
    match step
    case HandleVote(m) => TimelyVote(c.nodes[m.dst], m.asked, m.reply)
    case HandleAppendReply(i, _, asked, _, answer) => TimelyAppend(c.nodes[i], asked, answer)
    case _ => true
  }

  ghost predicate TimelyAt(r: Run, k: int) {
    StepAt(r, k) && Timely(r.states[k], r.steps[k])
  }

  ghost predicate TimelyRun(r: Run, n: nat) {
    && IsRun(r, n)
    && forall k {:trigger TimelyAt(r, k)} :: 0 <= k < |r.steps| ==> TimelyAt(r, k)
  }

  /* ---- the invariant: what one node remembers of its own past ---- */

  // A candidate that stepped down within its term has forgotten its own vote.
  predicate ForgotOwnVote(s: NodeState, h: History) {
    s.role == Follower && s.term !in h.won
  }

  ghost predicate VotesAreKept(s: NodeState, h: History) {
    && (forall b :: b in h.votes ==> 0 <= b.candidate && b.term <= s.term)
    && (forall b :: b in h.votes && b.term == s.term ==>
         b.candidate == s.voteFor || (b.candidate == s.id && ForgotOwnVote(s, h)))
    && (s.role != Follower ==> s.voteFor == s.id && Ballot(s.id, s.term) in h.votes && s.id !in s.followers)
  }

  // Two votes in one term: one of them is for oneself, and it did not, and
  // never will, make its owner a leader.
  ghost predicate SecondVotesAreHarmless(s: NodeState, h: History) {
    forall a, b :: a in h.votes && b in h.votes && a.term == b.term && a.candidate != b.candidate ==>
      && (a.candidate == s.id || b.candidate == s.id)
      && a.term !in h.won
      && (a.term == s.term ==> s.role == Follower)
  }

  // Leadership of a term ends only by leaving the term.
  ghost predicate WinsAreKept(s: NodeState, h: History) {
    && (forall t :: t in h.won ==> t <= s.term && (t == s.term ==> s.role == Leader))
    && (s.role == Leader ==> s.term in h.won)
  }

  ghost predicate LocalInv(s: NodeState, h: History) {
    VotesAreKept(s, h) && SecondVotesAreHarmless(s, h) && WinsAreKept(s, h)
  }

  /* ---- the invariant: what nodes know about each other ---- */

  ghost predicate VotedFor(c: Cluster, v: int, candidate: int, term: int) {
    IsId(c, v) && Ballot(candidate, term) in c.past[v].votes
  }

  ghost predicate FollowersVoted(c: Cluster, i: int)
    requires IsId(c, i)
  {
    c.nodes[i].role != Follower ==> forall f :: f in c.nodes[i].followers ==> VotedFor(c, f, i, c.nodes[i].term)
  }

  ghost predicate HasQuorum(c: Cluster, i: int, term: int)
    requires IsId(c, i) && term in c.past[i].won
  {
    && IsMajority(|c.nodes|, |c.past[i].won[term]|)
    && forall v :: v in c.past[i].won[term] ==> VotedFor(c, v, i, term)
  }

  ghost predicate TellsTruth(c: Cluster, m: Message)
    requires IsId(c, m.src)
  {
    match m
    case AskVote(src, _, args) => args.candidate == src
    case Vote(src, dst, asked, reply) => reply.granted ==> reply.term == asked && VotedFor(c, src, dst, asked)
    case Append(src, _, body) => body.term in c.past[src].won
  }

  // Election Safety over the whole history: no term was ever won by two nodes.
  ghost predicate OneLeaderPerTerm(c: Cluster)
    requires |c.past| == |c.nodes|
  {
    forall i, j, t :: IsId(c, i) && IsId(c, j) && t in c.past[i].won && t in c.past[j].won ==> i == j
  }

  ghost predicate GlobalInv(c: Cluster)
    requires Shape(c)
  {
    && (forall i :: IsId(c, i) ==> FollowersVoted(c, i))
    && (forall i, t :: IsId(c, i) && t in c.past[i].won ==> HasQuorum(c, i, t))
    && (forall m :: m in c.sent ==> TellsTruth(c, m))
    && OneLeaderPerTerm(c)
  }

  ghost predicate Inv(c: Cluster) {
    && Shape(c)
    && (forall i :: IsId(c, i) ==> LocalInv(c.nodes[i], c.past[i]))
    && GlobalInv(c)
  }

  /* ---- two majorities share a voter ---- */

  lemma {:induction false} IdsCount(n: nat, s: set<nat>)
    requires forall v :: v in s ==> v < n
    ensures |s| <= n
    decreases n
  {
    if n == 0 {
      assert s == {};
    } else {
      IdsCount(n - 1, s - {n - 1});
    }
  }

  lemma MajoritiesMeet(n: nat, a: set<nat>, b: set<nat>) returns (v: nat)
    requires forall x :: x in a || x in b ==> x < n
    requires IsMajority(n, |a|) && IsMajority(n, |b|)
    ensures v in a && v in b
  {
    IdsCount(n, a + b);
    assert |a + b| == |a| + |b| - |a * b|;
    assert a * b != {};
    v :| v in a * b;
  }

  /* ---- what each kind of change does to one node's invariant ---- */

  lemma LocalByTerm(s: NodeState, h: History, t: NodeState)
    requires LocalInv(s, h) && t.id == s.id
    requires t.role == Follower && t.term > s.term
    ensures LocalInv(t, h)
  {
  }

  lemma LocalByFrame(s: NodeState, h: History, t: NodeState)
    requires LocalInv(s, h) && t.id == s.id
    requires t.role == s.role && t.term == s.term && t.voteFor == s.voteFor
    requires t.role != Follower ==> s.id !in t.followers
    ensures LocalInv(t, h)
  {
  }

  lemma LocalByStepDown(s: NodeState, h: History, t: NodeState)
    requires LocalInv(s, h) && t.id == s.id
    requires s.role == Candidate && t.role == Follower && t.term == s.term
    ensures LocalInv(t, h)
  {
  }

  lemma LocalByElection(s: NodeState, h: History)
    requires LocalInv(s, h)
    ensures LocalInv(ToCandidate(s, s.term + 1), Voted(h, s.id, s.term + 1))
  {
  }

  // A vote for somebody else, cast with no other vote remembered.
  lemma LocalByVote(s: NodeState, h: History, candidate: int)
    requires LocalInv(s, h) && candidate != s.id && candidate >= 0
    requires s.voteFor == NO_VOTE || s.voteFor == candidate
    ensures LocalInv(s.(voteFor := candidate), Voted(h, candidate, s.term))
  {
  }

  lemma LocalByWinning(s: NodeState, h: History, quorum: set<nat>)
    requires LocalInv(s, h) && s.role == Candidate
    ensures LocalInv(ToLeader(s), h.(won := h.won[s.term := quorum]))
  {
  }

  /* ---- what one node's change does to the rest ---- */

  ghost predicate Grows(h: History, g: History) {
    && h.votes <= g.votes
    && forall t :: t in h.won ==> t in g.won && g.won[t] == h.won[t]
  }

  ghost predicate NewWinsAreSound(c: Cluster, i: int, g: History)
    requires IsId(c, i)
  {
    forall t :: t in g.won && t !in c.past[i].won ==>
      && IsMajority(|c.nodes|, |g.won[t]|)
      && (forall v :: v in g.won[t] ==> VotedFor(c, v, i, t))
      && (forall j :: IsId(c, j) ==> t !in c.past[j].won)
  }

  ghost predicate Sound(c: Cluster, i: int, t: NodeState, g: History)
    requires IsId(c, i)
  {
    && NodeShape(t, i, |c.nodes|) && LocalInv(t, g) && Grows(c.past[i], g)
    && (t.role != Follower ==> forall f :: f in t.followers ==> VotedFor(c, f, i, t.term))
    && NewWinsAreSound(c, i, g)
  }

  lemma QuorumsKept(c: Cluster, i: int, t: NodeState, g: History)
    requires Shape(c) && GlobalInv(c) && IsId(c, i) && Sound(c, i, t, g)
    ensures var d := With(c, i, t, g); forall j, u :: IsId(d, j) && u in d.past[j].won ==> HasQuorum(d, j, u)
  {
    var d := With(c, i, t, g);
    forall j, u | IsId(d, j) && u in d.past[j].won
      ensures HasQuorum(d, j, u)
    {
      if u in c.past[j].won { assert HasQuorum(c, j, u); }
      forall v | v in d.past[j].won[u]
        ensures VotedFor(d, v, j, u)
      {
        assert VotedFor(c, v, j, u);
      }
    }
  }

  lemma OthersKept(c: Cluster, i: int, t: NodeState, g: History)
    requires Shape(c) && GlobalInv(c) && IsId(c, i) && Sound(c, i, t, g)
    ensures var d := With(c, i, t, g);
            && Shape(d) && OneLeaderPerTerm(d)
            && (forall j :: IsId(d, j) ==> FollowersVoted(d, j))
            && (forall m :: m in d.sent ==> TellsTruth(d, m))
  {
    var d := With(c, i, t, g);
    assert forall v, candidate, term :: VotedFor(c, v, candidate, term) ==> VotedFor(d, v, candidate, term);
    assert Shape(d) by {
      forall m | m in d.sent ensures MessageShape(d, m) { assert MessageShape(c, m); }
    }
    forall j | IsId(d, j)
      ensures FollowersVoted(d, j)
    {
      assert FollowersVoted(c, j);
    }
    forall m | m in d.sent
      ensures TellsTruth(d, m)
    {
      assert MessageShape(c, m) && TellsTruth(c, m);
    }
  }

  lemma NodeStep(c: Cluster, i: int, t: NodeState, g: History)
    requires Inv(c) && IsId(c, i) && Sound(c, i, t, g)
    ensures Inv(With(c, i, t, g))
  {
    OthersKept(c, i, t, g);
    QuorumsKept(c, i, t, g);
  }

  lemma SendStep(c: Cluster, more: set<Message>)
    requires Inv(c)
    requires forall m :: m in more ==> MessageShape(c, m) && TellsTruth(c, m)
    ensures Inv(c.(sent := c.sent + more))
  {
    var d := c.(sent := c.sent + more);
    assert forall m :: MessageShape(c, m) ==> MessageShape(d, m);
    assert forall v, candidate, term :: VotedFor(c, v, candidate, term) ==> VotedFor(d, v, candidate, term);
    assert Shape(d);
    forall m | m in d.sent
      ensures TellsTruth(d, m)
    {
      assert TellsTruth(c, m);
    }
    forall j | IsId(d, j)
      ensures FollowersVoted(d, j)
    {
      assert FollowersVoted(c, j);
    }
    forall j, u | IsId(d, j) && u in d.past[j].won
      ensures HasQuorum(d, j, u)
    {
      assert HasQuorum(c, j, u);
    }
  }

  lemma FrameStep(c: Cluster, i: int, t: NodeState)
    requires Inv(c) && IsId(c, i) && NodeShape(t, i, |c.nodes|)
    requires var s := c.nodes[i];
             t.role == s.role && t.term == s.term && t.voteFor == s.voteFor && t.followers == s.followers
    ensures Inv(With(c, i, t, c.past[i]))
  {
    assert t.role == Follower || FollowersVoted(c, i);
    LocalByFrame(c.nodes[i], c.past[i], t);
    NodeStep(c, i, t, c.past[i]);
  }

  /* ---- Election Safety ---- */

  // A voter of both would have voted twice, and then neither could lead.
  lemma SharedVoter(c: Cluster, i: int, j: int, v: int)
    requires Inv(c) && IsId(c, i) && IsId(c, j) && i != j
    requires c.nodes[i].role == Candidate && c.nodes[i].term in c.past[j].won
    requires VotedFor(c, v, i, c.nodes[i].term)
    ensures !VotedFor(c, v, j, c.nodes[i].term)
  {
    assert LocalInv(c.nodes[v], c.past[v]);
  }

  // A term that has a leader gives no majority to another candidate.
  lemma NoSecondLeader(c: Cluster, i: int, j: int)
    requires Inv(c) && IsId(c, i) && IsId(c, j)
    requires c.nodes[i].role == Candidate && c.nodes[i].term in c.past[j].won
    ensures !IsMajority(|c.nodes|, |c.nodes[i].followers| + 1)
  {
    var s := c.nodes[i];
    assert LocalInv(s, c.past[i]);
    if IsMajority(|c.nodes|, |s.followers| + 1) {
      assert FollowersVoted(c, i) && HasQuorum(c, j, s.term);
      var v := MajoritiesMeet(|c.nodes|, s.followers + {s.id}, c.past[j].won[s.term]);
      SharedVoter(c, i, j, v);
    }
  }

  /* ---- every step keeps the invariant ---- */

  lemma TermStep(c: Cluster, i: int, t: NodeState)
    requires Inv(c) && IsId(c, i) && NodeShape(t, i, |c.nodes|)
    requires t.role == Follower && t.term >= c.nodes[i].term
    requires t.term == c.nodes[i].term ==> c.nodes[i].role == Candidate
    ensures Inv(With(c, i, t, c.past[i]))
  {
    if t.term > c.nodes[i].term {
      LocalByTerm(c.nodes[i], c.past[i], t);
    } else {
      LocalByStepDown(c.nodes[i], c.past[i], t);
    }
    NodeStep(c, i, t, c.past[i]);
  }

  lemma ElectionKeeps(c: Cluster, i: int)
    requires Inv(c) && Enabled(c, Election(i))
    ensures Inv(Next(c, Election(i)))
  {
    var (t, args) := StartElection(c.nodes[i]);
    var h := Voted(c.past[i], i, t.term);
    LocalByElection(c.nodes[i], c.past[i]);
    NodeStep(c, i, t, h);
    var d := With(c, i, t, h);
    assert Requests(c, i, args) == Requests(d, i, args);
    SendStep(d, Requests(d, i, args));
  }

  // The voter's state after the term check, before any vote is cast.
  function Answering(s: NodeState, args: VoteArgs): NodeState {
    if s.stopped then s else CatchUp(s, args.term)
  }

  lemma AnsweringKeeps(c: Cluster, v: int, args: VoteArgs)
    requires Inv(c) && IsId(c, v)
    ensures Inv(With(c, v, Answering(c.nodes[v], args), c.past[v]))
  {
    var t := Answering(c.nodes[v], args);
    if t == c.nodes[v] { FrameStep(c, v, t); } else { TermStep(c, v, t); }
  }

  lemma VoterKeeps(c: Cluster, v: int, args: VoteArgs)
    requires Inv(c) && IsId(c, v) && IsId(c, args.candidate) && args.candidate != v
    ensures var (u, reply) := OnVoteRequest(c.nodes[v], args); Inv(With(c, v, u, AfterRequest(c.past[v], args, reply)))
  {
    AnsweringKeeps(c, v, args);
    var t := Answering(c.nodes[v], args);
    if Grants(c.nodes[v], args) {
      var caught := With(c, v, t, c.past[v]);
      VoteStep(caught, v, args.candidate);
      var u := t.(voteFor := args.candidate);
      var h := Voted(c.past[v], args.candidate, t.term);
      assert With(caught, v, u, h) == With(c, v, u, h);
    }
  }

  lemma AskVoteKeeps(c: Cluster, m: Message)
    requires Inv(c) && Enabled(c, HandleAskVote(m))
    ensures Inv(Next(c, HandleAskVote(m)))
  {
    assert MessageShape(c, m) && TellsTruth(c, m);
    VoterKeeps(c, m.dst, m.args);
    var (u, reply) := OnVoteRequest(c.nodes[m.dst], m.args);
    var d := With(c, m.dst, u, AfterRequest(c.past[m.dst], m.args, reply));
    SendStep(d, {Vote(m.dst, m.src, m.args.term, reply)});
  }

  lemma VoteStep(c: Cluster, v: int, candidate: int)
    requires Inv(c) && IsId(c, v) && IsId(c, candidate) && candidate != v
    requires c.nodes[v].voteFor == NO_VOTE || c.nodes[v].voteFor == candidate
    ensures var t := c.nodes[v].(voteFor := candidate);
            Inv(With(c, v, t, Voted(c.past[v], candidate, t.term)))
  {
    var s := c.nodes[v];
    assert LocalInv(s, c.past[v]);
    LocalByVote(s, c.past[v], candidate);
    NodeStep(c, v, s.(voteFor := candidate), Voted(c.past[v], candidate, s.term));
  }

  lemma CountStep(c: Cluster, i: int, f: nat)
    requires Inv(c) && IsId(c, i) && f != i && VotedFor(c, f, i, c.nodes[i].term)
    ensures Inv(With(c, i, c.nodes[i].(followers := c.nodes[i].followers + {f}), c.past[i]))
  {
    var t := c.nodes[i].(followers := c.nodes[i].followers + {f});
    assert FollowersVoted(c, i) && LocalInv(c.nodes[i], c.past[i]);
    LocalByFrame(c.nodes[i], c.past[i], t);
    NodeStep(c, i, t, c.past[i]);
  }

  lemma WinStep(c: Cluster, i: int)
    requires Inv(c) && IsId(c, i) && c.nodes[i].role == Candidate
    requires IsMajority(|c.nodes|, |c.nodes[i].followers| + 1)
    ensures var t := ToLeader(c.nodes[i]); Inv(With(c, i, t, AfterReply(c.past[i], c.nodes[i], t)))
  {
    var s := c.nodes[i];
    var t := ToLeader(s);
    assert LocalInv(s, c.past[i]) && FollowersVoted(c, i);
    LocalByWinning(s, c.past[i], s.followers + {s.id});
    forall j | IsId(c, j)
      ensures s.term !in c.past[j].won
    {
      if s.term in c.past[j].won { NoSecondLeader(c, i, j); }
    }
    NodeStep(c, i, t, AfterReply(c.past[i], s, t));
  }

  // A reply that is counted, or not, and may complete a majority.
  lemma TallyKeeps(c: Cluster, i: int, f: nat, counts: bool)
    requires Inv(c) && IsId(c, i) && c.nodes[i].role == Candidate
    requires counts ==> f != i && VotedFor(c, f, i, c.nodes[i].term)
    ensures var s := c.nodes[i];
            var s1 := if counts then s.(followers := s.followers + {f}) else s;
            var t := if IsMajority(s.size, |s1.followers| + 1) then ToLeader(s1) else s1;
            Inv(With(c, i, t, AfterReply(c.past[i], s, t)))
  {
    var s := c.nodes[i];
    assert NodeShape(s, i, |c.nodes|);
    hide Inv, LogSafe;
    var s1 := if counts then s.(followers := s.followers + {f}) else s;
    if counts { CountStep(c, i, f); } else { FrameStep(c, i, s1); }
    WinIfMajority(c, i, s1);
  }

  lemma WinIfMajority(c: Cluster, i: int, s1: NodeState)
    requires Shape(c) && IsId(c, i) && Inv(With(c, i, s1, c.past[i]))
    requires c.nodes[i].role == s1.role == Candidate && s1.term == c.nodes[i].term && s1.size == |c.nodes|
    ensures var t := if IsMajority(s1.size, |s1.followers| + 1) then ToLeader(s1) else s1;
            Inv(With(c, i, t, AfterReply(c.past[i], c.nodes[i], t)))
  {
    hide Inv;
    var c1 := With(c, i, s1, c.past[i]);
    if IsMajority(s1.size, |s1.followers| + 1) {
      WinStep(c1, i);
      var t := ToLeader(s1);
      var h := AfterReply(c.past[i], c.nodes[i], t);
      assert With(c1, i, t, h) == With(c, i, t, h);
    }
  }

  lemma VoteKeeps(c: Cluster, m: Message)
    requires Inv(c) && Enabled(c, HandleVote(m)) && Timely(c, HandleVote(m))
    ensures Inv(Next(c, HandleVote(m)))
  {
    var s := c.nodes[m.dst];
    var t := OnVoteReply(s, m.src, m.asked, m.reply);
    assert MessageShape(c, m) && TellsTruth(c, m);
    if s.role != Candidate {
      FrameStep(c, m.dst, t);
    } else if m.reply.term > m.asked {
      TermStep(c, m.dst, t);
    } else {
      TallyKeeps(c, m.dst, m.src, m.reply.term == m.asked && m.reply.granted);
    }
  }

  // A leader is never told to step down by an append of its own term.
  lemma LeaderSeesNoRival(c: Cluster, m: Message)
    requires Inv(c) && m in c.sent && m.Append?
    ensures c.nodes[m.dst].role == Leader ==> m.body.term != c.nodes[m.dst].term
  {
    assert MessageShape(c, m) && TellsTruth(c, m);
    assert LocalInv(c.nodes[m.dst], c.past[m.dst]);
  }

  lemma AppendKeepsShape(s: NodeState, i: int, n: nat, body: AppendArgs)
    requires NodeShape(s, i, n) && 0 <= body.prevIndex
    ensures NodeShape(OnAppend(s, body).0, i, n)
  {
  }

  lemma AppendReplyKeepsShape(s: NodeState, i: int, n: nat, target: nat, asked: int, count: nat, reply: AppendReply)
    requires NodeShape(s, i, n) && target < n
    ensures NodeShape(OnAppendReply(s, target, asked, count, reply), i, n)
  {
  }

  lemma AppendKeeps(c: Cluster, m: Message)
    requires Inv(c) && Enabled(c, HandleAppend(m))
    ensures Inv(Next(c, HandleAppend(m)))
  {
    var s := c.nodes[m.dst];
    var t := OnAppend(s, m.body).0;
    assert MessageShape(c, m);
    LeaderSeesNoRival(c, m);
    AppendKeepsShape(s, m.dst, |c.nodes|, m.body);
    if t.term == s.term && t.role == s.role { FrameStep(c, m.dst, t); } else { TermStep(c, m.dst, t); }
  }

  lemma AppendReplyKeeps(c: Cluster, step: Step)
    requires step.HandleAppendReply?
    requires Inv(c) && Enabled(c, step) && Timely(c, step)
    ensures Inv(Next(c, step))
  {
    var s := c.nodes[step.i];
    var t := OnAppendReply(s, step.target, step.asked, step.count, step.answer);
    AppendReplyKeepsShape(s, step.i, |c.nodes|, step.target, step.asked, step.count, step.answer);
    if step.answer.term > step.asked { TermStep(c, step.i, t); } else { FrameStep(c, step.i, t); }
  }

  lemma SendAppendKeeps(c: Cluster, i: int, d: int, body: AppendArgs)
    requires Inv(c) && IsId(c, i) && IsId(c, d) && i != d
    requires c.nodes[i].role == Leader && body.term == c.nodes[i].term && 0 <= body.prevIndex
    ensures Inv(c.(sent := c.sent + {Append(i, d, body)}))
  {
    assert LocalInv(c.nodes[i], c.past[i]);
    SendStep(c, {Append(i, d, body)});
  }

  lemma StepKeepsInv(c: Cluster, step: Step)
    requires Inv(c) && Enabled(c, step) && Timely(c, step)
    ensures Inv(Next(c, step))
  {
    match step
    case Election(i) => ElectionKeeps(c, i);
    case HandleAskVote(m) => AskVoteKeeps(c, m);
    case HandleVote(m) => VoteKeeps(c, m);
    case Heartbeat(i, d) => SendAppendKeeps(c, i, d, HeartbeatFor(c.nodes[i], d));
    case Replicate(i, d) => SendAppendKeeps(c, i, d, EntriesFor(c.nodes[i], d));
    case HandleAppend(m) => AppendKeeps(c, m);
    case HandleAppendReply(_, _, _, _, _) => AppendReplyKeeps(c, step);
    case Submit(i, cmd) => FrameStep(c, i, OnCommand(c.nodes[i], cmd));
    case Apply(i) => FrameStep(c, i, ApplyCommitted(c.nodes[i]));
    case Stop(i) => FrameStep(c, i, c.nodes[i].(stopped := true));
  }

  lemma InitialInv(c: Cluster, n: nat)
    requires Initial(c, n)
    ensures Inv(c)
  {
  }

  lemma {:induction false} RunsKeepInv(r: Run, n: nat, k: nat)
    requires TimelyRun(r, n) && k < |r.states|
    ensures Inv(r.states[k])
  {
    if k == 0 {
      InitialInv(r.states[0], n);
    } else {
      hide Inv, Next, Enabled, Timely;
      RunsKeepInv(r, n, k - 1);
      assert TimelyAt(r, k - 1);
      StepKeepsInv(r.states[k - 1], r.steps[k - 1]);
    }
  }
}

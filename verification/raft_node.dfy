// One Raft node: the handlers as functions on a node's state, and a class
// whose methods update the fields in place and are proved against them.

module RaftNode {

  type Command = string

  datatype Entry = Entry(cmd: Command, term: int)

  // What std::vector::resize fills a gap with.
  const BLANK_ENTRY := Entry("", 0)

  datatype Role = Follower | Candidate | Leader

  const NO_VOTE: int := -1

  datatype NodeState = NodeState(
    id: nat,
    size: nat,               // number of nodes in the cluster
    stopped: bool,
    role: Role,
    term: int,
    voteFor: int,
    followers: set<nat>,     // ids that voted for this candidate
    log: seq<Entry>,
    commitIndex: int,
    lastApplied: int,
    nextIndex: seq<int>,
    matchIndex: seq<int>,
    applied: seq<Command>)   // what the state machine has been given so far

  datatype VoteArgs = VoteArgs(term: int, candidate: int, lastIndex: int, lastTerm: int)
  datatype VoteReply = VoteReply(term: int, granted: bool)
  datatype AppendArgs = AppendArgs(term: int, leader: int, prevIndex: int, prevTerm: int,
                                   entries: seq<Entry>, leaderCommit: int)
  datatype AppendReply = AppendReply(term: int, success: bool)

  // A node that starts with the log its storage holds.
  function Fresh(id: nat, size: nat, log: seq<Entry>): NodeState {
    NodeState(id, size, false, Follower, 0, NO_VOTE, {}, log, 0, 0, [], [], [])
  }

  /* ---- role changes ---- */

  function ToFollower(s: NodeState, term: int): NodeState {
    s.(role := Follower, voteFor := NO_VOTE, term := term, followers := {})
  }

  function ToCandidate(s: NodeState, term: int): NodeState {
    s.(role := Candidate, voteFor := s.id, term := term, followers := {})
  }

  function ToLeader(s: NodeState): NodeState {
    s.(role := Leader,
       nextIndex := seq(s.size, _ => |s.log| + 1),
       matchIndex := seq(s.size, _ => 0))
  }

  /* ---- log access: positions are one-based here, as in GetLogTerm ---- */

  function LogTerm(log: seq<Entry>, index: int): int
    requires 0 <= index
  {
    if index > |log| then -1 else if index == 0 then 0 else log[index - 1].term
  }

  predicate UpToDate(log: seq<Entry>, args: VoteArgs) {
    var mine := LogTerm(log, |log|);
    mine < args.lastTerm || (mine == args.lastTerm && |log| <= args.lastIndex)
  }

  /* ---- RequestVote ---- */

  function CatchUp(s: NodeState, term: int): NodeState {
    if term > s.term then ToFollower(s, term) else s
  }

  predicate Grants(s: NodeState, args: VoteArgs) {
    var t := CatchUp(s, args.term);
    !s.stopped && args.term == t.term && (t.voteFor == NO_VOTE || t.voteFor == args.candidate) && UpToDate(t.log, args)
  }

  function OnVoteRequest(s: NodeState, args: VoteArgs): (NodeState, VoteReply) {
    if s.stopped then (s, VoteReply(0, false))
    else
      var t := CatchUp(s, args.term);
      if Grants(s, args) then (t.(voteFor := args.candidate), VoteReply(t.term, true))
      else (t, VoteReply(t.term, false))
  }

  function StartElection(s: NodeState): (NodeState, VoteArgs) {
    var t := ToCandidate(s, s.term + 1);
    (t, VoteArgs(t.term, t.id, |t.log|, LogTerm(t.log, |t.log|)))
  }

  predicate IsMajority(size: nat, votes: nat) {
    votes > size / 2
  }

  // The reply of `target` to a request that was sent in term `asked`.
  function OnVoteReply(s: NodeState, target: nat, asked: int, reply: VoteReply): NodeState {
    if s.role != Candidate then s
    else if reply.term > asked then ToFollower(s, reply.term)
    else
      var t := if reply.term == asked && reply.granted then s.(followers := s.followers + {target}) else s;
      if IsMajority(s.size, |t.followers| + 1) then ToLeader(t) else t
  }

  /* ---- AppendEntries ---- */

  // How many of `entries` agree, term by term, with the log from `at` on.
  function Agreeing(log: seq<Entry>, at: nat, entries: seq<Entry>): (k: nat)
    ensures k <= |entries|
    decreases |entries|
  {
    if entries == [] || at >= |log| || log[at].term != entries[0].term then 0
    else 1 + Agreeing(log, at + 1, entries[1..])
  }

  // It is the longest agreeing prefix.
  lemma {:induction false} AgreeingIsLongest(log: seq<Entry>, at: nat, entries: seq<Entry>)
    ensures var k := Agreeing(log, at, entries);
            && (k == 0 || at + k <= |log|)
            && (forall j :: 0 <= j < k ==> log[at + j].term == entries[j].term)
            && (k < |entries| && at + k < |log| ==> log[at + k].term != entries[k].term)
    decreases |entries|
  {
    if entries != [] && at < |log| && log[at].term == entries[0].term {
      AgreeingIsLongest(log, at + 1, entries[1..]);
      var k := Agreeing(log, at + 1, entries[1..]);
      forall j | 0 <= j < k + 1
        ensures log[at + j].term == entries[j].term
      {
        if j > 0 { assert log[at + 1 + (j - 1)].term == entries[1..][j - 1].term; }
      }
    }
  }

  function Padded(log: seq<Entry>, length: nat): (r: seq<Entry>)
    ensures |r| == (if |log| < length then length else |log|) && r[..|log|] == log
    ensures forall j :: |log| <= j < |r| ==> r[j] == BLANK_ENTRY
  {
    if |log| < length then log + seq(length - |log|, _ => BLANK_ENTRY) else log
  }

  // RaftStorage::AddLog(at, entries): grow if needed, then overwrite.
  function Overwrite(log: seq<Entry>, at: nat, entries: seq<Entry>): (r: seq<Entry>)
    ensures |r| == if |log| < at + |entries| then at + |entries| else |log|
    ensures forall j :: at <= j < at + |entries| ==> r[j] == entries[j - at]
    ensures forall j :: 0 <= j < |log| && !(at <= j < at + |entries|) ==> r[j] == log[j]
    ensures forall j :: |log| <= j < at ==> r[j] == BLANK_ENTRY
  {
    var p := Padded(log, at + |entries|);
    p[..at] + entries + p[at + |entries|..]
  }

  predicate PrevMatches(log: seq<Entry>, args: AppendArgs)
    requires 0 <= args.prevIndex
  {
    args.prevIndex <= |log| && args.prevTerm == LogTerm(log, args.prevIndex)
  }

  function MergeLog(log: seq<Entry>, args: AppendArgs): (r: seq<Entry>)
    requires 0 <= args.prevIndex && PrevMatches(log, args)
    ensures |r| >= |log|
    ensures args.entries != [] ==> |r| >= 1
  {
    var at := args.prevIndex + 1;
    var k := Agreeing(log, at, args.entries);
    if k < |args.entries| then Overwrite(log, at + k, args.entries[k..]) else log
  }

  function Min(a: int, b: int): int {
    if a < b then a else b
  }

  function OnAppend(s: NodeState, args: AppendArgs): (NodeState, AppendReply)
    requires 0 <= args.prevIndex
  {
    if args.term < s.term || s.stopped then (s, AppendReply(s.term, false))
    else
      var caught := CatchUp(s, args.term);
      var t := if caught.role != Follower then ToFollower(caught, args.term) else caught;
      // the heartbeat path returns before reply.term is set
      if args.entries == [] then (t, AppendReply(0, false))
      else if !PrevMatches(t.log, args) then (t, AppendReply(t.term, false))
      else
        var log := MergeLog(t.log, args);
        var commit := if args.leaderCommit > t.commitIndex then Min(args.leaderCommit, |log| - 1) else t.commitIndex;
        (t.(log := log, commitIndex := commit), AppendReply(t.term, true))
  }

  /* ---- the leader's side of AppendEntries ---- */

  function Matching(followers: set<nat>, matchIndex: seq<int>, i: int): set<nat> {
    set f | f in followers && 0 <= f < |matchIndex| && matchIndex[f] >= i
  }

  predicate Replicated(s: NodeState, i: int) {
    (1 + |Matching(s.followers, s.matchIndex, i)|) * 2 > s.size + 1
  }

  // The last position from i on that carries `term` and is replicated.
  function CommitFrom(s: NodeState, i: nat, term: int, commit: int): (r: int)
    ensures r == commit || i <= r < |s.log|
    decreases |s.log| - i
  {
    if i >= |s.log| then commit
    else CommitFrom(s, i + 1, term, if s.log[i].term == term && Replicated(s, i) then i else commit)
  }

  predicate Tracks(s: NodeState, target: nat) {
    0 <= target < |s.nextIndex| && |s.matchIndex| == |s.nextIndex|
  }

  // A reply to an append that carried `sent` entries and was sent in term `asked`.
  function OnAppendReply(s: NodeState, target: nat, asked: int, sent: nat, reply: AppendReply): NodeState
    requires s.role == Leader ==> Tracks(s, target)
    requires 0 <= s.commitIndex
  {
    if reply.term > asked then ToFollower(s, reply.term)
    else if s.role == Leader && reply.term == asked then
      if reply.success then
        var next := s.nextIndex[target] + sent;
        var t := s.(nextIndex := s.nextIndex[target := next], matchIndex := s.matchIndex[target := next - 1]);
        t.(commitIndex := CommitFrom(t, t.commitIndex + 1, reply.term, t.commitIndex))
      else s.(nextIndex := s.nextIndex[target := s.nextIndex[target] - 1])
    else s
  }

  // What RunBackgroundCommit sends to `target`.
  function EntriesFor(s: NodeState, target: nat): AppendArgs
    requires Tracks(s, target) && 1 <= s.nextIndex[target] <= |s.log|
  {
    var prev := s.nextIndex[target] - 1;
    AppendArgs(s.term, s.id, prev, LogTerm(s.log, prev), s.log[prev..], s.commitIndex)
  }

  function HeartbeatFor(s: NodeState, target: nat): AppendArgs
    requires Tracks(s, target) && 1 <= s.nextIndex[target]
  {
    var prev := s.nextIndex[target] - 1;
    AppendArgs(s.term, s.id, prev, LogTerm(s.log, prev), [], s.commitIndex)
  }

  function OnCommand(s: NodeState, cmd: Command): NodeState {
    if s.stopped || s.role != Leader then s else s.(log := s.log + [Entry(cmd, s.term)])
  }

  function Commands(log: seq<Entry>): (r: seq<Command>)
    ensures |r| == |log| && forall i :: 0 <= i < |log| ==> r[i] == log[i].cmd
  {
    seq(|log|, i requires 0 <= i < |log| => log[i].cmd)
  }

  lemma CommandsAppend(log: seq<Entry>, e: Entry)
    ensures Commands(log + [e]) == Commands(log) + [e.cmd]
  {
  }

  predicate LogSafe(s: NodeState) {
    && 0 <= s.lastApplied <= s.commitIndex
    && (s.commitIndex < |s.log| || s.commitIndex == 0)
    && |s.applied| == s.lastApplied
  }

  function ApplyCommitted(s: NodeState): NodeState
    requires LogSafe(s)
  {
    s.(lastApplied := s.commitIndex,
       applied := s.applied + Commands(s.log[s.lastApplied..s.commitIndex]))
  }

  // What was applied before, and then the commands of the log from there on.
  lemma AppliedAt(before: seq<Command>, log: seq<Entry>, commit: int)
    requires |before| <= commit <= |log|
    ensures var applied := before + Commands(log[|before|..commit]);
            |applied| == commit && forall i :: |before| <= i < commit ==> applied[i] == log[i].cmd
  {
  }

  /* ---- the node as an object ---- */

  class Raft {
    const id: nat
    const size: nat
    var stopped: bool
    var role: Role
    var term: int
    var voteFor: int
    var followers: set<nat>
    var log: seq<Entry>
    var commitIndex: int
    var lastApplied: int
    var nextIndex: seq<int>
    var matchIndex: seq<int>
    var applied: seq<Command>

    ghost function State(): NodeState
      reads this
    {
      NodeState(id, size, stopped, role, term, voteFor, followers, log, commitIndex, lastApplied,
                nextIndex, matchIndex, applied)
    }

    constructor (id: nat, size: nat, log: seq<Entry>)
      ensures State() == Fresh(id, size, log)
      ensures !stopped && role == Follower && term == 0 && voteFor == NO_VOTE && followers == {} && this.log == log
      ensures commitIndex == 0 && lastApplied == 0 && applied == []
    {
      this.id := id;
      this.size := size;
      this.log := log;
      stopped, role, term, voteFor, followers := false, Follower, 0, NO_VOTE, {};
      commitIndex, lastApplied, nextIndex, matchIndex, applied := 0, 0, [], [], [];
    }

    method BeginNewTerm(t: int)
      modifies this
      ensures State() == old(State()).(term := t, followers := {})
    {
      term := t;
      followers := {};
    }

    method BecomeFollower(t: int)
      modifies this
      ensures State() == old(State()).(role := Follower, voteFor := NO_VOTE, term := t, followers := {})
    {
      role := Follower;
      voteFor := NO_VOTE;
      BeginNewTerm(t);
    }

    method BecomeCandidate(t: int)
      modifies this
      ensures State() == old(State()).(role := Candidate, voteFor := id, term := t, followers := {})
    {
      role := Candidate;
      voteFor := id;
      BeginNewTerm(t);
    }

    method BecomeLeader()
      modifies this
      ensures State() == old(State()).(role := Leader, nextIndex := nextIndex, matchIndex := matchIndex)
      ensures |nextIndex| == |matchIndex| == size
      ensures forall i :: 0 <= i < size ==> nextIndex[i] == |log| + 1 && matchIndex[i] == 0
    {
      role := Leader;
      var next := |log| + 1;
      nextIndex := seq(size, _ => next);
      matchIndex := seq(size, _ => 0);
    }

    method RequestVote(args: VoteArgs) returns (reply: VoteReply)
      modifies this
      ensures (State(), reply) == OnVoteRequest(old(State()), args)
    {
      reply := VoteReply(0, false);
      if stopped { return; }
      if args.term > term { BecomeFollower(args.term); }
      if args.term == term && (voteFor == NO_VOTE || voteFor == args.candidate) {
        var lastIndex := |log|;
        var lastTerm := LogTerm(log, lastIndex);
        if lastTerm < args.lastTerm || (lastTerm == args.lastTerm && lastIndex <= args.lastIndex) {
          reply := reply.(granted := true);
          voteFor := args.candidate;
        }
      }
      reply := reply.(term := term);
    }

    method Campaign() returns (args: VoteArgs)
      modifies this
      ensures (State(), args) == StartElection(old(State()))
    {
      BecomeCandidate(term + 1);
      args := VoteArgs(term, id, |log|, LogTerm(log, |log|));
    }

    method ReceiveVote(target: nat, asked: int, reply: VoteReply)
      modifies this
      ensures State() == OnVoteReply(old(State()), target, asked, reply)
    {
      if role != Candidate { return; }
      if reply.term > asked {
        BecomeFollower(reply.term);
        return;
      }
      if reply.term == asked && reply.granted {
        followers := followers + {target};
      }
      if |followers| + 1 > size / 2 {
        BecomeLeader();
      }
    }

    method AddLogAt(at: nat, entries: seq<Entry>)
      modifies this`log
      ensures log == Overwrite(old(log), at, entries)
    {
      var need := at + |entries|;
      if |log| < need {
        log := log + seq(need - |log|, _ => BLANK_ENTRY);
      }
      ghost var padded := log;
      for i := 0 to |entries|
        invariant |log| == |padded|
        invariant log == padded[..at] + entries[..i] + padded[at + i..]
      {
        log := log[at + i := entries[i]];
      }
      assert entries[..|entries|] == entries;
    }

    method AppendEntries(args: AppendArgs) returns (reply: AppendReply)
      requires 0 <= args.prevIndex
      modifies this
      ensures (State(), reply) == OnAppend(old(State()), args)
    {
      reply := AppendReply(0, false);
      if args.term < term || stopped {
        reply := reply.(term := term);
        return;
      }
      if args.term > term { BecomeFollower(args.term); }
      if args.entries == [] {
        if role != Follower { BecomeFollower(args.term); }
        return;
      }
      if role != Follower { BecomeFollower(args.term); }
      if args.prevIndex <= |log| && args.prevTerm == LogTerm(log, args.prevIndex) {
        reply := reply.(success := true);
        MergeEntries(args);
        if args.leaderCommit > commitIndex {
          commitIndex := Min(args.leaderCommit, |log| - 1);
        }
      }
      reply := reply.(term := term);
    }

    // The insertion-point loop of AppendEntries, and the overwrite after it.
    method MergeEntries(args: AppendArgs)
      requires 0 <= args.prevIndex && PrevMatches(log, args)
      modifies this`log
      ensures log == MergeLog(old(log), args)
    {
      hide Agreeing, Overwrite;
      var k := FirstDisagreement(log, args.prevIndex + 1, args.entries);
      if k < |args.entries| {
        AddLogAt(args.prevIndex + 1 + k, args.entries[k..]);
      }
    }

    static method FirstDisagreement(log: seq<Entry>, at: nat, entries: seq<Entry>) returns (k: nat)
      ensures k == Agreeing(log, at, entries)
    {
      k := 0;
      assert entries[0..] == entries;
      while at + k < |log| && k < |entries| && log[at + k].term == entries[k].term
        invariant k <= |entries|
        invariant Agreeing(log, at, entries) == k + Agreeing(log, at + k, entries[k..])
      {
        assert entries[k..][1..] == entries[k + 1..];
        k := k + 1;
      }
    }

    static method CountMatching(followers: set<nat>, matchIndex: seq<int>, i: int) returns (n: nat)
      ensures n == 1 + |Matching(followers, matchIndex, i)|
    {
      n := 1;
      var rest := followers;
      while exists f :: f in rest
        invariant rest <= followers
        invariant n == 1 + |Matching(followers - rest, matchIndex, i)|
        decreases rest
      {
        var f :| f in rest;
        ghost var before := Matching(followers - rest, matchIndex, i);
        var fewer := rest - {f};
        ghost var after := Matching(followers - fewer, matchIndex, i);
        assert followers - fewer == followers - rest + {f};
        if 0 <= f < |matchIndex| && matchIndex[f] >= i {
          n := n + 1;
          assert after == before + {f};
        } else {
          assert after == before;
        }
        rest := fewer;
      }
      assert followers - rest == followers by { assert rest == {}; }
    }

    method ReceiveAppendReply(target: nat, asked: int, sent: nat, reply: AppendReply)
      requires role == Leader ==> Tracks(State(), target)
      requires 0 <= commitIndex
      modifies this
      ensures State() == OnAppendReply(old(State()), target, asked, sent, reply)
    {
      if reply.term > asked {
        BecomeFollower(reply.term);
        return;
      }
      if role == Leader && reply.term == asked {
        if reply.success {
          nextIndex := nextIndex[target := nextIndex[target] + sent];
          matchIndex := matchIndex[target := nextIndex[target] - 1];
          AdvanceCommit(reply.term);
        } else {
          nextIndex := nextIndex[target := nextIndex[target] - 1];
        }
      }
    }

    method AdvanceCommit(replyTerm: int)
      requires 0 <= commitIndex
      modifies this`commitIndex
      ensures var s := old(State());
              State() == s.(commitIndex := CommitFrom(s, s.commitIndex + 1, replyTerm, s.commitIndex))
    {
      ghost var s := State();
      var i := commitIndex + 1;
      while i < |log|
        invariant i >= 1
        invariant State() == s.(commitIndex := commitIndex)
        invariant CommitFrom(s, s.commitIndex + 1, replyTerm, s.commitIndex) == CommitFrom(s, i, replyTerm, commitIndex)
      {
        if log[i].term == replyTerm {
          var n := CountMatching(followers, matchIndex, i);
          if n * 2 > size + 1 { commitIndex := i; }
        }
        i := i + 1;
      }
    }

    method NewCommand(cmd: Command) returns (accepted: bool, at: int)
      modifies this`log
      ensures State() == OnCommand(old(State()), cmd)
      ensures accepted <==> !stopped && role == Leader
      ensures if accepted then at == |old(log)| && log == old(log) + [Entry(cmd, term)] else log == old(log)
    {
      if stopped || role != Leader { return false, 0; }
      at := |log|;
      log := log + [Entry(cmd, term)];
      accepted := true;
    }

    method RunApply()
      requires LogSafe(State())
      modifies this`lastApplied, this`applied
      ensures State() == ApplyCommitted(old(State()))
      ensures LogSafe(State()) && lastApplied == commitIndex
      ensures |applied| == commitIndex && forall i :: old(lastApplied) <= i < commitIndex ==> applied[i] == log[i].cmd
    {
      hide Commands;
      assert Commands(log[lastApplied..lastApplied]) == [];
      while commitIndex > lastApplied
        invariant LogSafe(State())
        invariant old(lastApplied) <= lastApplied
        invariant applied == old(applied) + Commands(log[old(lastApplied)..lastApplied])
      {
        applied := applied + [log[lastApplied].cmd];
        lastApplied := lastApplied + 1;
        assert log[old(lastApplied)..lastApplied]
            == log[old(lastApplied)..lastApplied - 1] + [log[lastApplied - 1]];
        CommandsAppend(log[old(lastApplied)..lastApplied - 1], log[lastApplied - 1]);
      }
      AppliedAt(old(applied), log, commitIndex);
    }
  }
}

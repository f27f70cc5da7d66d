// Without the timeliness hypothesis Election Safety fails: a vote granted in
// an old term is counted in the current one.

module RaftStale {
  import opened RaftNode
  import opened RaftCluster
  import opened RaftSafety

  // The requests of a candidate with an empty log.
  function Ask(i: int, d: int, term: int): Message {
    AskVote(i, d, VoteArgs(term, i, 0, 0))
  }

  function Yes(v: int, i: int, term: int): Message {
    Vote(v, i, term, VoteReply(term, true))
  }

  function Last(r: Run): Cluster
    requires r.states != []
  {
    r.states[|r.states| - 1]
  }

  lemma Extend(r: Run, n: nat, step: Step) returns (q: Run)
    requires r.states != [] && IsRun(r, n) && Shape(Last(r)) && Enabled(Last(r), step)
    ensures q.states != [] && IsRun(q, n) && Shape(Last(q)) && Last(q) == Next(Last(r), step)
  {
    var d := Next(Last(r), step);
    ShapeKept(Last(r), step);
    q := Run(r.states + [d], r.steps + [step]);
    forall k | 0 <= k < |q.steps|
      ensures StepAt(q, k)
    {
      if k < |r.steps| { assert StepAt(r, k); }
    }
  }

  // Node i campaigns: its new state, and a request to node j.
  lemma Campaigns(r: Run, n: nat, i: int, j: int) returns (q: Run)
    requires r.states != [] && IsRun(r, n) && Shape(Last(r)) && IsId(Last(r), i) && IsId(Last(r), j) && i != j
    requires var s := Last(r).nodes[i]; s.role != Leader && !s.stopped && s.log == []
    ensures q.states != [] && IsRun(q, n) && Shape(Last(q))
    ensures Last(q).nodes == Last(r).nodes[i := ToCandidate(Last(r).nodes[i], Last(r).nodes[i].term + 1)]
    ensures Last(r).sent <= Last(q).sent
    ensures Ask(i, j, Last(r).nodes[i].term + 1) in Last(q).sent
  {
    q := Extend(r, n, Election(i));
  }

  // Node v, in an older term and with an empty log, grants its vote to i.
  lemma Votes(r: Run, n: nat, v: int, i: int, term: int) returns (q: Run)
    requires r.states != [] && IsRun(r, n) && Shape(Last(r)) && IsId(Last(r), v)
    requires var s := Last(r).nodes[v]; !s.stopped && s.log == [] && s.term < term
    requires Ask(i, v, term) in Last(r).sent
    ensures q.states != [] && IsRun(q, n) && Shape(Last(q))
    ensures Last(q).nodes == Last(r).nodes[v := ToFollower(Last(r).nodes[v], term).(voteFor := i)]
    ensures Last(q).sent == Last(r).sent + {Yes(v, i, term)}
  {
    q := Extend(r, n, HandleAskVote(Ask(i, v, term)));
  }

  // A granted vote makes two out of three, whatever the term it was asked in.
  lemma Wins(r: Run, v: int, i: int, term: int) returns (q: Run)
    requires r.states != [] && IsRun(r, 3) && Shape(Last(r)) && IsId(Last(r), i) && |Last(r).nodes| == 3
    requires Last(r).nodes[i].role == Candidate && Last(r).nodes[i].followers == {}
    requires Yes(v, i, term) in Last(r).sent
    ensures q.states != [] && IsRun(q, 3) && Shape(Last(q)) && |Last(q).nodes| == 3
    ensures Last(q).sent == Last(r).sent
    ensures Last(q).nodes[i].role == Leader && Last(q).nodes[i].term == Last(r).nodes[i].term
    ensures forall j :: 0 <= j < 3 && j != i ==> Last(q).nodes[j] == Last(r).nodes[j]
  {
    var m := Yes(v, i, term);
    var s := Last(r).nodes[i];
    assert MessageShape(Last(r), m) && NodeShape(s, i, 3);
    assert s.followers + {v} == {v} && |{v}| == 1;
    q := Extend(r, 3, HandleVote(m));
  }

  // Three nodes with empty logs.
  function Three(): Cluster {
    Cluster([Fresh(0, 3, []), Fresh(1, 3, []), Fresh(2, 3, [])],
            [History({}, map[]), History({}, map[]), History({}, map[])], {})
  }

  lemma Begins() returns (r: Run)
    ensures r.states != [] && IsRun(r, 3) && Shape(Last(r)) && Last(r) == Three()
  {
    r := Run([Three()], []);
  }

  // Node 0 asks in term 1, gives up, asks in term 2, and then receives node
  // 1's answer of term 1: it leads term 2. Node 1 wins term 2 with node 2.
  lemma TwoLeadersInOneTerm() returns (r: Run)
    ensures IsRun(r, 3)
    ensures LeadsAt(r, |r.steps|, 0, 2) && LeadsAt(r, |r.steps|, 1, 2)
    ensures !TimelyRun(r, 3)
  {
    hide IsRun, Shape, TimelyRun;
    r := Begins();
    r := Campaigns(r, 3, 0, 1);
    r := Votes(r, 3, 1, 0, 1);
    r := Campaigns(r, 3, 0, 1);
    r := Wins(r, 1, 0, 1);
    r := Campaigns(r, 3, 1, 2);
    r := Votes(r, 3, 2, 1, 2);
    r := Wins(r, 2, 1, 2);
    assert |r.states| == |r.steps| + 1 by { RunLength(r); }
    if TimelyRun(r, 3) { ElectionSafety(r, 3, |r.steps|, |r.steps|, 0, 1, 2); }
  }

  lemma RunLength(r: Run)
    requires IsRun(r, 3)
    ensures |r.states| == |r.steps| + 1
  {
  }
}

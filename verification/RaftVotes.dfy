/** What a message does in a reachable cluster, told from the history (pkg/jdb/raft.go:91-251): when
    a vote is granted, who becomes or stops being a leader, and whom a heartbeat wins over. */
module RaftVotes {
  import opened RaftNode
  import opened RaftCluster

  // ---- Votes ----

  /** The vote a node remembers is in the history. */
  ghost predicate VotedRecorded(c: Cluster) {
    forall h :: h in c.nodes && c.nodes[h].votedFor != "" ==>
      Vote(h, c.nodes[h].term, c.nodes[h].votedFor) in c.votes
  }

  lemma StepVoted(cfg: Config, c: Cluster, step: Step)
    requires Inv(cfg, c) && Enabled(c, step) && VotedRecorded(c)
    ensures VotedRecorded(Apply(c, step))
  {
    hide VotesOk, OneVotePerTerm, CallsOk, BallotsOk, LeadersOk, Calls, Majority;
    match step
    case Start(h) =>
    case DeliverRequest(call) => RequestVoted(cfg, c, call);
    case DeliverReply(call) => ReplyVoted(c, call);
    case FailCall(call) =>
    case SendBeat(h) =>
    case DeliverBeat(beat, to) =>
    case DeliverBeatReply(h, term) =>
  }

  lemma RequestVoted(cfg: Config, c: Cluster, call: Call)
    requires Enabled(c, DeliverRequest(call)) && VotedRecorded(c)
    ensures VotedRecorded(Apply(c, DeliverRequest(call)))
  {
    var voter := Target(c, call);
    VoteExact(c.nodes[voter], VoteArgs(call.term, call.candidate));
    hide RequestVote;
  }

  lemma ReplyVoted(c: Cluster, call: Call)
    requires Enabled(c, DeliverReply(call)) && VotedRecorded(c)
    ensures VotedRecorded(Apply(c, DeliverReply(call)))
  {
    var h, w := call.candidate, Win(call.term, call.candidate);
    var n := OnVoteReply(c.nodes[h], c.ballots[w], c.replies[call]).0;
    assert n.votedFor != "" ==> n.votedFor == c.nodes[h].votedFor && n.term == c.nodes[h].term;
    hide OnVoteReply;
  }

  lemma {:induction false} RunVoted(cfg: Config, steps: seq<Step>)
    requires ValidConfig(cfg) && LegalRun(cfg, steps)
    ensures VotedRecorded(Run(cfg, steps))
    decreases |steps|
  {
    hide Inv, Apply, Enabled, VotedRecorded;
    if |steps| == 0 {
      InitVoted(cfg);
    } else {
      RunVoted(cfg, steps[..|steps| - 1]);
      RunInv(cfg, steps[..|steps| - 1]);
      StepVoted(cfg, Run(cfg, steps[..|steps| - 1]), steps[|steps| - 1]);
    }
  }

  lemma InitVoted(cfg: Config)
    ensures VotedRecorded(Init(cfg))
  {
  }

  /** In every reachable state a vote request is granted if and only if its term is at least the
      voter's and the voter has not voted for another candidate in that term; the reply has the
      term the voter then is in. */
  lemma GrantExact(cfg: Config, steps: seq<Step>, call: Call)
    requires ValidConfig(cfg) && LegalRun(cfg, steps) && Enabled(Run(cfg, steps), DeliverRequest(call))
    ensures var c := Run(cfg, steps);
      var c', voter := Apply(c, DeliverRequest(call)), Target(c, call);
      && call in c'.replies && voter in c'.nodes
      && (c'.replies[call].granted <==>
            && call.term >= c.nodes[voter].term
            && forall v :: v in c.votes && v.voter == voter && v.term == call.term ==> v.candidate == call.candidate)
      && c'.replies[call].term == c'.nodes[voter].term >= call.term
  {
    hide LegalRun, Run, NodesOk, OneVotePerTerm, CallsOk, BallotsOk, LeadersOk;
    RunInv(cfg, steps);
    RunVoted(cfg, steps);
    var c := Run(cfg, steps);
    VoteExact(c.nodes[Target(c, call)], VoteArgs(call.term, call.candidate));
    hide RequestVote;
  }

  // ---- Roles ----

  /** A node whose term a message raises becomes a follower. Within a term a node changes its role
      only by winning as a candidate or by accepting a heartbeat, and it changes its leader only
      then, to itself or to the sender. */
  lemma StepRoles(cfg: Config, c: Cluster, step: Step, h: Host)
    requires Inv(cfg, c) && Enabled(c, step) && h in c.nodes
    ensures h in Apply(c, step).nodes
    ensures var n, n' := c.nodes[h], Apply(c, step).nodes[h];
      && (n'.term > n.term && step != Start(h) ==> n'.role == Follower)
      && (step == Start(h) ==> n'.role == Candidate && n'.term == n.term + 1 && n'.votedFor == h)
      && (n'.term == n.term && n'.role != n.role ==>
            || (n.role == Candidate && n'.role == Leader && Win(n.term, h) in Apply(c, step).wins)
            || (step.DeliverBeat? && step.to == h && n'.role == Follower))
      && (n'.leaderID != n.leaderID ==>
            || (n'.leaderID == h && n'.role == Leader && n.role == Candidate)
            || (step.DeliverBeat? && step.to == h && n'.leaderID == step.beat.host))
  {
    hide VotesOk, OneVotePerTerm, CallsOk, BallotsOk, LeadersOk, Calls, Majority;
    match step
    case Start(_) =>
    case DeliverRequest(_) =>
    case DeliverReply(call) => ReplyRoles(cfg, c, call, h);
    case FailCall(_) =>
    case SendBeat(_) =>
    case DeliverBeat(_, _) =>
    case DeliverBeatReply(_, _) =>
  }

  lemma ReplyRoles(cfg: Config, c: Cluster, call: Call, h: Host)
    requires NodesOk(cfg, c) && Enabled(c, DeliverReply(call)) && h in c.nodes
    ensures h in Apply(c, DeliverReply(call)).nodes
    ensures var n, c' := c.nodes[h], Apply(c, DeliverReply(call));
      var n' := c'.nodes[h];
      && (n'.term > n.term ==> n'.role == Follower)
      && (n'.term == n.term && n'.role != n.role ==>
            n.role == Candidate && n'.role == Leader && Win(n.term, h) in c'.wins)
      && (n'.leaderID != n.leaderID ==> n'.leaderID == h && n'.role == Leader && n.role == Candidate)
  {
    hide Majority;
  }

  /** A node never stays below a term it has been told of. */
  lemma StepLearns(c: Cluster, step: Step)
    requires Enabled(c, step)
    ensures var c' := Apply(c, step);
      && (step.DeliverRequest? ==>
            Target(c, step.call) in c'.nodes && c'.nodes[Target(c, step.call)].term >= step.call.term)
      && (step.DeliverReply? ==>
            step.call.candidate in c'.nodes && c'.nodes[step.call.candidate].term >= c.replies[step.call].term)
      && (step.DeliverBeat? ==> step.to in c'.nodes && c'.nodes[step.to].term >= step.beat.term)
      && (step.DeliverBeatReply? ==> step.h in c'.nodes && c'.nodes[step.h].term >= step.term)
  {
  }

  // ---- Heartbeats ----

  /** A leader can reach any other node it lists: the heartbeat it can send at any time, delivered to
      a node of no higher term, makes that node its follower and is on record as accepted. */
  lemma BeatSpreads(c: Cluster, h: Host, to: Host)
    requires h in c.nodes && c.nodes[h].role == Leader && to in c.nodes && to in c.nodes[h].peers && to != h
    requires c.nodes[to].term <= c.nodes[h].term
    ensures var beat := Win(c.nodes[h].term, h);
      && Enabled(c, SendBeat(h))
      && Enabled(Apply(c, SendBeat(h)), DeliverBeat(beat, to))
      && var c' := Apply(Apply(c, SendBeat(h)), DeliverBeat(beat, to));
      && c'.nodes[to].role == Follower && c'.nodes[to].leaderID == h && c'.nodes[to].term == c.nodes[h].term
      && Acceptance(c.nodes[h].term, to, h) in c'.accepted
      && c'.nodes[h] == c.nodes[h]
  {
  }
}

/** The cluster: nodes, calls in flight, and what the history proves about them
    (pkg/jdb/raft.go:91-251). Messages may be delayed, reordered or lost; elections may start
    at any time; nodes do not restart. */
module RaftCluster {
  import opened RaftNode

  /** Which hosts there are, and whom each of them calls. */
  datatype Config = Config(peers: map<Host, seq<Host>>)

  ghost predicate ValidConfig(cfg: Config) {
    "" !in cfg.peers
  }

  /** One vote call: the i-th peer of a candidate's election in a term. */
  datatype Call = Call(candidate: Host, term: nat, i: nat)

  datatype Vote = Vote(voter: Host, term: nat, candidate: Host)
  datatype Win = Win(term: nat, host: Host)
  datatype Acceptance = Acceptance(term: nat, receiver: Host, leader: Host)

  /** `requests` and `replies` are vote calls in flight, `open` the calls that have not returned
      to the caller, `beats` the heartbeats ever sent, `beatReplies` the terms of replies to
      them. `votes`, `wins`, `counted` and `accepted` are history: the votes ever granted, the
      elections ever won, the calls whose granted reply was counted, the heartbeats accepted. */
  datatype Cluster = Cluster(
    nodes: map<Host, NodeState>,
    ballots: map<Win, BallotState>,
    requests: set<Call>,
    replies: map<Call, VoteReply>,
    open: set<Call>,
    beats: set<Win>,
    beatReplies: set<nat>,
    votes: set<Vote>,
    wins: set<Win>,
    counted: map<Win, set<nat>>,
    accepted: set<Acceptance>
  )

  function Init(cfg: Config): Cluster {
    Cluster(map h | h in cfg.peers :: InitNode(h, cfg.peers[h]),
            map[], {}, map[], {}, {}, {}, {}, {}, map[], {})
  }

  datatype Step =
    | Start(h: Host)                           // startElection
    | DeliverRequest(call: Call)               // requestVote at the peer
    | DeliverReply(call: Call)                 // its reply back at the candidate
    | FailCall(call: Call)                     // the vote call returns an error
    | SendBeat(h: Host)                        // one tick of heartbeatLoop
    | DeliverBeat(beat: Win, to: Host)         // heartbeat at a peer
    | DeliverBeatReply(h: Host, term: nat)     // its reply back at the sender

  function Calls(h: Host, term: nat, n: nat): set<Call> {
    set i | 0 <= i < n :: Call(h, term, i)
  }

  predicate Enabled(c: Cluster, step: Step) {
    match step
    case Start(h) => h in c.nodes
    case DeliverRequest(call) =>
      && call in c.requests && call.candidate in c.nodes && call.i < |c.nodes[call.candidate].peers|
      && c.nodes[call.candidate].peers[call.i] in c.nodes
    case DeliverReply(call) =>
      call in c.open && call in c.replies && call.candidate in c.nodes && Win(call.term, call.candidate) in c.ballots
    case FailCall(call) => call in c.open && Win(call.term, call.candidate) in c.ballots
    case SendBeat(h) => h in c.nodes && c.nodes[h].role == Leader
    case DeliverBeat(beat, to) =>
      beat in c.beats && beat.host in c.nodes && to in c.nodes && to in c.nodes[beat.host].peers && to != beat.host
    case DeliverBeatReply(h, term) => h in c.nodes && term in c.beatReplies
  }

  /** The peer that a call goes to. */
  function Target(c: Cluster, call: Call): Host
    requires call.candidate in c.nodes && call.i < |c.nodes[call.candidate].peers|
  {
    c.nodes[call.candidate].peers[call.i]
  }

  function Apply(c: Cluster, step: Step): Cluster
    requires Enabled(c, step)
  {
    match step
    case Start(h) =>
      var (n, b) := StartElection(c.nodes[h]);
      var calls := Calls(h, n.term, |n.peers|);
      c.(nodes := c.nodes[h := n],
         ballots := c.ballots[Win(n.term, h) := b],
         requests := c.requests + calls,
         open := c.open + calls,
         votes := c.votes + {Vote(h, n.term, h)},
         counted := c.counted[Win(n.term, h) := {}])
    case DeliverRequest(call) =>
      var voter := Target(c, call);
      var (n, reply) := RequestVote(c.nodes[voter], VoteArgs(call.term, call.candidate));
      c.(nodes := c.nodes[voter := n],
         requests := c.requests - {call},
         replies := c.replies[call := reply],
         votes := if reply.granted then c.votes + {Vote(voter, call.term, call.candidate)} else c.votes)
    case DeliverReply(call) =>
      var w := Win(call.term, call.candidate);
      var (n, b) := OnVoteReply(c.nodes[call.candidate], c.ballots[w], c.replies[call]);
      c.(nodes := c.nodes[call.candidate := n],
         ballots := c.ballots[w := b],
         open := c.open - {call},
         wins := if n.role == Leader && c.nodes[call.candidate].role != Leader then c.wins + {Win(n.term, n.host)}
                 else c.wins,
         counted := if b.votes > c.ballots[w].votes && w in c.counted then c.counted[w := c.counted[w] + {call.i}]
                    else c.counted)
    case FailCall(call) =>
      var w := Win(call.term, call.candidate);
      c.(ballots := c.ballots[w := OnVoteError(c.ballots[w])], open := c.open - {call})
    case SendBeat(h) =>
      c.(beats := c.beats + {Win(c.nodes[h].term, h)})
    case DeliverBeat(beat, to) =>
      var (n, reply) := Heartbeat(c.nodes[to], BeatArgs(beat.term, beat.host));
      c.(nodes := c.nodes[to := n],
         beatReplies := c.beatReplies + {reply.term},
         accepted := if reply.ok then c.accepted + {Acceptance(beat.term, to, beat.host)} else c.accepted)
    case DeliverBeatReply(h, term) =>
      c.(nodes := c.nodes[h := OnBeatReply(c.nodes[h], BeatReply(term, true))])
  }

  // ---- Runs ----

  predicate LegalRun(cfg: Config, steps: seq<Step>)
    decreases |steps|, 0
  {
    |steps| > 0 ==> LegalRun(cfg, steps[..|steps| - 1]) && Enabled(Run(cfg, steps[..|steps| - 1]), steps[|steps| - 1])
  }

  function Run(cfg: Config, steps: seq<Step>): Cluster
    requires LegalRun(cfg, steps)
    decreases |steps|, 1
  {
    if |steps| == 0 then Init(cfg) else Apply(Run(cfg, steps[..|steps| - 1]), steps[|steps| - 1])
  }

  // ---- One vote per term ----

  /** Nodes keep their names and their peers; what is recorded of a node's votes agrees with it. */
  ghost predicate NodesOk(cfg: Config, c: Cluster) {
    && c.nodes.Keys == cfg.peers.Keys
    && forall h :: h in c.nodes ==> c.nodes[h].host == h && c.nodes[h].peers == cfg.peers[h]
  }

  /** A vote belongs to a term the voter has reached, and in the current one it is `votedFor`. */
  ghost predicate VotesOk(c: Cluster) {
    forall v :: v in c.votes ==>
      && v.voter in c.nodes && v.candidate != ""
      && v.term <= c.nodes[v.voter].term
      && (v.term == c.nodes[v.voter].term ==> c.nodes[v.voter].votedFor == v.candidate)
  }

  /** Each node grants its vote in a term to at most one candidate. */
  ghost predicate OneVotePerTerm(c: Cluster) {
    forall u, v :: u in c.votes && v in c.votes && u.voter == v.voter && u.term == v.term ==> u.candidate == v.candidate
  }

  /** Calls are of known elections; a granted reply is the recorded vote of the peer called. */
  ghost predicate CallsOk(c: Cluster) {
    && (forall call :: call in c.requests || call in c.replies || call in c.open ==>
          && call.candidate in c.nodes
          && call.i < |c.nodes[call.candidate].peers|
          && call.term <= c.nodes[call.candidate].term
          && Win(call.term, call.candidate) in c.ballots)
    && (forall call :: call in c.replies && c.replies[call].granted ==>
          Vote(c.nodes[call.candidate].peers[call.i], call.term, call.candidate) in c.votes)
  }

  ghost predicate BallotsOk(c: Cluster) {
    && c.ballots.Keys == c.counted.Keys
    && forall w :: w in c.ballots ==>
         && w.host in c.nodes && w.term <= c.nodes[w.host].term && c.ballots[w].term == w.term
         && Vote(w.host, w.term, w.host) in c.votes
  }

  /** A node in state Leader won its current term; heartbeats and their acceptances come from
      winners. */
  ghost predicate LeadersOk(c: Cluster) {
    && (forall h :: h in c.nodes && c.nodes[h].role == Leader ==> Win(c.nodes[h].term, h) in c.wins)
    && (forall w :: w in c.beats ==> w in c.wins)
    && (forall a :: a in c.accepted ==> Win(a.term, a.leader) in c.wins)
  }

  ghost predicate Inv(cfg: Config, c: Cluster) {
    NodesOk(cfg, c) && VotesOk(c) && OneVotePerTerm(c) && CallsOk(c) && BallotsOk(c) && LeadersOk(c)
  }

  lemma InitInv(cfg: Config)
    requires ValidConfig(cfg)
    ensures Inv(cfg, Init(cfg))
  {
  }

  lemma MoveNode(cfg: Config, c: Cluster, h: Host, n: NodeState)
    requires Inv(cfg, c) && h in c.nodes && Advances(c.nodes[h], n)
    requires n.role == Leader ==> Win(n.term, h) in c.wins
    ensures Inv(cfg, c.(nodes := c.nodes[h := n]))
  {
    hide OneVotePerTerm;
    var c' := c.(nodes := c.nodes[h := n]);
    assert NodesOk(cfg, c');
    hide NodesOk;
    assert VotesOk(c');
    hide VotesOk;
    MoveCalls(c, h, n);
    hide CallsOk;
    assert BallotsOk(c');
    hide BallotsOk;
    assert LeadersOk(c');
    OneVoteFrame(c, c');
  }

  lemma OneVoteFrame(c: Cluster, c': Cluster)
    requires OneVotePerTerm(c) && c.votes == c'.votes
    ensures OneVotePerTerm(c')
  {
  }

  lemma MoveCalls(c: Cluster, h: Host, n: NodeState)
    requires CallsOk(c) && h in c.nodes && Advances(c.nodes[h], n)
    ensures CallsOk(c.(nodes := c.nodes[h := n]))
  {
    hide Advances;
    assert n.peers == c.nodes[h].peers && n.term >= c.nodes[h].term by { AdvancesKeeps(c.nodes[h], n); }
  }

  lemma AdvancesKeeps(n: NodeState, n': NodeState)
    requires Advances(n, n')
    ensures n'.peers == n.peers && n'.term >= n.term && n'.host == n.host
  {
  }

  lemma AddVote(cfg: Config, c: Cluster, v: Vote)
    requires Inv(cfg, c) && v.voter in c.nodes && v.candidate != ""
    requires v.term == c.nodes[v.voter].term && c.nodes[v.voter].votedFor == v.candidate
    ensures Inv(cfg, c.(votes := c.votes + {v}))
  {
    var c' := c.(votes := c.votes + {v});
    hide CallsOk, BallotsOk, LeadersOk, NodesOk;
    assert VotesOk(c');
    assert OneVotePerTerm(c');
    hide VotesOk, OneVotePerTerm;
    MoreVotes(c, c');
    LeadersFrame(c, c');
    NodesFrame(cfg, c, c');
  }

  lemma MoreVotes(c: Cluster, c': Cluster)
    requires CallsOk(c) && BallotsOk(c) && c' == c.(votes := c'.votes) && c.votes <= c'.votes
    ensures CallsOk(c') && BallotsOk(c')
  {
  }

  lemma LeadersFrame(c: Cluster, c': Cluster)
    requires LeadersOk(c) && c.nodes == c'.nodes && c.wins == c'.wins
    requires c.beats == c'.beats && c.accepted == c'.accepted
    ensures LeadersOk(c')
  {
  }

  lemma NodesFrame(cfg: Config, c: Cluster, c': Cluster)
    requires NodesOk(cfg, c) && c.nodes == c'.nodes
    ensures NodesOk(cfg, c')
  {
  }

  lemma VotesFrame(c: Cluster, c': Cluster)
    requires VotesOk(c) && OneVotePerTerm(c) && c.nodes == c'.nodes && c.votes == c'.votes
    ensures VotesOk(c') && OneVotePerTerm(c')
  {
  }

  /** Changes of calls, ballots, counts and beats leave the rest of the invariant alone. */
  lemma Rest(cfg: Config, c: Cluster, c': Cluster)
    requires Inv(cfg, c) && c.nodes == c'.nodes && c.votes == c'.votes
    requires CallsOk(c') && BallotsOk(c') && LeadersOk(c')
    ensures Inv(cfg, c')
  {
    hide NodesOk, VotesOk, OneVotePerTerm, CallsOk, BallotsOk, LeadersOk;
    NodesFrame(cfg, c, c');
    VotesFrame(c, c');
  }

  lemma StartInv(cfg: Config, c: Cluster, h: Host)
    requires ValidConfig(cfg) && Inv(cfg, c) && Enabled(c, Start(h))
    ensures Inv(cfg, Apply(c, Start(h)))
  {
    var (n, b) := StartElection(c.nodes[h]);
    assert n.host == h && n.host != "";
    MoveNode(cfg, c, h, n);
    var c1 := c.(nodes := c.nodes[h := n]);
    AddVote(cfg, c1, Vote(h, n.term, h));
    var c2 := c1.(votes := c1.votes + {Vote(h, n.term, h)});
    StartCalls(cfg, c2, h);
    assert Apply(c, Start(h)) == c2.(
      ballots := c2.ballots[Win(n.term, h) := b],
      requests := c2.requests + Calls(h, n.term, |n.peers|),
      open := c2.open + Calls(h, n.term, |n.peers|),
      counted := c2.counted[Win(n.term, h) := {}]);
  }

  /** The calls and the ballot of an election just started. */
  lemma StartCalls(cfg: Config, c: Cluster, h: Host)
    requires Inv(cfg, c) && h in c.nodes && Vote(h, c.nodes[h].term, h) in c.votes
    ensures var n := c.nodes[h];
      Inv(cfg, c.(ballots := c.ballots[Win(n.term, h) := BallotState(n.term, 1, |n.peers|)],
                  requests := c.requests + Calls(h, n.term, |n.peers|),
                  open := c.open + Calls(h, n.term, |n.peers|),
                  counted := c.counted[Win(n.term, h) := {}]))
  {
    var n := c.nodes[h];
    var c' := c.(ballots := c.ballots[Win(n.term, h) := BallotState(n.term, 1, |n.peers|)],
                 requests := c.requests + Calls(h, n.term, |n.peers|),
                 open := c.open + Calls(h, n.term, |n.peers|),
                 counted := c.counted[Win(n.term, h) := {}]);
    hide NodesOk, VotesOk, OneVotePerTerm, CallsOk, BallotsOk, LeadersOk, Calls;
    SetBallot(c, c', Win(n.term, h));
    LeadersFrame(c, c');
    AddCalls(c, c', h, n.term);
    Rest(cfg, c, c');
  }

  lemma SetBallot(c: Cluster, c': Cluster, w: Win)
    requires BallotsOk(c) && c.nodes == c'.nodes && c.votes == c'.votes
    requires w in c'.ballots && c'.ballots == c.ballots[w := c'.ballots[w]] && c'.ballots[w].term == w.term
    requires c'.counted.Keys == c.counted.Keys + {w}
    requires w.host in c.nodes && w.term <= c.nodes[w.host].term && Vote(w.host, w.term, w.host) in c.votes
    ensures BallotsOk(c')
  {
  }

  lemma AddCalls(c: Cluster, c': Cluster, h: Host, term: nat)
    requires CallsOk(c) && c.nodes == c'.nodes && c.votes == c'.votes && c.replies == c'.replies
    requires h in c.nodes && term <= c.nodes[h].term && c'.ballots.Keys == c.ballots.Keys + {Win(term, h)}
    requires c'.requests == c.requests + Calls(h, term, |c.nodes[h].peers|)
    requires c'.open == c.open + Calls(h, term, |c.nodes[h].peers|)
    ensures CallsOk(c')
  {
  }

  lemma RequestInv(cfg: Config, c: Cluster, call: Call)
    requires ValidConfig(cfg) && Inv(cfg, c) && Enabled(c, DeliverRequest(call))
    ensures Inv(cfg, Apply(c, DeliverRequest(call)))
  {
    hide VotesOk, OneVotePerTerm, BallotsOk;
    var voter := Target(c, call);
    var (n, reply) := RequestVote(c.nodes[voter], VoteArgs(call.term, call.candidate));
    assert call.candidate != "";
    assert n.role == Leader ==> Win(n.term, voter) in c.wins;
    hide NodesOk, LeadersOk, CallsOk;
    MoveNode(cfg, c, voter, n);
    var c1 := c.(nodes := c.nodes[voter := n]);
    var v := Vote(voter, call.term, call.candidate);
    if reply.granted { AddVote(cfg, c1, v); }
    var c2 := c1.(votes := if reply.granted then c1.votes + {v} else c1.votes);
    assert Target(c2, call) == voter;
    hide RequestVote;
    var c' := c2.(requests := c2.requests - {call}, replies := c2.replies[call := reply]);
    RecordReply(c2, call, reply);
    LeadersFrame(c2, c');
    BallotsFrame(c2, c');
    Rest(cfg, c2, c');
    assert c' == Apply(c, DeliverRequest(call));
  }

  lemma RecordReply(c: Cluster, call: Call, reply: VoteReply)
    requires CallsOk(c) && call in c.requests
    requires call.candidate in c.nodes && call.i < |c.nodes[call.candidate].peers|
    requires reply.granted ==> Vote(Target(c, call), call.term, call.candidate) in c.votes
    ensures CallsOk(c.(requests := c.requests - {call}, replies := c.replies[call := reply]))
  {
  }

  lemma BallotsFrame(c: Cluster, c': Cluster)
    requires BallotsOk(c) && c.nodes == c'.nodes && c.votes == c'.votes
    requires c.ballots == c'.ballots && c.counted == c'.counted
    ensures BallotsOk(c')
  {
  }

  lemma ReplyInv(cfg: Config, c: Cluster, call: Call)
    requires ValidConfig(cfg) && Inv(cfg, c) && Enabled(c, DeliverReply(call))
    ensures Inv(cfg, Apply(c, DeliverReply(call)))
  {
    hide NodesOk, VotesOk, OneVotePerTerm, CallsOk, BallotsOk, LeadersOk;
    var h, w := call.candidate, Win(call.term, call.candidate);
    var (n, b) := OnVoteReply(c.nodes[h], c.ballots[w], c.replies[call]);
    var c' := Apply(c, DeliverReply(call));
    ReplyMove(cfg, c, h, n, b, c.ballots[w], c.replies[call], c'.wins);
    var c2 := c.(wins := c'.wins, nodes := c.nodes[h := n]);
    assert w in c.counted by { BallotKeys(c); }
    hide Inv, OnVoteReply;
    CallReturned(cfg, c2, c', w);
  }

  lemma BallotKeys(c: Cluster)
    requires BallotsOk(c)
    ensures c.ballots.Keys == c.counted.Keys
  {
  }

  /** A call that returns to its ballot. */
  lemma CallReturned(cfg: Config, c: Cluster, c': Cluster, w: Win)
    requires Inv(cfg, c) && c.nodes == c'.nodes && c.votes == c'.votes && c.wins == c'.wins
    requires c.beats == c'.beats && c.accepted == c'.accepted && c.requests == c'.requests && c.replies == c'.replies
    requires c'.open <= c.open && w in c.ballots
    requires w in c'.ballots && c'.ballots == c.ballots[w := c'.ballots[w]] && c'.ballots[w].term == c.ballots[w].term
    requires c'.counted.Keys == c.counted.Keys
    ensures Inv(cfg, c')
  {
    hide VotesOk, OneVotePerTerm, NodesOk, CallsOk, LeadersOk;
    CallsShrink(c, c');
    SetBallot(c, c', w);
    LeadersFrame(c, c');
    Rest(cfg, c, c');
  }

  /** A node that handles a vote reply, with its win recorded if it becomes a leader. */
  lemma ReplyMove(cfg: Config, c: Cluster, h: Host, n: NodeState, b: BallotState, b0: BallotState, reply: VoteReply,
                  wins: set<Win>)
    requires Inv(cfg, c) && h in c.nodes && (n, b) == OnVoteReply(c.nodes[h], b0, reply)
    requires wins == if n.role == Leader && c.nodes[h].role != Leader then c.wins + {Win(n.term, n.host)} else c.wins
    ensures Inv(cfg, c.(wins := wins, nodes := c.nodes[h := n]))
    ensures b.term == b0.term
  {
    hide VotesOk, OneVotePerTerm, CallsOk, BallotsOk;
    MoreWins(cfg, c, wins);
    var c1 := c.(wins := wins);
    assert n.role == Leader ==> Win(n.term, h) in wins;
    MoveNode(cfg, c1, h, n);
    assert c1.(nodes := c1.nodes[h := n]) == c.(wins := wins, nodes := c.nodes[h := n]);
  }

  lemma CallsShrink(c: Cluster, c': Cluster)
    requires CallsOk(c) && c.nodes == c'.nodes && c.votes == c'.votes && c'.ballots.Keys == c.ballots.Keys
    requires c'.requests <= c.requests && c'.open <= c.open && c'.replies == c.replies
    ensures CallsOk(c')
  {
  }

  lemma MoreWins(cfg: Config, c: Cluster, wins: set<Win>)
    requires Inv(cfg, c) && c.wins <= wins
    ensures Inv(cfg, c.(wins := wins))
  {
    var c' := c.(wins := wins);
    hide NodesOk, VotesOk, OneVotePerTerm;
    CallsShrink(c, c');
    BallotsFrame(c, c');
    hide CallsOk, BallotsOk;
    assert LeadersOk(c');
    Rest(cfg, c, c');
  }

  lemma FailInv(cfg: Config, c: Cluster, call: Call)
    requires ValidConfig(cfg) && Inv(cfg, c) && Enabled(c, FailCall(call))
    ensures Inv(cfg, Apply(c, FailCall(call)))
  {
    hide Inv;
    CallReturned(cfg, c, Apply(c, FailCall(call)), Win(call.term, call.candidate));
  }

  lemma SendInv(cfg: Config, c: Cluster, h: Host)
    requires ValidConfig(cfg) && Inv(cfg, c) && Enabled(c, SendBeat(h))
    ensures Inv(cfg, Apply(c, SendBeat(h)))
  {
    hide VotesOk, OneVotePerTerm, NodesOk, CallsOk, BallotsOk;
    var c' := Apply(c, SendBeat(h));
    CallsShrink(c, c');
    BallotsFrame(c, c');
    assert LeadersOk(c');
    Rest(cfg, c, c');
  }

  lemma BeatInv(cfg: Config, c: Cluster, beat: Win, to: Host)
    requires ValidConfig(cfg) && Inv(cfg, c) && Enabled(c, DeliverBeat(beat, to))
    ensures Inv(cfg, Apply(c, DeliverBeat(beat, to)))
  {
    hide VotesOk, OneVotePerTerm, NodesOk, CallsOk, BallotsOk;
    var (n, reply) := Heartbeat(c.nodes[to], BeatArgs(beat.term, beat.host));
    assert n.role == Leader ==> Win(n.term, to) in c.wins;
    MoveNode(cfg, c, to, n);
    var c1 := c.(nodes := c.nodes[to := n]);
    var c' := Apply(c, DeliverBeat(beat, to));
    CallsShrink(c1, c');
    BallotsFrame(c1, c');
    assert LeadersOk(c');
    Rest(cfg, c1, c');
  }

  lemma BeatReplyInv(cfg: Config, c: Cluster, h: Host, term: nat)
    requires ValidConfig(cfg) && Inv(cfg, c) && Enabled(c, DeliverBeatReply(h, term))
    ensures Inv(cfg, Apply(c, DeliverBeatReply(h, term)))
  {
    hide VotesOk, OneVotePerTerm, NodesOk, CallsOk, BallotsOk;
    MoveNode(cfg, c, h, OnBeatReply(c.nodes[h], BeatReply(term, true)));
  }

  lemma StepInv(cfg: Config, c: Cluster, step: Step)
    requires ValidConfig(cfg) && Inv(cfg, c) && Enabled(c, step)
    ensures Inv(cfg, Apply(c, step))
  {
    hide Inv, Apply;
    match step
    case Start(h) => StartInv(cfg, c, h);
    case DeliverRequest(call) => RequestInv(cfg, c, call);
    case DeliverReply(call) => ReplyInv(cfg, c, call);
    case FailCall(call) => FailInv(cfg, c, call);
    case SendBeat(h) => SendInv(cfg, c, h);
    case DeliverBeat(beat, to) => BeatInv(cfg, c, beat, to);
    case DeliverBeatReply(h, term) => BeatReplyInv(cfg, c, h, term);
  }

  /** No node's term decreases, and no vote, win or acceptance is forgotten. */
  ghost predicate TermsGrow(c: Cluster, c': Cluster) {
    && c.nodes.Keys == c'.nodes.Keys
    && (forall h :: h in c.nodes ==> c.nodes[h].term <= c'.nodes[h].term)
    && c.votes <= c'.votes && c.wins <= c'.wins && c.accepted <= c'.accepted
  }

  lemma StepGrows(c: Cluster, step: Step)
    requires Enabled(c, step)
    ensures TermsGrow(c, Apply(c, step))
  {
    match step
    case Start(h) => GrowNode(c, Apply(c, step), h);
    case DeliverRequest(call) => GrowNode(c, Apply(c, step), Target(c, call));
    case DeliverReply(call) => GrowNode(c, Apply(c, step), call.candidate);
    case FailCall(call) =>
    case SendBeat(h) =>
    case DeliverBeat(beat, to) => GrowNode(c, Apply(c, step), to);
    case DeliverBeatReply(h, term) => GrowNode(c, Apply(c, step), h);
  }

  lemma GrowNode(c: Cluster, c': Cluster, h: Host)
    requires h in c.nodes && h in c'.nodes && c'.nodes == c.nodes[h := c'.nodes[h]]
    requires c.nodes[h].term <= c'.nodes[h].term
    requires c.votes <= c'.votes && c.wins <= c'.wins && c.accepted <= c'.accepted
    ensures TermsGrow(c, c')
  {
  }

  /** One vote per term, along every run and for every peers lists: each node grants its vote in
      a term to at most one candidate, a leader won its current term, every heartbeat was sent
      and accepted under a won term, and each further step only lets terms and history grow. */
  lemma {:induction false} RunInv(cfg: Config, steps: seq<Step>)
    requires ValidConfig(cfg) && LegalRun(cfg, steps)
    ensures Inv(cfg, Run(cfg, steps))
    ensures |steps| > 0 ==> TermsGrow(Run(cfg, steps[..|steps| - 1]), Run(cfg, steps))
    decreases |steps|
  {
    hide Inv, Apply, Enabled, TermsGrow;
    if |steps| == 0 {
      InitInv(cfg);
    } else {
      RunInv(cfg, steps[..|steps| - 1]);
      StepInv(cfg, Run(cfg, steps[..|steps| - 1]), steps[|steps| - 1]);
      StepGrows(Run(cfg, steps[..|steps| - 1]), steps[|steps| - 1]);
    }
  }
}

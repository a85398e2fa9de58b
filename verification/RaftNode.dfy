/** One node of the leader election (pkg/jdb/raft.go): its handlers as functions on values, and
    the object whose methods run them under the node's mutex. */
module RaftNode {

  type Host = string

  datatype Role = Follower | Candidate | Leader

  /** The fields of a Node that the election uses; "" in `votedFor` is no vote. */
  datatype NodeState = NodeState(
    host: Host,
    peers: seq<Host>,
    role: Role,
    term: nat,
    votedFor: Host,
    leaderID: Host
  )

  /** The variables that the goroutines of one startElection share. */
  datatype BallotState = BallotState(term: nat, votes: nat, total: int)

  datatype VoteArgs = VoteArgs(term: nat, candidateID: Host)
  datatype VoteReply = VoteReply(term: nat, granted: bool)
  datatype BeatArgs = BeatArgs(term: nat, leaderID: Host)
  datatype BeatReply = BeatReply(term: nat, ok: bool)

  function Majority(n: int): int {
    n / 2 + 1
  }

  // ---- Handlers ----

  /** A node as newNode and start leave it. */
  function InitNode(host: Host, peers: seq<Host>): NodeState {
    NodeState(host, peers, Follower, 0, "", "")
  }

  function StartElection(n: NodeState): (NodeState, BallotState) {
    (n.(role := Candidate, term := n.term + 1, votedFor := n.host),
     BallotState(n.term + 1, 1, |n.peers|))
  }

  /** A higher term seen in a reply. */
  function StepDown(n: NodeState, term: nat): NodeState {
    n.(term := term, role := Follower, votedFor := "")
  }

  function BecomeLeader(n: NodeState): NodeState {
    n.(role := Leader, leaderID := n.host)
  }

  /** The branch of a vote goroutine whose call returned a reply. */
  function OnVoteReply(n: NodeState, b: BallotState, reply: VoteReply): (NodeState, BallotState) {
    if reply.term > n.term then (StepDown(n, reply.term), b)
    else if n.role == Candidate && reply.granted && b.term == n.term then
      var b' := b.(votes := b.votes + 1);
      (if b'.votes >= Majority(b.total) then BecomeLeader(n) else n, b')
    else (n, b)
  }

  /** The branch of a vote goroutine whose call failed. */
  function OnVoteError(b: BallotState): BallotState {
    b.(total := b.total - 1)
  }

  function RequestVote(n: NodeState, args: VoteArgs): (NodeState, VoteReply) {
    if args.term < n.term then (n, VoteReply(n.term, false))
    else
      var n1 := if args.term > n.term then StepDown(n, args.term) else n;
      if n1.votedFor == "" || n1.votedFor == args.candidateID then
        (n1.(votedFor := args.candidateID), VoteReply(n1.term, true))
      else (n1, VoteReply(n1.term, false))
  }

  function Heartbeat(n: NodeState, args: BeatArgs): (NodeState, BeatReply) {
    if args.term < n.term then (n, BeatReply(n.term, false))
    else
      var n1 := if args.term > n.term then n.(term := args.term, votedFor := "") else n;
      (n1.(role := Follower, leaderID := args.leaderID), BeatReply(args.term, true))
  }

  function OnBeatReply(n: NodeState, reply: BeatReply): NodeState {
    if reply.term > n.term then StepDown(n, reply.term) else n
  }

  // ---- What the handlers keep ----

  /** How a handler may change a node: the term never falls, and a vote cast in a term stays. */
  predicate Advances(n: NodeState, n': NodeState) {
    && n'.host == n.host && n'.peers == n.peers
    && (n'.term > n.term || (n'.term == n.term && (n.votedFor != "" ==> n'.votedFor == n.votedFor)))
  }

  /** A vote is granted exactly in a term the node has not left and in which it has not voted for
      another; that is, exactly if it is the one the node has afterwards in that term. A refusal
      changes nothing; and the request sent again changes nothing and is answered the same. */
  lemma VoteExact(n: NodeState, args: VoteArgs)
    ensures var (n', reply) := RequestVote(n, args);
      && (reply.granted <==>
            || args.term > n.term
            || (args.term == n.term && n.votedFor in {"", args.candidateID}))
      && (reply.granted <==> n'.term == args.term && n'.votedFor == args.candidateID)
      && (!reply.granted ==> n' == n)
      && reply.term == n'.term >= args.term
      && RequestVote(n', args) == (n', reply)
  {
  }

  /** However a node goes on after granting a vote, it grants no other candidate one in that
      term. */
  lemma NoSecondVote(n: NodeState, args: VoteArgs, later: NodeState, other: VoteArgs)
    requires RequestVote(n, args).1.granted && Advances(RequestVote(n, args).0, later)
    requires args.candidateID != "" && other.term == args.term && other.candidateID != args.candidateID
    ensures !RequestVote(later, other).1.granted
  {
  }

  // ---- The object ----

  /** The variables captured by the goroutines of one election. */
  class Ballot {
    const term: nat
    var votes: nat
    var total: int

    constructor (term: nat, total: int)
      ensures View() == BallotState(term, 1, total)
    {
      this.term := term;
      votes := 1;
      this.total := total;
    }

    ghost function View(): BallotState
      reads this
    {
      BallotState(term, votes, total)
    }
  }

  class Node {
    const host: Host
    var peers: seq<Host>
    var role: Role
    var term: nat
    var votedFor: Host
    var leaderID: Host

    ghost function View(): NodeState
      reads this
    {
      NodeState(host, peers, role, term, votedFor, leaderID)
    }

    constructor (host: Host, peers: seq<Host>)
      ensures View() == InitNode(host, peers)
    {
      this.host := host;
      this.peers := peers;
      role := Follower;
      term := 0;
      votedFor := "";
      leaderID := "";
    }

    /** startElection up to the calls; they share the returned ballot. */
    method Campaign() returns (b: Ballot)
      modifies this
      ensures Advances(old(View()), View())
      ensures role == Candidate && term > old(term) && votedFor == host && b.term == term
      ensures fresh(b) && (View(), b.View()) == StartElection(old(View()))
    {
      role := Candidate;
      term := term + 1;
      votedFor := host;
      b := new Ballot(term, |peers|);
    }

    method Lead()
      modifies this
      ensures View() == BecomeLeader(old(View()))
    {
      role := Leader;
      leaderID := host;
    }

    /** What a vote goroutine does when its call returns: a granted vote counts exactly for a
        Candidate in the term of its ballot, and makes it Leader exactly if the votes then reach
        the quorum of the calls that have not failed; a higher term makes the node a follower
        without a vote. */
    method VoteReturned(b: Ballot, failed: bool, reply: VoteReply)
      modifies this, b
      ensures Advances(old(View()), View())
      ensures role == Leader && old(role) != Leader <==> b.votes > old(b.votes) && b.votes >= Majority(b.total)
      ensures b.votes == old(b.votes) + 1 <==>
        !failed && reply.granted && old(role) == Candidate && b.term == old(term) && reply.term <= old(term)
      ensures b.votes == old(b.votes) || b.votes == old(b.votes) + 1
      ensures b.total == old(b.total) - (if failed then 1 else 0)
      ensures role == Leader && old(role) != Leader ==> term == old(term) && leaderID == host
      ensures !failed ==> term >= reply.term
      ensures failed ==> View() == old(View())
      ensures term > old(term) ==> role == Follower && votedFor == "" && b.View() == old(b.View())
      ensures failed ==> View() == old(View()) && b.View() == OnVoteError(old(b.View()))
      ensures !failed ==> (View(), b.View()) == OnVoteReply(old(View()), old(b.View()), reply)
    {
      if failed {
        b.total := b.total - 1;
        return;
      }
      if reply.term > term {
        term := reply.term;
        role := Follower;
        votedFor := "";
        return;
      }
      if role == Candidate && reply.granted && b.term == term {
        b.votes := b.votes + 1;
        var needed := Majority(b.total);
        if b.votes >= needed {
          Lead();
        }
      }
    }

    /** requestVote: a vote is granted exactly if it is then the node's vote in that term, and a
        refusal changes nothing. */
    method HandleRequestVote(args: VoteArgs) returns (reply: VoteReply)
      modifies this
      ensures Advances(old(View()), View())
      ensures reply.granted <==>
        || args.term > old(term)
        || (args.term == old(term) && old(votedFor) in {"", args.candidateID})
      ensures reply.granted <==> term == args.term && votedFor == args.candidateID
      ensures role == (if term > old(term) then Follower else old(role)) && leaderID == old(leaderID)
      ensures !reply.granted ==> View() == old(View())
      ensures reply.term == term >= args.term
      ensures (View(), reply) == RequestVote(old(View()), args)
    {
      if args.term < term {
        return VoteReply(term, false);
      }
      if args.term > term {
        term := args.term;
        role := Follower;
        votedFor := "";
      }
      var granted := false;
      if votedFor == "" || votedFor == args.candidateID {
        votedFor := args.candidateID;
        granted := true;
      }
      return VoteReply(term, granted);
    }

    /** heartbeat: accepted exactly in a term the node has not left; a refusal changes nothing. */
    method HandleHeartbeat(args: BeatArgs) returns (reply: BeatReply)
      modifies this
      ensures Advances(old(View()), View())
      ensures reply.ok <==> old(term) <= args.term
      ensures reply.ok ==> term == args.term && role == Follower && leaderID == args.leaderID
      ensures votedFor == if term > old(term) then "" else old(votedFor)
      ensures !reply.ok ==> View() == old(View())
      ensures reply.term == term
      ensures (View(), reply) == Heartbeat(old(View()), args)
    {
      if args.term < term {
        return BeatReply(term, false);
      }
      if args.term > term {
        term := args.term;
        votedFor := "";
      }
      role := Follower;
      leaderID := args.leaderID;
      return BeatReply(term, true);
    }

    method BeatReturned(reply: BeatReply)
      modifies this
      ensures Advances(old(View()), View())
      ensures term >= reply.term
      ensures if term > old(term) then role == Follower && votedFor == "" && leaderID == old(leaderID)
              else View() == old(View())
      ensures View() == OnBeatReply(old(View()), reply)
    {
      if reply.term > term {
        term := reply.term;
        role := Follower;
        votedFor := "";
      }
    }
  }
}

/** Election safety and leader agreement (pkg/jdb/raft.go:40-42, 91-251): when at most one node
    can be elected in a term, and when it cannot be guaranteed. */
module RaftSafety {
  import opened RaftNode
  import opened RaftCluster

  // ---- Configurations ----

  ghost predicate DistinctHosts(s: seq<Host>) {
    forall i, j :: 0 <= i < j < |s| ==> s[i] != s[j]
  }

  /** Every node calls every other one, once; with `self` it also calls itself, as it does when
      the configuration file lists all nodes. */
  ghost predicate Uniform(cfg: Config, self: bool) {
    forall h :: h in cfg.peers ==>
      && DistinctHosts(cfg.peers[h])
      && forall p :: p in cfg.peers[h] <==> p in cfg.peers && (self || p != h)
  }

  /** How many distinct nodes have to vote for a winner: the ballot starts at one and is looked at
      only when a granted reply arrives, which may be the candidate's own. */
  function Quorum(n: nat, self: bool): nat
    requires n > 0
  {
    if self then (if n < 2 then 1 else n / 2)
    else if n <= 2 then 2 else (n - 1) / 2 + 1
  }

  /** The sizes at which two quorums always intersect: with the others listed, odd numbers and
      two; with all nodes listed, one. */
  predicate SafeSize(n: nat, self: bool) {
    if self then n == 1 else n % 2 == 1 || n == 2
  }

  lemma QuorumsIntersect(n: nat, self: bool)
    requires n > 0
    ensures SafeSize(n, self) <==> 2 * Quorum(n, self) > n
    ensures Quorum(n, self) >= 1
  {
  }

  // ---- Counting ----

  /** A ballot counts the candidate and one granted reply per counted call. */
  ghost predicate CountOk(c: Cluster, w: Win)
    requires w in c.ballots
  {
    && w in c.counted && w.host in c.nodes
    && c.ballots[w].votes == 1 + |c.counted[w]|
    && forall i :: i in c.counted[w] ==>
         && i < |c.nodes[w.host].peers|
         && Vote(c.nodes[w.host].peers[i], w.term, w.host) in c.votes
         && Call(w.host, w.term, i) !in c.open
  }

  /** Without call errors `total` stays the number of peers. */
  ghost predicate TotalsOk(c: Cluster) {
    forall w :: w in c.ballots ==> w.host in c.nodes && c.ballots[w].total == |c.nodes[w.host].peers|
  }

  ghost predicate CountsOk(c: Cluster) {
    forall w :: w in c.ballots ==> CountOk(c, w)
  }

  /** Every win was decided by a majority of the ballot, which includes a granted reply. */
  ghost predicate WinOk(c: Cluster, w: Win) {
    w in c.ballots && c.ballots[w].votes >= Majority(c.ballots[w].total) && c.ballots[w].votes >= 2
  }

  ghost predicate WinsOk(c: Cluster) {
    forall w :: w in c.wins ==> WinOk(c, w)
  }

  /** A ballot that a step leaves alone, when none of its counted calls reopens. */
  lemma CountFrame(c: Cluster, c': Cluster, w: Win)
    requires w in c.ballots && CountOk(c, w) && w in c'.ballots && c'.ballots[w].votes == c.ballots[w].votes
    requires w in c'.counted && c'.counted[w] == c.counted[w] && c.votes <= c'.votes
    requires w.host in c'.nodes && c'.nodes[w.host].peers == c.nodes[w.host].peers
    requires forall i :: Call(w.host, w.term, i) in c'.open ==> Call(w.host, w.term, i) in c.open
    ensures CountOk(c', w)
  {
  }

  lemma CountsStart(cfg: Config, c: Cluster, h: Host)
    requires Inv(cfg, c) && CountsOk(c) && Enabled(c, Start(h))
    ensures CountsOk(Apply(c, Start(h)))
  {
    hide VotesOk, OneVotePerTerm, CallsOk, LeadersOk, CountOk;
    var c' := Apply(c, Start(h));
    var w0 := Win(c.nodes[h].term + 1, h);
    assert w0 !in c.ballots;
    forall w | w in c'.ballots ensures CountOk(c', w) {
      if w == w0 {
        FirstCount(c', w0);
      } else {
        assert CountOk(c, w) && w in c.counted;
        CountFrame(c, c', w);
      }
    }
  }

  lemma FirstCount(c: Cluster, w: Win)
    requires w in c.ballots && w in c.counted && w.host in c.nodes
    requires c.ballots[w].votes == 1 && c.counted[w] == {}
    ensures CountOk(c, w)
  {
  }

  lemma CountsReply(cfg: Config, c: Cluster, call: Call)
    requires Inv(cfg, c) && CountsOk(c) && Enabled(c, DeliverReply(call))
    ensures CountsOk(Apply(c, DeliverReply(call)))
  {
    hide VotesOk, OneVotePerTerm, LeadersOk, NodesOk, Majority, CountOk;
    var c' := Apply(c, DeliverReply(call));
    var w0 := Win(call.term, call.candidate);
    forall w | w in c'.ballots ensures CountOk(c', w) {
      assert w in c.ballots && CountOk(c, w) && w in c.counted && w.host in c.nodes;
      if w == w0 && c'.ballots[w].votes > c.ballots[w].votes {
        CountOne(c, c', w, call.i);
      } else {
        CountFrame(c, c', w);
      }
    }
  }

  /** A granted reply counted: its call was still open, so it had not been counted before. */
  lemma CountOne(c: Cluster, c': Cluster, w: Win, i: nat)
    requires w in c.ballots && CountOk(c, w) && w in c'.ballots && w in c'.counted && w.host in c'.nodes
    requires c'.ballots[w] == c.ballots[w].(votes := c.ballots[w].votes + 1) && c'.counted[w] == c.counted[w] + {i}
    requires c'.nodes[w.host].peers == c.nodes[w.host].peers && i < |c.nodes[w.host].peers| && c.votes == c'.votes
    requires Vote(c.nodes[w.host].peers[i], w.term, w.host) in c.votes
    requires Call(w.host, w.term, i) in c.open && c'.open == c.open - {Call(w.host, w.term, i)}
    ensures CountOk(c', w)
  {
  }

  /** Steps that do not touch ballots. */
  lemma CountsFrame(c: Cluster, c': Cluster)
    requires CountsOk(c) && c'.ballots == c.ballots && c'.counted == c.counted
    requires c.votes <= c'.votes && c'.open == c.open
    requires forall h :: h in c.nodes ==> h in c'.nodes && c'.nodes[h].peers == c.nodes[h].peers
    ensures CountsOk(c')
  {
    forall w | w in c'.ballots ensures CountOk(c', w) {
      assert CountOk(c, w);
      CountFrame(c, c', w);
    }
  }

  lemma CountsFail(c: Cluster, call: Call)
    requires CountsOk(c) && Enabled(c, FailCall(call))
    ensures CountsOk(Apply(c, FailCall(call)))
  {
    hide CountOk;
    var c' := Apply(c, FailCall(call));
    forall w | w in c'.ballots ensures CountOk(c', w) {
      assert CountOk(c, w) by { assert w in c.ballots; }
      CountKnown(c, w);
      CountFrame(c, c', w);
    }
  }

  lemma CountKnown(c: Cluster, w: Win)
    requires w in c.ballots && CountOk(c, w)
    ensures w in c.counted && w.host in c.nodes
  {
  }

  lemma StepCounts(cfg: Config, c: Cluster, step: Step)
    requires Inv(cfg, c) && CountsOk(c) && Enabled(c, step)
    ensures CountsOk(Apply(c, step))
  {
    hide Inv, CountsOk;
    match step
    case Start(h) => CountsStart(cfg, c, h);
    case DeliverReply(call) => CountsReply(cfg, c, call);
    case FailCall(call) => CountsFail(c, call);
    case DeliverRequest(call) => CountsFrame(c, Apply(c, step));
    case SendBeat(h) => CountsFrame(c, Apply(c, step));
    case DeliverBeat(beat, to) => CountsFrame(c, Apply(c, step));
    case DeliverBeatReply(h, term) => CountsFrame(c, Apply(c, step));
  }

  lemma StepWins(cfg: Config, c: Cluster, step: Step)
    requires Inv(cfg, c) && WinsOk(c) && CountsOk(c) && Enabled(c, step)
    ensures WinsOk(Apply(c, step))
  {
    hide Inv, CountsOk;
    match step
    case Start(h) => WinsStart(cfg, c, h);
    case DeliverReply(call) => WinsReply(cfg, c, call);
    case FailCall(call) =>
    case DeliverRequest(call) =>
    case SendBeat(h) =>
    case DeliverBeat(beat, to) =>
    case DeliverBeatReply(h, term) =>
  }

  lemma StepTotals(cfg: Config, c: Cluster, step: Step)
    requires Inv(cfg, c) && TotalsOk(c) && Enabled(c, step) && !step.FailCall?
    ensures TotalsOk(Apply(c, step))
  {
    hide VotesOk, OneVotePerTerm, CallsOk, BallotsOk, LeadersOk, Calls;
    match step
    case Start(h) =>
    case DeliverReply(call) =>
    case DeliverRequest(call) =>
    case SendBeat(h) =>
    case DeliverBeat(beat, to) =>
    case DeliverBeatReply(h, term) =>
  }

  lemma WinsStart(cfg: Config, c: Cluster, h: Host)
    requires Inv(cfg, c) && WinsOk(c) && Enabled(c, Start(h))
    ensures WinsOk(Apply(c, Start(h)))
  {
    hide VotesOk, OneVotePerTerm, CallsOk, LeadersOk, Calls;
    assert Win(c.nodes[h].term + 1, h) !in c.ballots;
  }

  lemma WinsReply(cfg: Config, c: Cluster, call: Call)
    requires Inv(cfg, c) && WinsOk(c) && CountsOk(c) && Enabled(c, DeliverReply(call))
    ensures WinsOk(Apply(c, DeliverReply(call)))
  {
    hide VotesOk, OneVotePerTerm, CallsOk, LeadersOk, Majority;
    var w := Win(call.term, call.candidate);
    assert CountOk(c, w) && c.ballots[w].votes >= 1;
  }

  ghost predicate NoErrors(steps: seq<Step>) {
    forall step :: step in steps ==> !step.FailCall?
  }

  lemma {:induction false} RunCounts(cfg: Config, steps: seq<Step>)
    requires ValidConfig(cfg) && LegalRun(cfg, steps)
    ensures CountsOk(Run(cfg, steps)) && WinsOk(Run(cfg, steps))
    ensures NoErrors(steps) ==> TotalsOk(Run(cfg, steps))
    decreases |steps|
  {
    hide Inv, Apply, Enabled;
    if |steps| > 0 {
      hide CountsOk, WinsOk, TotalsOk;
      var front, step := steps[..|steps| - 1], steps[|steps| - 1];
      assert steps == front + [step];
      RunCounts(cfg, front);
      RunInv(cfg, front);
      StepCounts(cfg, Run(cfg, front), step);
      StepWins(cfg, Run(cfg, front), step);
      if NoErrors(steps) { StepTotals(cfg, Run(cfg, front), step); }
    }
  }

  // ---- Quorums ----

  ghost function Voters(c: Cluster, w: Win): set<Host> {
    set v | v in c.votes && v.term == w.term && v.candidate == w.host :: v.voter
  }

  lemma {:induction false} ImageSize(s: seq<Host>, indices: set<nat>, image: set<Host>)
    requires DistinctHosts(s) && (forall i :: i in indices ==> i < |s|)
    requires forall p :: p in image <==> exists i :: i in indices && s[i] == p
    ensures |image| == |indices|
    decreases |indices|
  {
    if indices == {} {
      assert image == {};
    } else {
      var i :| i in indices;
      ImageSize(s, indices - {i}, image - {s[i]});
    }
  }

  lemma CountedVoters(c: Cluster, w: Win, granters: set<Host>)
    requires w in c.ballots && CountOk(c, w) && Vote(w.host, w.term, w.host) in c.votes
    requires granters == set i | i in c.counted[w] :: c.nodes[w.host].peers[i]
    ensures {w.host} + granters <= Voters(c, w)
  {
    var peers := c.nodes[w.host].peers;
    assert w.host in Voters(c, w);
    forall p | p in granters ensures p in Voters(c, w) {
      var i :| i in c.counted[w] && peers[i] == p;
      assert Vote(peers[i], w.term, w.host) in c.votes;
    }
  }

  lemma VotersKnown(cfg: Config, c: Cluster, w: Win)
    requires Inv(cfg, c)
    ensures Voters(c, w) <= cfg.peers.Keys
  {
    hide OneVotePerTerm, CallsOk, LeadersOk, BallotsOk;
  }

  /** How many distinct nodes have to vote for a winner when calls may fail, each failure lowering
      the number of votes needed: one granted reply is all that is certain. */
  function ErrorQuorum(self: bool): nat {
    if self then 1 else 2
  }

  /** A winner has the votes of a quorum of distinct nodes. */
  lemma WinnerQuorum(cfg: Config, c: Cluster, self: bool, w: Win)
    requires Inv(cfg, c) && CountsOk(c) && WinsOk(c) && Uniform(cfg, self) && w in c.wins
    ensures |cfg.peers| > 0
    ensures Voters(c, w) <= cfg.peers.Keys
    ensures |Voters(c, w)| >= ErrorQuorum(self)
    ensures TotalsOk(c) ==> |Voters(c, w)| >= Quorum(|cfg.peers|, self)
  {
    hide OneVotePerTerm, CallsOk, LeadersOk, VotesOk, Voters, Uniform, Quorum, Majority;
    assert CountOk(c, w) && WinOk(c, w);
    var peers := cfg.peers[w.host];
    var granters := set i | i in c.counted[w] :: peers[i];
    CountedVoters(c, w, granters);
    VotersKnown(cfg, c, w);
    QuorumReached(cfg, c, self, w, granters);
    SubsetSize({w.host} + granters, Voters(c, w));
  }

  lemma QuorumReached(cfg: Config, c: Cluster, self: bool, w: Win, granters: set<Host>)
    requires Uniform(cfg, self) && w.host in cfg.peers && WinOk(c, w) && CountOk(c, w)
    requires c.nodes[w.host].peers == cfg.peers[w.host]
    requires granters == set i | i in c.counted[w] :: cfg.peers[w.host][i]
    ensures |cfg.peers| > 0
    ensures |{w.host} + granters| >= ErrorQuorum(self)
    ensures c.ballots[w].total == |cfg.peers[w.host]| ==> |{w.host} + granters| >= Quorum(|cfg.peers|, self)
  {
    var peers := cfg.peers[w.host];
    ImageSize(peers, c.counted[w], granters);
    PeersLength(cfg, self, w.host);
    OneMore(w.host, granters);
    if !self {
      forall i | i in c.counted[w] ensures peers[i] != w.host { assert peers[i] in peers; }
    }
  }

  lemma OneMore(h: Host, hosts: set<Host>)
    ensures |{h} + hosts| == |hosts| + if h in hosts then 0 else 1
    ensures |{h} + hosts| >= 1
  {
    if h in hosts { assert {h} + hosts == hosts; }
    assert h in {h} + hosts;
  }

  lemma PeersLength(cfg: Config, self: bool, h: Host)
    requires Uniform(cfg, self) && h in cfg.peers
    ensures |cfg.peers| > 0
    ensures |cfg.peers[h]| == |cfg.peers| - (if self then 0 else 1)
  {
    var peers := cfg.peers[h];
    var indices := Range(|peers|);
    var all := if self then cfg.peers.Keys else cfg.peers.Keys - {h};
    forall p ensures p in all <==> exists i :: i in indices && peers[i] == p {
      if p in all {
        assert p in peers;
        var i :| 0 <= i < |peers| && peers[i] == p;
        assert i in indices;
      }
    }
    ImageSize(peers, indices, all);
    assert |cfg.peers| == |cfg.peers.Keys|;
  }

  ghost function Range(n: nat): (r: set<nat>)
    ensures |r| == n && forall i: nat :: i in r <==> i < n
  {
    if n == 0 then {} else Range(n - 1) + {n - 1}
  }

  lemma SubsetSize(a: set<Host>, b: set<Host>)
    requires a <= b
    ensures |a| <= |b|
  {
    assert |b - a| == |b| - |a|;
  }

  /** Two sets of more than half of the hosts each have a host in common. */
  lemma Pigeonhole(a: set<Host>, b: set<Host>, hosts: set<Host>)
    requires a <= hosts && b <= hosts && |a| + |b| > |hosts|
    ensures exists h :: h in a && h in b
  {
    if a * b == {} {
      assert |a + b| == |a| + |b|;
      SubsetSize(a + b, hosts);
    } else {
      var h :| h in a * b;
    }
  }

  /** At most one node is ever elected in a term. */
  ghost predicate ElectionSafe(c: Cluster) {
    forall u, w :: u in c.wins && w in c.wins && u.term == w.term ==> u.host == w.host
  }

  lemma SafeState(cfg: Config, c: Cluster, self: bool, q: nat)
    requires Inv(cfg, c) && 2 * q > |cfg.peers|
    requires forall w :: w in c.wins ==> Voters(c, w) <= cfg.peers.Keys && |Voters(c, w)| >= q
    ensures ElectionSafe(c)
  {
    hide NodesOk, VotesOk, CallsOk, BallotsOk, LeadersOk;
    forall u, w | u in c.wins && w in c.wins && u.term == w.term ensures u.host == w.host {
      assert |cfg.peers| == |cfg.peers.Keys|;
      Pigeonhole(Voters(c, u), Voters(c, w), cfg.peers.Keys);
      var h :| h in Voters(c, u) && h in Voters(c, w);
      assert Vote(h, u.term, u.host) in c.votes && Vote(h, w.term, w.host) in c.votes;
    }
  }

  /** Election safety: with an odd number of nodes that list exactly the others, without restarts
      and without call errors, every reachable state has at most one node ever elected in each
      term. (It also holds for two such nodes, and for a single node that lists itself.) */
  lemma SafeRun(cfg: Config, self: bool, steps: seq<Step>)
    requires ValidConfig(cfg) && Uniform(cfg, self) && SafeSize(|cfg.peers|, self)
    requires LegalRun(cfg, steps) && NoErrors(steps)
    ensures ElectionSafe(Run(cfg, steps))
  {
    hide Inv, CountsOk, WinsOk, Uniform, ElectionSafe, TotalsOk, LegalRun, Run, Voters;
    RunInv(cfg, steps);
    RunCounts(cfg, steps);
    var c := Run(cfg, steps);
    forall w | w in c.wins ensures Voters(c, w) <= cfg.peers.Keys && |Voters(c, w)| >= Quorum(|cfg.peers|, self) {
      WinnerQuorum(cfg, c, self, w);
    }
    if |cfg.peers| > 0 {
      QuorumsIntersect(|cfg.peers|, self);
      SafeState(cfg, c, self, Quorum(|cfg.peers|, self));
    }
  }

  /** The sizes at which even the smallest electorates intersect. */
  predicate ErrorSafeSize(n: nat, self: bool) {
    if self then n == 1 else n <= 3
  }

  /** With call errors, safety is left for three nodes at most. */
  lemma SafeRunWithErrors(cfg: Config, self: bool, steps: seq<Step>)
    requires ValidConfig(cfg) && Uniform(cfg, self) && ErrorSafeSize(|cfg.peers|, self) && LegalRun(cfg, steps)
    ensures ElectionSafe(Run(cfg, steps))
  {
    hide Inv, CountsOk, WinsOk, Uniform, ElectionSafe, TotalsOk, LegalRun, Run, Voters;
    RunInv(cfg, steps);
    RunCounts(cfg, steps);
    var c := Run(cfg, steps);
    forall w | w in c.wins ensures Voters(c, w) <= cfg.peers.Keys && |Voters(c, w)| >= ErrorQuorum(self) {
      WinnerQuorum(cfg, c, self, w);
    }
    SafeState(cfg, c, self, ErrorQuorum(self));
  }

  /** Leader agreement: under the same conditions all heartbeats accepted in one term, by any
      nodes and after any delay, name the same leader, the one elected in that term. */
  lemma LeaderAgreement(cfg: Config, self: bool, steps: seq<Step>)
    requires ValidConfig(cfg) && Uniform(cfg, self) && SafeSize(|cfg.peers|, self)
    requires LegalRun(cfg, steps) && NoErrors(steps)
    ensures var c := Run(cfg, steps);
      && (forall a, b :: a in c.accepted && b in c.accepted && a.term == b.term ==> a.leader == b.leader)
      && (forall a, w :: a in c.accepted && w in c.wins && a.term == w.term ==> a.leader == w.host)
      && (forall g, h :: g in c.nodes && h in c.nodes && c.nodes[g].role == Leader && c.nodes[h].role == Leader ==>
            c.nodes[g].term == c.nodes[h].term ==> g == h)
  {
    hide NodesOk, VotesOk, OneVotePerTerm, CallsOk, BallotsOk, SafeSize, Uniform;
    RunInv(cfg, steps);
    SafeRun(cfg, self, steps);
  }

  // ---- The sizes that are not safe ----

  /** The position of a peer in a list. */
  function IndexOf(peers: seq<Host>, p: Host): (i: nat)
    requires p in peers
    ensures i < |peers| && peers[i] == p
  {
    if peers[0] == p then 0 else 1 + IndexOf(peers[1..], p)
  }

  /** k more votes decide the ballot, and no fewer if k is more than one. */
  predicate Decides(b: BallotState, k: nat) {
    b.votes + k >= Majority(b.total) && (k > 1 ==> b.votes + k == Majority(b.total))
  }

  /** A candidate of term 1 and peers that are still free to vote for it, its calls to them in
      flight. */
  ghost predicate Campaigning(c: Cluster, cand: Host, targets: seq<Host>) {
    && cand in c.nodes && Win(1, cand) in c.ballots
    && var n := c.nodes[cand];
    && n.role == Candidate && n.term == 1 && n.votedFor == cand
    && c.ballots[Win(1, cand)].term == 1
    && DistinctHosts(targets)
    && forall v :: v in targets ==>
         && v in n.peers && v in c.nodes
         && Call(cand, 1, IndexOf(n.peers, v)) in c.requests && Call(cand, 1, IndexOf(n.peers, v)) in c.open
         && (v == cand || (c.nodes[v].term == 0 && c.nodes[v].votedFor == ""))
  }

  /** A request delivered to one of those peers is granted. */
  lemma GrantOne(c: Cluster, cand: Host, targets: seq<Host>)
    requires Campaigning(c, cand, targets) && |targets| > 0
    ensures var call := Call(cand, 1, IndexOf(c.nodes[cand].peers, targets[0]));
      && Enabled(c, DeliverRequest(call))
      && var c' := Apply(c, DeliverRequest(call));
      && c'.nodes[cand] == c.nodes[cand]
      && c'.replies[call] == VoteReply(1, true)
      && Enabled(c', DeliverReply(call))
      && c'.nodes.Keys == c.nodes.Keys && c'.ballots == c.ballots && c'.open == c.open && c'.wins == c.wins
      && c'.requests == c.requests - {call}
      && (forall h :: h in c.nodes && h != targets[0] ==> c'.nodes[h] == c.nodes[h])
  {
  }

  /** Its reply is counted, and decides the election if it was the last one needed. */
  lemma CountGrant(c: Cluster, call: Call)
    requires Enabled(c, DeliverReply(call)) && c.replies[call] == VoteReply(1, true) && call.term == 1
    requires var n := c.nodes[call.candidate]; n.host == call.candidate && n.role == Candidate && n.term == 1
    requires c.ballots[Win(1, call.candidate)].term == 1
    ensures var c' := Apply(c, DeliverReply(call));
      var w := Win(1, call.candidate);
      var b := c.ballots[w];
      && w in c'.ballots && c'.ballots[w] == b.(votes := b.votes + 1)
      && (forall u :: u in c.ballots && u != w ==> u in c'.ballots && c'.ballots[u] == c.ballots[u])
      && c'.nodes.Keys == c.nodes.Keys
      && (forall h :: h in c.nodes && h != call.candidate ==> c'.nodes[h] == c.nodes[h])
      && c'.open == c.open - {call} && c'.requests == c.requests
      && (b.votes + 1 >= Majority(b.total) ==> w in c'.wins)
      && (b.votes + 1 < Majority(b.total) ==> c'.nodes == c.nodes)
      && c.wins <= c'.wins
  {
    hide Majority;
  }

  /** One request and its reply: the candidate gains the vote of its first target. */
  lemma Round(c: Cluster, cand: Host, targets: seq<Host>, spare: bool, other: Host, others: seq<Host>)
    returns (call: Call)
    requires Campaigning(c, cand, targets) && |targets| > 0 && c.nodes[cand].host == cand
    requires Decides(c.ballots[Win(1, cand)], |targets|)
    requires spare ==> Campaigning(c, other, others) && Apart(cand, targets, other, others)
    ensures Enabled(c, DeliverRequest(call))
    ensures Enabled(Apply(c, DeliverRequest(call)), DeliverReply(call))
    ensures var c' := Apply(Apply(c, DeliverRequest(call)), DeliverReply(call));
      && (|targets| == 1 ==> Win(1, cand) in c'.wins)
      && (|targets| > 1 ==>
            Campaigning(c', cand, targets[1..]) && Decides(c'.ballots[Win(1, cand)], |targets| - 1))
      && (spare ==>
            Campaigning(c', other, others) && c'.ballots[Win(1, other)] == c.ballots[Win(1, other)])
      && c.wins <= c'.wins
  {
    call := Call(cand, 1, IndexOf(c.nodes[cand].peers, targets[0]));
    GrantOne(c, cand, targets);
    var c1 := Apply(c, DeliverRequest(call));
    CountGrant(c1, call);
    var c' := Apply(c1, DeliverReply(call));
    hide Apply, Enabled, Majority;
    if |targets| > 1 { RoundLeaves(c, c', cand, targets, call); }
    if spare { RoundSpares(c, c', cand, call, targets[0], other, others); }
  }

  /** Two candidates whose electorates do not overlap. */
  ghost predicate Apart(a: Host, targets: seq<Host>, b: Host, others: seq<Host>) {
    a != b && b !in targets && a !in others && forall v :: v in targets ==> v !in others
  }

  lemma RoundLeaves(c: Cluster, c': Cluster, cand: Host, targets: seq<Host>, call: Call)
    requires Campaigning(c, cand, targets) && |targets| > 1
    requires call == Call(cand, 1, IndexOf(c.nodes[cand].peers, targets[0]))
    requires c'.nodes.Keys == c.nodes.Keys && c'.nodes[cand] == c.nodes[cand]
    requires forall h :: h in c.nodes && h != targets[0] && h != cand ==> c'.nodes[h] == c.nodes[h]
    requires c'.requests == c.requests - {call} && c'.open == c.open - {call}
    requires var w := Win(1, cand);
      w in c'.ballots && c'.ballots[w] == c.ballots[w].(votes := c.ballots[w].votes + 1)
    ensures Campaigning(c', cand, targets[1..])
  {
    var tail := targets[1..];
    var peers := c.nodes[cand].peers;
    forall v | v in tail
      ensures v in targets && v != targets[0] && IndexOf(peers, v) != IndexOf(peers, targets[0])
    {
      var i :| 0 <= i < |tail| && tail[i] == v;
      assert targets[i + 1] == v;
    }
  }

  lemma RoundSpares(c: Cluster, c': Cluster, cand: Host, call: Call, voter: Host, other: Host, others: seq<Host>)
    requires Campaigning(c, other, others) && other != cand && other != voter && voter !in others && cand !in others
    requires call.candidate == cand
    requires c'.nodes.Keys == c.nodes.Keys
    requires forall h :: h in c.nodes && h != voter && h != cand ==> c'.nodes[h] == c.nodes[h]
    requires c'.requests == c.requests - {call} && c'.open == c.open - {call}
    requires Win(1, other) in c'.ballots && c'.ballots[Win(1, other)] == c.ballots[Win(1, other)]
    ensures Campaigning(c', other, others)
  {
  }

  lemma Extend(cfg: Config, steps: seq<Step>, step: Step)
    requires LegalRun(cfg, steps) && Enabled(Run(cfg, steps), step)
    ensures LegalRun(cfg, steps + [step])
    ensures NoErrors(steps) && !step.FailCall? ==> NoErrors(steps + [step])
    ensures Run(cfg, steps + [step]) == Apply(Run(cfg, steps), step)
  {
    hide Enabled, Apply;
    assert (steps + [step])[..|steps|] == steps;
  }

  /** A campaign runs to its win, and spares another one that does not overlap. */
  lemma {:induction false} WinCampaign(cfg: Config, steps: seq<Step>, cand: Host, targets: seq<Host>,
                                       spare: bool, other: Host, others: seq<Host>)
    returns (steps': seq<Step>)
    requires ValidConfig(cfg) && LegalRun(cfg, steps) && |targets| > 0
    requires Campaigning(Run(cfg, steps), cand, targets)
    requires Decides(Run(cfg, steps).ballots[Win(1, cand)], |targets|)
    requires spare ==> Campaigning(Run(cfg, steps), other, others) && Apart(cand, targets, other, others)
    ensures LegalRun(cfg, steps') && (NoErrors(steps) ==> NoErrors(steps'))
    ensures var c, c' := Run(cfg, steps), Run(cfg, steps');
      && Win(1, cand) in c'.wins && c.wins <= c'.wins
      && (spare ==> Campaigning(c', other, others) && c'.ballots[Win(1, other)] == c.ballots[Win(1, other)])
    decreases |targets|
  {
    hide Campaigning, Apply, Enabled, NoErrors, LegalRun, Run;
    var c := Run(cfg, steps);
    KnownHost(cfg, steps, cand, targets);
    var call := Round(c, cand, targets, spare, other, others);
    Extend(cfg, steps, DeliverRequest(call));
    var s1 := steps + [DeliverRequest(call)];
    Extend(cfg, s1, DeliverReply(call));
    var s2 := s1 + [DeliverReply(call)];
    if |targets| == 1 {
      steps' := s2;
    } else {
      assert forall v :: v in targets[1..] ==> v in targets;
      steps' := WinCampaign(cfg, s2, cand, targets[1..], spare, other, others);
    }
  }

  lemma KnownHost(cfg: Config, steps: seq<Step>, cand: Host, targets: seq<Host>)
    requires ValidConfig(cfg) && LegalRun(cfg, steps) && Campaigning(Run(cfg, steps), cand, targets)
    ensures cand in Run(cfg, steps).nodes && Run(cfg, steps).nodes[cand].host == cand
  {
    hide LegalRun, Run;
    RunInv(cfg, steps);
  }

  /** The calls of a node's current term are open, from the i-th on. */
  ghost predicate OpenFrom(c: Cluster, cand: Host, i: nat)
    requires cand in c.nodes
  {
    forall j :: i <= j < |c.nodes[cand].peers| ==> Call(cand, 1, j) in c.open
  }

  /** A node whose election has just started, before any of its peers has heard of it. */
  lemma StartCampaign(c: Cluster, cand: Host, targets: seq<Host>)
    requires cand in c.nodes && c.nodes[cand].term == 0 && c.nodes[cand].host == cand && DistinctHosts(targets)
    requires forall v :: v in targets ==>
      v in c.nodes[cand].peers && v in c.nodes && c.nodes[v].term == 0 && c.nodes[v].votedFor == ""
    ensures Enabled(c, Start(cand)) && Campaigning(Apply(c, Start(cand)), cand, targets)
    ensures Apply(c, Start(cand)).ballots[Win(1, cand)] == BallotState(1, 1, |c.nodes[cand].peers|)
    ensures forall h :: h in c.nodes && h != cand ==> Apply(c, Start(cand)).nodes[h] == c.nodes[h]
    ensures Apply(c, Start(cand)).nodes.Keys == c.nodes.Keys
    ensures OpenFrom(Apply(c, Start(cand)), cand, 0)
  {
  }

  lemma StartSpares(c: Cluster, h: Host, cand: Host, targets: seq<Host>)
    requires Campaigning(c, cand, targets) && h in c.nodes && h != cand && h !in targets
    ensures Campaigning(Apply(c, Start(h)), cand, targets)
    ensures Apply(c, Start(h)).ballots[Win(1, cand)] == c.ballots[Win(1, cand)]
    ensures OpenFrom(c, cand, 0) ==> OpenFrom(Apply(c, Start(h)), cand, 0)
  {
  }

  /** The members of a cluster that two candidates need, apart from each other. */
  ghost predicate Electorates(cfg: Config, a: Host, targets: seq<Host>, b: Host, others: seq<Host>) {
    && a in cfg.peers && b in cfg.peers && Apart(a, targets, b, others)
    && DistinctHosts(targets) && DistinctHosts(others)
    && (forall v :: v in targets ==> v in cfg.peers && v in cfg.peers[a])
    && (forall v :: v in others ==> v in cfg.peers && v in cfg.peers[b])
  }

  /** Two nodes start elections at once. */
  lemma StartBoth(cfg: Config, a: Host, targets: seq<Host>, b: Host, others: seq<Host>)
    requires ValidConfig(cfg) && Electorates(cfg, a, targets, b, others)
    ensures var steps := [Start(a), Start(b)];
      && LegalRun(cfg, steps) && NoErrors(steps)
      && var c := Run(cfg, steps);
      && Campaigning(c, a, targets) && Campaigning(c, b, others)
      && c.ballots[Win(1, a)] == BallotState(1, 1, |cfg.peers[a]|)
      && c.ballots[Win(1, b)] == BallotState(1, 1, |cfg.peers[b]|)
      && OpenFrom(c, a, 0) && OpenFrom(c, b, 0)
      && c.nodes[a].peers == cfg.peers[a] && c.nodes[b].peers == cfg.peers[b]
  {
    hide Campaigning, Apply, Enabled, OpenFrom;
    var c0 := Init(cfg);
    assert LegalRun(cfg, []) && Run(cfg, []) == c0;
    StartCampaign(c0, a, targets);
    Extend(cfg, [], Start(a));
    assert [] + [Start(a)] == [Start(a)];
    var c1 := Run(cfg, [Start(a)]);
    StartCampaign(c1, b, others);
    BallotThere(c1, a, targets);
    StartSpares(c1, b, a, targets);
    Extend(cfg, [Start(a)], Start(b));
    assert [Start(a)] + [Start(b)] == [Start(a), Start(b)];
    BallotThere(Run(cfg, [Start(a), Start(b)]), a, targets);
    BallotThere(Run(cfg, [Start(a), Start(b)]), b, others);
    RunInv(cfg, [Start(a), Start(b)]);
  }

  lemma BallotThere(c: Cluster, cand: Host, targets: seq<Host>)
    requires Campaigning(c, cand, targets)
    ensures Win(1, cand) in c.ballots && cand in c.nodes
  {
  }

  /** Two campaigns that their electorates decide are both won. */
  lemma BothElected(cfg: Config, start: seq<Step>, a: Host, targets: seq<Host>, b: Host, others: seq<Host>)
    returns (steps: seq<Step>)
    requires ValidConfig(cfg) && LegalRun(cfg, start) && Apart(a, targets, b, others) && |targets| > 0 && |others| > 0
    requires Campaigning(Run(cfg, start), a, targets) && Campaigning(Run(cfg, start), b, others)
    requires Decides(Run(cfg, start).ballots[Win(1, a)], |targets|)
    requires Decides(Run(cfg, start).ballots[Win(1, b)], |others|)
    ensures LegalRun(cfg, steps) && (NoErrors(start) ==> NoErrors(steps)) && !ElectionSafe(Run(cfg, steps))
  {
    hide LegalRun, Run, NoErrors, Decides;
    var mid := WinCampaign(cfg, start, a, targets, true, b, others);
    steps := WinCampaign(cfg, mid, b, others, false, a, targets);
    var c := Run(cfg, steps);
    assert Win(1, a) in c.wins && Win(1, b) in c.wins;
  }

  ghost function ListHosts(S: set<Host>): (s: seq<Host>)
    ensures DistinctHosts(s) && |s| == |S| && forall h :: h in s <==> h in S
  {
    if S == {} then []
    else
      var h :| h in S;
      ListHosts(S - {h}) + [h]
  }

  lemma SliceHosts(hosts: seq<Host>, lo: nat, hi: nat)
    requires DistinctHosts(hosts) && lo <= hi <= |hosts|
    ensures DistinctHosts(hosts[lo..hi])
    ensures forall h :: h in hosts[lo..hi] ==> h in hosts
    ensures forall i :: 0 <= i < |hosts| && !(lo <= i < hi) ==> hosts[i] !in hosts[lo..hi]
  {
  }

  lemma SlicesApart(hosts: seq<Host>, lo: nat, mid: nat, lo': nat, hi: nat)
    requires DistinctHosts(hosts) && lo <= mid <= lo' <= hi <= |hosts|
    ensures forall h :: h in hosts[lo..mid] ==> h !in hosts[lo'..hi]
  {
    forall h | h in hosts[lo..mid] ensures h !in hosts[lo'..hi] {
      var i :| 0 <= i < mid - lo && hosts[lo..mid][i] == h;
      assert hosts[lo + i] == h;
      SliceHosts(hosts, lo', hi);
    }
  }

  /** At every other size there is a run without call errors that elects two nodes in one term. */
  lemma UnsafeRun(cfg: Config, self: bool) returns (steps: seq<Step>)
    requires ValidConfig(cfg) && Uniform(cfg, self) && |cfg.peers| > 0 && !SafeSize(|cfg.peers|, self)
    ensures LegalRun(cfg, steps) && NoErrors(steps) && !ElectionSafe(Run(cfg, steps))
  {
    hide LegalRun, Run, NoErrors, ElectionSafe, DistinctHosts, Apart, Uniform, Campaigning;
    assert |cfg.peers| == |cfg.peers.Keys|;
    var hosts := ListHosts(cfg.peers.Keys);
    var q := |hosts| / 2;
    var lo := if self then 0 else 1;
    var a, b := hosts[0], hosts[q];
    assert a in hosts && b in hosts;
    var targets, others := hosts[lo..q], hosts[q + lo..2 * q];
    TwoElectorates(hosts, lo);
    PeersLength(cfg, self, a);
    PeersLength(cfg, self, b);
    UniformPeers(cfg, self, a);
    UniformPeers(cfg, self, b);
    StartBoth(cfg, a, targets, b, others);
    steps := BothElected(cfg, [Start(a), Start(b)], a, targets, b, others);
  }

  /** The first and the second half of the hosts, each with or without its first one. */
  lemma TwoElectorates(hosts: seq<Host>, lo: nat)
    requires DistinctHosts(hosts) && lo <= 1 && lo < |hosts| / 2
    ensures var q := |hosts| / 2;
      var a, b, targets, others := hosts[0], hosts[q], hosts[lo..q], hosts[q + lo..2 * q];
      && Apart(a, targets, b, others)
      && DistinctHosts(targets) && DistinctHosts(others)
      && (forall v :: v in targets ==> v in hosts && (lo == 0 || v != a))
      && (forall v :: v in others ==> v in hosts && (lo == 0 || v != b))
  {
    hide DistinctHosts;
    var q := |hosts| / 2;
    SliceHosts(hosts, lo, q);
    SliceHosts(hosts, q + lo, 2 * q);
    SlicesApart(hosts, lo, q, q + lo, 2 * q);
    HostsDiffer(hosts, 0, q);
  }

  lemma HostsDiffer(hosts: seq<Host>, i: nat, j: nat)
    requires DistinctHosts(hosts) && i < j < |hosts|
    ensures hosts[i] != hosts[j]
  {
  }

  lemma UniformPeers(cfg: Config, self: bool, h: Host)
    requires Uniform(cfg, self) && h in cfg.peers
    ensures forall p :: p in cfg.peers[h] <==> p in cfg.peers && (self || p != h)
  {
  }

  /** Election safety, exactly: for every size of a uniform cluster without restarts and call
      errors, all reachable states elect at most one node per term if and only if the nodes list
      the others and are an odd number or two, or there is a single node. */
  lemma ElectionSafetyExact(cfg: Config, self: bool)
    requires ValidConfig(cfg) && Uniform(cfg, self) && |cfg.peers| > 0
    ensures SafeSize(|cfg.peers|, self)
      <==> forall steps :: LegalRun(cfg, steps) && NoErrors(steps) ==> ElectionSafe(Run(cfg, steps))
  {
    hide LegalRun, Run, NoErrors, ElectionSafe, Uniform, SafeSize;
    if SafeSize(|cfg.peers|, self) {
      forall steps | LegalRun(cfg, steps) && NoErrors(steps) ensures ElectionSafe(Run(cfg, steps)) {
        SafeRun(cfg, self, steps);
      }
    } else {
      var steps := UnsafeRun(cfg, self);
    }
  }

  // ---- Call errors ----

  /** A failed call lowers the ballot's total; the campaign it does not need goes on. */
  lemma FailOne(c: Cluster, cand: Host, targets: seq<Host>, i: nat, other: Host, others: seq<Host>)
    requires Campaigning(c, cand, targets) && Campaigning(c, other, others) && other != cand
    requires Call(cand, 1, i) in c.open && forall v :: v in targets ==> IndexOf(c.nodes[cand].peers, v) != i
    ensures var call := Call(cand, 1, i);
      && Enabled(c, FailCall(call))
      && var c' := Apply(c, FailCall(call));
      && Campaigning(c', cand, targets) && Campaigning(c', other, others)
      && c'.nodes == c.nodes && c'.open == c.open - {call}
      && c'.ballots[Win(1, cand)] == c.ballots[Win(1, cand)].(total := c.ballots[Win(1, cand)].total - 1)
      && c'.ballots[Win(1, other)] == c.ballots[Win(1, other)]
  {
  }

  /** Every call but the one to the target fails, one after the other: one vote is then needed. */
  lemma {:induction false} FailOthers(cfg: Config, steps: seq<Step>, cand: Host, target: Host, i: nat,
                                      other: Host, others: seq<Host>)
    returns (steps': seq<Step>)
    requires ValidConfig(cfg) && LegalRun(cfg, steps) && other != cand
    requires var c := Run(cfg, steps);
      && Campaigning(c, cand, [target]) && Campaigning(c, other, others) && OpenFrom(c, cand, i)
      && i <= |c.nodes[cand].peers| && target in c.nodes[cand].peers
      && c.ballots[Win(1, cand)].votes == 1
      && c.ballots[Win(1, cand)].total ==
           |c.nodes[cand].peers| - i + (if IndexOf(c.nodes[cand].peers, target) < i then 1 else 0)
    ensures LegalRun(cfg, steps')
    ensures var c, c' := Run(cfg, steps), Run(cfg, steps');
      && Campaigning(c', cand, [target]) && Campaigning(c', other, others)
      && c'.ballots[Win(1, cand)].votes == 1 && c'.ballots[Win(1, cand)].total == 1
      && c'.ballots[Win(1, other)] == c.ballots[Win(1, other)]
      && (forall call :: call in c.open && call.candidate != cand ==> call in c'.open)
      && c'.nodes == c.nodes
    decreases |Run(cfg, steps).nodes[cand].peers| - i
  {
    hide LegalRun, Run, Campaigning, Apply, Enabled;
    var c := Run(cfg, steps);
    BallotThere(c, cand, [target]);
    var peers := c.nodes[cand].peers;
    if i == |peers| {
      steps' := steps;
    } else if i == IndexOf(peers, target) {
      steps' := FailOthers(cfg, steps, cand, target, i + 1, other, others);
    } else {
      var call := Call(cand, 1, i);
      FailOne(c, cand, [target], i, other, others);
      Extend(cfg, steps, FailCall(call));
      steps' := FailOthers(cfg, steps + [FailCall(call)], cand, target, i + 1, other, others);
    }
  }

  /** From four nodes on, enough failed calls let two nodes win one term, each with its own vote
      and one other. */
  lemma UnsafeRunWithErrors(cfg: Config) returns (steps: seq<Step>)
    requires ValidConfig(cfg) && Uniform(cfg, false) && |cfg.peers| >= 4
    ensures LegalRun(cfg, steps) && !ElectionSafe(Run(cfg, steps))
  {
    hide LegalRun, Run, ElectionSafe, Campaigning, OpenFrom, Uniform, Electorates, Apart, Enabled, Apply;
    var a, x, b, y := FourHosts(cfg);
    var start := [Start(a), Start(b)];
    StartBoth(cfg, a, [x], b, [y]);
    var c := Run(cfg, start);
    BallotThere(c, a, [x]);
    BallotThere(c, b, [y]);
    var mid := FailOthers(cfg, start, a, x, 0, b, [y]);
    OpenKept(c, Run(cfg, mid), b, a);
    var end := FailOthers(cfg, mid, b, y, 0, a, [x]);
    steps := BothElected(cfg, end, a, [x], b, [y]);
  }

  lemma FourHosts(cfg: Config) returns (a: Host, x: Host, b: Host, y: Host)
    requires Uniform(cfg, false) && |cfg.peers| >= 4
    ensures a != b && Electorates(cfg, a, [x], b, [y]) && Apart(a, [x], b, [y])
    ensures x in cfg.peers[a] && y in cfg.peers[b]
  {
    assert |cfg.peers| == |cfg.peers.Keys|;
    var hosts := ListHosts(cfg.peers.Keys);
    a, x, b, y := hosts[0], hosts[1], hosts[2], hosts[3];
    assert a in hosts && x in hosts && b in hosts && y in hosts;
  }

  lemma OpenKept(c: Cluster, c': Cluster, h: Host, other: Host)
    requires h in c.nodes && c'.nodes == c.nodes && OpenFrom(c, h, 0) && h != other
    requires forall call :: call in c.open && call.candidate != other ==> call in c'.open
    ensures OpenFrom(c', h, 0)
  {
  }

  /** Election safety when calls may fail, exactly: each failure shrinks the majority, so only
      clusters of up to three nodes that list the others, or of a single node, are safe. */
  lemma ErrorSafetyExact(cfg: Config, self: bool)
    requires ValidConfig(cfg) && Uniform(cfg, self) && |cfg.peers| > 0
    ensures ErrorSafeSize(|cfg.peers|, self) <==> forall steps :: LegalRun(cfg, steps) ==> ElectionSafe(Run(cfg, steps))
  {
    hide LegalRun, Run, ElectionSafe, Uniform;
    if ErrorSafeSize(|cfg.peers|, self) {
      forall steps | LegalRun(cfg, steps) ensures ElectionSafe(Run(cfg, steps)) {
        SafeRunWithErrors(cfg, self, steps);
      }
    } else if self {
      var steps := UnsafeRun(cfg, self);
    } else {
      var steps := UnsafeRunWithErrors(cfg);
    }
  }

  /** The configuration file as shipped lists all three nodes, and `start` adds every one of them
      to the peers: two nodes can be elected in the same term. */
  lemma ShippedConfig(x: Host, y: Host, z: Host) returns (steps: seq<Step>)
    requires x != y && y != z && x != z && "" !in {x, y, z}
    ensures var nodes := [x, y, z];
      var cfg := Config(map[x := nodes, y := nodes, z := nodes]);
      LegalRun(cfg, steps) && NoErrors(steps) && !ElectionSafe(Run(cfg, steps))
  {
    hide LegalRun, Run, NoErrors, ElectionSafe;
    var nodes := [x, y, z];
    var cfg := Config(map[x := nodes, y := nodes, z := nodes]);
    assert cfg.peers.Keys == {x, y, z};
    assert |cfg.peers| == |cfg.peers.Keys| == 3;
    steps := UnsafeRun(cfg, true);
  }
}

/**
  Why elections must start with an empty counter.  The counter is reset when an
  attempt is scheduled, and not when it starts; a run of the whole cluster in
  which two votes arrive in between ends with two winners of the same epoch.
 */
module ElectionWindow {
  import opened SlotTables
  import opened ClusterModel
  import opened ClusterBus
  import E = Elections

  // ---------------------------------------------------------------- masters 1, 2, 3, the last one failed, and its replicas 4, 5

  const NODES: map<NodeId, Peer> := map[
    1 := Peer(0, true, None, false, {}), 2 := Peer(0, true, None, false, {}), 3 := Peer(0, true, None, true, {}),
    4 := Peer(0, false, Some(3), false, {}), 5 := Peer(0, false, Some(3), false, {})]

  const TABLE: SlotTable := SlotTable(map[1 := {1}, 2 := {2}, 3 := {3}, 4 := {}, 5 := {}], map[1 := 1, 2 := 2, 3 := 3])

  const VOTERS: set<NodeId> := {1, 2, 3}

  /** The state of node n, all of it fixed but the epochs and the election fields. */
  function Node(n: NodeId, b: E.Ballot): Cluster {
    Cluster(n, b.currentEpoch, b.lastVoteEpoch, NODES, TABLE, map[], map[], b.authEpoch, b.authCount, b.authSent)
  }

  function RequestOf(n: NodeId, epoch: nat): Packet {
    Packet(AuthRequest(false), n, epoch, 0, Some(3), {3})
  }

  function AckOf(n: NodeId, epoch: nat): Packet {
    Packet(AuthAck, n, epoch, 0, None, {n})
  }

  lemma {:induction false} NodeIsOk(n: NodeId, b: E.Ballot)
    requires 1 <= n <= 5
    ensures WellFormed(Node(n, b)) && KnowsMaster(Node(n, b)) && Voters(Node(n, b)) == VOTERS && Quorum(Node(n, b)) == 2
  {
    TableAgrees();
    NodeRefs(n, b);
    NodeVoters(n, b);
    hide Agree, NoDangling, Voters;
  }

  lemma {:induction false} TableAgrees()
    ensures Agree(TABLE)
  {
    forall n, j ensures HasBit(TABLE, n, j) <==> Owns(TABLE, n, j) {
    }
  }

  lemma {:induction false} NodeRefs(n: NodeId, b: E.Ballot)
    requires 1 <= n <= 5
    ensures NoDangling(Node(n, b))
  {
    var c := Node(n, b);
    forall m | m in c.nodes ensures PeerKnown(c, c.nodes[m]) {
    }
  }

  lemma {:induction false} NodeVoters(n: NodeId, b: E.Ballot)
    ensures Voters(Node(n, b)) == VOTERS && |VOTERS| == 3
  {
    var c := Node(n, b);
    assert forall m :: m in c.nodes && IsVoter(c, m) <==> m in VOTERS;
  }

  // ---------------------------------------------------------------- steps

  ghost predicate SameRecords(w: World, v: World) {
    w.acks == v.acks && w.won == v.won
  }

  /** A replica asks for votes. */
  lemma {:induction false} Asks(w: World, n: NodeId, b: E.Ballot)
    requires (n == 4 || n == 5) && n in w.servers && w.servers[n] == Node(n, b) && !b.authSent
    ensures Enabled(w, Start(n, false))
    ensures var v, e := Next(w, Start(n, false)), b.currentEpoch + 1;
            && v.servers == w.servers[n := Node(n, b.(currentEpoch := e, authEpoch := e, authSent := true))]
            && SameRecords(w, v) && w.net <= v.net
            && Envelope(1, RequestOf(n, e)) in v.net && Envelope(2, RequestOf(n, e)) in v.net
  {
    NodeIsOk(n, b);
    var e := b.currentEpoch + 1;
    var c := StartElection(w.servers[n]);
    assert c == Node(n, b.(currentEpoch := e, authEpoch := e, authSent := true));
    assert Header(c, AuthRequest(false)) == RequestOf(n, e);
    assert 1 in c.nodes && 2 in c.nodes;
  }

  /** A master votes for a replica that asked. */
  lemma {:induction false} Votes(w: World, v: NodeId, n: NodeId, e: nat, b: E.Ballot)
    requires (v == 1 || v == 2) && (n == 4 || n == 5) && v in w.servers && w.servers[v] == Node(v, b)
    requires Envelope(v, RequestOf(n, e)) in w.net && b.currentEpoch <= e && b.lastVoteEpoch != e
    ensures Enabled(w, Deliver(Envelope(v, RequestOf(n, e)), false))
    ensures var u := Next(w, Deliver(Envelope(v, RequestOf(n, e)), false));
            && u.servers == w.servers[v := Node(v, b.(currentEpoch := e, lastVoteEpoch := e))]
            && u.acks == w.acks[E.Vote(v, e, n) := AckOf(v, e)] && u.net == w.net && u.won == w.won
  {
    NodeIsOk(v, b);
    var p := RequestOf(n, e);
    ElectionPacketsKeepRoles(w.servers[v], p, false);
    VoteIsGranted(v, n, e, b);
    var d := Node(v, b.(currentEpoch := e, lastVoteEpoch := e));
    assert VoteHeader(d) == AckOf(v, e);
    hide Receive, EarnsVote, Survives, NoDangling, VoteHeader;
  }

  lemma {:induction false} VoteIsGranted(v: NodeId, n: NodeId, e: nat, b: E.Ballot)
    requires (v == 1 || v == 2) && (n == 4 || n == 5) && b.currentEpoch <= e && b.lastVoteEpoch != e
    ensures NoDangling(Node(v, b)) && EarnsVote(Node(v, b), RequestOf(n, e), false)
    ensures Receive(Node(v, b), RequestOf(n, e), false) == Node(v, b.(currentEpoch := e, lastVoteEpoch := e))
  {
    NodeIsOk(v, b);
    var d := LearnEpochs(Node(v, b), RequestOf(n, e));
    assert NODES[n := NODES[n]] == NODES;
    assert d == Node(v, b.(currentEpoch := e));
    assert IsVoter(d, v) && !RefusesSlot(d, 0, 3);
  }

  /** A vote is counted, whether or not an election is open. */
  lemma {:induction false} Counts(w: World, v: NodeId, n: NodeId, e: nat, b: E.Ballot)
    requires (v == 1 || v == 2) && (n == 4 || n == 5) && n in w.servers && w.servers[n] == Node(n, b)
    requires E.Vote(v, e, n) in w.acks && w.acks[E.Vote(v, e, n)] == AckOf(v, e) && b.authEpoch <= e <= b.currentEpoch
    ensures Enabled(w, DeliverAck(E.Vote(v, e, n))) && AgreesOnVoters(w, VOTERS, DeliverAck(E.Vote(v, e, n)))
    ensures var u := Next(w, DeliverAck(E.Vote(v, e, n)));
            && u.servers == w.servers[n := Node(n, b.(authCount := b.authCount + 1))]
            && u.acks == w.acks - {E.Vote(v, e, n)} && u.net == w.net && u.won == w.won
  {
    NodeIsOk(n, b);
    AckIsCounted(v, n, e, b);
    hide Voters, NoDangling, WellFormed, KnowsMaster, Receive, Node;
  }

  lemma {:induction false} AckIsCounted(v: NodeId, n: NodeId, e: nat, b: E.Ballot)
    requires (v == 1 || v == 2) && (n == 4 || n == 5) && b.authEpoch <= e <= b.currentEpoch
    ensures NoDangling(Node(n, b))
    ensures Receive(Node(n, b), AckOf(v, e), false) == Node(n, b.(authCount := b.authCount + 1))
  {
    hide NoDangling, LearnEpochs, IsVoter;
    NodeRefs(n, b);
    AckTeachesNothing(v, n, e, b);
  }

  lemma {:induction false} AckTeachesNothing(v: NodeId, n: NodeId, e: nat, b: E.Ballot)
    requires (v == 1 || v == 2) && e <= b.currentEpoch
    ensures LearnEpochs(Node(n, b), AckOf(v, e)) == Node(n, b) && IsVoter(Node(n, b), v)
  {
    assert NODES[v := NODES[v]] == NODES;
  }

  /** The next attempt is scheduled: the counter is reset. */
  lemma {:induction false} Retries(w: World, n: NodeId, b: E.Ballot)
    requires n in w.servers && w.servers[n] == Node(n, b)
    ensures Enabled(w, Schedule(n))
    ensures var u := Next(w, Schedule(n));
            && u.servers == w.servers[n := Node(n, b.(authCount := 0, authSent := false))]
            && SameRecords(w, u) && u.net == w.net
  {
  }

  /** Two votes are enough. */
  lemma {:induction false} Wins(w: World, n: NodeId, b: E.Ballot)
    requires (n == 4 || n == 5) && n in w.servers && w.servers[n] == Node(n, b) && b.authSent && b.authCount >= 2
    ensures Enabled(w, Conclude(n)) && AgreesOnVoters(w, VOTERS, Conclude(n))
    ensures var u := Next(w, Conclude(n));
            && n in u.servers && u.servers == w.servers[n := u.servers[n]] && w.acks == u.acks && u.net == w.net && w.won <= u.won
            && exists x :: x in u.won && x.candidate == n && x.epoch == b.authEpoch
  {
    NodeIsOk(n, b);
    hide Voters, NoDangling;
    var x := E.Win(n, b.authEpoch, if n in w.counted then w.counted[n] else {});
    assert x in Next(w, Conclude(n)).won;
  }

  /** Replica 5 hears the current epoch from master 1. */
  lemma {:induction false} Hears(w: World, a: E.Ballot, b: E.Ballot)
    requires 1 in w.servers && 5 in w.servers && w.servers[1] == Node(1, a) && w.servers[5] == Node(5, b)
    requires b.currentEpoch <= a.currentEpoch
    ensures Enabled(w, SendPing(1, 5))
    ensures var v, p := Next(w, SendPing(1, 5)), Packet(Ping, 1, a.currentEpoch, 0, None, {1});
            && Enabled(v, Deliver(Envelope(5, p), false))
            && var u := Next(v, Deliver(Envelope(5, p), false));
               && u.servers == w.servers[5 := Node(5, b.(currentEpoch := a.currentEpoch))] && SameRecords(w, u) && w.net <= u.net
  {
    NodeIsOk(1, a);
    NodeIsOk(5, b);
    var p := Packet(Ping, 1, a.currentEpoch, 0, None, {1});
    assert Header(Node(1, a), Ping) == p;
    PingIsNews(a.currentEpoch, b);
    hide Receive, Survives, NoDangling, Header;
  }

  lemma {:induction false} PingIsNews(epoch: nat, b: E.Ballot)
    requires b.currentEpoch <= epoch
    ensures var p := Packet(Ping, 1, epoch, 0, None, {1});
            && NoDangling(Node(5, b)) && Survives(Node(5, b), p)
            && Receive(Node(5, b), p, false) == Node(5, b.(currentEpoch := epoch))
  {
    NodeIsOk(5, b);
    var p := Packet(Ping, 1, epoch, 0, None, {1});
    var d := LearnEpochs(Node(5, b), p);
    assert NODES[1 := NODES[1]] == NODES;
    assert d == Node(5, b.(currentEpoch := epoch));
    assert SwitchRole(d, p) == d && !Dirty(d, p);
  }

  // ---------------------------------------------------------------- the run

  /** Some run, in which the candidates agree on the voters, leads from w to u. */
  ghost predicate Reaches(w: World, u: World) {
    exists run :: IsRun(w, run) && Agreeing(w, VOTERS, run) && Final(w, run) == u
  }

  lemma {:induction false} OneMoreStep(w: World, run: seq<Step>, step: Step)
    requires IsRun(w, run) && Agreeing(w, VOTERS, run) && Enabled(Final(w, run), step)
    requires AgreesOnVoters(Final(w, run), VOTERS, step)
    ensures var longer := run + [step];
            IsRun(w, longer) && Agreeing(w, VOTERS, longer) && Final(w, longer) == Next(Final(w, run), step)
    decreases |run|
  {
    hide Next, Enabled, AgreesOnVoters;
    var longer := run + [step];
    if run == [] {
      assert longer == [step] && longer[1..] == [];
    } else {
      OneMoreStep(Next(w, run[0]), run[1..], step);
      assert longer[1..] == run[1..] + [step];
    }
  }

  lemma {:induction false} ReachesNext(w: World, u: World, step: Step)
    requires Reaches(w, u) && Enabled(u, step) && AgreesOnVoters(u, VOTERS, step)
    ensures Reaches(w, Next(u, step))
  {
    hide Next, Enabled, AgreesOnVoters;
    var run :| IsRun(w, run) && Agreeing(w, VOTERS, run) && Final(w, run) == u;
    OneMoreStep(w, run, step);
  }

  const NOTHING: E.Ballot := E.Ballot(0, 0, 0, 0, false)

  /** The cluster at rest; master 3 is down. */
  const START: World := World(map[1 := Node(1, NOTHING), 2 := Node(2, NOTHING), 4 := Node(4, NOTHING), 5 := Node(5, NOTHING)],
                              {}, map[], {}, {}, map[], {})

  /** 4 has asked in epoch 1 and given up; the votes of 1 and 2 are still in flight. */
  ghost predicate VotesInFlight(w: World) {
    && w.servers == map[1 := Node(1, E.Ballot(1, 1, 0, 0, false)), 2 := Node(2, E.Ballot(1, 1, 0, 0, false)),
                        4 := Node(4, E.Ballot(1, 0, 1, 0, false)), 5 := Node(5, NOTHING)]
    && E.Vote(1, 1, 4) in w.acks && w.acks[E.Vote(1, 1, 4)] == AckOf(1, 1)
    && E.Vote(2, 1, 4) in w.acks && w.acks[E.Vote(2, 1, 4)] == AckOf(2, 1)
  }

  lemma {:induction false} FirstElection() returns (w: World)
    ensures Reaches(START, w) && VotesInFlight(w)
  {
    hide Node, Reaches;
    StartIsReached();
    w := OneAsks(START, 4, NOTHING);
    w := OneVotes(w, 1, 4, 1, NOTHING);
    w := OneVotes(w, 2, 4, 1, NOTHING);
    w := OneRetries(w, 4, E.Ballot(1, 0, 1, 0, true));
  }

  lemma {:induction false} StartIsReached()
    ensures Reaches(START, START)
  {
    hide Node;
    assert IsRun(START, []) && Agreeing(START, VOTERS, []) && Final(START, []) == START;
  }

  lemma {:induction false} OneRetries(w: World, n: NodeId, b: E.Ballot) returns (u: World)
    requires Reaches(START, w) && n in w.servers && w.servers[n] == Node(n, b)
    ensures Reaches(START, u) && u.servers == w.servers[n := Node(n, b.(authCount := 0, authSent := false))]
    ensures SameRecords(w, u) && u.net == w.net
  {
    hide Next, Enabled, AgreesOnVoters, Node, Reaches;
    Retries(w, n, b);
    NobodyCounts(w, Schedule(n));
    ReachesNext(START, w, Schedule(n));
    u := Next(w, Schedule(n));
  }

  lemma {:induction false} NobodyCounts(w: World, step: Step)
    requires Enabled(w, step) && !step.DeliverAck? && !step.Conclude?
    ensures AgreesOnVoters(w, VOTERS, step)
  {
  }

  lemma {:induction false} OneVotes(w: World, v: NodeId, n: NodeId, e: nat, b: E.Ballot) returns (u: World)
    requires Reaches(START, w) && (v == 1 || v == 2) && (n == 4 || n == 5) && v in w.servers
    requires w.servers[v] == Node(v, b)
    requires Envelope(v, RequestOf(n, e)) in w.net && b.currentEpoch <= e && b.lastVoteEpoch != e
    ensures Reaches(START, u) && u.servers == w.servers[v := Node(v, b.(currentEpoch := e, lastVoteEpoch := e))]
    ensures u.acks == w.acks[E.Vote(v, e, n) := AckOf(v, e)] && u.net == w.net && u.won == w.won
  {
    hide Next, Enabled, AgreesOnVoters, Node, Reaches;
    Votes(w, v, n, e, b);
    var step := Deliver(Envelope(v, RequestOf(n, e)), false);
    NobodyCounts(w, step);
    ReachesNext(START, w, step);
    u := Next(w, step);
  }

  lemma {:induction false} OneCounts(w: World, v: NodeId, n: NodeId, e: nat, b: E.Ballot) returns (u: World)
    requires Reaches(START, w) && (v == 1 || v == 2) && (n == 4 || n == 5) && n in w.servers
    requires w.servers[n] == Node(n, b)
    requires E.Vote(v, e, n) in w.acks && w.acks[E.Vote(v, e, n)] == AckOf(v, e) && b.authEpoch <= e <= b.currentEpoch
    ensures Reaches(START, u) && u.servers == w.servers[n := Node(n, b.(authCount := b.authCount + 1))]
    ensures u.acks == w.acks - {E.Vote(v, e, n)} && u.net == w.net && u.won == w.won
  {
    hide Next, Enabled, AgreesOnVoters, Node, Reaches;
    Counts(w, v, n, e, b);
    ReachesNext(START, w, DeliverAck(E.Vote(v, e, n)));
    u := Next(w, DeliverAck(E.Vote(v, e, n)));
  }

  lemma {:induction false} OneAsks(w: World, n: NodeId, b: E.Ballot) returns (u: World)
    requires Reaches(START, w) && (n == 4 || n == 5) && n in w.servers && w.servers[n] == Node(n, b) && !b.authSent
    ensures var e := b.currentEpoch + 1;
            && Reaches(START, u) && u.servers == w.servers[n := Node(n, b.(currentEpoch := e, authEpoch := e, authSent := true))]
            && SameRecords(w, u) && Envelope(1, RequestOf(n, e)) in u.net && Envelope(2, RequestOf(n, e)) in u.net
  {
    hide Next, Enabled, AgreesOnVoters, Node, Reaches;
    Asks(w, n, b);
    NobodyCounts(w, Start(n, false));
    ReachesNext(START, w, Start(n, false));
    u := Next(w, Start(n, false));
  }

  lemma {:induction false} OneWins(w: World, n: NodeId, b: E.Ballot) returns (u: World)
    requires Reaches(START, w) && (n == 4 || n == 5) && n in w.servers && w.servers[n] == Node(n, b) && b.authSent
    requires b.authCount >= 2
    ensures Reaches(START, u) && n in u.servers && u.servers == w.servers[n := u.servers[n]] && w.won <= u.won
    ensures exists x :: x in u.won && x.candidate == n && x.epoch == b.authEpoch
  {
    hide Next, Enabled, AgreesOnVoters, Node, Reaches;
    Wins(w, n, b);
    ReachesNext(START, w, Conclude(n));
    u := Next(w, Conclude(n));
  }

  /** 4 counts the two old votes, starts the election of epoch 2 and wins it at once. */
  lemma {:induction false} StaleVotesWin(w: World) returns (u: World)
    requires Reaches(START, w) && VotesInFlight(w)
    ensures Reaches(START, u) && u.servers.Keys == {1, 2, 4, 5}
    ensures u.servers[1] == Node(1, E.Ballot(1, 1, 0, 0, false)) && u.servers[2] == Node(2, E.Ballot(1, 1, 0, 0, false))
    ensures u.servers[5] == Node(5, NOTHING)
    ensures exists x :: x in u.won && x.candidate == 4 && x.epoch == 2
  {
    hide Node, Reaches;
    u := OneCounts(w, 1, 4, 1, E.Ballot(1, 0, 1, 0, false));
    u := OneCounts(u, 2, 4, 1, E.Ballot(1, 0, 1, 1, false));
    u := OneAsks(u, 4, E.Ballot(1, 0, 1, 2, false));
    u := OneWins(u, 4, E.Ballot(2, 0, 2, 2, true));
  }

  /** 5 hears of epoch 1, asks in epoch 2 and wins it with the votes of 1 and 2. */
  lemma {:induction false} FreshVotesWin(w: World) returns (u: World)
    requires Reaches(START, w) && w.servers.Keys == {1, 2, 4, 5}
    requires w.servers[1] == Node(1, E.Ballot(1, 1, 0, 0, false))
    requires w.servers[2] == Node(2, E.Ballot(1, 1, 0, 0, false))
    requires w.servers[5] == Node(5, NOTHING)
    ensures Reaches(START, u) && w.won <= u.won
    ensures exists x :: x in u.won && x.candidate == 5 && x.epoch == 2
  {
    hide Node, Reaches, Next, Enabled, AgreesOnVoters;
    Hears(w, E.Ballot(1, 1, 0, 0, false), NOTHING);
    NobodyCounts(w, SendPing(1, 5));
    ReachesNext(START, w, SendPing(1, 5));
    u := Next(w, SendPing(1, 5));
    var hear := Deliver(Envelope(5, Packet(Ping, 1, 1, 0, None, {1})), false);
    NobodyCounts(u, hear);
    ReachesNext(START, u, hear);
    u := Next(u, hear);
    u := OneAsks(u, 5, E.Ballot(1, 0, 0, 0, false));
    u := OneVotes(u, 1, 5, 2, E.Ballot(1, 1, 0, 0, false));
    u := OneVotes(u, 2, 5, 2, E.Ballot(1, 1, 0, 0, false));
    u := OneCounts(u, 1, 5, 2, E.Ballot(2, 0, 2, 0, true));
    u := OneCounts(u, 2, 5, 2, E.Ballot(2, 0, 2, 1, true));
    u := OneWins(u, 5, E.Ballot(2, 0, 2, 2, true));
  }

  lemma {:induction false} StartedOk(n: NodeId)
    requires n in START.servers
    ensures ServerOk(START, n) && START.servers[n].authCount == 0 && !START.servers[n].authSent
  {
    NodeIsOk(n, NOTHING);
    NodeEpochs(n);
    assert START.servers[n] == Node(n, NOTHING) by {
      hide Node;
    }
    hide WellFormed, KnowsMaster, Voters, EpochsBounded;
  }

  lemma {:induction false} NodeEpochs(n: NodeId)
    ensures EpochsBounded(Node(n, NOTHING))
  {
  }

  lemma {:induction false} StartIsInit()
    ensures Init(START)
  {
    hide ServerOk, Node;
    forall n | n in START.servers ensures ServerOk(START, n) && START.servers[n].authCount == 0 && !START.servers[n].authSent {
      StartedOk(n);
    }
  }

  /**
    Without the hypothesis on the counter safety is lost: a run of the cluster, from a good start and with
    candidates that agree on the voters, in which two candidates win the same epoch.
   */
  lemma {:induction false} TwoWinnersWithoutTheHypothesis() returns (run: seq<Step>)
    ensures Init(START) && IsRun(START, run) && Agreeing(START, VOTERS, run)
    ensures var won := Final(START, run).won;
            exists a, b :: a in won && b in won && a.epoch == b.epoch && a.candidate != b.candidate
  {
    hide Node, Next, Enabled;
    StartIsInit();
    var w := FirstElection();
    w := StaleVotesWin(w);
    var a :| a in w.won && a.candidate == 4 && a.epoch == 2;
    w := FreshVotesWin(w);
    var b :| b in w.won && b.candidate == 5 && b.epoch == 2;
    run :| IsRun(START, run) && Agreeing(START, VOTERS, run) && Final(START, run) == w;
  }
}

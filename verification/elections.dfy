/**
  Failover elections of Redis Cluster, reduced to what decides them: the epochs
  and the ballot fields of every node, the vote requests sent so far and the
  votes in flight.  cluster_bus.dfy shows that every step of the full protocol
  is one of these steps.
 */
module Elections {

  type NodeId = nat

  /** The election fields of struct clusterState. */
  datatype Ballot = Ballot(currentEpoch: nat, lastVoteEpoch: nat, authEpoch: nat, authCount: nat, authSent: bool)

  /** A FAILOVER_AUTH_ACK of `voter` to `candidate`, sent in epoch `epoch`. */
  datatype Vote = Vote(voter: NodeId, epoch: nat, candidate: NodeId)

  /** A FAILOVER_AUTH_REQUEST. */
  datatype Request = Request(candidate: NodeId, epoch: nat)

  /** An election that was won, with the voters whose votes were counted. */
  datatype Win = Win(candidate: NodeId, epoch: nat, voters: set<NodeId>)

  /** `granted`, `counted` and `won` are history: no handler reads them. */
  datatype State = State(
    ballots: map<NodeId, Ballot>,
    requests: set<Request>,
    acks: set<Vote>,
    granted: set<Vote>,
    counted: map<NodeId, set<NodeId>>,
    won: set<Win>)

  datatype Step =
    | Raise(n: NodeId, epoch: nat)
    | Grant(v: NodeId, r: Request)
    | Count(ack: Vote, known: bool, fromVoter: bool)
    | Schedule(n: NodeId)
    | Start(n: NodeId)
    | Conclude(n: NodeId)

  function Max(a: nat, b: nat): nat {
    if a < b then b else a
  }

  /** The vote is accepted by the FAILOVER_AUTH_ACK branch of clusterProcessPacket. */
  predicate Accepted(b: Ballot, ack: Vote, fromVoter: bool) {
    fromVoter && ack.epoch >= b.authEpoch
  }

  ghost predicate Enabled(s: State, V: set<NodeId>, step: Step) {
    match step
    case Raise(n, epoch) => n in s.ballots && epoch >= s.ballots[n].currentEpoch
    case Grant(v, r) =>
      && v in s.ballots && r in s.requests
      && s.ballots[v].currentEpoch <= r.epoch
      && s.ballots[v].lastVoteEpoch != r.epoch
    case Count(ack, known, fromVoter) => ack in s.acks && ack.candidate in s.ballots && (fromVoter ==> ack.voter in V)
    case Schedule(n) => n in s.ballots
    case Start(n) => n in s.ballots && !s.ballots[n].authSent
    case Conclude(n) => n in s.ballots && s.ballots[n].authSent && s.ballots[n].authCount >= |V| / 2 + 1
  }

  function Counted(s: State, n: NodeId): set<NodeId> {
    if n in s.counted then s.counted[n] else {}
  }

  ghost function Next(s: State, V: set<NodeId>, step: Step): State
    requires Enabled(s, V, step)
  {
    match step
    case Raise(n, epoch) => s.(ballots := s.ballots[n := s.ballots[n].(currentEpoch := epoch)])
    case Grant(v, r) =>
      var vote := Vote(v, r.epoch, r.candidate);
      s.(ballots := s.ballots[v := s.ballots[v].(currentEpoch := r.epoch, lastVoteEpoch := r.epoch)],
         acks := s.acks + {vote}, granted := s.granted + {vote})
    case Count(ack, known, fromVoter) =>
      var b := s.ballots[ack.candidate];
      var c := if known then b.(currentEpoch := Max(b.currentEpoch, ack.epoch)) else b;
      if Accepted(b, ack, fromVoter) then
        s.(ballots := s.ballots[ack.candidate := c.(authCount := b.authCount + 1)], acks := s.acks - {ack},
           counted := s.counted[ack.candidate := Counted(s, ack.candidate) + {ack.voter}])
      else
        s.(ballots := s.ballots[ack.candidate := c], acks := s.acks - {ack})
    case Schedule(n) =>
      s.(ballots := s.ballots[n := s.ballots[n].(authCount := 0, authSent := false)], counted := s.counted[n := {}])
    case Start(n) =>
      var e := s.ballots[n].currentEpoch + 1;
      s.(ballots := s.ballots[n := s.ballots[n].(currentEpoch := e, authEpoch := e, authSent := true)],
         requests := s.requests + {Request(n, e)})
    case Conclude(n) => s.(won := s.won + {Win(n, s.ballots[n].authEpoch, Counted(s, n))})
  }

  /** The hypothesis: no vote is on the counter of a candidate when its election starts. */
  ghost predicate StartsAtZero(s: State, step: Step) {
    step.Start? && step.n in s.ballots ==> s.ballots[step.n].authCount == 0
  }

  // ---------------------------------------------------------------- the invariant

  ghost predicate BallotOk(s: State, V: set<NodeId>, n: NodeId)
    requires n in s.ballots
  {
    var b := s.ballots[n];
    && b.lastVoteEpoch <= b.currentEpoch && b.authEpoch <= b.currentEpoch
    && b.authCount == |Counted(s, n)| && Counted(s, n) <= V
  }

  ghost predicate VoteOk(s: State, v: Vote) {
    && v.voter in s.ballots && v.epoch <= s.ballots[v.voter].lastVoteEpoch
    && v.candidate in s.ballots && v.epoch <= s.ballots[v.candidate].authEpoch
  }

  /** The votes behind a counter were given to this candidate in the epoch of its last election. */
  ghost predicate CountedOk(s: State, n: NodeId, v: NodeId)
    requires n in s.ballots
  {
    var vote := Vote(v, s.ballots[n].authEpoch, n);
    vote in s.granted && vote !in s.acks
  }

  ghost predicate WinOk(s: State, V: set<NodeId>, w: Win) {
    w.voters <= V && |w.voters| >= |V| / 2 + 1 && forall v :: v in w.voters ==> Vote(v, w.epoch, w.candidate) in s.granted
  }

  ghost predicate Inv(s: State, V: set<NodeId>) {
    && (forall n :: n in s.ballots ==> BallotOk(s, V, n))
    && (forall r :: r in s.requests ==> r.candidate in s.ballots && r.epoch <= s.ballots[r.candidate].authEpoch)
    && s.acks <= s.granted
    && (forall v :: v in s.granted ==> VoteOk(s, v))
    && (forall a, b :: a in s.granted && b in s.granted && a.voter == b.voter && a.epoch == b.epoch ==> a == b)
    && (forall n, v :: n in s.ballots && v in Counted(s, n) ==> CountedOk(s, n, v))
    && (forall w :: w in s.won ==> WinOk(s, V, w))
  }

  /** No vote given, nothing counted, no election open. */
  ghost predicate Init(s: State) {
    && s.requests == {} && s.acks == {} && s.granted == {} && s.won == {} && s.counted == map[]
    && (forall n :: n in s.ballots ==>
          var b := s.ballots[n];
          b.lastVoteEpoch <= b.currentEpoch && b.authEpoch <= b.currentEpoch && b.authCount == 0 && !b.authSent)
  }

  lemma {:induction false} GrantKeepsInv(s: State, V: set<NodeId>, v: NodeId, r: Request)
    requires Inv(s, V) && Enabled(s, V, Grant(v, r))
    ensures Inv(Next(s, V, Grant(v, r)), V)
  {
    var d := Next(s, V, Grant(v, r));
    var vote := Vote(v, r.epoch, r.candidate);
    assert BallotOk(s, V, v);
    forall n | n in d.ballots ensures BallotOk(d, V, n) {
      assert BallotOk(s, V, n);
    }
    forall x | x in d.granted ensures VoteOk(d, x) && (x.voter == v && x.epoch == r.epoch ==> x == vote) {
      assert x == vote || VoteOk(s, x);
    }
    forall n, x | n in d.ballots && x in Counted(d, n) ensures CountedOk(d, n, x) {
      assert CountedOk(s, n, x);
      assert VoteOk(s, Vote(x, s.ballots[n].authEpoch, n));
    }
    forall w | w in d.won ensures WinOk(d, V, w) {
      assert WinOk(s, V, w);
    }
  }

  lemma {:induction false} CountKeepsInv(s: State, V: set<NodeId>, ack: Vote, known: bool, fromVoter: bool)
    requires Inv(s, V) && Enabled(s, V, Count(ack, known, fromVoter))
    ensures Inv(Next(s, V, Count(ack, known, fromVoter)), V)
  {
    var d := Next(s, V, Count(ack, known, fromVoter));
    assert VoteOk(s, ack);
    forall n | n in d.ballots ensures BallotOk(d, V, n) {
      assert BallotOk(s, V, n);
      if n == ack.candidate && ack.voter in Counted(s, n) {
        assert CountedOk(s, n, ack.voter);
      }
    }
    forall x | x in d.granted ensures VoteOk(d, x) {
      assert VoteOk(s, x);
    }
    forall n, x | n in d.ballots && x in Counted(d, n) ensures CountedOk(d, n, x) {
      assert (n == ack.candidate && x == ack.voter) || CountedOk(s, n, x);
    }
    forall w | w in d.won ensures WinOk(d, V, w) {
      assert WinOk(s, V, w);
    }
  }

  lemma {:induction false} LocalKeepsInv(s: State, V: set<NodeId>, step: Step)
    requires Inv(s, V) && Enabled(s, V, step) && !step.Grant? && !step.Count? && StartsAtZero(s, step)
    ensures Inv(Next(s, V, step), V)
  {
    var d := Next(s, V, step);
    forall n | n in d.ballots ensures BallotOk(d, V, n) {
      assert BallotOk(s, V, n);
    }
    forall x | x in d.granted ensures VoteOk(d, x) {
      assert VoteOk(s, x);
    }
    forall n, x | n in d.ballots && x in Counted(d, n) ensures CountedOk(d, n, x) {
      assert BallotOk(s, V, n) && CountedOk(s, n, x);
    }
    forall w | w in d.won ensures WinOk(d, V, w) {
      if w !in s.won {
        assert BallotOk(s, V, step.n);
        forall v | v in w.voters ensures Vote(v, w.epoch, w.candidate) in d.granted {
          assert CountedOk(s, step.n, v);
        }
      } else {
        assert WinOk(s, V, w);
      }
    }
  }

  /** Every step of an election keeps the invariant, provided elections start with an empty counter. */
  lemma {:induction false} NextKeepsInv(s: State, V: set<NodeId>, step: Step)
    requires Inv(s, V) && Enabled(s, V, step) && StartsAtZero(s, step)
    ensures Inv(Next(s, V, step), V)
  {
    match step {
      case Grant(v, r) => GrantKeepsInv(s, V, v, r);
      case Count(ack, known, fromVoter) => CountKeepsInv(s, V, ack, known, fromVoter);
      case _ => LocalKeepsInv(s, V, step);
    }
  }

  lemma {:induction false} MajoritiesMeet(V: set<NodeId>, a: set<NodeId>, b: set<NodeId>)
    requires a <= V && b <= V && |a| >= |V| / 2 + 1 && |b| >= |V| / 2 + 1
    ensures exists v :: v in a && v in b
  {
    if a * b == {} {
      assert |a + b| == |a| + |b|;
      Subset(a + b, V);
    }
  }

  lemma {:induction false} Subset(a: set<NodeId>, b: set<NodeId>)
    requires a <= b
    ensures |a| <= |b|
  {
    assert b == a + (b - a) && a !! (b - a);
    assert |b| == |a| + |b - a|;
  }

  /** Two elections won in the same epoch were won by the same candidate. */
  lemma {:induction false} InvGivesSafety(s: State, V: set<NodeId>, a: Win, b: Win)
    requires Inv(s, V) && a in s.won && b in s.won && a.epoch == b.epoch
    ensures a.candidate == b.candidate
  {
    assert WinOk(s, V, a) && WinOk(s, V, b);
    MajoritiesMeet(V, a.voters, b.voters);
    var v :| v in a.voters && v in b.voters;
    assert Vote(v, a.epoch, a.candidate) in s.granted && Vote(v, b.epoch, b.candidate) in s.granted;
  }

  // ---------------------------------------------------------------- whole runs

  /** `run` is a run of the protocol from `s`. */
  ghost predicate IsRun(s: State, V: set<NodeId>, run: seq<Step>)
    decreases |run|
  {
    run == [] || (Enabled(s, V, run[0]) && IsRun(Next(s, V, run[0]), V, run[1..]))
  }

  ghost function Final(s: State, V: set<NodeId>, run: seq<Step>): State
    requires IsRun(s, V, run)
    decreases |run|
  {
    if run == [] then s else Final(Next(s, V, run[0]), V, run[1..])
  }

  /** A run all of whose elections start with an empty counter. */
  ghost predicate Fair(s: State, V: set<NodeId>, run: seq<Step>)
    requires IsRun(s, V, run)
    decreases |run|
  {
    run == [] || (StartsAtZero(s, run[0]) && Fair(Next(s, V, run[0]), V, run[1..]))
  }

  lemma {:induction false} RunKeepsInv(s: State, V: set<NodeId>, run: seq<Step>)
    requires Inv(s, V) && IsRun(s, V, run) && Fair(s, V, run)
    ensures Inv(Final(s, V, run), V)
    decreases |run|
  {
    if run != [] {
      NextKeepsInv(s, V, run[0]);
      RunKeepsInv(Next(s, V, run[0]), V, run[1..]);
    }
  }

  /**
    Election safety: at most one candidate wins a given epoch, in every run whose elections start with an empty
    counter.
   */
  lemma {:induction false} ElectionSafety(s: State, V: set<NodeId>, run: seq<Step>, a: Win, b: Win)
    requires Init(s) && IsRun(s, V, run) && Fair(s, V, run)
    requires a in Final(s, V, run).won && b in Final(s, V, run).won && a.epoch == b.epoch
    ensures a.candidate == b.candidate
  {
    RunKeepsInv(s, V, run);
    InvGivesSafety(Final(s, V, run), V, a, b);
  }

  // ---------------------------------------------------------------- the hypothesis

  /** No vote that would be counted reaches a candidate between the reset of its counter and its next election. */
  ghost predicate NoVoteInTheWindow(s: State, step: Step) {
    step.Count? && step.ack.candidate in s.ballots && Accepted(s.ballots[step.ack.candidate], step.ack, step.fromVoter) ==>
      s.ballots[step.ack.candidate].authSent
  }

  ghost predicate Quiet(s: State, V: set<NodeId>, run: seq<Step>)
    requires IsRun(s, V, run)
    decreases |run|
  {
    run == [] || (NoVoteInTheWindow(s, run[0]) && Quiet(Next(s, V, run[0]), V, run[1..]))
  }

  /** The counter of a candidate without an open election is empty. */
  ghost predicate ClosedAtZero(s: State) {
    forall n :: n in s.ballots && !s.ballots[n].authSent ==> s.ballots[n].authCount == 0
  }

  /** A network that delivers no such vote makes all elections start with an empty counter. */
  lemma {:induction false} QuietIsFair(s: State, V: set<NodeId>, run: seq<Step>)
    requires ClosedAtZero(s) && IsRun(s, V, run) && Quiet(s, V, run)
    ensures Fair(s, V, run)
    decreases |run|
  {
    if run != [] {
      var d := Next(s, V, run[0]);
      assert ClosedAtZero(d);
      QuietIsFair(d, V, run[1..]);
    }
  }

  /**
    What an election that starts with votes on its counter is worth: the votes counted for it were
    given in its epoch exactly when there are none.
   */
  lemma {:induction false} StartIsHonestIff(s: State, V: set<NodeId>, n: NodeId)
    requires Inv(s, V) && Enabled(s, V, Start(n))
    ensures var d := Next(s, V, Start(n));
            (forall v :: v in Counted(d, n) ==> Vote(v, d.ballots[n].authEpoch, n) in d.granted) <==> s.ballots[n].authCount == 0
  {
    var d := Next(s, V, Start(n));
    assert BallotOk(s, V, n) && Counted(d, n) == Counted(s, n);
    forall v ensures Vote(v, d.ballots[n].authEpoch, n) !in d.granted {
      var vote := Vote(v, d.ballots[n].authEpoch, n);
      assert vote in s.granted ==> VoteOk(s, vote);
    }
    if s.ballots[n].authCount != 0 {
      assert Counted(s, n) != {};
      var v :| v in Counted(s, n);
      assert v in Counted(d, n);
    }
  }
}

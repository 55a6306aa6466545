/** Every step of GenSystem keeps the invariant. */
module GenProof {
  import opened Quorums
  import opened Generations
  import opened GenSystem
  import opened GenInvariant

  /** What no step of any node ever takes back. */
  ghost predicate Grows(s: State, s': State) {
    && s'.conf == s.conf && s'.nodes.Keys == s.nodes.Keys
    && s.requests <= s'.requests && s.responses <= s'.responses
    && s.ballots <= s'.ballots && s.elected <= s'.elected && s.acks <= s'.acks
    && forall y :: y in s.nodes ==> NodeGrows(s.nodes[y], s'.nodes[y])
  }

  ghost predicate NodeGrows(n: Node, n': Node) {
    && n.cur.num <= n'.cur.num
    && n.vote.num <= n'.vote.num
    && n.wal <= n'.wal
    && (n'.loi == n.loi || (n.loi < n'.loi && n.vote.num <= n'.loi && n'.loi == n'.cur.num))
  }

  lemma StepGrows(s: State, x: NodeId, step: Step)
    requires Inv(s) && Enabled(s, x, step)
    ensures Grows(s, Apply(s, x, step))
  {
    assert NodeOK(s, x);
  }

  lemma SameNumberSameGen(s: State, v: Victory, w: Victory)
    requires Inv(s) && v in s.elected && w in s.elected && v.gen.num == w.gen.num
    ensures v.gen == w.gen
  {
    assert VictoryOK(s, v) && VictoryOK(s, w);
    if v.gen.num != 1 {
      var y := QuorumsMeet(s.conf, v.lois.Keys, w.lois.Keys);
      assert SameBallot(Ballot(y, v.gen, v.lois[y]), Ballot(y, w.gen, w.lois[y]));
    }
  }

  // ----- existence facts survive growth -----

  lemma FactsGrow(s: State, s': State)
    requires Grows(s, s')
    ensures forall g :: HasVictory(s, g) ==> HasVictory(s', g)
    ensures forall y, g :: HasBallot(s, y, g) ==> HasBallot(s', y, g)
    ensures forall y, m :: WasOnline(s, y, m) ==> WasOnline(s', y, m)
    ensures forall m :: RankElected(s, m) ==> RankElected(s', m)
    ensures forall r :: ResponseOK(s, r) ==> ResponseOK(s', r)
    ensures forall y, t :: TourOK(s, y, t) ==> TourOK(s', y, t)
  {
    forall r | ResponseOK(s, r)
      ensures ResponseOK(s', r)
    {
      var g :| Request(g, r.to) in s.requests && g.num == r.num && Ballot(r.voter, g, r.loi) in s.ballots;
      assert Request(g, r.to) in s'.requests && Ballot(r.voter, g, r.loi) in s'.ballots;
    }
  }

  lemma OtherNodes(s: State, x: NodeId, step: Step, y: NodeId)
    requires Inv(s) && Enabled(s, x, step) && y in s.nodes && y != x
    ensures NodeOK(Apply(s, x, step), y)
  {
    var s' := Apply(s, x, step);
    StepGrows(s, x, step);
    FactsGrow(s, s');
    assert NodeOK(s, y) && s'.nodes[y] == s.nodes[y];
  }

  lemma StepNode(s: State, x: NodeId, step: Step)
    requires Inv(s) && Enabled(s, x, step)
    ensures NodeOK(Apply(s, x, step), x)
  {
    match step
    case CampaignStep(clique) => CampaignNode(s, x, clique);
    case VoteStep(req, clique, connected) => VoteNode(s, x, req, clique, connected);
    case SwitchStep(v) => SwitchNode(s, x, v);
    case LogStep => LogNode(s, x);
    case PrepareStep(_) => AppendNode(s, x, step);
    case ApplyStep(_) => AppendNode(s, x, step);
    case RecoverStep(_, _) => AppendNode(s, x, step);
    case _ => QuietNode(s, x, step);
  }

  lemma QuietNode(s: State, x: NodeId, step: Step)
    requires Inv(s) && Enabled(s, x, step)
    requires step.CrashStep? || step.RestartStep? || step.MarkStep? || step.BumpStep? || step.WinStep? || step.PSStep?
    ensures NodeOK(Apply(s, x, step), x)
  {
    StepGrows(s, x, step);
    FactsGrow(s, Apply(s, x, step));
    assert NodeOK(s, x);
  }

  lemma AppendNode(s: State, x: NodeId, step: Step)
    requires Inv(s) && Enabled(s, x, step)
    requires step.PrepareStep? || step.ApplyStep? || step.RecoverStep?
    ensures NodeOK(Apply(s, x, step), x)
  {
    var s' := Apply(s, x, step);
    StepGrows(s, x, step);
    FactsGrow(s, s');
    assert NodeOK(s, x);
    assert forall m: nat :: HasPS(s'.nodes[x].wal, m) <==> HasPS(s.nodes[x].wal, m);
  }

  lemma LogNode(s: State, x: NodeId)
    requires Inv(s) && Enabled(s, x, LogStep)
    ensures NodeOK(Apply(s, x, LogStep), x)
  {
    var s' := Apply(s, x, LogStep);
    var n := s.nodes[x];
    StepGrows(s, x, LogStep);
    FactsGrow(s, s');
    assert NodeOK(s, x);
    assert HasPS(s'.nodes[x].wal, n.cur.num);
    var v :| v in s.elected && v.gen == n.cur;
    assert WasOnline(s', x, n.cur.num);
    assert forall m: nat :: HasPS(s'.nodes[x].wal, m) ==> HasPS(n.wal, m) || m == n.cur.num;
  }

  lemma SwitchNode(s: State, x: NodeId, v: Victory)
    requires Inv(s) && Enabled(s, x, SwitchStep(v))
    ensures NodeOK(Apply(s, x, SwitchStep(v)), x)
  {
    var s' := Apply(s, x, SwitchStep(v));
    StepGrows(s, x, SwitchStep(v));
    FactsGrow(s, s');
    assert NodeOK(s, x);
    if s.nodes[x].cur.num < v.gen.num {
      assert VictoryOK(s, v);
      assert v in s'.elected && v.gen == s'.nodes[x].cur;
    } else {
      assert s'.nodes[x] == s.nodes[x];
    }
  }

  lemma CampaignNode(s: State, x: NodeId, clique: set<NodeId>)
    requires Inv(s) && Enabled(s, x, CampaignStep(clique))
    ensures NodeOK(Apply(s, x, CampaignStep(clique)), x)
  {
    var s' := Apply(s, x, CampaignStep(clique));
    var n := s.nodes[x];
    var gen := CandidateGen(x, n, clique, s.conf);
    StepGrows(s, x, CampaignStep(clique));
    FactsGrow(s, s');
    assert NodeOK(s, x);
    assert x in gen.members && gen.configured == s.conf;
    if gen == n.vote {
      var b := VoteBallot(s, x, gen);
      assert BallotOK(s, b);
      if n.loi != b.loi {
        var v :| v in s.elected && v.gen == n.cur;
        assert v in s'.elected && v.gen.num == gen.num && v.gen != gen;
      }
    } else {
      assert Ballot(x, gen, n.loi) in s'.ballots;
    }
  }

  /** A last_vote that could be balloted for again was given as a vote. */
  lemma VoteBallot(s: State, x: NodeId, gen: Gen) returns (b: Ballot)
    requires Inv(s) && x in s.nodes && s.nodes[x].vote == gen != s.nodes[x].cur
    requires gen.members != {} && gen.configured == s.conf
    ensures b in s.ballots && b.voter == x && b.gen == gen
  {
    assert NodeOK(s, x);
    b :| b in s.ballots && b.voter == x && b.gen == gen;
  }

  lemma VoteNode(s: State, x: NodeId, req: Request, clique: set<NodeId>, connected: bool)
    requires Inv(s) && Enabled(s, x, VoteStep(req, clique, connected))
    ensures NodeOK(Apply(s, x, VoteStep(req, clique, connected)), x)
  {
    var s' := Apply(s, x, VoteStep(req, clique, connected));
    StepGrows(s, x, VoteStep(req, clique, connected));
    FactsGrow(s, s');
    assert NodeOK(s, x);
    if s.nodes[x].vote != req.gen {
      assert Ballot(x, req.gen, s.nodes[x].loi) in s'.ballots;
    }
  }

  // ----- ballots -----

  /** Generations in which x gets online, or acknowledges, by this step. */
  lemma OnlineAbove(s: State, x: NodeId, step: Step, m: nat)
    requires Inv(s) && Enabled(s, x, step)
    requires var s' := Apply(s, x, step);
             || (HasPS(s'.nodes[x].wal, m) && !HasPS(s.nodes[x].wal, m))
             || (exists a :: a in s'.acks && a !in s.acks && a.tx.gen == m)
    ensures m == s.nodes[x].loi
  {
    assert NodeOK(s, x);
  }

  lemma VoteKept(s: State, x: NodeId, step: Step, b: Ballot)
    requires Inv(s) && Enabled(s, x, step) && b in s.ballots && b.voter == x
    ensures var n' := Apply(s, x, step).nodes[x];
            n'.vote.num == b.gen.num ==> n'.vote == b.gen || n'.vote.members == {}
  {
    assert BallotOK(s, b);
  }

  lemma OldBallot(s: State, x: NodeId, step: Step, b: Ballot)
    requires Inv(s) && Enabled(s, x, step) && b in s.ballots
    ensures BallotOK(Apply(s, x, step), b)
  {
    if b.voter == x { OwnBallot(s, x, step, b); } else { OtherBallot(s, x, step, b); }
  }

  lemma OtherBallot(s: State, x: NodeId, step: Step, b: Ballot)
    requires Inv(s) && Enabled(s, x, step) && b in s.ballots && b.voter != x
    ensures BallotOK(Apply(s, x, step), b)
  {
    assert BallotOK(s, b);
  }

  lemma OwnBallot(s: State, x: NodeId, step: Step, b: Ballot)
    requires Inv(s) && Enabled(s, x, step) && b in s.ballots && b.voter == x
    ensures BallotOK(Apply(s, x, step), b)
  {
    var s' := Apply(s, x, step);
    var n, n', acks, acks' := s.nodes[x], s'.nodes[x], s.acks, s'.acks;
    StepGrows(s, x, step);
    VoteKept(s, x, step, b);
    assert BallotOK(s, b);
    forall m: nat | HasPS(n'.wal, m)
      ensures m <= b.loi || b.gen.num <= m
    {
      if !HasPS(n.wal, m) { OnlineAbove(s, x, step, m); }
    }
    forall a | a in acks' && a.node == x
      ensures a.tx.gen <= b.loi || b.gen.num <= a.tx.gen
    {
      if a !in acks { OnlineAbove(s, x, step, a.tx.gen); }
    }
  }

  lemma NewBallot(s: State, x: NodeId, step: Step, b: Ballot)
    requires Inv(s) && Enabled(s, x, step)
    requires b in Apply(s, x, step).ballots && b !in s.ballots
    ensures BallotOK(Apply(s, x, step), b)
    ensures b.voter == x && s.nodes[x].vote.num < b.gen.num
  {
    assert NodeOK(s, x);
    if step.VoteStep? {
      assert RequestOK(s, step.req);
    } else {
      var v :| v in s.elected && v.gen == s.nodes[x].cur;
      assert VictoryOK(s, v);
      assert x in b.gen.members;
    }
    forall a | a in s.acks && a.node == x
      ensures a.tx.gen <= b.loi
    {
      assert AckOK(s, a);
    }
  }

  lemma BallotBelow(s: State, b: Ballot)
    requires Inv(s) && b in s.ballots
    ensures b.voter in s.nodes && b.gen.num <= s.nodes[b.voter].vote.num
  {
    assert BallotOK(s, b);
  }

  lemma StepUnique(s: State, x: NodeId, step: Step)
    requires Inv(s) && Enabled(s, x, step)
    ensures BallotsUnique(Apply(s, x, step))
  {
    var s' := Apply(s, x, step);
    forall b, c | b in s'.ballots && c in s'.ballots
      ensures SameBallot(b, c)
    {
      if b in s.ballots {
        assert BallotOK(s, b);
        if c !in s.ballots { NewBallot(s, x, step, c); }
      } else {
        NewBallot(s, x, step, b);
        if c in s.ballots { assert BallotOK(s, c); }
      }
    }
  }

  // ----- messages and victories -----

  lemma StepRequest(s: State, x: NodeId, step: Step, r: Request)
    requires Inv(s) && Enabled(s, x, step) && r in Apply(s, x, step).requests
    ensures RequestOK(Apply(s, x, step), r)
  {
    var s' := Apply(s, x, step);
    StepGrows(s, x, step);
    FactsGrow(s, s');
    if r in s.requests {
      assert RequestOK(s, r);
    } else {
      var gen := CandidateGen(x, s.nodes[x], step.clique, s.conf);
      if gen == s.nodes[x].vote {
        assert NodeOK(s, x) && x in gen.members;
        var b := VoteBallot(s, x, gen);
        assert BallotOK(s, b) && b in s'.ballots;
      } else {
        var b := Ballot(x, gen, s.nodes[x].loi);
        assert b in s'.ballots;
        if b in s.ballots {
          BallotBelow(s, b);
          assert false;
        }
        NewBallot(s, x, step, b);
      }
    }
  }

  lemma StepResponse(s: State, x: NodeId, step: Step, r: Response)
    requires Inv(s) && Enabled(s, x, step) && r in Apply(s, x, step).responses
    ensures ResponseOK(Apply(s, x, step), r)
  {
    var s' := Apply(s, x, step);
    StepGrows(s, x, step);
    FactsGrow(s, s');
    if r in s.responses {
      assert ResponseOK(s, r);
    } else {
      var req, n := step.req, s.nodes[x];
      assert NodeOK(s, x) && RequestOK(s, req);
      if n.vote == req.gen {
        var b := VoteBallot(s, x, req.gen);
        assert BallotOK(s, b);
        assert b == Ballot(x, req.gen, n.loi);
      }
      assert Request(req.gen, req.sender) in s'.requests;
      assert Ballot(x, req.gen, n.loi) in s'.ballots;
    }
  }

  lemma StepVictory(s: State, x: NodeId, step: Step, v: Victory)
    requires Inv(s) && Enabled(s, x, step) && v in Apply(s, x, step).elected
    ensures VictoryOK(Apply(s, x, step), v)
  {
    StepGrows(s, x, step);
    if v in s.elected {
      assert VictoryOK(s, v);
    } else {
      WinnerOK(s, x, step.got);
    }
  }

  /** A response counted for a number was given for the candidate's own generation. */
  lemma CountedVote(s: State, x: NodeId, gen: Gen, y: NodeId, loi: nat)
    requires Inv(s) && Request(gen, x) in s.requests && Response(y, x, gen.num, loi) in s.responses
    ensures Ballot(y, gen, loi) in s.ballots && y in s.nodes
  {
    assert ResponseOK(s, Response(y, x, gen.num, loi));
    var g :| Request(g, x) in s.requests && g.num == gen.num && Ballot(y, g, loi) in s.ballots;
    assert RequestOK(s, Request(g, x)) && RequestOK(s, Request(gen, x));
    var b :| b in s.ballots && b.voter == x && b.gen == g;
    var c :| c in s.ballots && c.voter == x && c.gen == gen;
    assert SameBallot(b, c);
    assert BallotOK(s, Ballot(y, g, loi));
  }

  lemma WinnerOK(s: State, x: NodeId, got: map<NodeId, nat>)
    requires Inv(s) && Enabled(s, x, WinStep(got))
    ensures var t := s.nodes[x].tour.value;
            var lois := got[x := t.myLoi];
            VictoryOK(s, Victory(t.gen, MostAdvanced(lois), lois))
  {
    var t := s.nodes[x].tour.value;
    var lois := got[x := t.myLoi];
    assert NodeOK(s, x);
    forall y | y in got
      ensures Ballot(y, t.gen, got[y]) in s.ballots && y in s.nodes
    {
      CountedVote(s, x, t.gen, y, got[y]);
    }
    assert lois.Keys == got.Keys + {x};
    assert IsQuorum(s.conf, lois.Keys);
    assert RequestOK(s, Request(t.gen, x));
    if Ballot(x, t.gen, t.myLoi) !in s.ballots {
      var b :| b in s.ballots && b.voter == x && b.gen == t.gen;
      assert BallotOK(s, b);
      var v :| v in s.elected && v.gen.num == t.gen.num && v.gen != t.gen;
      OneWinner(s, t.gen, lois.Keys, v);
      assert false;
    }
    assert BallotOK(s, Ballot(x, t.gen, t.myLoi));
  }

  /** A majority of votes for gen leaves no other winner with its number. */
  lemma OneWinner(s: State, gen: Gen, voters: set<NodeId>, v: Victory)
    requires Inv(s) && IsQuorum(s.conf, voters) && v in s.elected && v.gen.num == gen.num != 1
    requires forall y :: y in voters ==> HasBallot(s, y, gen)
    ensures v.gen == gen
  {
    assert VictoryOK(s, v);
    var y := QuorumsMeet(s.conf, v.lois.Keys, voters);
    var b :| b in s.ballots && b.voter == y && b.gen == gen;
    assert SameBallot(b, Ballot(y, v.gen, v.lois[y]));
  }
}

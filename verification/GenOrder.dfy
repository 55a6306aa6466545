/** Every step keeps `Order`: the argument behind the two properties of src/include/state.h. */
module GenOrder {
  import opened Quorums
  import opened Generations
  import opened GenSystem
  import opened GenInvariant
  import opened GenProof

  // ----- who may still acknowledge: never gained back -----

  lemma CanAckBefore(s: State, x: NodeId, step: Step, m: NodeId, tx: Tx)
    requires Inv(s) && Enabled(s, x, step) && CanAck(Apply(s, x, step), m, tx)
    ensures CanAck(s, m, tx)
  {
    StepGrows(s, x, step);
    if m in s.nodes { assert NodeOK(s, m); }
  }

  lemma CommittableBefore(s: State, x: NodeId, step: Step, tx: Tx)
    requires Inv(s) && Enabled(s, x, step) && Committable(Apply(s, x, step), tx)
    requires !step.WinStep? || RankElected(s, tx.gen)
    ensures Committable(s, tx)
  {
    var s' := Apply(s, x, step);
    var v :| CommittableIn(s', v, tx);
    forall m | m in v.gen.members
      ensures CanAck(s, m, tx)
    {
      CanAckBefore(s, x, step, m, tx);
    }
    if v in s.elected {
      assert CommittableIn(s, v, tx);
    } else {
      var w :| w in s.elected && w.gen.num == tx.gen;
      NewVictory(s, x, step, v, w);
      assert CommittableIn(s, w, tx);
    }
  }

  lemma NewVictory(s: State, x: NodeId, step: Step, v: Victory, w: Victory)
    requires Inv(s) && Enabled(s, x, step) && v in Apply(s, x, step).elected && v !in s.elected
    requires w in s.elected && w.gen.num == v.gen.num
    ensures w.gen == v.gen
  {
    WinnerOK(s, x, step.got);
    assert VictoryOK(s, w);
    assert NodeOK(s, x);
    if v.gen.num != 1 {
      forall y | y in v.lois.Keys
        ensures HasBallot(s, y, v.gen)
      {
        assert Ballot(y, v.gen, v.lois[y]) in s.ballots;
      }
      OneWinner(s, v.gen, v.lois.Keys, w);
    }
  }

  /** In a generation elected late, below one already elected, nothing can be committed. */
  lemma LateElection(s: State, v: Victory, w: Victory, tx: Tx) returns (y: NodeId)
    requires Inv(s) && VictoryOK(s, v) && HasQuorum(v.gen) && v.gen.num == tx.gen
    requires w in s.elected && tx.gen < w.gen.num && !RankElected(s, tx.gen)
    ensures y in v.gen.members && !CanAck(s, y, tx)
  {
    assert VictoryOK(s, w);
    y := QuorumsMeet(s.conf, v.gen.members, w.lois.Keys);
    assert BallotOK(s, Ballot(y, w.gen, w.lois[y]));
    NotOnlineIn(s, y, tx.gen);
    if Ack(y, tx) in s.acks {
      AckElected(s, Ack(y, tx));
      assert false;
    }
  }

  lemma AckElected(s: State, a: Ack)
    requires Inv(s) && a in s.acks
    ensures RankElected(s, a.tx.gen)
  {
    assert AckOK(s, a) && WalOK(s, a.node);
    assert RankElected(s, Rank(Prepare(a.tx)));
  }

  lemma NotOnlineIn(s: State, y: NodeId, m: nat)
    requires Inv(s) && y in s.nodes && !RankElected(s, m)
    ensures s.nodes[y].loi != m
  {
    assert NodeOK(s, y);
    var n := s.nodes[y];
    if HasPS(n.wal, n.loi) {
      assert WasOnline(s, y, n.loi);
      var v :| v in s.elected && v.gen.num == n.loi && y in v.gen.members && HasQuorum(v.gen);
      assert RankElected(s, n.loi);
    } else {
      var v :| v in s.elected && v.gen == n.cur;
      assert RankElected(s, n.loi);
    }
  }

  /** What is committable after a step and below an elected number was so before it. */
  lemma CommittableBelow(s: State, x: NodeId, step: Step, tx: Tx, n: nat)
    requires Inv(s) && Enabled(s, x, step) && Committable(Apply(s, x, step), tx)
    requires RankElected(s, n) && tx.gen < n
    ensures Committable(s, tx)
  {
    if step.WinStep? && !RankElected(s, tx.gen) {
      var s' := Apply(s, x, step);
      var v :| CommittableIn(s', v, tx);
      var w :| w in s.elected && w.gen.num == n;
      WinnerOK(s, x, step.got);
      var y := LateElection(s, v, w, tx);
      assert false;
    }
    CommittableBefore(s, x, step, tx);
  }

  // ----- a node that gets online holds what it must -----

  lemma HeldBefore(s: State, x: NodeId, m: nat, tx: Tx)
    requires Inv(s) && x in s.nodes && HasPS(s.nodes[x].wal, m) && tx.gen < m && Committable(s, tx)
    ensures Prepare(tx) in s.nodes[x].wal
  {
    var wal := s.nodes[x].wal;
    var k :| 0 <= k < |wal| && wal[k] == ParallelSafe(m);
    assert OrderAt(s, x, k);
    assert Prepare(tx) in wal[..k];
  }

  lemma HeldByRecovery(s: State, x: NodeId, d: NodeId, k: nat, tx: Tx)
    requires Inv(s) && x in s.nodes && d in s.nodes && k < |s.nodes[d].wal|
    requires Recovered(x, s.nodes[x], s.nodes[d], k)
    requires tx.gen < Rank(s.nodes[d].wal[k]) && Committable(s, tx)
    ensures Prepare(tx) in s.nodes[x].wal
  {
    var wal := s.nodes[d].wal;
    assert OrderAt(s, d, k);
    assert Prepare(tx) in wal[..k] && Prepare(tx) in wal;
    assert WalOK(s, d);
  }

  /** The donors' last_online_in bounds every committable generation below the new one. */
  lemma DonorBound(s: State, v: Victory, w: Victory, tx: Tx, x: NodeId)
    requires Inv(s) && v in s.elected && 1 < v.gen.num && x in v.donors
    requires CommittableIn(s, w, tx) && tx.gen < v.gen.num
    ensures x in v.lois && tx.gen <= v.lois[x]
  {
    assert VictoryOK(s, v) && VictoryOK(s, w);
    var y := QuorumsMeet(s.conf, w.gen.members, v.lois.Keys);
    assert BallotOK(s, Ballot(y, v.gen, v.lois[y]));
    assert CanAck(s, y, tx);
  }

  lemma DonorHolds(s: State, x: NodeId, v: Victory, tx: Tx)
    requires Inv(s) && Enabled(s, x, SwitchStep(v)) && x in v.donors && s.nodes[x].cur.num < v.gen.num
    requires tx.gen < v.gen.num && Committable(s, tx)
    requires Committable(Apply(s, x, SwitchStep(v)), tx)
    ensures Prepare(tx) in s.nodes[x].wal
  {
    var s' := Apply(s, x, SwitchStep(v));
    assert NodeOK(s, x) && VictoryOK(s, v);
    var w :| CommittableIn(s', w, tx);
    forall m | m in w.gen.members
      ensures CanAck(s, m, tx)
    {
      CanAckBefore(s, x, SwitchStep(v), m, tx);
    }
    assert CommittableIn(s, w, tx);
    DonorBound(s, v, w, tx, x);
    var loi := v.lois[x];
    assert BallotOK(s, Ballot(x, v.gen, loi));
    if tx.gen < loi {
      HeldBefore(s, x, loi, tx);
    } else {
      assert WasOnline(s, x, loi);
      var u :| u in s.elected && u.gen.num == loi && x in u.gen.members && HasQuorum(u.gen);
      SameNumberSameGen(s, u, w);
      assert CanAck(s', x, tx);
      assert AckOK(s, Ack(x, tx));
    }
  }

  lemma StepOnlineHas(s: State, x: NodeId, step: Step, y: NodeId)
    requires Inv(s) && Enabled(s, x, step) && y in s.nodes
    ensures OnlineHas(Apply(s, x, step), y)
  {
    var s' := Apply(s, x, step);
    var n, n' := s.nodes[y], s'.nodes[y];
    StepGrows(s, x, step);
    assert NodeOK(s, y);
    if n'.loi == n'.cur.num {
      forall tx: Tx | tx.gen < n'.loi && Committable(s', tx)
        ensures Prepare(tx) in n'.wal
      {
        if n.loi == n.cur.num && n'.loi == n.loi {
          var v :| v in s.elected && v.gen == n.cur;
          assert RankElected(s, n.loi);
          CommittableBelow(s, x, step, tx, n.loi);
          assert OnlineHas(s, y);
        } else {
          GetsOnline(s, x, step, tx);
        }
      }
    }
  }

  lemma GetsOnline(s: State, x: NodeId, step: Step, tx: Tx)
    requires Inv(s) && Enabled(s, x, step)
    requires Apply(s, x, step).nodes[x].loi != s.nodes[x].loi
    requires tx.gen < Apply(s, x, step).nodes[x].loi && Committable(Apply(s, x, step), tx)
    ensures Prepare(tx) in s.nodes[x].wal
  {
    assert NodeOK(s, x);
    CommittableBefore(s, x, step, tx);
    match step
    case SwitchStep(v) => DonorHolds(s, x, v, tx);
    case PSStep(d, k) => HeldByRecovery(s, x, d, k, tx);
    case _ =>
  }

  // ----- the WAL -----

  lemma OldRecord(s: State, x: NodeId, step: Step, y: NodeId, k: nat)
    requires Inv(s) && Enabled(s, x, step) && y in s.nodes && k < |s.nodes[y].wal|
    ensures k < |Apply(s, x, step).nodes[y].wal|
    ensures OrderAt(Apply(s, x, step), y, k)
  {
    var s' := Apply(s, x, step);
    StepGrows(s, x, step);
    var wal, wal' := s.nodes[y].wal, s'.nodes[y].wal;
    assert wal <= wal' && wal'[..k] == wal[..k] && wal'[k] == wal[k];
    forall tx: Tx | tx.gen < Rank(wal[k]) && Committable(s', tx)
      ensures Prepare(tx) in wal[..k]
    {
      assert WalOK(s, y);
      assert wal[k] in wal;
      CommittableBelow(s, x, step, tx, Rank(wal[k]));
      assert OrderAt(s, y, k);
    }
  }

  lemma NewRecord(s: State, x: NodeId, step: Step)
    requires Inv(s) && Enabled(s, x, step)
    requires step.LogStep? || step.PrepareStep? || step.ApplyStep? || step.RecoverStep?
    ensures OrderAt(Apply(s, x, step), x, |s.nodes[x].wal|)
  {
    var s' := Apply(s, x, step);
    var n, wal' := s.nodes[x], s'.nodes[x].wal;
    var k := |n.wal|;
    assert wal'[..k] == n.wal;
    forall tx: Tx | tx.gen < Rank(wal'[k]) && Committable(s', tx)
      ensures Prepare(tx) in n.wal
    {
      CommittableBefore(s, x, step, tx);
      assert NodeOK(s, x);
      if step.RecoverStep? {
        HeldByRecovery(s, x, step.from, step.pos, tx);
      } else {
        assert OnlineHas(s, x);
      }
    }
  }

  lemma StepOrder(s: State, x: NodeId, step: Step)
    requires Inv(s) && Enabled(s, x, step)
    ensures Order(Apply(s, x, step))
  {
    var s' := Apply(s, x, step);
    StepGrows(s, x, step);
    forall y, k | y in s'.nodes && 0 <= k < |s'.nodes[y].wal|
      ensures OrderAt(s', y, k)
    {
      if k < |s.nodes[y].wal| { OldRecord(s, x, step, y, k); } else { NewRecord(s, x, step); }
    }
  }

  lemma StepWal(s: State, x: NodeId, step: Step, y: NodeId)
    requires Inv(s) && Enabled(s, x, step) && y in s.nodes
    ensures WalOK(Apply(s, x, step), y)
  {
    var s' := Apply(s, x, step);
    StepGrows(s, x, step);
    FactsGrow(s, s');
    forall r | r in s'.nodes[y].wal
      ensures RankElected(s', Rank(r))
      ensures r.Prepare? ==> r.tx.coord in s'.nodes && r in s'.nodes[r.tx.coord].wal
    {
      if r in s.nodes[y].wal {
        assert WalOK(s, y);
      } else {
        AppendedRecord(s, x, step, r);
      }
    }
  }

  lemma AppendedRecord(s: State, x: NodeId, step: Step, r: Rec)
    requires Inv(s) && Enabled(s, x, step)
    requires r in Apply(s, x, step).nodes[x].wal && r !in s.nodes[x].wal
    ensures RankElected(s, Rank(r))
    ensures r.Prepare? ==> r.tx.coord in s.nodes && r in Apply(s, x, step).nodes[r.tx.coord].wal
  {
    assert NodeOK(s, x);
    var v :| v in s.elected && v.gen == s.nodes[x].cur;
    match step
    case ApplyStep(tx) => assert WalOK(s, tx.coord);
    case RecoverStep(d, k) => assert WalOK(s, d);
    case _ =>
  }

  lemma StepAck(s: State, x: NodeId, step: Step, a: Ack)
    requires Inv(s) && Enabled(s, x, step) && a in Apply(s, x, step).acks
    ensures AckOK(Apply(s, x, step), a)
  {
    StepGrows(s, x, step);
    if a in s.acks { assert AckOK(s, a); } else { assert NodeOK(s, x); }
  }

  // ----- whole runs -----

  lemma StepInv(s: State, x: NodeId, step: Step)
    requires Inv(s) && Enabled(s, x, step)
    ensures Inv(Apply(s, x, step))
  {
    var s' := Apply(s, x, step);
    StepGrows(s, x, step);
    forall y | y in s'.nodes
      ensures NodeOK(s', y)
    {
      if y == x { StepNode(s, x, step); } else { OtherNodes(s, x, step, y); }
    }
    forall y | y in s'.nodes ensures WalOK(s', y) { StepWal(s, x, step, y); }
    forall y | y in s'.nodes ensures OnlineHas(s', y) { StepOnlineHas(s, x, step, y); }
    forall b | b in s'.ballots
      ensures BallotOK(s', b)
    {
      if b in s.ballots { OldBallot(s, x, step, b); } else { NewBallot(s, x, step, b); }
    }
    StepUnique(s, x, step);
    forall r | r in s'.requests ensures RequestOK(s', r) { StepRequest(s, x, step, r); }
    forall r | r in s'.responses ensures ResponseOK(s', r) { StepResponse(s, x, step, r); }
    forall v | v in s'.elected ensures VictoryOK(s', v) { StepVictory(s, x, step, v); }
    forall a | a in s'.acks ensures AckOK(s', a) { StepAck(s, x, step, a); }
    StepOrder(s, x, step);
  }

  lemma {:induction false} RunInv(run: seq<State>, i: nat)
    requires Run(run) && i < |run|
    ensures Inv(run[i])
  {
    if i == 0 {
      InitInv(run[0]);
    } else {
      RunInv(run, i - 1);
      assert StepAt(run, i);
      var x, step :| Enabled(run[i - 1], x, step) && run[i] == Apply(run[i - 1], x, step);
      StepInv(run[i - 1], x, step);
    }
  }

  /** The step taken at moment i of a run. */
  lemma RunStep(run: seq<State>, i: nat) returns (x: NodeId, step: Step)
    requires Run(run) && 0 < i < |run|
    ensures Inv(run[i - 1]) && Enabled(run[i - 1], x, step) && run[i] == Apply(run[i - 1], x, step)
  {
    RunInv(run, i - 1);
    assert StepAt(run, i);
    x, step :| Enabled(run[i - 1], x, step) && run[i] == Apply(run[i - 1], x, step);
  }
}

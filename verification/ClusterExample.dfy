/** A run of the whole cluster that reaches a commit at two nodes: what Cluster requires can be met. */
module ClusterExample {
  import opened Quorums
  import G = Generations
  import GS = GenSystem
  import GE = GenExample
  import T = GlobalTx
  import C = CommitSystem
  import Safety = GenSafety
  import opened Cluster

  ghost predicate Reach(s: State) {
    exists run :: Run(run) && run[|run| - 1] == s
  }

  lemma ReachStep(s: State, x: NodeId, step: Step)
    requires Reach(s) && Enabled(s, x, step)
    ensures Reach(Apply(s, x, step))
  {
    var run :| Run(run) && run[|run| - 1] == s;
    var run' := run + [Apply(s, x, step)];
    forall i | 0 < i < |run'|
      ensures StepAt(run', i)
    {
      if i < |run| {
        assert StepAt(run, i);
      } else {
        assert Next(s, Apply(s, x, step));
      }
    }
    assert Run(run') && run'[|run'| - 1] == Apply(s, x, step);
  }

  /** A run of generations alone is a run of the cluster. */
  lemma Lift(run: seq<GS.State>, tx: G.Tx, pax: C.State)
    requires GS.Run(run) && C.Init(pax) && run[0].conf == pax.conf && pax.coord == tx.coord
    ensures Reach(State(tx, run[|run| - 1], pax))
  {
    var lifted := seq(|run|, i requires 0 <= i < |run| => State(tx, run[i], pax));
    forall i | 0 < i < |lifted|
      ensures StepAt(lifted, i)
    {
      assert GS.StepAt(run, i);
      var x, step :| GS.Enabled(run[i - 1], x, step) && run[i] == GS.Apply(run[i - 1], x, step);
      assert Enabled(lifted[i - 1], x, GenStep(step)) && lifted[i] == Apply(lifted[i - 1], x, GenStep(step));
    }
    assert Run(lifted) && lifted[|lifted| - 1] == State(tx, run[|run| - 1], pax);
  }

  /** The configuration never changes. */
  lemma {:induction false} SameConf(run: seq<GS.State>, i: nat)
    requires GS.Run(run) && i < |run|
    ensures run[i].conf == run[0].conf
  {
    if i > 0 {
      SameConf(run, i - 1);
      assert GS.StepAt(run, i);
      var x, step :| GS.Enabled(run[i - 1], x, step) && run[i] == GS.Apply(run[i - 1], x, step);
    }
  }

  /** Everybody has prepared, and nobody has begun to finish. */
  lemma Prepared() returns (s: State)
    ensures Reach(s) && s.tx == GE.TX && Safety.FullyAcked(s.gens, s.tx)
    ensures s.gens.nodes.Keys == GE.ALL && forall x :: x in GE.ALL ==> G.Prepare(s.tx) in s.gens.nodes[x].wal
    ensures s.pax.conf == GE.ALL && s.pax.coord == 1 && s.pax.nodes == (map x | x in GE.ALL :: C.NoTrace)
  {
    var gens := GE.PreparedEverywhere();
    var run :| GS.Run(run) && run[|run| - 1] == gens;
    SameConf(run, |run| - 1);
    var pax := C.State(GE.ALL, 1, map x | x in GE.ALL :: C.NoTrace, {}, false, {}, false, false);
    Lift(run, GE.TX, pax);
    s := State(GE.TX, gens, pax);
    var v := GS.Victory(G.Gen(1, GE.ALL, GE.ALL), GE.ALL, map[]);
    assert v in gens.elected && Safety.AckedByAll(gens, v, GE.TX);
  }

  /** The coordinator and node 2 have their entries, and the coordinator has precommitted. */
  lemma Precommits() returns (s: State)
    ensures Reach(s) && s.pax.conf == GE.ALL && s.pax.coord == 1 && s.pax.nodes.Keys == GE.ALL && C.Precommitted(s.pax)
    ensures s.pax.nodes[1] == C.Live(T.Vote2a(T.NewGtx(true), T.INITIAL_TERM, true)) && s.pax.nodes[2] == C.Live(T.NewGtx(false))
    ensures s.pax.nodes[3] == C.NoTrace && 3 in s.gens.nodes && G.Prepare(s.tx) in s.gens.nodes[3].wal
  {
    var s0 := Prepared();
    ReachStep(s0, 1, PaxStep(C.GetPrepare));
    var s1 := Apply(s0, 1, PaxStep(C.GetPrepare));
    ReachStep(s1, 2, PaxStep(C.GetPrepare));
    var s2 := Apply(s1, 2, PaxStep(C.GetPrepare));
    ReachStep(s2, 1, PaxStep(C.Precommit));
    s := Apply(s2, 1, PaxStep(C.Precommit));
  }

  /** Node 2 votes for it. */
  lemma Votes() returns (s: State)
    ensures Reach(s) && s.pax.conf == GE.ALL && s.pax.coord == 1 && s.pax.nodes.Keys == GE.ALL && C.PrecommitAck(2) in s.pax.msgs
    ensures s.pax.nodes[1] == C.Live(T.Vote2a(T.NewGtx(true), T.INITIAL_TERM, true))
    ensures s.pax.nodes[2] == C.Live(T.Vote2a(T.NewGtx(false), T.INITIAL_TERM, true))
    ensures s.pax.nodes[3] == C.NoTrace && 3 in s.gens.nodes && G.Prepare(s.tx) in s.gens.nodes[3].wal
  {
    var s0 := Precommits();
    ReachStep(s0, 2, PaxStep(C.ApplyPrecommit));
    s := Apply(s0, 2, PaxStep(C.ApplyPrecommit));
  }

  /** The coordinator commits with that majority. */
  lemma CoordinatorCommits() returns (s: State)
    ensures Reach(s) && s.pax.nodes.Keys == GE.ALL && C.Fin(true) in s.pax.msgs
    ensures s.pax.nodes[1].Done? && s.pax.nodes[1].commit && C.Free(s.pax.nodes[2])
  {
    var s0 := Votes();
    var acked: set<NodeId> := {2};
    assert |acked| == 1 && |GE.ALL| == 3;
    ReachStep(s0, 1, PaxStep(C.CoordCommit(acked)));
    s := Apply(s0, 1, PaxStep(C.CoordCommit(acked)));
  }

  /** And node 2 learns the outcome. */
  lemma Commits() returns (s: State)
    ensures Reach(s) && s.pax.nodes.Keys == GE.ALL
    ensures s.pax.nodes[1].Done? && s.pax.nodes[1].commit && s.pax.nodes[2].Done? && s.pax.nodes[2].commit
  {
    var s0 := CoordinatorCommits();
    ReachStep(s0, 2, PaxStep(C.Learn(true)));
    s := Apply(s0, 2, PaxStep(C.Learn(true)));
  }
}

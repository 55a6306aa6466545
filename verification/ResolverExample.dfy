/**
  Runs of the whole cluster in which resolvers and aborts decide: a precommitted transaction whose
  coordinator crashed is committed by a resolver, one that was not precommitted is aborted by its
  coordinator, and one that a later generation has left behind is aborted from generations alone.
 */
module ResolverExample {
  import opened Quorums
  import G = Generations
  import GS = GenSystem
  import GE = GenExample
  import GR = GenRecovery
  import T = GlobalTx
  import C = CommitSystem
  import Safety = GenSafety
  import opened Cluster
  import opened ClusterExample

  const TERM := T.Term(2, 2)
  /** What node 3 promises, and what node 2 has accepted. */
  const PROMISED := T.GTxState(TERM, T.NO_TERM, T.Invalid)
  const ASKING := T.GTxState(TERM, T.INITIAL_TERM, T.PreCommitted)

  lemma PaxReach(s: State, x: NodeId, step: C.Step)
    requires Reach(s) && Enabled(s, x, PaxStep(step))
    ensures Reach(s.(pax := C.Apply(s.pax, x, step)))
  {
    ReachStep(s, x, PaxStep(step));
  }

  /** A node gets its entry from its PREPARE. */
  lemma Enters(s: State, x: NodeId) returns (s': State)
    requires Reach(s) && x in s.pax.nodes && s.pax.nodes[x].NoTrace? && x in s.gens.nodes && G.Prepare(s.tx) in s.gens.nodes[x].wal
    ensures Reach(s') && s' == s.(pax := s.pax.Put(x, C.Live(T.NewGtx(x == s.pax.coord))))
  {
    PaxReach(s, x, C.GetPrepare);
    s' := s.(pax := C.Apply(s.pax, x, C.GetPrepare));
  }

  /** A node with an entry crashes. */
  lemma Crashes(s: State, x: NodeId) returns (s': State)
    requires Reach(s) && x in s.pax.nodes && s.pax.nodes[x].Live?
    ensures Reach(s') && s' == s.(pax := s.pax.Put(x, C.Live(T.Reloaded(s.pax.nodes[x].gtx))))
  {
    PaxReach(s, x, C.Crash);
    s' := s.(pax := C.Apply(s.pax, x, C.Crash));
  }

  /** The coordinator crashes after its precommit. */
  lemma Crashed() returns (s: State)
    ensures Reach(s) && s.pax.conf == GE.ALL && s.pax.nodes.Keys == GE.ALL && s.pax.coord == 1
    ensures C.Free(s.pax.nodes[1]) && s.pax.nodes[3] == C.Live(T.NewGtx(false))
    ensures s.pax.nodes[2] == C.Live(T.Vote2a(T.NewGtx(false), T.INITIAL_TERM, true))
  {
    var s0 := Votes();
    var s1 := Enters(s0, 3);
    s := Crashes(s1, 1);
  }

  /** Node 2, which has voted, asks for the status. */
  lemma Asks() returns (s: State)
    ensures Reach(s) && s.pax.conf == GE.ALL && s.pax.nodes.Keys == GE.ALL && s.pax.coord == 1 && C.Req1a(TERM) in s.pax.msgs
    ensures C.Free(s.pax.nodes[1]) && s.pax.nodes[3] == C.Live(T.NewGtx(false))
    ensures s.pax.nodes[2] == C.Live(T.NewGtx(false).(state := ASKING))
  {
    var s0 := Crashed();
    PaxReach(s0, 2, C.Scatter(2));
    s := s0.(pax := C.Apply(s0.pax, 2, C.Scatter(2)));
  }

  /** Node 3 promises, and has accepted nothing. */
  lemma Answers() returns (s: State)
    ensures Reach(s) && s.pax.conf == GE.ALL && s.pax.nodes.Keys == GE.ALL && s.pax.coord == 1 && C.Resp1b(3, 2, PROMISED) in s.pax.msgs
    ensures C.Free(s.pax.nodes[1]) && s.pax.nodes[3] == C.Live(T.NewGtx(false).(state := PROMISED))
    ensures s.pax.nodes[2] == C.Live(T.NewGtx(false).(state := ASKING))
  {
    var s0 := Asks();
    PaxReach(s0, 3, C.Handle1a(TERM));
    s := s0.(pax := C.Apply(s0.pax, 3, C.Handle1a(TERM)));
  }

  /** Two answers for the term are a majority, and its own acceptance of the precommit is the greatest. */
  lemma DecidesCommit(g: T.Gtx)
    requires g == T.NewGtx(false).(state := ASKING)
    ensures C.DecidesNow(GE.ALL, 2, g, 3, PROMISED)
    ensures T.IsMaxAccepted(T.Acks1(g, 2, 3, PROMISED), T.INITIAL_TERM) && C.TakesDecree(T.Acks1(g, 2, 3, PROMISED), T.INITIAL_TERM, true)
  {
    var acks := T.Acks1(g, 2, 3, PROMISED);
    assert acks == map[3 := PROMISED, 2 := ASKING];
    assert T.Voters(acks, TERM) == {2, 3};
    assert |GE.ALL| == 3 && |{2 as NodeId, 3}| == 2;
  }

  /** Node 2 proposes to commit. */
  lemma Proposes() returns (s: State)
    ensures Reach(s) && s.pax.conf == GE.ALL && s.pax.nodes.Keys == GE.ALL && C.Req2a(TERM, true) in s.pax.msgs
    ensures C.Free(s.pax.nodes[1]) && s.pax.nodes[3] == C.Live(T.NewGtx(false).(state := PROMISED))
    ensures C.Free(s.pax.nodes[2]) && s.pax.nodes[2].gtx.state == T.VoteState(TERM, true) && s.pax.nodes[2].gtx.stage.AwaitAcks? && s.pax.nodes[2].gtx.acks2 == map[]
  {
    var s0 := Answers();
    DecidesCommit(s0.pax.nodes[2].gtx);
    PaxReach(s0, 2, C.HandleStatus(3, PROMISED, true));
    s := s0.(pax := C.Apply(s0.pax, 2, C.HandleStatus(3, PROMISED, true)));
  }

  /** Node 3 votes for it. */
  lemma SecondPhase() returns (s: State)
    ensures Reach(s) && s.pax.conf == GE.ALL && s.pax.nodes.Keys == GE.ALL && C.Resp2b(3, 2, TERM, true) in s.pax.msgs
    ensures C.Free(s.pax.nodes[1]) && C.Free(s.pax.nodes[3])
    ensures C.Free(s.pax.nodes[2]) && s.pax.nodes[2].gtx.state == T.VoteState(TERM, true) && s.pax.nodes[2].gtx.stage.AwaitAcks? && s.pax.nodes[2].gtx.acks2 == map[]
  {
    var s0 := Proposes();
    PaxReach(s0, 3, C.Handle2a(TERM, true));
    s := s0.(pax := C.Apply(s0.pax, 3, C.Handle2a(TERM, true)));
  }

  lemma VotesSuffice(g: T.Gtx)
    requires g.state == T.VoteState(TERM, true) && g.acks2 == map[]
    ensures T.QuorumFor(GE.ALL, 2, T.Acks2(g, 2, 3, T.VoteState(TERM, true)))
  {
    var acks := T.Acks2(g, 2, 3, T.VoteState(TERM, true));
    assert acks == map[3 := T.VoteState(TERM, true), 2 := T.VoteState(TERM, true)];
    assert T.Voters(acks, TERM) == {2, 3};
    assert |GE.ALL| == 3 && |{2 as NodeId, 3}| == 2;
  }

  /** With that majority node 2 commits. */
  lemma ResolverDecides() returns (s: State)
    ensures Reach(s) && s.pax.nodes.Keys == GE.ALL && C.Fin(true) in s.pax.msgs
    ensures C.Free(s.pax.nodes[1]) && C.Free(s.pax.nodes[3]) && s.pax.nodes[2].Done? && s.pax.nodes[2].commit
  {
    var s0 := SecondPhase();
    VotesSuffice(s0.pax.nodes[2].gtx);
    PaxReach(s0, 2, C.Handle2b(3, TERM, true));
    s := s0.(pax := C.Apply(s0.pax, 2, C.Handle2b(3, TERM, true)));
  }

  lemma Learns(s: State, x: NodeId, outcome: bool) returns (s': State)
    requires Reach(s) && x in s.pax.nodes && C.Free(s.pax.nodes[x]) && C.Fin(outcome) in s.pax.msgs
    ensures Reach(s') && s' == s.(pax := s.pax.Put(x, C.Done(outcome, s.pax.nodes[x].gtx.state)))
  {
    PaxReach(s, x, C.Learn(outcome));
    s' := s.(pax := C.Apply(s.pax, x, C.Learn(outcome)));
  }

  /** And the others learn it. */
  lemma ResolverCommits() returns (s: State)
    ensures Reach(s) && s.pax.nodes.Keys == GE.ALL && forall x :: x in GE.ALL ==> s.pax.nodes[x].Done? && s.pax.nodes[x].commit
  {
    var s0 := ResolverDecides();
    var s1 := Learns(s0, 3, true);
    s := Learns(s1, 1, true);
  }

  /** The coordinator and node 2 have their entries, and the coordinator's backend lets go of its own. */
  lemma LetsGo() returns (s: State)
    ensures Reach(s) && s.pax.nodes.Keys == GE.ALL && s.pax.coord == 1
    ensures s.pax.nodes[1] == C.Live(T.NewGtx(false)) && s.pax.nodes[2] == C.Live(T.NewGtx(false))
  {
    var s0 := Prepared();
    var s1 := Enters(s0, 1);
    var s2 := Enters(s1, 2);
    PaxReach(s2, 1, C.ReleaseGtx);
    s := s2.(pax := C.Apply(s2.pax, 1, C.ReleaseGtx));
  }

  /** Not precommitted, the transaction is listed for a direct abort. */
  lemma Listed() returns (s: State)
    ensures Reach(s) && s.pax.nodes.Keys == GE.ALL && s.pax.coord == 1 && s.pax.doomed
    ensures s.pax.nodes[1] == C.Live(T.NewGtx(false)) && s.pax.nodes[2] == C.Live(T.NewGtx(false))
  {
    var s0 := LetsGo();
    PaxReach(s0, 1, C.ListOwn);
    s := s0.(pax := C.Apply(s0.pax, 1, C.ListOwn));
  }

  /** And aborted by its coordinator. */
  lemma CoordinatorAborts() returns (s: State)
    ensures Reach(s) && s.pax.nodes.Keys == GE.ALL && s.pax.ownAborted
    ensures s.pax.nodes[1].Done? && !s.pax.nodes[1].commit && s.pax.nodes[2].Done? && !s.pax.nodes[2].commit
  {
    var s0 := Listed();
    PaxReach(s0, 1, C.OwnAbort);
    var s1 := s0.(pax := C.Apply(s0.pax, 1, C.OwnAbort));
    s := Learns(s1, 2, false);
  }

  /** Prepared by node 3 alone, while nodes 1 and 2 went on without it. */
  const LEFT_BEHIND := G.Tx(3, 7, 1)

  lemma GoneOn() returns (s: GS.State)
    ensures GE.Reach(s) && s.conf == GE.ALL && s.nodes.Keys == GE.ALL
    ensures G.Prepare(LEFT_BEHIND) in s.nodes[3].wal && s.nodes[1] == GR.ONE_IN_2
  {
    var s0, v := GE.SecondElected();
    GE.Sizes();
    GE.ReachStep(s0, 3, GS.PrepareStep(7));
    var s1 := GS.Apply(s0, 3, GS.PrepareStep(7));
    GE.ReachStep(s1, 1, GS.SwitchStep(v));
    var s2 := GS.Apply(s1, 1, GS.SwitchStep(v));
    s := GR.LogsAndMarks(s2, 1);
    assert s.nodes[1].wal == GR.WITHOUT_3;
  }

  lemma LeftBehind() returns (s: State)
    ensures Reach(s) && s.tx == LEFT_BEHIND && s.gens.nodes.Keys == GE.ALL && s.gens.nodes[1] == GR.ONE_IN_2 && G.Prepare(LEFT_BEHIND) in s.gens.nodes[3].wal
    ensures s.pax == C.State(GE.ALL, 3, map x | x in GE.ALL :: C.NoTrace, {}, false, {}, false, false)
  {
    var gens := GoneOn();
    var run :| GS.Run(run) && run[|run| - 1] == gens;
    SameConf(run, |run| - 1);
    var pax := C.State(GE.ALL, 3, map x | x in GE.ALL :: C.NoTrace, {}, false, {}, false, false);
    Lift(run, LEFT_BEHIND, pax);
    s := State(LEFT_BEHIND, gens, pax);
  }

  /** Node 3 comes up again with its entry. */
  lemma UpAgain() returns (s: State)
    ensures Reach(s) && s.tx == LEFT_BEHIND && s.gens.nodes.Keys == GE.ALL && s.gens.nodes[1] == GR.ONE_IN_2
    ensures s.pax.nodes.Keys == GE.ALL && s.pax.nodes[1].NoTrace? && s.pax.nodes[3] == C.Live(T.NewGtx(false))
  {
    var s0 := LeftBehind();
    var s1 := Enters(s0, 3);
    s := Crashes(s1, 3);
  }

  /** It asks for the status of its transaction. */
  lemma AsksAbout() returns (s: State)
    ensures Reach(s) && s.tx == LEFT_BEHIND && s.gens.nodes.Keys == GE.ALL && s.gens.nodes[1] == GR.ONE_IN_2
    ensures s.pax.nodes.Keys == GE.ALL && C.Req1a(T.Term(2, 3)) in s.pax.msgs && s.pax.nodes[1].NoTrace?
    ensures C.Free(s.pax.nodes[3]) && s.pax.nodes[3].gtx.stage.AwaitStatus?
  {
    var s0 := UpAgain();
    PaxReach(s0, 3, C.Scatter(2));
    s := s0.(pax := C.Apply(s0.pax, 3, C.Scatter(2)));
  }

  /** Node 1 answers node 3 from generations alone, and node 3 aborts. */
  lemma GenerationsAbort() returns (s: State)
    ensures Reach(s) && s.pax.nodes.Keys == GE.ALL && s.pax.genAborted && s.pax.nodes[3].Done? && !s.pax.nodes[3].commit
  {
    var s0 := AsksAbout();
    s := AnsweredAborted(s0);
  }

  lemma AnsweredAborted(s0: State) returns (s: State)
    requires Reach(s0) && s0.tx == LEFT_BEHIND && s0.gens.nodes.Keys == GE.ALL && s0.gens.nodes[1] == GR.ONE_IN_2
    requires s0.pax.nodes.Keys == GE.ALL && C.Req1a(T.Term(2, 3)) in s0.pax.msgs && s0.pax.nodes[1].NoTrace?
    requires C.Free(s0.pax.nodes[3]) && s0.pax.nodes[3].gtx.stage.AwaitStatus?
    ensures Reach(s) && s.pax.nodes.Keys == GE.ALL && s.pax.genAborted && s.pax.nodes[3].Done? && !s.pax.nodes[3].commit
  {
    var answer := C.FinalState(false);
    PaxReach(s0, 1, C.GenAbort(T.Term(2, 3)));
    var s1 := s0.(pax := C.Apply(s0.pax, 1, C.GenAbort(T.Term(2, 3))));
    PaxReach(s1, 3, C.HandleStatus(1, answer, false));
    s := s1.(pax := C.Apply(s1.pax, 3, C.HandleStatus(1, answer, false)));
  }
}

/**
  A run of GenSystem in which a node that was left out of a generation is elected back, recovers a
  transaction that it missed, comes online by the ParallelSafe record, crashes and comes up again.
 */
module GenRecovery {
  import opened Quorums
  import opened Generations
  import opened GenSystem
  import opened GenExample

  const MISSED := Tx(1, 8, 2)
  const THIRD := Gen(3, ALL, ALL)

  const WITHOUT_3: seq<Rec> := [ParallelSafe(1), ParallelSafe(2)]

  /** Node 1 in the second and in the third generation, and node 3 left out, elected back, and recovered. */
  const ONE_IN_2 := Node(SECOND, {1, 2}, 2, SECOND, true, WITHOUT_3, Idle, None)
  const ONE_IN_3 := Node(THIRD, {1}, 3, THIRD, true, WITHOUT_3 + [Prepare(MISSED), ParallelSafe(3)], Idle, None)
  const LEFT_OUT := Node(SECOND, {1, 2}, 1, SECOND, true, [ParallelSafe(1)], Idle, None)
  const BALLOTING := LEFT_OUT.(vote := THIRD, tour := Some(Tour(THIRD, 1)))
  const ELECTED := Node(THIRD, {1}, 1, THIRD, true, [ParallelSafe(1)], Idle, BALLOTING.tour)
  const ONLINE := ELECTED.(loi := 3, wal := [ParallelSafe(1), Prepare(MISSED), ParallelSafe(3)])

  lemma LogsAndMarks(s: State, x: NodeId) returns (s': State)
    requires Reach(s) && x in s.nodes && s.nodes[x].proc == MustLog
    ensures Reach(s') && s' == s.Put(x, MarkPS(LogPS(s.nodes[x])))
  {
    ReachStep(s, x, LogStep);
    var s1 := Apply(s, x, LogStep);
    ReachStep(s1, x, MarkStep);
    s' := Apply(s1, x, MarkStep);
    assert s'.nodes == s.nodes[x := MarkPS(LogPS(s.nodes[x]))];
  }

  /** Node 1 switches to the second generation and prepares a transaction there. */
  lemma PreparedWithout3() returns (s: State, v: Victory)
    ensures Reach(s) && s.conf == ALL && s.nodes.Keys == ALL && s.nodes[3] == UP && v in s.elected && v.gen == SECOND && v.donors == {1, 2}
    ensures s.nodes[1] == ONE_IN_2.(wal := WITHOUT_3 + [Prepare(MISSED)])
  {
    var s0;
    s0, v := SecondElected();
    Sizes();
    ReachStep(s0, 1, SwitchStep(v));
    var s1 := Apply(s0, 1, SwitchStep(v));
    var s2 := LogsAndMarks(s1, 1);
    assert s2.nodes[1].wal == WITHOUT_3;
    ReachStep(s2, 1, PrepareStep(8));
    s := Apply(s2, 1, PrepareStep(8));
  }

  /** Node 3 learns that it is left out, and ballots for all three. */
  lemma Balloting() returns (s: State)
    ensures Reach(s) && s.conf == ALL && s.nodes.Keys == ALL && s.nodes[3] == BALLOTING && Request(THIRD, 3) in s.requests
    ensures s.nodes[1] == ONE_IN_2.(wal := WITHOUT_3 + [Prepare(MISSED)])
  {
    var s0, v := PreparedWithout3();
    Sizes();
    ReachStep(s0, 3, SwitchStep(v));
    var s1 := Apply(s0, 3, SwitchStep(v));
    assert s1.nodes[3] == LEFT_OUT;
    assert Candidates(3, LEFT_OUT, ALL) == ALL;
    ReachStep(s1, 3, CampaignStep(ALL));
    s := Apply(s1, 3, CampaignStep(ALL));
  }

  /** Node 1 votes for it. */
  lemma Voted() returns (s: State)
    ensures Reach(s) && s.conf == ALL && s.nodes.Keys == ALL && s.nodes[3] == BALLOTING && Response(1, 3, 3, 2) in s.responses
    ensures s.nodes[1] == ONE_IN_2.(wal := WITHOUT_3 + [Prepare(MISSED)], vote := THIRD)
  {
    var s0 := Balloting();
    Sizes();
    var step := VoteStep(Request(THIRD, 3), ALL, true);
    ReachStep(s0, 1, step);
    s := Apply(s0, 1, step);
  }

  lemma OnlyDonor()
    ensures MostAdvanced(map[1 := 2, 3 := 1]) == {1}
  {
    var lois: map<NodeId, nat> := map[1 := 2, 3 := 1];
    forall y
      ensures y in MostAdvanced(lois) <==> y == 1
    {
      assert 1 in lois && lois[1] == 2;
    }
  }

  /** And they win; the more advanced node 1 is the donor. */
  lemma ThirdElected() returns (s: State, v: Victory)
    ensures Reach(s) && s.conf == ALL && s.nodes.Keys == ALL && s.nodes[3] == BALLOTING && v in s.elected && v.gen == THIRD && v.donors == {1}
    ensures s.nodes[1] == ONE_IN_2.(wal := WITHOUT_3 + [Prepare(MISSED)], vote := THIRD)
  {
    var s0 := Voted();
    Sizes();
    var got: map<NodeId, nat> := map[1 := 2];
    assert |got| == 1;
    ReachStep(s0, 3, WinStep(got));
    s := Apply(s0, 3, WinStep(got));
    var lois: map<NodeId, nat> := map[1 := 2, 3 := 1];
    assert got[3 := 1] == lois;
    OnlyDonor();
    v := Victory(THIRD, MostAdvanced(lois), lois);
    assert v in s.elected;
  }

  /** Both switch: node 1 is online, node 3 has to recover. */
  lemma Recovering() returns (s: State)
    ensures Reach(s) && s.conf == ALL && s.nodes.Keys == ALL && s.nodes[3] == ELECTED && s.nodes[1] == ONE_IN_3 && StatusInGen(3, ELECTED) == Recovery
  {
    var s0, v := ThirdElected();
    Sizes();
    ReachStep(s0, 1, SwitchStep(v));
    var s1 := Apply(s0, 1, SwitchStep(v));
    var s2 := LogsAndMarks(s1, 1);
    assert s2.nodes[1].wal == WITHOUT_3 + [Prepare(MISSED), ParallelSafe(3)];
    ReachStep(s2, 3, SwitchStep(v));
    s := Apply(s2, 3, SwitchStep(v));
  }

  /** Node 3 takes the transaction from node 1 and comes online at the record that follows it. */
  lemma RecoveredOnline() returns (s: State)
    ensures Reach(s) && s.nodes.Keys == ALL && s.nodes[3] == ONLINE && StatusInGen(3, ONLINE) == Online
  {
    var s0 := Recovering();
    Sizes();
    ReachStep(s0, 3, RecoverStep(1, 2));
    var s1 := Apply(s0, 3, RecoverStep(1, 2));
    assert s1.nodes[3].wal == [ParallelSafe(1), Prepare(MISSED)];
    ReachStep(s1, 3, PSStep(1, 3));
    var s2 := Apply(s1, 3, PSStep(1, 3));
    s := LogsAndMarks(s2, 3);
    assert s.nodes[3].wal == ONLINE.wal;
  }

  /** It crashes, comes up as it was, and may be told of a higher number after a lost campaign. */
  lemma CrashesAndBumps() returns (up: State, bumped: State)
    ensures Reach(up) && up.nodes.Keys == ALL && up.nodes[3] == ONLINE.(tour := None)
    ensures Reach(bumped) && bumped.nodes.Keys == ALL && bumped.nodes[3] == ONLINE.(vote := Gen(9, {}, {}), tour := None)
  {
    var s := RecoveredOnline();
    ReachStep(s, 3, CrashStep);
    var s1 := Apply(s, 3, CrashStep);
    ReachStep(s1, 3, RestartStep);
    up := Apply(s1, 3, RestartStep);
    ReachStep(s, 3, BumpStep(9));
    bumped := Apply(s, 3, BumpStep(9));
  }
}

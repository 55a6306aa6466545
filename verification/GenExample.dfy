/** Donors are taken from all voters: a run in which one of them is not a member, and when that happens. */
module GenExample {
  import opened Quorums
  import opened Generations
  import opened GenSystem

  // ----- the condition -----

  lemma {:induction false} MostAdvancedExists(lois: map<NodeId, nat>) returns (w: NodeId)
    requires lois != map[]
    ensures w in MostAdvanced(lois)
    decreases |lois|
  {
    var y :| y in lois;
    var rest := lois - {y};
    if rest == map[] {
      w := y;
      assert forall z :: z in lois ==> z == y by {
        assert forall z :: z in lois && z != y ==> z in rest;
      }
    } else {
      assert rest.Keys < lois.Keys;
      var v := MostAdvancedExists(rest);
      w := if lois[y] <= lois[v] then v else y;
      assert forall z :: z in lois && z != y ==> z in rest && rest[z] == lois[z];
    }
  }

  /** The donors are members if and only if every voter outside is behind some voter inside. */
  lemma DonorsAreMembers(lois: map<NodeId, nat>, members: set<NodeId>)
    ensures MostAdvanced(lois) <= members <==>
              forall y :: y in lois && y !in members ==> exists z :: z in lois && z in members && lois[y] < lois[z]
  {
    if MostAdvanced(lois) <= members {
      forall y | y in lois && y !in members
        ensures exists z :: z in lois && z in members && lois[y] < lois[z]
      {
        var w := MostAdvancedExists(lois);
        assert w in members && lois[y] <= lois[w];
        assert y !in MostAdvanced(lois);
      }
    }
  }

  // ----- the run -----

  ghost predicate Reach(s: State) {
    exists run :: Run(run) && run[|run| - 1] == s
  }

  lemma ReachStep(s: State, x: NodeId, step: Step)
    requires Reach(s) && Enabled(s, x, step)
    ensures Reach(Apply(s, x, step))
  {
    var run :| Run(run) && run[|run| - 1] == s;
    var run' := run + [Apply(s, x, step)];
    forall i | 0 < i < |run'|
      ensures StepAt(run', i)
    {
      if i < |run| {
        assert StepAt(run, i);
      } else {
        assert Next(s, Apply(s, x, step));
      }
    }
    assert Run(run') && run'[|run'| - 1] == Apply(s, x, step);
  }

  const ALL: set<NodeId> := {1, 2, 3}

  /** A node that has come up in the first generation. */
  const UP := Node(Gen(1, ALL, ALL), ALL, 1, Gen(1, ALL, {}), true, [ParallelSafe(1)], Idle, None)

  lemma ComesUp(s: State, x: NodeId) returns (s': State)
    requires Reach(s) && x in s.nodes && s.nodes[x] == InitialNode(ALL)
    ensures Reach(s') && s' == s.Put(x, UP)
  {
    ReachStep(s, x, RestartStep);
    var s1 := Apply(s, x, RestartStep);
    ReachStep(s1, x, LogStep);
    var s2 := Apply(s1, x, LogStep);
    ReachStep(s2, x, MarkStep);
    s' := Apply(s2, x, MarkStep);
    assert s'.nodes[x].wal == [ParallelSafe(1)];
    assert s'.nodes == s.nodes[x := UP];
  }

  /** All three nodes come up. */
  lemma AllUp() returns (s: State)
    ensures Reach(s) && s.conf == ALL && s.nodes == map[1 := UP, 2 := UP, 3 := UP]
    ensures Victory(Gen(1, ALL, ALL), ALL, map[]) in s.elected
  {
    var nodes: map<NodeId, Node> := map x | x in ALL :: InitialNode(ALL);
    var s0 := State(ALL, nodes, {}, {}, {}, {Victory(Gen(1, ALL, ALL), ALL, map[])}, {});
    assert Run([s0]) && [s0][|[s0]| - 1] == s0;
    var s1 := ComesUp(s0, 1);
    var s2 := ComesUp(s1, 2);
    s := ComesUp(s2, 3);
    assert s.nodes == nodes[1 := UP][2 := UP][3 := UP];
  }

  const SECOND := Gen(2, {1, 2}, ALL)
  const FOURTH := Gen(4, {1}, ALL)

  lemma Sizes()
    ensures |ALL| == 3 && |{1 as NodeId, 2}| == 2 && |{1 as NodeId, 3}| == 2 && |{1 as NodeId}| == 1
  {
  }

  /** Node 2 ballots without node 3. */
  lemma SecondBalloted() returns (s: State)
    ensures Reach(s) && s.conf == ALL && s.nodes.Keys == ALL && s.nodes[3] == UP && s.nodes[1] == UP && Request(SECOND, 2) in s.requests
    ensures s.nodes[2].proc == Idle && s.nodes[2].tour == Some(Tour(SECOND, 1))
  {
    var s0 := AllUp();
    Sizes();
    var clique: set<NodeId> := {1, 2};
    assert Candidates(2, UP, clique) == {1, 2};
    ReachStep(s0, 2, CampaignStep(clique));
    s := Apply(s0, 2, CampaignStep(clique));
  }

  /** Node 1 votes for it, and they win. */
  lemma SecondElected() returns (s: State, v: Victory)
    ensures Reach(s) && s.conf == ALL && s.nodes.Keys == ALL && s.nodes[3] == UP && s.nodes[1] == UP.(vote := SECOND)
    ensures v in s.elected && v.gen == SECOND && v.donors == {1, 2}
  {
    var s1 := SecondBalloted();
    Sizes();
    var step := VoteStep(Request(SECOND, 2), {1, 2}, false);
    ReachStep(s1, 1, step);
    var s2 := Apply(s1, 1, step);
    var got: map<NodeId, nat> := map[1 := 1];
    assert |got| == 1;
    ReachStep(s2, 2, WinStep(got));
    s := Apply(s2, 2, WinStep(got));
    var lois := got[2 := 1];
    v := Victory(SECOND, MostAdvanced(lois), lois);
    assert v in s.elected;
  }

  /** Meanwhile node 1 has promised a third generation, so it does not come online in the second. */
  lemma PromisedThird() returns (s: State, n: Node)
    ensures Reach(s) && s.conf == ALL && s.nodes.Keys == ALL && s.nodes[3] == UP && s.nodes[1] == n
    ensures n.cur == SECOND && n.loi == 1 && n.vote == Gen(3, {1, 3}, ALL) && n.proc == Idle
  {
    var s0, v := SecondElected();
    Sizes();
    var clique: set<NodeId> := {1, 3};
    var n0 := s0.nodes[1];
    assert Candidates(1, n0, clique) == {1, 3};
    ReachStep(s0, 1, CampaignStep(clique));
    var s1 := Apply(s0, 1, CampaignStep(clique));
    ReachStep(s1, 1, SwitchStep(v));
    s := Apply(s1, 1, SwitchStep(v));
    n := s.nodes[1];
  }

  /** With node 2 lost, node 1 ballots alone. */
  lemma BallotsAlone() returns (s: State)
    ensures Reach(s) && s.conf == ALL && s.nodes.Keys == ALL && s.nodes[3] == UP && Request(FOURTH, 1) in s.requests
    ensures s.nodes[1].proc == Idle && s.nodes[1].tour == Some(Tour(FOURTH, 1))
  {
    var s0, n := PromisedThird();
    Sizes();
    var clique: set<NodeId> := {1, 3};
    assert Candidates(1, n, clique) == {1};
    ReachStep(s0, 1, CampaignStep(clique));
    s := Apply(s0, 1, CampaignStep(clique));
  }

  /** Node 3 votes for it, and is a donor without being a member. */
  lemma DonorOutside() returns (s: State, v: Victory)
    ensures Reach(s) && v in s.elected && v.gen == FOURTH && 3 in v.donors && 3 !in v.gen.members
  {
    var s1 := BallotsAlone();
    Sizes();
    var step := VoteStep(Request(FOURTH, 1), {1, 3}, false);
    ReachStep(s1, 3, step);
    var s2 := Apply(s1, 3, step);
    var got: map<NodeId, nat> := map[3 := 1];
    assert |got| == 1;
    ReachStep(s2, 1, WinStep(got));
    s := Apply(s2, 1, WinStep(got));
    var lois := got[1 := 1];
    v := Victory(FOURTH, MostAdvanced(lois), lois);
    assert v in s.elected;
  }

  const TX := Tx(1, 7, 1)

  /** In another run node 1 prepares a transaction. */
  lemma PreparedAtOne() returns (s: State)
    ensures Reach(s) && s.conf == ALL && s.nodes.Keys == ALL && Victory(Gen(1, ALL, ALL), ALL, map[]) in s.elected
    ensures s.nodes[2] == UP && s.nodes[3] == UP && Prepare(TX) in s.nodes[1].wal && Ack(1, TX) in s.acks
  {
    var s0 := AllUp();
    ReachStep(s0, 1, PrepareStep(7));
    s := Apply(s0, 1, PrepareStep(7));
  }

  /** A node that is up applies it. */
  lemma AppliedAt(s: State, x: NodeId) returns (s': State)
    requires Reach(s) && x in s.nodes && x != 1 && 1 in s.nodes && s.nodes[x] == UP && Prepare(TX) in s.nodes[1].wal
    ensures Reach(s') && x in s'.nodes && s' == s.(nodes := s'.nodes, acks := s'.acks) && s'.nodes == s.nodes[x := s'.nodes[x]]
    ensures Prepare(TX) in s'.nodes[x].wal && s'.acks == s.acks + {Ack(x, TX)}
  {
    ReachStep(s, x, ApplyStep(TX));
    s' := Apply(s, x, ApplyStep(TX));
  }

  lemma PreparedEverywhere() returns (s: State)
    ensures Reach(s) && s.conf == ALL && s.nodes.Keys == ALL && Victory(Gen(1, ALL, ALL), ALL, map[]) in s.elected
    ensures forall x :: x in ALL ==> Prepare(TX) in s.nodes[x].wal && Ack(x, TX) in s.acks
  {
    var s1 := PreparedAtOne();
    var s2 := AppliedAt(s1, 2);
    s := AppliedAt(s2, 3);
  }
}

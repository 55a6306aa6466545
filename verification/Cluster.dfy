/**
  The whole cluster around one transaction: generations (GenSystem) and atomic commit
  (CommitSystem) run together. The coordinator precommits when all members of the
  transaction's generation have acknowledged its PREPARE; a node without the PREPARE answers
  "aborted" when it has been online in a later generation.
 */
module Cluster {
  import opened Quorums
  import G = Generations
  import GS = GenSystem
  import GI = GenInvariant
  import GO = GenOrder
  import GP = GenProof
  import Safety = GenSafety
  import T = GlobalTx
  import C = CommitSystem
  import CI = CommitInvariant
  import CP = CommitProof

  datatype State = State(tx: G.Tx, gens: GS.State, pax: C.State)

  datatype Step =
    | GenStep(gen: GS.Step)
    | PaxStep(pax: C.Step)

  ghost predicate Init(s: State) {
    && GS.Init(s.gens) && C.Init(s.pax)
    && s.gens.conf == s.pax.conf && s.pax.coord == s.tx.coord
  }

  ghost predicate Enabled(s: State, x: NodeId, step: Step) {
    match step
    case GenStep(gen) => GS.Enabled(s.gens, x, gen)
    case PaxStep(pax) =>
      && C.Guard(s.pax, x, pax)
      && (pax.GetPrepare? ==> x in s.gens.nodes && G.Prepare(s.tx) in s.gens.nodes[x].wal)
      && (pax.Precommit? ==> Safety.FullyAcked(s.gens, s.tx))
      && (pax.GenAbort? ==> Safety.AnswersAbort(s.gens, s.gens, x, s.tx))
  }

  ghost function Apply(s: State, x: NodeId, step: Step): State
    requires Enabled(s, x, step)
  {
    match step
    case GenStep(gen) => s.(gens := GS.Apply(s.gens, x, gen))
    case PaxStep(pax) => s.(pax := C.Apply(s.pax, x, pax))
  }

  ghost predicate StepAt(run: seq<State>, i: nat)
    requires 0 < i < |run|
  {
    Next(run[i - 1], run[i])
  }

  ghost predicate Next(s: State, s': State) {
    exists x, step :: Enabled(s, x, step) && s' == Apply(s, x, step)
  }

  ghost predicate Run(run: seq<State>) {
    && |run| > 0
    && Init(run[0])
    && forall i {:trigger StepAt(run, i)} :: 0 < i < |run| ==> StepAt(run, i)
  }

  /** Some generation above the transaction's has been elected. */
  ghost predicate Superseded(s: State) {
    exists m :: s.tx.gen < m && GI.RankElected(s.gens, m)
  }

  ghost predicate Inv(s: State) {
    && GI.Inv(s.gens) && CI.Inv(s.pax)
    && (C.Precommitted(s.pax) ==> Safety.FullyAcked(s.gens, s.tx))
    && (s.pax.genAborted ==> !GI.Committable(s.gens, s.tx) && Superseded(s))
  }

  /** The guards of the code keep the two ways to finish apart. */
  lemma GuardsSuffice(s: State, x: NodeId, step: C.Step)
    requires Inv(s) && Enabled(s, x, PaxStep(step))
    ensures C.Enabled(s.pax, x, step)
  {
    if step.Precommit? || C.Precommitted(s.pax) { Safety.FullyAckedCommittable(s.gens, s.tx); }
    if step.GenAbort? { Safety.AbortNotCommittable(s.gens, x, s.tx); }
  }

  lemma StepInv(s: State, x: NodeId, step: Step)
    requires Inv(s) && Enabled(s, x, step)
    ensures Inv(Apply(s, x, step))
  {
    match step
    case GenStep(gen) => GenStepInv(s, x, gen);
    case PaxStep(pax) => PaxStepInv(s, x, pax);
  }

  lemma GenStepInv(s: State, x: NodeId, gen: GS.Step)
    requires Inv(s) && Enabled(s, x, GenStep(gen))
    ensures Inv(Apply(s, x, GenStep(gen)))
  {
    var s' := Apply(s, x, GenStep(gen));
    GO.StepInv(s.gens, x, gen);
    GP.StepGrows(s.gens, x, gen);
    GP.FactsGrow(s.gens, s'.gens);
    if C.Precommitted(s.pax) { Safety.FullyAckedLater(s.gens, s'.gens, s.tx); }
    if s.pax.genAborted {
      var m :| s.tx.gen < m && GI.RankElected(s.gens, m);
      if GI.Committable(s'.gens, s.tx) { GO.CommittableBelow(s.gens, x, gen, s.tx, m); }
      assert GI.RankElected(s'.gens, m);
    }
  }

  lemma PaxStepInv(s: State, x: NodeId, pax: C.Step)
    requires Inv(s) && Enabled(s, x, PaxStep(pax))
    ensures Inv(Apply(s, x, PaxStep(pax)))
  {
    var s' := Apply(s, x, PaxStep(pax));
    GuardsSuffice(s, x, pax);
    CP.StepInv(s.pax, x, pax);
    if C.Precommitted(s'.pax) && !C.Precommitted(s.pax) { CP.FirstPrecommit(s.pax, x, pax); }
    if pax.GenAbort? { Safety.AbortNotCommittable(s.gens, x, s.tx); }
  }

  lemma {:induction false} RunInv(run: seq<State>, i: nat)
    requires Run(run) && i < |run|
    ensures Inv(run[i])
  {
    if i == 0 {
      GI.InitInv(run[0].gens);
      CI.InitInv(run[0].pax);
    } else {
      RunInv(run, i - 1);
      assert StepAt(run, i);
      var x, step :| Enabled(run[i - 1], x, step) && run[i] == Apply(run[i - 1], x, step);
      StepInv(run[i - 1], x, step);
    }
  }

  lemma {:induction false} SettledLater(run: seq<State>, i: nat, j: nat, commit: bool)
    requires Run(run) && i <= j < |run| && CI.Settled(run[i].pax, commit)
    ensures CI.Settled(run[j].pax, commit)
    decreases j
  {
    if i < j {
      SettledLater(run, i, j - 1, commit);
      RunInv(run, j - 1);
      assert StepAt(run, j);
      SettledNext(run[j - 1], run[j], commit);
    }
  }

  lemma SettledNext(s: State, s': State, commit: bool)
    requires Inv(s) && Next(s, s') && CI.Settled(s.pax, commit)
    ensures CI.Settled(s'.pax, commit)
  {
    var x, step :| Enabled(s, x, step) && s' == Apply(s, x, step);
    if step.PaxStep? {
      GuardsSuffice(s, x, step.pax);
      CP.StepGrows(s.pax, x, step.pax);
      CP.SettledStays(s.pax, s'.pax, commit);
    }
  }

  /** Nobody ever finishes COMMIT in a run in which somebody finishes ABORT. */
  lemma CommitAgreement(run: seq<State>, i: nat, j: nat, x: NodeId, y: NodeId)
    requires Run(run) && i < |run| && j < |run|
    requires x in run[i].pax.nodes && run[i].pax.nodes[x].Done?
    requires y in run[j].pax.nodes && run[j].pax.nodes[y].Done?
    ensures run[i].pax.nodes[x].commit == run[j].pax.nodes[y].commit
  {
    var k := if i <= j then j else i;
    RunInv(run, i);
    RunInv(run, j);
    RunInv(run, k);
    assert CI.NodeOK(run[i].pax, x) && CI.NodeOK(run[j].pax, y);
    SettledLater(run, i, k, run[i].pax.nodes[x].commit);
    SettledLater(run, j, k, run[j].pax.nodes[y].commit);
    CI.SettledAgree(run[k].pax);
  }

  /** A committed transaction was acknowledged by every member of its generation, so a node
      that is online in a later generation holds its PREPARE. */
  lemma CommittedIsHeld(run: seq<State>, i: nat, x: NodeId, y: NodeId)
    requires Run(run) && i < |run|
    requires x in run[i].pax.nodes && run[i].pax.nodes[x].Done? && run[i].pax.nodes[x].commit
    ensures Safety.FullyAcked(run[i].gens, run[i].tx)
    ensures y in run[i].gens.nodes && run[i].tx.gen < run[i].gens.nodes[y].cur.num &&
            G.StatusInGen(y, run[i].gens.nodes[y]) == G.Online ==>
              G.Prepare(run[i].tx) in run[i].gens.nodes[y].wal
  {
    var s := run[i];
    RunInv(run, i);
    assert CI.NodeOK(s.pax, x);
    CI.CommitNeedsPrecommit(s.pax);
    Safety.FullyAckedCommittable(s.gens, s.tx);
    if y in s.gens.nodes { assert GI.OnlineHas(s.gens, y); }
  }

  /** An answer "aborted" given from generations alone is never contradicted by a commit. */
  lemma DirectAbortAgreement(run: seq<State>, i: nat, j: nat, y: NodeId)
    requires Run(run) && i < |run| && j < |run| && run[i].pax.genAborted
    requires y in run[j].pax.nodes && run[j].pax.nodes[y].Done?
    ensures !run[j].pax.nodes[y].commit
  {
    var k := if i <= j then j else i;
    RunInv(run, j);
    RunInv(run, k);
    assert CI.NodeOK(run[j].pax, y);
    SettledLater(run, i, k, false);
    SettledLater(run, j, k, run[j].pax.nodes[y].commit);
    CI.SettledAgree(run[k].pax);
  }

  // ----- the asserts of the resolver -----

  /** When a resolver handles a status response, every recorded answer with the greatest accepted
      term carries the same decree, stale answers of earlier terms included. */
  lemma DecreeWellDefined(run: seq<State>, i: nat, x: NodeId, step: C.Step, t: T.Term)
    requires Run(run) && i < |run| && step.HandleStatus? && Enabled(run[i], x, PaxStep(step)) && !C.Final(step.st)
    requires T.IsMaxAccepted(T.Acks1(run[i].pax.nodes[x].gtx, x, step.from, step.st), t)
    ensures exists c :: T.Forced(T.Acks1(run[i].pax.nodes[x].gtx, x, step.from, step.st), t, c)
  {
    RunInv(run, i);
    var acks := T.Acks1(run[i].pax.nodes[x].gtx, x, step.from, step.st);
    var y :| y in acks && acks[y].proposal != T.NO_TERM && acks[y].accepted == t;
    forall z | z in acks && acks[z].proposal != T.NO_TERM && acks[z].accepted == t
      ensures acks[z].status == acks[y].status
    {
      CP.DecreeForced(run[i].pax, x, step.from, step.st, t, y, z);
    }
    assert T.Forced(acks, t, acks[y].status == T.PreCommitted);
  }

  /** When a majority of second phase answers is complete, the last of them is for the resolver's
      own term and carries its own decree. */
  lemma Phase2WellDefined(run: seq<State>, i: nat, x: NodeId, step: C.Step)
    requires Run(run) && i < |run| && step.Handle2b? && Enabled(run[i], x, PaxStep(step))
    requires T.QuorumFor(run[i].pax.conf, x,
               T.Acks2(run[i].pax.nodes[x].gtx, x, step.from2, T.VoteState(step.acc, step.vote)))
    ensures step.acc == run[i].pax.StateOf(x).proposal
    ensures run[i].pax.StateOf(x).status == T.Decree(step.vote)
  {
    RunInv(run, i);
    CP.Phase2Decree(run[i].pax, x, step.from2, step.acc, step.vote);
  }
}

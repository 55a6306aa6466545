/**
  What src/include/state.h and the comments of src/state.c promise of generations, over
  whole runs of GenSystem.
 */
module GenSafety {
  import opened Quorums
  import opened Generations
  import opened GenSystem
  import opened GenInvariant
  import opened GenProof
  import opened GenOrder

  /** Prepared at the coordinator and acknowledged by every member of its generation:
      what MtmTwoPhaseCommit waits for before it precommits. */
  ghost predicate FullyAcked(s: State, tx: Tx) {
    && Ack(tx.coord, tx) in s.acks
    && exists v :: v in s.elected && v.gen.num == tx.gen && AckedByAll(s, v, tx)
  }

  ghost predicate AckedByAll(s: State, v: Victory, tx: Tx) {
    forall m :: m in v.gen.members ==> Ack(m, tx) in s.acks
  }

  lemma FullyAckedCommittable(s: State, tx: Tx)
    requires Inv(s) && FullyAcked(s, tx)
    ensures Committable(s, tx)
  {
    var v :| v in s.elected && v.gen.num == tx.gen && AckedByAll(s, v, tx);
    assert AckOK(s, Ack(tx.coord, tx)) && NodeOK(s, tx.coord);
    assert WasOnline(s, tx.coord, tx.gen);
    var u :| u in s.elected && u.gen.num == tx.gen && tx.coord in u.gen.members && HasQuorum(u.gen);
    SameNumberSameGen(s, u, v);
    assert CommittableIn(s, v, tx);
  }

  // ----- monotonicity along a run -----

  lemma RunGrowsStep(run: seq<State>, i: nat)
    requires Run(run) && 0 < i < |run|
    ensures Grows(run[i - 1], run[i])
  {
    var x, step := RunStep(run, i);
    StepGrows(run[i - 1], x, step);
  }

  ghost predicate NodeLater(n: Node, n': Node) {
    n.cur.num <= n'.cur.num && n.vote.num <= n'.vote.num && n.loi <= n'.loi && n.wal <= n'.wal
  }

  lemma {:induction false} RunGrows(run: seq<State>, i: nat, j: nat)
    requires Run(run) && i <= j < |run|
    ensures run[j].conf == run[i].conf && run[j].nodes.Keys == run[i].nodes.Keys
    ensures run[i].ballots <= run[j].ballots && run[i].elected <= run[j].elected && run[i].acks <= run[j].acks
    ensures forall x :: x in run[i].nodes ==> NodeLater(run[i].nodes[x], run[j].nodes[x])
    decreases j
  {
    if i < j {
      RunGrows(run, i, j - 1);
      RunGrowsStep(run, j);
      forall x | x in run[i].nodes
        ensures NodeLater(run[i].nodes[x], run[j].nodes[x])
      {
        assert NodeLater(run[i].nodes[x], run[j - 1].nodes[x]);
        assert NodeGrows(run[j - 1].nodes[x], run[j].nodes[x]);
      }
    }
  }

  // ----- elections and the voting promise -----

  /** Any two elections won with the same number, at whatever moments, are the same generation. */
  lemma ElectionUnique(run: seq<State>, i: nat, j: nat, v: Victory, w: Victory)
    requires Run(run) && i < |run| && j < |run|
    requires v in run[i].elected && w in run[j].elected && v.gen.num == w.gen.num
    ensures v.gen == w.gen
  {
    var k := if i <= j then j else i;
    RunGrows(run, i, k);
    RunGrows(run, j, k);
    RunInv(run, k);
    SameNumberSameGen(run[k], v, w);
  }

  /** last_online_in <= current generation <= last_vote, each non-decreasing across crashes;
      a vote for n freezes last_online_in until the node is online in n or later. */
  lemma VotingPromise(run: seq<State>, i: nat, j: nat, x: NodeId, b: Ballot)
    requires Run(run) && i <= j < |run| && x in run[i].nodes
    ensures x in run[j].nodes
    ensures var n, n' := run[i].nodes[x], run[j].nodes[x];
            && n.loi <= n.cur.num <= n.vote.num
            && n.loi <= n'.loi && n.cur.num <= n'.cur.num && n.vote.num <= n'.vote.num
            && (b in run[i].ballots && b.voter == x ==>
                  b.loi < b.gen.num && (n'.loi == b.loi || b.gen.num <= n'.loi))
  {
    RunGrows(run, i, j);
    RunInv(run, i);
    RunInv(run, j);
    assert NodeOK(run[i], x);
    assert NodeLater(run[i].nodes[x], run[j].nodes[x]);
    if b in run[i].ballots { assert BallotOK(run[j], b); }
  }

  // ----- the two properties of generations -----

  /** A node that was ever online in generation n holds, before its ParallelSafe<n>, every
      transaction of an older generation that all members of that generation acknowledged. */
  lemma OnlineHoldsAll(run: seq<State>, i: nat, x: NodeId, k: nat, tx: Tx)
    requires Run(run) && i < |run| && x in run[i].nodes && k < |run[i].nodes[x].wal|
    requires run[i].nodes[x].wal[k].ParallelSafe? && tx.gen < run[i].nodes[x].wal[k].num
    requires FullyAcked(run[i], tx)
    ensures Prepare(tx) in run[i].nodes[x].wal[..k]
  {
    RunInv(run, i);
    FullyAckedCommittable(run[i], tx);
    assert OrderAt(run[i], x, k);
  }

  /** The same for a node that is online now: its ParallelSafe record is there. */
  lemma OnlineNodeHolds(run: seq<State>, i: nat, x: NodeId, tx: Tx)
    requires Run(run) && i < |run| && x in run[i].nodes
    requires StatusInGen(x, run[i].nodes[x]) == Online && tx.gen < run[i].nodes[x].cur.num
    requires FullyAcked(run[i], tx)
    ensures Prepare(tx) in run[i].nodes[x].wal
  {
    RunInv(run, i);
    FullyAckedCommittable(run[i], tx);
    assert OnlineHas(run[i], x);
  }

  // ----- one prepare per transaction, after the ParallelSafe of its generation -----

  ghost predicate WalShape(s: State, x: NodeId)
    requires x in s.nodes
  {
    forall k :: 0 <= k < |s.nodes[x].wal| ==> RecordShape(s, x, k)
  }

  ghost predicate RecordShape(s: State, x: NodeId, k: nat)
    requires x in s.nodes && k < |s.nodes[x].wal|
  {
    var wal := s.nodes[x].wal;
    wal[k].Prepare? ==>
      && wal[k] !in wal[..k]
      && (Ack(x, wal[k].tx) in s.acks ==> HasPS(wal[..k], wal[k].tx.gen))
  }

  lemma ShapeStep(s: State, x: NodeId, step: Step, y: NodeId)
    requires Inv(s) && Enabled(s, x, step) && y in s.nodes && WalShape(s, y)
    ensures WalShape(Apply(s, x, step), y)
  {
    var s' := Apply(s, x, step);
    StepGrows(s, x, step);
    var wal, wal' := s.nodes[y].wal, s'.nodes[y].wal;
    forall k | 0 <= k < |wal'|
      ensures RecordShape(s', y, k)
    {
      if k < |wal| {
        assert wal'[..k] == wal[..k] && RecordShape(s, y, k);
        assert wal[k] in wal;
      } else {
        assert wal'[..k] == wal;
        NewShape(s, x, step);
      }
    }
  }

  lemma NewShape(s: State, x: NodeId, step: Step)
    requires Inv(s) && Enabled(s, x, step)
    requires |Apply(s, x, step).nodes[x].wal| > |s.nodes[x].wal|
    ensures RecordShape(Apply(s, x, step), x, |s.nodes[x].wal|)
  {
    var s' := Apply(s, x, step);
    var k := |s.nodes[x].wal|;
    assert s'.nodes[x].wal[..k] == s.nodes[x].wal;
    assert NodeOK(s, x);
    if step.RecoverStep? {
      NotAckedYet(s, x, s.nodes[step.from].wal[step.pos].tx);
    }
  }

  lemma NotAckedYet(s: State, x: NodeId, tx: Tx)
    requires Inv(s) && x in s.nodes && Prepare(tx) !in s.nodes[x].wal
    ensures Ack(x, tx) !in s.acks
  {
    assert Ack(x, tx) in s.acks ==> AckOK(s, Ack(x, tx));
  }

  lemma {:induction false} RunShape(run: seq<State>, i: nat, y: NodeId)
    requires Run(run) && i < |run| && y in run[i].nodes
    ensures WalShape(run[i], y)
  {
    if i > 0 {
      RunGrowsStep(run, i);
      RunShape(run, i - 1, y);
      var x, step := RunStep(run, i);
      ShapeStep(run[i - 1], x, step, y);
    }
  }

  /** At each node the prepares of a generation that all its members acknowledged lie
      strictly before every such prepare of a later generation. */
  lemma PreparesOrdered(run: seq<State>, i: nat, x: NodeId, j: nat, k: nat)
    requires Run(run) && i < |run| && x in run[i].nodes
    requires j < |run[i].nodes[x].wal| && k < |run[i].nodes[x].wal|
    requires run[i].nodes[x].wal[j].Prepare? && run[i].nodes[x].wal[k].Prepare?
    requires run[i].nodes[x].wal[j].tx.gen < run[i].nodes[x].wal[k].tx.gen
    requires FullyAcked(run[i], run[i].nodes[x].wal[j].tx)
    ensures j < k
  {
    var s := run[i];
    var wal := s.nodes[x].wal;
    RunInv(run, i);
    FullyAckedCommittable(s, wal[j].tx);
    assert OrderAt(s, x, k);
    RunShape(run, i, x);
    assert RecordShape(s, x, j);
  }

  /** Whatever crashes happened on the way to online, a prepare acknowledged in generation n
      has a flushed ParallelSafe<n> before it in the local WAL. */
  lemma ParallelSafeFirst(run: seq<State>, i: nat, x: NodeId, k: nat)
    requires Run(run) && i < |run| && x in run[i].nodes && k < |run[i].nodes[x].wal|
    requires run[i].nodes[x].wal[k].Prepare? && Ack(x, run[i].nodes[x].wal[k].tx) in run[i].acks
    ensures ParallelSafe(run[i].nodes[x].wal[k].tx.gen) in run[i].nodes[x].wal[..k]
  {
    RunShape(run, i, x);
    assert RecordShape(run[i], x, k);
  }

  /** The same, before the prepare: a preparer is admitted in generation n only behind ParallelSafe<n>. */
  lemma PreparerAdmitted(run: seq<State>, i: nat, x: NodeId, step: Step)
    requires Run(run) && i < |run| && Enabled(run[i], x, step) && (step.PrepareStep? || step.ApplyStep?)
    ensures ParallelSafe(run[i].nodes[x].cur.num) in run[i].nodes[x].wal
  {
    RunInv(run, i);
    assert NodeOK(run[i], x);
    assert HasPS(run[i].nodes[x].wal, run[i].nodes[x].loi);
  }

  // ----- direct abort -----

  /** handle_1a answers "aborted" from generations alone: it has read last_online_in, and then
      found no trace of the transaction. */
  predicate AnswersAbort(early: State, late: State, x: NodeId, tx: Tx) {
    && x in early.nodes && x in late.nodes
    && early.nodes[x].proc.Idle?
    && tx.gen < early.nodes[x].loi
    && Prepare(tx) !in late.nodes[x].wal
  }

  lemma AbortNotCommittable(s: State, x: NodeId, tx: Tx)
    requires Inv(s) && AnswersAbort(s, s, x, tx)
    ensures !Committable(s, tx)
    ensures RankElected(s, s.nodes[x].loi)
  {
    assert NodeOK(s, x) && WalOK(s, x);
    var loi := s.nodes[x].loi;
    assert ParallelSafe(loi) in s.nodes[x].wal && RankElected(s, Rank(ParallelSafe(loi)));
    if Committable(s, tx) { HeldBefore(s, x, loi, tx); }
  }

  lemma {:induction false} StaysNotCommittable(run: seq<State>, i: nat, j: nat, tx: Tx, m: nat)
    requires Run(run) && i <= j < |run| && !Committable(run[i], tx)
    requires RankElected(run[i], m) && tx.gen < m
    ensures !Committable(run[j], tx) && RankElected(run[j], m)
    decreases j
  {
    if i < j {
      StaysNotCommittable(run, i, j - 1, tx, m);
      RunGrowsStep(run, j);
      FactsGrow(run[j - 1], run[j]);
      var x, step := RunStep(run, j);
      if Committable(run[j], tx) { CommittableBelow(run[j - 1], x, step, tx, m); }
    }
  }

  /** A transaction answered "aborted" from generations alone is never fully acknowledged,
      neither before nor after the answer, so no coordinator precommits it in that run. */
  lemma DirectAbortSound(run: seq<State>, i0: nat, i1: nat, j: nat, x: NodeId, tx: Tx)
    requires Run(run) && i0 <= i1 < |run| && j < |run|
    requires AnswersAbort(run[i0], run[i1], x, tx)
    ensures !FullyAcked(run[j], tx)
  {
    RunGrows(run, i0, i1);
    assert NodeLater(run[i0].nodes[x], run[i1].nodes[x]);
    RunInv(run, i0);
    RunInv(run, j);
    AbortNotCommittable(run[i0], x, tx);
    if FullyAcked(run[j], tx) {
      FullyAckedCommittable(run[j], tx);
      if j <= i0 {
        RunGrows(run, j, i0);
        FullyAckedLater(run[j], run[i0], tx);
        FullyAckedCommittable(run[i0], tx);
      } else {
        StaysNotCommittable(run, i0, j, tx, run[i0].nodes[x].loi);
      }
    }
  }

  lemma FullyAckedLater(s: State, s': State, tx: Tx)
    requires FullyAcked(s, tx) && s.acks <= s'.acks && s.elected <= s'.elected
    ensures FullyAcked(s', tx)
  {
    var v :| v in s.elected && v.gen.num == tx.gen && AckedByAll(s, v, tx);
    assert v in s'.elected && AckedByAll(s', v, tx);
  }
}

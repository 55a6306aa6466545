/**
  The atomic commit of one non-explicit transaction as a transition system: the coordinator's
  fast path at the initial term, any number of resolvers with their own terms, direct aborts,
  crashes, and messages that may be lost, delayed or repeated.
 */
module CommitSystem {
  import opened Quorums
  import opened GlobalTx

  datatype Local =
    | NoTrace                               // PREPARE has not been applied here
    | Live(gtx: Gtx)
    | Done(commit: bool, last: GTxState)    // finished; `last` is the state it had

  datatype Msg =
    | Req1a(t: Term)
    | Resp1b(from: NodeId, to: NodeId, st: GTxState)
    | Req2a(t2: Term, decree: bool)
    | Resp2b(from2: NodeId, to2: NodeId, acc: Term, vote: bool)
    | PrecommitAck(voter: NodeId)           // reply to the coordinator's PRECOMMIT
    | Fin(outcome: bool)                    // MTReq_Commit | MTReq_Abort, COMMIT | ABORT PREPARED

  datatype Vote = Vote(node: NodeId, term: Term, commit: bool)

  datatype State = State(
    conf: set<NodeId>,
    coord: NodeId,
    nodes: map<NodeId, Local>,
    msgs: set<Msg>,
    doomed: bool,         // finish_ready has listed the transaction for a direct abort
    votes: set<Vote>,     // history: every vote ever given
    ownAborted: bool,     // history: the coordinator aborted directly
    genAborted: bool)     // history: some node answered "aborted" from generations alone
  {
    function Put(x: NodeId, l: Local): State {
      this.(nodes := nodes[x := l])
    }

    function Send(ms: set<Msg>): State {
      this.(msgs := msgs + ms)
    }

    function Cast(x: NodeId, t: Term, commit: bool): State {
      this.(votes := votes + {Vote(x, t, commit)})
    }

    /** Paxos state of a node, whatever happened to its transaction entry. */
    function StateOf(x: NodeId): GTxState
      requires x in nodes
    {
      match nodes[x]
      case NoTrace => FRESH
      case Live(g) => g.state
      case Done(_, last) => last
    }
  }

  predicate Init(s: State) {
    && s.coord in s.conf
    && (forall x :: x in s.conf ==> x != 0)
    && s.nodes == (map x | x in s.conf :: NoTrace)
    && s.msgs == {} && s.votes == {} && !s.doomed && !s.ownAborted && !s.genAborted
  }

  predicate Precommitted(s: State) {
    Req2a(INITIAL_TERM, true) in s.msgs
  }

  datatype Step =
    | GetPrepare
    | Precommit
    | CoordCommit(acked: set<NodeId>)
    | ReleaseGtx
    | ListOwn
    | OwnAbort
    | Crash
    | Scatter(ballot: nat)
    | Handle1a(t1: Term)
    | GenAbort(t1: Term)
    | Handle2a(t2: Term, decree: bool)
    | ApplyPrecommit
    | HandleStatus(from: NodeId, st: GTxState, commit: bool)
    | Handle2b(from2: NodeId, acc: Term, vote: bool)
    | Learn(outcome: bool)

  predicate Free(l: Local) {
    l.Live? && !l.gtx.busy
  }

  /** What the code checks before it takes a step. */
  ghost predicate Guard(s: State, x: NodeId, step: Step) {
    && x in s.nodes
    && var l := s.nodes[x];
       match step
       case GetPrepare => l.NoTrace?
       case Precommit =>
         // all generation members have acknowledged: see Cluster
         x == s.coord && l.Live? && l.gtx.busy && l.gtx.state.status == Invalid
       case CoordCommit(acked) =>
         && x == s.coord && l.Live? && l.gtx.busy && l.gtx.state.status == PreCommitted
         && x !in acked && (forall y :: y in acked ==> PrecommitAck(y) in s.msgs)
         && Quorum(|s.conf|, 1 + |acked|)
       case ReleaseGtx => x == s.coord && l.Live? && l.gtx.busy
       case ListOwn =>
         // finish_ready, under the lock: the backend is gone, and there was no precommit
         x == s.coord && Free(l) && l.gtx.state.status == Invalid
       case OwnAbort =>
         // mtm_commit_cleanup, or finish_ready later on, without looking at the state again
         x == s.coord && l.Live? && (if l.gtx.busy then l.gtx.state.accepted == NO_TERM else s.doomed)
       case Crash => true
       case Scatter(ballot) => Free(l) && Below(l.gtx.state.proposal, Term(ballot, x))
       case Handle1a(t) => Req1a(t) in s.msgs && t.node != x && (l.Live? ==> !l.gtx.busy)
       case GenAbort(t) =>
         // online in a later generation, and no PREPARE: see Cluster
         Req1a(t) in s.msgs && t.node != x && l.NoTrace?
       case Handle2a(t, decree) =>
         Req2a(t, decree) in s.msgs && t != INITIAL_TERM && t.node != x && Free(l) && Accepts(l.gtx, t)
       case ApplyPrecommit =>
         Precommitted(s) && x != s.coord && Free(l) && Accepts(l.gtx, INITIAL_TERM)
       case HandleStatus(from, st, commit) =>
         && Resp1b(from, x, st) in s.msgs && Free(l) && l.gtx.stage.AwaitStatus?
         && (DecidesNow(s.conf, x, l.gtx, from, st) ==>
               exists t :: IsMaxAccepted(Acks1(l.gtx, x, from, st), t) && TakesDecree(Acks1(l.gtx, x, from, st), t, commit))
       case Handle2b(from, acc, vote) =>
         Resp2b(from, x, acc, vote) in s.msgs && Free(l) && l.gtx.stage.AwaitAcks?
       case Learn(outcome) => Fin(outcome) in s.msgs && Free(l)
  }

  /** What generations rule out (GenSafety.DirectAbortSound): an answer "aborted" of a node
      without the PREPARE together with a precommit. */
  predicate Allowed(s: State, step: Step) {
    && (step.Precommit? ==> !s.genAborted)
    && (step.GenAbort? ==> !Precommitted(s))
  }

  ghost predicate Enabled(s: State, x: NodeId, step: Step) {
    Guard(s, x, step) && Allowed(s, step)
  }

  predicate Final(st: GTxState) {
    st.status == Committed || st.status == Aborted
  }

  /** This status response completes a majority for the resolver's own term. */
  predicate DecidesNow(conf: set<NodeId>, x: NodeId, g: Gtx, from: NodeId, st: GTxState) {
    !Final(st) && QuorumFor(conf, x, Acks1(g, x, from, st))
  }

  /** The decision loop ends on the decree of some answer with the greatest accepted term. */
  predicate TakesDecree(acks: map<NodeId, GTxState>, t: Term, commit: bool) {
    exists y :: y in acks && acks[y].proposal != NO_TERM && acks[y].accepted == t &&
      (acks[y].status == PreCommitted <==> commit)
  }

  /** Status responses of a node that has finished, or has nothing to say. */
  function FinalState(commit: bool): GTxState {
    GTxState(NO_TERM, NO_TERM, if commit then Committed else Aborted)
  }

  ghost function Apply(s: State, x: NodeId, step: Step): State
    requires Guard(s, x, step)
  {
    var l := s.nodes[x];
    match step
    case GetPrepare => s.Put(x, Live(NewGtx(x == s.coord)))
    case Precommit =>
      s.Put(x, Live(Vote2a(l.gtx, INITIAL_TERM, true)))
       .Send({Req2a(INITIAL_TERM, true)}).Cast(x, INITIAL_TERM, true)
    case CoordCommit(_) => s.Put(x, Done(true, l.gtx.state)).Send({Fin(true)})
    case ReleaseGtx => s.Put(x, Live(l.gtx.(busy := false)))
    case ListOwn => s.(doomed := true)
    case OwnAbort => s.Put(x, Done(false, l.gtx.state)).Send({Fin(false)}).(ownAborted := true)
    case Crash => if l.Live? then s.Put(x, Live(Reloaded(l.gtx))) else s
    case Scatter(ballot) =>
      s.Put(x, Live(Stamped(l.gtx, Term(ballot, x)))).Send({Req1a(Term(ballot, x))})
    case Handle1a(t) => (
      match l
      case NoTrace => s.Send({Resp1b(x, t.node, REFUSED)})
      case Live(g) => s.Put(x, Live(Answer1a(g, t).0)).Send({Resp1b(x, t.node, Answer1a(g, t).1)})
      case Done(commit, _) => s.Send({Resp1b(x, t.node, FinalState(commit))}))
    case GenAbort(t) => s.Send({Resp1b(x, t.node, FinalState(false))}).(genAborted := true)
    case Handle2a(t, decree) =>
      s.Put(x, Live(Vote2a(l.gtx, t, decree))).Send({Resp2b(x, t.node, t, decree)}).Cast(x, t, decree)
    case ApplyPrecommit =>
      s.Put(x, Live(Vote2a(l.gtx, INITIAL_TERM, true))).Send({PrecommitAck(x)}).Cast(x, INITIAL_TERM, true)
    case HandleStatus(from, st, commit) =>
      if Final(st) then
        s.Put(x, Done(st.status == Committed, l.gtx.state)).Send({Fin(st.status == Committed)})
      else
        var acks := Acks1(l.gtx, x, from, st);
        if DecidesNow(s.conf, x, l.gtx, from, st) then
          var t := l.gtx.state.proposal;
          s.Put(x, Live(Decided(l.gtx, acks, commit))).Send({Req2a(t, commit)}).Cast(x, t, commit)
        else s.Put(x, Live(l.gtx.(acks1 := acks)))
    case Handle2b(from, acc, vote) =>
      var acks := Acks2(l.gtx, x, from, VoteState(acc, vote));
      if QuorumFor(s.conf, x, acks) then s.Put(x, Done(vote, l.gtx.state)).Send({Fin(vote)})
      else s.Put(x, Live(l.gtx.(acks2 := acks)))
    case Learn(outcome) => s.Put(x, Done(outcome, l.gtx.state))
  }
}

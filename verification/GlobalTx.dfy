/**
  One node's view of one global transaction: the Paxos state of src/global_tx.c and what
  src/resolver.c, src/state.c, src/commit.c and src/pglogical_apply.c do to it, as functions.
  GlobalTxState.dfy holds the in-place operations proved against them.
 */
module GlobalTx {
  import opened Quorums

  datatype Term = Term(ballot: nat, node: NodeId)

  const NO_TERM := Term(0, 0)
  /** Used by the coordinator; below every term of a resolver. */
  const INITIAL_TERM := Term(1, 0)

  predicate Below(t: Term, u: Term) {
    t.ballot < u.ballot || (t.ballot == u.ballot && t.node < u.node)
  }

  predicate AtMost(t: Term, u: Term) {
    t == u || Below(t, u)
  }

  /** term_cmp */
  function TermCmp(t: Term, u: Term): (c: int)
    ensures c < 0 <==> Below(t, u)
    ensures c == 0 <==> t == u
    ensures c > 0 <==> Below(u, t)
  {
    if t.ballot < u.ballot then -1
    else if t.ballot == u.ballot then
      if t.node < u.node then -1 else if t.node == u.node then 0 else 1
    else 1
  }

  /** term_cmp orders the terms totally: with its contract, transitivity is what remains. */
  lemma TermOrder(t: Term, u: Term, v: Term)
    requires TermCmp(t, u) <= 0 && TermCmp(u, v) <= 0
    ensures TermCmp(t, v) <= 0 && (TermCmp(t, v) == 0 ==> t == u == v)
    ensures TermCmp(v, t) == -TermCmp(t, v)
  {
  }

  datatype Status = Invalid | PreCommitted | PreAborted | Committed | Aborted

  /** nextBal, prevBal and prevDec of the Part-Time Parliament. */
  datatype GTxState = GTxState(proposal: Term, accepted: Term, status: Status)

  /** State of a freshly prepared transaction (GlobalTxAcquire). */
  const FRESH := GTxState(INITIAL_TERM, NO_TERM, Invalid)
  /** A refusal, or a slot nobody has answered for. */
  const REFUSED := GTxState(NO_TERM, NO_TERM, Invalid)

  datatype Stage = AwaitStatus | AwaitAcks

  datatype Gtx = Gtx(
    state: GTxState,
    busy: bool,                       // acquired by the coordinator's backend
    stage: Stage,
    acks1: map<NodeId, GTxState>,
    acks2: map<NodeId, GTxState>)

  function NewGtx(busy: bool): Gtx {
    Gtx(FRESH, busy, AwaitStatus, map[], map[])
  }

  function Decree(commit: bool): Status {
    if commit then PreCommitted else PreAborted
  }

  function VoteState(t: Term, commit: bool): GTxState {
    GTxState(t, t, Decree(commit))
  }

  /** handle_1a_gtx: the new state and the reply. */
  function Answer1a(g: Gtx, t: Term): (Gtx, GTxState) {
    if Below(g.state.proposal, t) then
      var st := g.state.(proposal := t);
      (g.(state := st), st)
    else (g, REFUSED)
  }

  predicate Accepts(g: Gtx, t: Term) {
    AtMost(g.state.proposal, t)
  }

  /** handle_2a and PHASE2A apply, when paxos rules allow the vote. */
  function Vote2a(g: Gtx, t: Term, commit: bool): Gtx {
    g.(state := VoteState(t, commit))
  }

  /** GlobalTxLoadAll after a crash: only the Paxos state is on disk. */
  function Reloaded(g: Gtx): Gtx {
    Gtx(g.state, false, AwaitStatus, map[], map[])
  }

  /** scatter_status_requests */
  function Stamped(g: Gtx, t: Term): Gtx {
    g.(state := g.state.(proposal := t), stage := AwaitStatus)
  }

  /** Nodes whose recorded answer is for term t. */
  function Voters(acks: map<NodeId, GTxState>, t: Term): set<NodeId> {
    set y | y in acks && acks[y].proposal != NO_TERM && acks[y].proposal == t
  }

  /** quorum() of src/resolver.c */
  predicate QuorumFor(conf: set<NodeId>, me: NodeId, acks: map<NodeId, GTxState>)
    requires me in acks
  {
    && acks[me].proposal.node == me
    && Quorum(|conf|, |Voters(acks, acks[me].proposal)|)
  }

  /** t is the greatest accepted term among the recorded answers, stale ones included. */
  predicate IsMaxAccepted(acks: map<NodeId, GTxState>, t: Term) {
    && (exists y :: y in acks && acks[y].proposal != NO_TERM && acks[y].accepted == t)
    && (forall y :: y in acks && acks[y].proposal != NO_TERM ==> AtMost(acks[y].accepted, t))
  }

  /** All recorded answers that accepted t carry the same decree. */
  predicate Forced(acks: map<NodeId, GTxState>, t: Term, commit: bool) {
    forall y :: y in acks && acks[y].proposal != NO_TERM && acks[y].accepted == t ==>
      (acks[y].status == PreCommitted <==> commit)
  }

  /** One slot of an ack array; a refusal leaves it as if nobody had answered. */
  function SetAck(acks: map<NodeId, GTxState>, y: NodeId, st: GTxState): map<NodeId, GTxState> {
    if st == REFUSED then acks - {y} else acks[y := st]
  }

  /** The answers at hand when `from` answers `me`: its own state and the new one are filled in. */
  function Acks1(g: Gtx, me: NodeId, from: NodeId, st: GTxState): map<NodeId, GTxState> {
    SetAck(g.acks1, from, st)[me := g.state]
  }

  function Acks2(g: Gtx, me: NodeId, from: NodeId, st: GTxState): map<NodeId, GTxState> {
    SetAck(g.acks2, from, st)[me := g.state]
  }

  /** The second phase is entered with the decree of the greatest accepted term. */
  function Decided(g: Gtx, acks: map<NodeId, GTxState>, commit: bool): Gtx {
    g.(state := VoteState(g.state.proposal, commit), stage := AwaitAcks, acks1 := acks)
  }
}

/** The inductive invariant of CommitSystem. */
module CommitInvariant {
  import opened Quorums
  import opened GlobalTx
  import opened CommitSystem

  // ----- what is safe to vote for -----

  /** a has not voted at u and never will. */
  predicate WontVote(s: State, a: NodeId, u: Term) {
    && a in s.nodes && Below(u, s.StateOf(a).proposal)
    && Vote(a, u, true) !in s.votes && Vote(a, u, false) !in s.votes
  }

  predicate SafeVoter(s: State, a: NodeId, u: Term, commit: bool) {
    Vote(a, u, commit) in s.votes || WontVote(s, a, u)
  }

  ghost predicate SafeQuorum(s: State, q: set<NodeId>, u: Term, commit: bool) {
    IsQuorum(s.conf, q) && forall a :: a in q ==> SafeVoter(s, a, u, commit)
  }

  /** No decree but `commit` can ever be chosen at u. */
  ghost predicate SafeAtTerm(s: State, u: Term, commit: bool) {
    exists q :: SafeQuorum(s, q, u, commit)
  }

  ghost predicate SafeAt(s: State, t: Term, commit: bool) {
    forall u {:trigger SafeAtTerm(s, u, commit)} :: Below(u, t) ==> SafeAtTerm(s, u, commit)
  }

  ghost predicate Chosen(s: State, q: set<NodeId>, t: Term, commit: bool) {
    IsQuorum(s.conf, q) && forall a :: a in q ==> Vote(a, t, commit) in s.votes
  }

  /** The outcome may be acted upon. */
  ghost predicate Settled(s: State, commit: bool) {
    || (exists q, t :: Chosen(s, q, t, commit))
    || (!commit && (s.ownAborted || s.genAborted))
  }

  // ----- consistency of the recorded states -----

  /** The accepted term and decree of st are a vote of y. */
  predicate StOK(s: State, y: NodeId, st: GTxState) {
    && AtMost(st.accepted, st.proposal)
    && (|| (st.accepted == NO_TERM && st.status == Invalid)
        || (&& (st.status == PreCommitted || st.status == PreAborted)
            && AtMost(INITIAL_TERM, st.accepted)
            && Vote(y, st.accepted, st.status == PreCommitted) in s.votes))
  }

  /** st was reported by y when it promised st.proposal. */
  ghost predicate Promised(s: State, y: NodeId, st: GTxState) {
    && y in s.nodes && st.proposal != NO_TERM
    && AtMost(st.proposal, s.StateOf(y).proposal)
    && Below(st.accepted, st.proposal)
    && StOK(s, y, st)
    && forall v :: v in s.votes && v.node == y && Below(v.term, st.proposal) ==> AtMost(v.term, st.accepted)
  }

  /** A recorded answer to x, of the current or of an earlier term. */
  ghost predicate Ack1OK(s: State, x: NodeId, y: NodeId, st: GTxState) {
    && y in s.nodes && x in s.nodes && !Final(st)
    && (st.proposal == NO_TERM ||
        (Promised(s, y, st) && st.proposal.node == x && AtMost(st.proposal, s.StateOf(x).proposal)))
  }

  predicate Ack2OK(s: State, x: NodeId, y: NodeId, st: GTxState) {
    && y in s.nodes && st.proposal.node == x
    && (st == VoteState(st.proposal, true) || st == VoteState(st.proposal, false))
    && Vote(y, st.proposal, st.status == PreCommitted) in s.votes
  }

  ghost predicate GtxOK(s: State, x: NodeId, g: Gtx) {
    && (g.busy ==> x == s.coord && (g.state == FRESH || g.state == VoteState(INITIAL_TERM, true)))
    && (forall y {:trigger Ack1OK(s, x, y, g.acks1[y])} :: y in g.acks1 && y != x ==> Ack1OK(s, x, y, g.acks1[y]))
    && (forall y {:trigger Ack2OK(s, x, y, g.acks2[y])} :: y in g.acks2 && y != x ==> Ack2OK(s, x, y, g.acks2[y]))
    && (g.state.proposal.node == x ==> Phase2OK(s.conf, x, g))
  }

  /** No majority of second phase answers has been overlooked. */
  predicate Phase2OK(conf: set<NodeId>, x: NodeId, g: Gtx) {
    if g.stage.AwaitStatus? then Voters(g.acks2 - {x}, g.state.proposal) == {}
    else
      && g.state.accepted == g.state.proposal
      && !Quorum(|conf|, |Voters(g.acks2[x := g.state], g.state.proposal)|)
  }

  ghost predicate NodeOK(s: State, x: NodeId)
    requires x in s.nodes
  {
    && AtMost(INITIAL_TERM, s.StateOf(x).proposal)
    && StOK(s, x, s.StateOf(x))
    && (match s.nodes[x]
        case NoTrace => true
        case Live(g) => GtxOK(s, x, g)
        case Done(commit, _) => Settled(s, commit))
  }

  ghost predicate VoteOK(s: State, v: Vote) {
    && v.node in s.nodes
    && Req2a(v.term, v.commit) in s.msgs
    && AtMost(INITIAL_TERM, v.term) && AtMost(v.term, s.StateOf(v.node).accepted)
  }

  /** The resolver that opened t has voted for its decree itself. */
  predicate OwnTerm(s: State, t: Term, commit: bool) {
    && t.node in s.nodes
    && AtMost(t, s.StateOf(t.node).proposal)
    && (s.StateOf(t.node).proposal == t ==> s.StateOf(t.node) == VoteState(t, commit))
  }

  ghost predicate MsgOK(s: State, m: Msg) {
    match m
    case Req1a(t) =>
      t.node in s.nodes && Below(INITIAL_TERM, t) && AtMost(t, s.StateOf(t.node).proposal)
    case Resp1b(y, to, st) =>
      && y in s.nodes && to in s.nodes && y != to
      && (if Final(st) then Settled(s, st.status == Committed) else Ack1OK(s, to, y, st))
    case Req2a(t, commit) =>
      && SafeAt(s, t, commit)
      && AtMost(INITIAL_TERM, t)
      && (commit ==> Precommitted(s))
      && (if t == INITIAL_TERM then commit && Vote(s.coord, t, true) in s.votes else OwnTerm(s, t, commit))
    case Resp2b(y, to, t, commit) =>
      y in s.nodes && y != to && t.node == to && Vote(y, t, commit) in s.votes
    case PrecommitAck(y) => y in s.nodes && Vote(y, INITIAL_TERM, true) in s.votes
    case Fin(commit) => Settled(s, commit)
  }

  /** One decree per term. */
  ghost predicate OneDecree(s: State) {
    forall t :: !(Req2a(t, true) in s.msgs && Req2a(t, false) in s.msgs)
  }

  predicate AbortOK(s: State) {
    && (s.ownAborted ==> s.coord in s.nodes && s.nodes[s.coord].Done? && !Precommitted(s))
    && (s.genAborted ==> !Precommitted(s))
    && (s.doomed ==> !Precommitted(s) && Orphaned(s))
  }

  /** The coordinator's backend has let go of the transaction, for good. */
  predicate Orphaned(s: State) {
    s.coord in s.nodes && (s.nodes[s.coord].Done? || Free(s.nodes[s.coord]))
  }

  ghost predicate Inv(s: State) {
    && s.nodes.Keys == s.conf && s.coord in s.conf && 0 !in s.conf
    && (forall x {:trigger NodeOK(s, x)} :: x in s.nodes ==> NodeOK(s, x))
    && (forall v {:trigger VoteOK(s, v)} :: v in s.votes ==> VoteOK(s, v))
    && (forall m {:trigger MsgOK(s, m)} :: m in s.msgs ==> MsgOK(s, m))
    && OneDecree(s)
    && AbortOK(s)
  }

  lemma InitInv(s: State)
    requires Init(s)
    ensures Inv(s)
  {
  }

  // ----- agreement in one state -----

  lemma ChosenAgree(s: State, q: set<NodeId>, t: Term, c: bool, q': set<NodeId>, t': Term, c': bool)
    requires Inv(s) && Chosen(s, q, t, c) && Chosen(s, q', t', c') && AtMost(t, t')
    ensures c == c'
  {
    var b := QuorumsMeet(s.conf, q, q');
    assert VoteOK(s, Vote(b, t, c)) && VoteOK(s, Vote(b, t', c'));
    if t != t' {
      assert MsgOK(s, Req2a(t', c'));
      assert SafeAtTerm(s, t, c');
      var r :| SafeQuorum(s, r, t, c');
      var a := QuorumsMeet(s.conf, q, r);
      assert SafeVoter(s, a, t, c') && VoteOK(s, Vote(a, t, c));
      if Vote(a, t, c') in s.votes { assert VoteOK(s, Vote(a, t, c')); }
    }
  }

  /** Nobody may act on commit while somebody may act on abort. */
  lemma SettledAgree(s: State)
    requires Inv(s)
    ensures !(Settled(s, true) && Settled(s, false))
  {
    if Settled(s, true) && Settled(s, false) {
      CommitNeedsPrecommit(s);
      var q, t :| Chosen(s, q, t, true);
      if exists q', t' :: Chosen(s, q', t', false) {
        var q', t' :| Chosen(s, q', t', false);
        if AtMost(t, t') {
          ChosenAgree(s, q, t, true, q', t', false);
        } else {
          ChosenAgree(s, q', t', false, q, t, true);
        }
      }
    }
  }

  lemma CommitNeedsPrecommit(s: State)
    requires Inv(s) && Settled(s, true)
    ensures Precommitted(s)
  {
    var q, t :| Chosen(s, q, t, true);
    var y := QuorumsMeet(s.conf, q, q);
    assert VoteOK(s, Vote(y, t, true));
    assert MsgOK(s, Req2a(t, true));
  }
}

/** Every step of CommitSystem keeps the invariant. */
module CommitProof {
  import opened Quorums
  import opened GlobalTx
  import opened CommitSystem
  import opened CommitInvariant

  // ----- what never goes back -----

  ghost predicate Grows(s: State, s': State) {
    && s'.conf == s.conf && s'.coord == s.coord && s'.nodes.Keys == s.nodes.Keys
    && s.msgs <= s'.msgs && s.votes <= s'.votes
    && (s.ownAborted ==> s'.ownAborted) && (s.genAborted ==> s'.genAborted) && (s.doomed ==> s'.doomed)
    && (forall y {:trigger s'.StateOf(y)} :: y in s.nodes ==> StateGrows(s.StateOf(y), s'.StateOf(y)))
    && (forall v {:trigger v in s'.votes} :: v in s'.votes && v !in s.votes ==> NewVote(s, s', v))
  }

  predicate StateGrows(st: GTxState, st': GTxState) {
    && AtMost(st.proposal, st'.proposal)
    && AtMost(st.accepted, st'.accepted)
  }

  predicate NewVote(s: State, s': State, v: Vote) {
    && v.node in s.nodes && v.node in s'.nodes
    && AtMost(s.StateOf(v.node).proposal, v.term)
    && s'.StateOf(v.node) == VoteState(v.term, v.commit)
  }

  lemma StepGrows(s: State, x: NodeId, step: Step)
    requires Inv(s) && Enabled(s, x, step)
    ensures Grows(s, Apply(s, x, step))
  {
    assert NodeOK(s, x);
    match step
    case Precommit => VoteGrows(s, x, step);
    case Handle2a(_, _) => VoteGrows(s, x, step);
    case ApplyPrecommit => VoteGrows(s, x, step);
    case HandleStatus(_, _, _) => StatusGrows(s, x, step);
    case Handle2b(_, _, _) => Phase2Grows(s, x, step);
    case _ => QuietGrows(s, x, step);
  }

  lemma VoteGrows(s: State, x: NodeId, step: Step)
    requires Inv(s) && Enabled(s, x, step) && (step.Precommit? || step.Handle2a? || step.ApplyPrecommit?)
    ensures Grows(s, Apply(s, x, step))
  {
    assert NodeOK(s, x);
  }

  lemma StatusGrows(s: State, x: NodeId, step: Step)
    requires Inv(s) && Enabled(s, x, step) && step.HandleStatus?
    ensures Grows(s, Apply(s, x, step))
  {
    if DecidesNow(s.conf, x, s.nodes[x].gtx, step.from, step.st) {
      DecisionGrows(s, x, step);
    } else {
      AnswerGrows(s, x, step);
    }
  }

  lemma DecisionGrows(s: State, x: NodeId, step: Step)
    requires Inv(s) && Enabled(s, x, step) && step.HandleStatus? && DecidesNow(s.conf, x, s.nodes[x].gtx, step.from, step.st)
    ensures Grows(s, Apply(s, x, step))
  {
    assert NodeOK(s, x);
  }

  lemma AnswerGrows(s: State, x: NodeId, step: Step)
    requires Inv(s) && Enabled(s, x, step) && step.HandleStatus? && !DecidesNow(s.conf, x, s.nodes[x].gtx, step.from, step.st)
    ensures Grows(s, Apply(s, x, step))
  {
  }

  lemma Phase2Grows(s: State, x: NodeId, step: Step)
    requires Inv(s) && Enabled(s, x, step) && step.Handle2b?
    ensures Grows(s, Apply(s, x, step))
  {
  }

  /** A step at x without a vote. */
  lemma PutGrows(s: State, s': State, x: NodeId)
    requires x in s.nodes && x in s'.nodes && s'.nodes == s.nodes[x := s'.nodes[x]] && StateGrows(s.StateOf(x), s'.StateOf(x))
    requires s'.conf == s.conf && s'.coord == s.coord && s.msgs <= s'.msgs && s'.votes == s.votes
    requires (s.ownAborted ==> s'.ownAborted) && (s.genAborted ==> s'.genAborted) && (s.doomed ==> s'.doomed)
    ensures Grows(s, s')
  {
  }

  lemma QuietGrows(s: State, x: NodeId, step: Step)
    requires Enabled(s, x, step)
    requires !(step.Precommit? || step.Handle2a? || step.ApplyPrecommit? || step.HandleStatus? || step.Handle2b?)
    ensures Grows(s, Apply(s, x, step))
  {
    match step
    case GetPrepare => LocalGrows(s, x, step);
    case ReleaseGtx => LocalGrows(s, x, step);
    case ListOwn => LocalGrows(s, x, step);
    case Crash => LocalGrows(s, x, step);
    case Scatter(ballot) => PutGrows(s, Apply(s, x, Scatter(ballot)), x);
    case Handle1a(t) => PromiseGrows(s, x, t);
    case GenAbort(t) => PutGrows(s, Apply(s, x, GenAbort(t)), x);
    case _ => FinishGrows(s, x, step);
  }

  lemma LocalGrows(s: State, x: NodeId, step: Step)
    requires Enabled(s, x, step) && (step.GetPrepare? || step.ReleaseGtx? || step.ListOwn? || step.Crash?)
    ensures Grows(s, Apply(s, x, step))
  {
    PutGrows(s, Apply(s, x, step), x);
  }

  lemma PromiseGrows(s: State, x: NodeId, t: Term)
    requires Enabled(s, x, Handle1a(t))
    ensures Grows(s, Apply(s, x, Handle1a(t)))
  {
    PutGrows(s, Apply(s, x, Handle1a(t)), x);
  }

  lemma FinishGrows(s: State, x: NodeId, step: Step)
    requires Enabled(s, x, step) && (step.CoordCommit? || step.OwnAbort? || step.Learn?)
    ensures Grows(s, Apply(s, x, step))
  {
    PutGrows(s, Apply(s, x, step), x);
  }

  lemma SafeStays(s: State, s': State, t: Term, commit: bool)
    requires Grows(s, s') && SafeAt(s, t, commit)
    ensures SafeAt(s', t, commit)
  {
    forall u | Below(u, t)
      ensures SafeAtTerm(s', u, commit)
    {
      assert SafeAtTerm(s, u, commit);
      var q :| SafeQuorum(s, q, u, commit);
      forall a | a in q
        ensures SafeVoter(s', a, u, commit)
      {
        assert SafeVoter(s, a, u, commit);
        if Vote(a, u, commit) !in s.votes { WontVoteStays(s, s', a, u); }
      }
      assert SafeQuorum(s', q, u, commit);
    }
  }

  lemma WontVoteStays(s: State, s': State, a: NodeId, u: Term)
    requires Grows(s, s') && WontVote(s, a, u)
    ensures WontVote(s', a, u)
  {
    assert StateGrows(s.StateOf(a), s'.StateOf(a));
    assert Vote(a, u, true) in s'.votes ==> NewVote(s, s', Vote(a, u, true));
    assert Vote(a, u, false) in s'.votes ==> NewVote(s, s', Vote(a, u, false));
  }

  lemma SettledStays(s: State, s': State, commit: bool)
    requires Grows(s, s') && Settled(s, commit)
    ensures Settled(s', commit)
  {
    if exists q, t :: Chosen(s, q, t, commit) {
      var q, t :| Chosen(s, q, t, commit);
      assert Chosen(s', q, t, commit);
    }
  }

  lemma PromiseStays(s: State, s': State, y: NodeId, st: GTxState)
    requires Grows(s, s') && Promised(s, y, st)
    ensures Promised(s', y, st)
  {
    assert StateGrows(s.StateOf(y), s'.StateOf(y));
  }

  lemma Ack1Stays(s: State, s': State, x: NodeId, y: NodeId, st: GTxState)
    requires Grows(s, s') && Ack1OK(s, x, y, st)
    ensures Ack1OK(s', x, y, st)
  {
    assert StateGrows(s.StateOf(x), s'.StateOf(x));
    if st.proposal != NO_TERM { PromiseStays(s, s', y, st); }
  }

  lemma VoteStays(s: State, s': State, v: Vote)
    requires Grows(s, s') && VoteOK(s, v)
    ensures VoteOK(s', v)
  {
    assert StateGrows(s.StateOf(v.node), s'.StateOf(v.node));
  }

  // ----- messages -----

  lemma OldMsg(s: State, x: NodeId, step: Step, m: Msg)
    requires Inv(s) && Enabled(s, x, step) && m in s.msgs
    ensures MsgOK(Apply(s, x, step), m)
  {
    var s' := Apply(s, x, step);
    StepGrows(s, x, step);
    assert MsgOK(s, m);
    match m
    case Req1a(t) => assert StateGrows(s.StateOf(t.node), s'.StateOf(t.node));
    case Resp1b(y, to, st) =>
      if Final(st) { SettledStays(s, s', st.status == Committed); } else { Ack1Stays(s, s', to, y, st); }
    case Req2a(t, commit) =>
      SafeStays(s, s', t, commit);
      if t != INITIAL_TERM { OwnTermStays(s, x, step, t, commit); }
    case Fin(commit) => SettledStays(s, s', commit);
    case _ =>
  }

  lemma OwnTermStays(s: State, x: NodeId, step: Step, t: Term, commit: bool)
    requires Inv(s) && Enabled(s, x, step) && Req2a(t, commit) in s.msgs && t != INITIAL_TERM
    requires OwnTerm(s, t, commit)
    ensures OwnTerm(Apply(s, x, step), t, commit)
  {
    var s' := Apply(s, x, step);
    StepGrows(s, x, step);
    assert StateGrows(s.StateOf(t.node), s'.StateOf(t.node));
    if x == t.node && s.StateOf(x).proposal == s'.StateOf(x).proposal == t { SameTerm(s, x, step, commit); }
  }

  /** A resolver that has voted at its term keeps that state while it keeps the term. */
  lemma SameTerm(s: State, x: NodeId, step: Step, commit: bool)
    requires Inv(s) && Enabled(s, x, step)
    requires s.StateOf(x) == VoteState(s.StateOf(x).proposal, commit) && s.StateOf(x).proposal.node == x
    requires s.StateOf(x).proposal != INITIAL_TERM
    requires x in Apply(s, x, step).nodes && Apply(s, x, step).StateOf(x).proposal == s.StateOf(x).proposal
    ensures Apply(s, x, step).StateOf(x) == s.StateOf(x)
  {
    if step.HandleStatus? && DecidesNow(s.conf, x, s.nodes[x].gtx, step.from, step.st) {
      DecisionForced(s, x, step.from, step.st, step.commit, commit);
    }
  }

  // ----- the decision of a resolver -----

  /** The answers a resolver holds when it decides. */
  lemma RecordedAnswer(s: State, x: NodeId, from: NodeId, st: GTxState, y: NodeId)
    requires Inv(s) && x in s.nodes && Free(s.nodes[x]) && Resp1b(from, x, st) in s.msgs && !Final(st)
    requires y in Acks1(s.nodes[x].gtx, x, from, st) && y != x
    ensures Ack1OK(s, x, y, Acks1(s.nodes[x].gtx, x, from, st)[y])
  {
    var g := s.nodes[x].gtx;
    assert NodeOK(s, x) && MsgOK(s, Resp1b(from, x, st));
    if y != from { assert Ack1OK(s, x, y, g.acks1[y]); }
  }

  /** A resolver that comes back to a term it has already opened takes the same decree. */
  lemma DecisionForced(s: State, x: NodeId, from: NodeId, st: GTxState, c: bool, commit: bool)
    requires Inv(s) && Enabled(s, x, HandleStatus(from, st, c)) && DecidesNow(s.conf, x, s.nodes[x].gtx, from, st)
    requires s.StateOf(x) == VoteState(s.StateOf(x).proposal, commit)
    ensures c == commit
  {
    var g := s.nodes[x].gtx;
    var acks := Acks1(g, x, from, st);
    assert MsgOK(s, Resp1b(from, x, st)) && NodeOK(s, x);
    var t :| IsMaxAccepted(acks, t) && TakesDecree(acks, t, c);
    assert acks[x] == g.state;
    var y :| y in acks && acks[y].proposal != NO_TERM && acks[y].accepted == t && (acks[y].status == PreCommitted <==> c);
    if y != x { RecordedAnswer(s, x, from, st, y); }
  }

  /** The votes of a node counted in the majority, below the new term. */
  lemma CountedAnswer(s: State, x: NodeId, from: NodeId, st: GTxState, a: NodeId, v: Vote)
    requires Inv(s) && x in s.nodes && Free(s.nodes[x]) && Resp1b(from, x, st) in s.msgs && !Final(st)
    requires a in Voters(Acks1(s.nodes[x].gtx, x, from, st), s.StateOf(x).proposal)
    ensures a in s.nodes && AtMost(s.StateOf(x).proposal, s.StateOf(a).proposal)
    ensures v in s.votes && v.node == a && Below(v.term, s.StateOf(x).proposal) ==>
              AtMost(v.term, Acks1(s.nodes[x].gtx, x, from, st)[a].accepted)
  {
    assert MsgOK(s, Resp1b(from, x, st));
    if a != x { RecordedAnswer(s, x, from, st, a); }
    if v in s.votes { assert VoteOK(s, v); }
  }

  /** From the greatest accepted term on, the majority itself shows that nothing else is chosen. */
  lemma MajoritySafe(s: State, x: NodeId, from: NodeId, st: GTxState, m: Term, u: Term, c: bool)
    requires Inv(s) && x in s.nodes && Free(s.nodes[x]) && Resp1b(from, x, st) in s.msgs && !Final(st)
    requires QuorumFor(s.conf, x, Acks1(s.nodes[x].gtx, x, from, st))
    requires IsMaxAccepted(Acks1(s.nodes[x].gtx, x, from, st), m)
    requires m == NO_TERM || Req2a(m, c) in s.msgs
    requires AtMost(m, u) && Below(u, s.StateOf(x).proposal)
    ensures SafeAtTerm(s, u, c)
  {
    var acks := Acks1(s.nodes[x].gtx, x, from, st);
    assert MsgOK(s, Resp1b(from, x, st));
    assert acks[x] == s.StateOf(x);
    var q := Voters(acks, s.StateOf(x).proposal);
    forall a | a in q
      ensures SafeVoter(s, a, u, c) && a in s.nodes
    {
      CountedAnswer(s, x, from, st, a, Vote(a, u, c));
      CountedAnswer(s, x, from, st, a, Vote(a, u, !c));
      assert Vote(a, u, !c) in s.votes ==> VoteOK(s, Vote(a, u, !c));
    }
    assert SafeQuorum(s, q, u, c);
  }

  lemma RecordedVote(s: State, x: NodeId, from: NodeId, st: GTxState, y: NodeId)
    requires Inv(s) && x in s.nodes && Free(s.nodes[x]) && Resp1b(from, x, st) in s.msgs && !Final(st)
    requires y in Acks1(s.nodes[x].gtx, x, from, st)
    requires Acks1(s.nodes[x].gtx, x, from, st)[y].proposal != NO_TERM
    ensures var e := Acks1(s.nodes[x].gtx, x, from, st)[y];
            && StOK(s, y, e)
            && (e.accepted != NO_TERM ==> Req2a(e.accepted, e.status == PreCommitted) in s.msgs)
            && (y != x ==> Below(e.accepted, s.StateOf(x).proposal))
  {
    assert MsgOK(s, Resp1b(from, x, st)) && NodeOK(s, x);
    var e := Acks1(s.nodes[x].gtx, x, from, st)[y];
    if y != x { RecordedAnswer(s, x, from, st, y); }
    if e.accepted != NO_TERM { assert VoteOK(s, Vote(y, e.accepted, e.status == PreCommitted)); }
  }

  /** Decrees recorded for the greatest accepted term agree: the asserts of handle_response hold. */
  lemma DecreeForced(s: State, x: NodeId, from: NodeId, st: GTxState, t: Term, y: NodeId, z: NodeId)
    requires Inv(s) && x in s.nodes && Free(s.nodes[x]) && Resp1b(from, x, st) in s.msgs && !Final(st)
    requires var acks := Acks1(s.nodes[x].gtx, x, from, st);
             && y in acks && acks[y].proposal != NO_TERM && acks[y].accepted == t
             && z in acks && acks[z].proposal != NO_TERM && acks[z].accepted == t
    ensures var acks := Acks1(s.nodes[x].gtx, x, from, st);
            acks[y].status == acks[z].status
  {
    RecordedVote(s, x, from, st, y);
    RecordedVote(s, x, from, st, z);
  }

  lemma DecisionSafe(s: State, x: NodeId, from: NodeId, st: GTxState, c: bool)
    requires Inv(s) && Enabled(s, x, HandleStatus(from, st, c)) && DecidesNow(s.conf, x, s.nodes[x].gtx, from, st)
    ensures var t := s.StateOf(x).proposal;
            t.node == x && SafeAt(s, t, c) && (c ==> Precommitted(s)) && Req2a(t, !c) !in s.msgs
  {
    var g, t := s.nodes[x].gtx, s.StateOf(x).proposal;
    var acks := Acks1(g, x, from, st);
    assert NodeOK(s, x) && MsgOK(s, Resp1b(from, x, st));
    assert acks[x] == g.state;
    var m :| IsMaxAccepted(acks, m) && TakesDecree(acks, m, c);
    var y :| y in acks && acks[y].proposal != NO_TERM && acks[y].accepted == m && (acks[y].status == PreCommitted <==> c);
    RecordedVote(s, x, from, st, y);
    if m != NO_TERM { assert MsgOK(s, Req2a(m, c)); }
    if m != t {
      forall u | Below(u, t)
        ensures SafeAtTerm(s, u, c)
      {
        if AtMost(m, u) { MajoritySafe(s, x, from, st, m, u, c); }
      }
      if Req2a(t, !c) in s.msgs { TermNotOpened(s, x, t, !c); }
    }
  }

  lemma TermNotOpened(s: State, x: NodeId, t: Term, c: bool)
    requires Inv(s) && x in s.nodes && s.StateOf(x).proposal == t && t.node == x && Req2a(t, c) in s.msgs
    ensures s.StateOf(x).accepted == t
  {
    assert MsgOK(s, Req2a(t, c));
  }

  // ----- the second phase -----

  /** A majority of second phase answers is completed by an answer for the resolver's own term,
      and it carries the resolver's own decree. */
  lemma Phase2Decree(s: State, x: NodeId, from: NodeId, acc: Term, vote: bool)
    requires Inv(s) && Enabled(s, x, Handle2b(from, acc, vote))
    requires QuorumFor(s.conf, x, Acks2(s.nodes[x].gtx, x, from, VoteState(acc, vote)))
    ensures acc == s.StateOf(x).proposal && s.StateOf(x).status == Decree(vote)
    ensures Chosen(s, Voters(Acks2(s.nodes[x].gtx, x, from, VoteState(acc, vote)), acc), acc, vote)
  {
    var g := s.nodes[x].gtx;
    var t := g.state.proposal;
    var acks := Acks2(g, x, from, VoteState(acc, vote));
    assert NodeOK(s, x) && MsgOK(s, Resp2b(from, x, acc, vote));
    assert acks[x] == g.state;
    if acc != t {
      assert Voters(acks, t) <= Voters(g.acks2[x := g.state], t);
      SubsetSize(Voters(acks, t), Voters(g.acks2[x := g.state], t));
      assert false;
    }
    assert VoteOK(s, Vote(from, t, vote));
    assert VoteOK(s, Vote(x, t, g.state.status == PreCommitted));
    var q := Voters(acks, t);
    forall a | a in q
      ensures Vote(a, t, vote) in s.votes && a in s.conf
    {
      if a != x && a != from {
        assert Ack2OK(s, x, a, g.acks2[a]);
        assert VoteOK(s, Vote(a, t, g.acks2[a].status == PreCommitted));
      }
    }
  }

  // ----- new messages -----

  lemma InitialSafe(s: State)
    requires Inv(s)
    ensures SafeAt(s, INITIAL_TERM, true)
  {
    forall u | Below(u, INITIAL_TERM)
      ensures SafeAtTerm(s, u, true)
    {
      forall a | a in s.conf
        ensures SafeVoter(s, a, u, true)
      {
        assert NodeOK(s, a);
        assert Vote(a, u, true) in s.votes ==> VoteOK(s, Vote(a, u, true));
        assert Vote(a, u, false) in s.votes ==> VoteOK(s, Vote(a, u, false));
      }
      assert SafeQuorum(s, s.conf, u, true);
    }
  }

  lemma NewMsg(s: State, x: NodeId, step: Step, m: Msg)
    requires Inv(s) && Enabled(s, x, step) && m in Apply(s, x, step).msgs && m !in s.msgs
    ensures MsgOK(Apply(s, x, step), m)
  {
    var s' := Apply(s, x, step);
    StepGrows(s, x, step);
    assert NodeOK(s, x);
    match step
    case Precommit => InitialSafe(s); SafeStays(s, s', INITIAL_TERM, true);
    case CoordCommit(acked) => CommitChosen(s, x, acked); SettledStays(s, s', true);
    case Handle1a(t) => NewAnswer(s, x, t);
    case GenAbort(t) => assert MsgOK(s, Req1a(t));
    case HandleStatus(from, st, c) => NewDecision(s, x, from, st, c, m);
    case Handle2b(from, acc, vote) => NewOutcome(s, x, from, acc, vote, m);
    case Scatter(ballot) => NewRequest(s, x, ballot, m);
    case OwnAbort => assert m == Fin(false);
    case _ => NewVoteMsg(s, x, step, m);
  }

  lemma NewRequest(s: State, x: NodeId, ballot: nat, m: Msg)
    requires Inv(s) && Enabled(s, x, Scatter(ballot)) && m in Apply(s, x, Scatter(ballot)).msgs && m !in s.msgs
    ensures MsgOK(Apply(s, x, Scatter(ballot)), m)
  {
    assert NodeOK(s, x);
  }

  lemma NewVoteMsg(s: State, x: NodeId, step: Step, m: Msg)
    requires Enabled(s, x, step) && m in Apply(s, x, step).msgs && m !in s.msgs
    requires step.GetPrepare? || step.ReleaseGtx? || step.ListOwn? || step.Crash? || step.Handle2a? || step.ApplyPrecommit? || step.Learn?
    ensures MsgOK(Apply(s, x, step), m)
  {
  }

  lemma NewOutcome(s: State, x: NodeId, from: NodeId, acc: Term, vote: bool, m: Msg)
    requires Inv(s) && Enabled(s, x, Handle2b(from, acc, vote))
    requires m in Apply(s, x, Handle2b(from, acc, vote)).msgs && m !in s.msgs
    ensures MsgOK(Apply(s, x, Handle2b(from, acc, vote)), m)
  {
    StepGrows(s, x, Handle2b(from, acc, vote));
    Phase2Decree(s, x, from, acc, vote);
    SettledStays(s, Apply(s, x, Handle2b(from, acc, vote)), vote);
  }

  lemma CommitChosen(s: State, x: NodeId, acked: set<NodeId>)
    requires Inv(s) && Enabled(s, x, CoordCommit(acked))
    ensures Settled(s, true)
  {
    assert NodeOK(s, x);
    forall y | y in acked
      ensures y in s.nodes && Vote(y, INITIAL_TERM, true) in s.votes
    {
      assert MsgOK(s, PrecommitAck(y));
    }
    assert Chosen(s, acked + {x}, INITIAL_TERM, true);
  }

  lemma NewAnswer(s: State, x: NodeId, t: Term)
    requires Inv(s) && Enabled(s, x, Handle1a(t))
    ensures forall m :: m in Apply(s, x, Handle1a(t)).msgs && m !in s.msgs ==> MsgOK(Apply(s, x, Handle1a(t)), m)
  {
    var s' := Apply(s, x, Handle1a(t));
    StepGrows(s, x, Handle1a(t));
    assert MsgOK(s, Req1a(t)) && NodeOK(s, x);
    match s.nodes[x]
    case Live(g) =>
      var st := Answer1a(g, t).1;
      if st != REFUSED {
        forall v | v in s'.votes && v.node == x
          ensures AtMost(v.term, st.accepted)
        {
          assert VoteOK(s, v);
        }
        assert Promised(s', x, st);
      }
    case Done(commit, _) => SettledStays(s, s', commit);
    case NoTrace =>
  }

  lemma NewDecision(s: State, x: NodeId, from: NodeId, st: GTxState, c: bool, m: Msg)
    requires Inv(s) && Enabled(s, x, HandleStatus(from, st, c))
    requires m in Apply(s, x, HandleStatus(from, st, c)).msgs && m !in s.msgs
    ensures MsgOK(Apply(s, x, HandleStatus(from, st, c)), m)
  {
    var s' := Apply(s, x, HandleStatus(from, st, c));
    StepGrows(s, x, HandleStatus(from, st, c));
    assert MsgOK(s, Resp1b(from, x, st)) && NodeOK(s, x);
    if Final(st) {
      SettledStays(s, s', st.status == Committed);
    } else {
      DecisionSafe(s, x, from, st, c);
      SafeStays(s, s', s.StateOf(x).proposal, c);
    }
  }

  /** Only a precommit or a decision sends a decree. */
  lemma NoNewDecree(s: State, x: NodeId, step: Step, t: Term, commit: bool)
    requires Enabled(s, x, step) && !step.Precommit? && !step.HandleStatus? && Req2a(t, commit) in Apply(s, x, step).msgs
    ensures Req2a(t, commit) in s.msgs
  {
    match step
    case Handle1a(u) => if s.nodes[x].Live? { assert Answer1a(s.nodes[x].gtx, u) == Answer1a(s.nodes[x].gtx, u); }
    case _ =>
  }

  lemma StepOneDecree(s: State, x: NodeId, step: Step)
    requires Inv(s) && Enabled(s, x, step)
    ensures OneDecree(Apply(s, x, step))
  {
    match step
    case Precommit =>
      assert Req2a(INITIAL_TERM, false) in s.msgs ==> MsgOK(s, Req2a(INITIAL_TERM, false));
    case HandleStatus(from, st, c) => DecisionOneDecree(s, x, from, st, c);
    case _ =>
      forall t | Req2a(t, true) in Apply(s, x, step).msgs
        ensures Req2a(t, false) !in Apply(s, x, step).msgs
      {
        NoNewDecree(s, x, step, t, true);
        if Req2a(t, false) in Apply(s, x, step).msgs { NoNewDecree(s, x, step, t, false); }
      }
  }

  lemma DecisionOneDecree(s: State, x: NodeId, from: NodeId, st: GTxState, c: bool)
    requires Inv(s) && Enabled(s, x, HandleStatus(from, st, c))
    ensures OneDecree(Apply(s, x, HandleStatus(from, st, c)))
  {
    if DecidesNow(s.conf, x, s.nodes[x].gtx, from, st) { DecisionSafe(s, x, from, st, c); }
  }

  /** Nothing that concerns direct aborts has changed. */
  lemma AbortStays(s: State, s': State)
    requires AbortOK(s) && s'.coord == s.coord && s'.nodes.Keys == s.nodes.Keys && (Precommitted(s') ==> Precommitted(s))
    requires s'.ownAborted == s.ownAborted && s'.genAborted == s.genAborted && s'.doomed == s.doomed
    requires s.coord in s.nodes && (s.nodes[s.coord].Done? ==> s'.nodes[s.coord].Done?) && (Orphaned(s) ==> Orphaned(s'))
    ensures AbortOK(s')
  {
  }

  lemma StepAbortOK(s: State, x: NodeId, step: Step)
    requires Inv(s) && Enabled(s, x, step)
    ensures AbortOK(Apply(s, x, step))
  {
    match step
    case Precommit => PrecommitAbortOK(s, x);
    case ListOwn => ListedInTime(s, x);
    case OwnAbort => NotPrecommitted(s, x);
    case GenAbort(_) =>
    case HandleStatus(from, st, c) => DecisionAbortOK(s, x, from, st, c);
    case Handle2b(_, _, _) => TalkAbortOK(s, x, step);
    case Handle2a(_, _) => TalkAbortOK(s, x, step);
    case ApplyPrecommit => TalkAbortOK(s, x, step);
    case Handle1a(t) => PromiseAbortOK(s, x, t);
    case _ => LocalAbortOK(s, x, step);
  }

  lemma LocalAbortOK(s: State, x: NodeId, step: Step)
    requires Enabled(s, x, step) && AbortOK(s) && s.coord in s.nodes
    requires step.GetPrepare? || step.ReleaseGtx? || step.Crash? || step.Learn? || step.CoordCommit? || step.Scatter?
    ensures AbortOK(Apply(s, x, step))
  {
    AbortStays(s, Apply(s, x, step));
  }

  lemma TalkAbortOK(s: State, x: NodeId, step: Step)
    requires Enabled(s, x, step) && AbortOK(s) && s.coord in s.nodes
    requires step.Handle2a? || step.ApplyPrecommit? || step.Handle2b?
    ensures AbortOK(Apply(s, x, step))
  {
    AbortStays(s, Apply(s, x, step));
  }

  lemma PromiseAbortOK(s: State, x: NodeId, t: Term)
    requires Enabled(s, x, Handle1a(t)) && AbortOK(s) && s.coord in s.nodes
    ensures AbortOK(Apply(s, x, Handle1a(t)))
  {
    AbortStays(s, Apply(s, x, Handle1a(t)));
  }

  lemma PrecommitAbortOK(s: State, x: NodeId)
    requires Inv(s) && Enabled(s, x, Precommit)
    ensures AbortOK(Apply(s, x, Precommit))
  {
  }

  lemma DecisionAbortOK(s: State, x: NodeId, from: NodeId, st: GTxState, c: bool)
    requires Inv(s) && Enabled(s, x, HandleStatus(from, st, c))
    ensures AbortOK(Apply(s, x, HandleStatus(from, st, c)))
  {
    if DecidesNow(s.conf, x, s.nodes[x].gtx, from, st) { DecisionSafe(s, x, from, st, c); }
  }

  /** The coordinator lists its transaction for a direct abort only if it never precommitted. */
  lemma ListedInTime(s: State, x: NodeId)
    requires Inv(s) && Enabled(s, x, ListOwn)
    ensures !Precommitted(s)
  {
    assert NodeOK(s, x);
    assert Precommitted(s) ==> MsgOK(s, Req2a(INITIAL_TERM, true));
    assert Vote(x, INITIAL_TERM, true) in s.votes ==> VoteOK(s, Vote(x, INITIAL_TERM, true));
  }

  /** The coordinator aborts directly only while its decree is still free. */
  lemma NotPrecommitted(s: State, x: NodeId)
    requires Inv(s) && Enabled(s, x, OwnAbort)
    ensures !Precommitted(s)
  {
    assert NodeOK(s, x);
    assert Precommitted(s) ==> MsgOK(s, Req2a(INITIAL_TERM, true));
    assert Vote(x, INITIAL_TERM, true) in s.votes ==> VoteOK(s, Vote(x, INITIAL_TERM, true));
  }

  lemma FirstPrecommit(s: State, x: NodeId, step: Step)
    requires Inv(s) && Enabled(s, x, step) && !Precommitted(s) && Precommitted(Apply(s, x, step))
    ensures step.Precommit?
  {
  }

  lemma StepVotes(s: State, x: NodeId, step: Step, v: Vote)
    requires Inv(s) && Enabled(s, x, step) && v in Apply(s, x, step).votes
    ensures VoteOK(Apply(s, x, step), v)
  {
    var s' := Apply(s, x, step);
    StepGrows(s, x, step);
    if v in s.votes {
      assert VoteOK(s, v);
      VoteStays(s, s', v);
    } else {
      assert NewVote(s, s', v);
      VoteSent(s, x, step, v);
    }
  }

  /** A vote is given for a decree that was sent, at a term not below the initial one. */
  lemma VoteSent(s: State, x: NodeId, step: Step, v: Vote)
    requires Inv(s) && Enabled(s, x, step) && v in Apply(s, x, step).votes && v !in s.votes
    ensures Req2a(v.term, v.commit) in Apply(s, x, step).msgs && AtMost(INITIAL_TERM, v.term)
  {
    match step
    case HandleStatus(from, st, c) => assert NodeOK(s, x);
    case Handle2a(t, decree) => assert MsgOK(s, Req2a(t, decree));
    case _ => InitialVote(s, x, step, v);
  }

  lemma InitialVote(s: State, x: NodeId, step: Step, v: Vote)
    requires Enabled(s, x, step) && !step.HandleStatus? && !step.Handle2a? && v in Apply(s, x, step).votes && v !in s.votes
    ensures v.term == INITIAL_TERM && Req2a(v.term, v.commit) in Apply(s, x, step).msgs
  {
  }

  // ----- nodes -----

  /** What a node knows stays right while others take steps. */
  lemma NodeStays(s: State, s': State, y: NodeId)
    requires Grows(s, s') && y in s.nodes && NodeOK(s, y) && s'.nodes[y] == s.nodes[y]
    ensures NodeOK(s', y)
  {
    match s.nodes[y]
    case Live(g) => AcksStay(s, s', y, g);
    case Done(commit, _) => SettledStays(s, s', commit);
    case NoTrace =>
  }

  lemma OtherNode(s: State, x: NodeId, step: Step, y: NodeId)
    requires Inv(s) && Enabled(s, x, step) && y in s.nodes && y != x
    ensures NodeOK(Apply(s, x, step), y)
  {
    StepGrows(s, x, step);
    assert NodeOK(s, y);
    NodeStays(s, Apply(s, x, step), y);
  }

  ghost predicate AcksOK(s: State, x: NodeId, g: Gtx) {
    && (forall y {:trigger Ack1OK(s, x, y, g.acks1[y])} :: y in g.acks1 && y != x ==> Ack1OK(s, x, y, g.acks1[y]))
    && (forall y {:trigger Ack2OK(s, x, y, g.acks2[y])} :: y in g.acks2 && y != x ==> Ack2OK(s, x, y, g.acks2[y]))
  }

  lemma AcksStay(s: State, s': State, x: NodeId, g: Gtx)
    requires Grows(s, s') && AcksOK(s, x, g)
    ensures AcksOK(s', x, g)
  {
    forall y | y in g.acks1 && y != x
      ensures Ack1OK(s', x, y, g.acks1[y])
    {
      assert Ack1OK(s, x, y, g.acks1[y]);
      Ack1Stays(s, s', x, y, g.acks1[y]);
    }
    forall y | y in g.acks2 && y != x
      ensures Ack2OK(s', x, y, g.acks2[y])
    {
      assert Ack2OK(s, x, y, g.acks2[y]);
    }
  }

  lemma StepNode(s: State, x: NodeId, step: Step)
    requires Inv(s) && Enabled(s, x, step)
    ensures NodeOK(Apply(s, x, step), x)
  {
    var s' := Apply(s, x, step);
    StepGrows(s, x, step);
    match step
    case HandleStatus(from, st, c) => StatusNode(s, x, from, st, c);
    case Handle2b(from, acc, vote) => Phase2Node(s, x, from, acc, vote);
    case Scatter(ballot) => ScatterNode(s, x, ballot);
    case CoordCommit(acked) =>
      assert NodeOK(s, x);
      CommitChosen(s, x, acked);
      SettledStays(s, s', true);
    case OwnAbort => assert NodeOK(s, x);
    case Learn(outcome) =>
      assert NodeOK(s, x) && MsgOK(s, Fin(outcome));
      SettledStays(s, s', outcome);
    case Precommit => VotingNode(s, x, step);
    case Handle2a(_, _) => VotingNode(s, x, step);
    case ApplyPrecommit => VotingNode(s, x, step);
    case _ => PlainNode(s, x, step);
  }

  lemma PlainNode(s: State, x: NodeId, step: Step)
    requires Inv(s) && Enabled(s, x, step)
    requires step.GetPrepare? || step.ReleaseGtx? || step.ListOwn? || step.Crash? || step.Handle1a? || step.GenAbort?
    ensures NodeOK(Apply(s, x, step), x)
  {
    var s' := Apply(s, x, step);
    if s'.nodes[x] == s.nodes[x] {
      StepGrows(s, x, step);
      assert NodeOK(s, x);
      NodeStays(s, s', x);
    } else {
      match step
      case GetPrepare => PreparedNode(s, x);
      case ReleaseGtx => ReleasedNode(s, x);
      case Crash => CrashedNode(s, x);
      case Handle1a(t) => PromisingNode(s, x, t);
    }
  }

  lemma PreparedNode(s: State, x: NodeId)
    requires Inv(s) && Enabled(s, x, GetPrepare)
    ensures NodeOK(Apply(s, x, GetPrepare), x)
  {
    assert NodeOK(s, x);
  }

  lemma ReleasedNode(s: State, x: NodeId)
    requires Inv(s) && Enabled(s, x, ReleaseGtx)
    ensures NodeOK(Apply(s, x, ReleaseGtx), x)
  {
    StepGrows(s, x, ReleaseGtx);
    assert NodeOK(s, x);
    AcksStay(s, Apply(s, x, ReleaseGtx), x, s.nodes[x].gtx);
  }

  lemma CrashedNode(s: State, x: NodeId)
    requires Inv(s) && Enabled(s, x, Crash) && s.nodes[x].Live?
    ensures NodeOK(Apply(s, x, Crash), x)
  {
    StepGrows(s, x, Crash);
    assert NodeOK(s, x);
    AcksStay(s, Apply(s, x, Crash), x, s.nodes[x].gtx);
  }

  lemma PromisingNode(s: State, x: NodeId, t: Term)
    requires Inv(s) && Enabled(s, x, Handle1a(t)) && s.nodes[x].Live?
    ensures NodeOK(Apply(s, x, Handle1a(t)), x)
  {
    StepGrows(s, x, Handle1a(t));
    assert NodeOK(s, x);
    AcksStay(s, Apply(s, x, Handle1a(t)), x, s.nodes[x].gtx);
  }

  lemma VotingNode(s: State, x: NodeId, step: Step)
    requires Inv(s) && Enabled(s, x, step) && (step.Precommit? || step.Handle2a? || step.ApplyPrecommit?)
    ensures NodeOK(Apply(s, x, step), x)
  {
    StepGrows(s, x, step);
    assert NodeOK(s, x);
    if step.Handle2a? { assert MsgOK(s, Req2a(step.t2, step.decree)); }
    AcksStay(s, Apply(s, x, step), x, s.nodes[x].gtx);
  }

  lemma ScatterNode(s: State, x: NodeId, ballot: nat)
    requires Inv(s) && Enabled(s, x, Scatter(ballot))
    ensures NodeOK(Apply(s, x, Scatter(ballot)), x)
  {
    var s', t, g := Apply(s, x, Scatter(ballot)), Term(ballot, x), s.nodes[x].gtx;
    StepGrows(s, x, Scatter(ballot));
    assert NodeOK(s, x);
    AcksStay(s, s', x, g);
    forall y | y in g.acks2 && y != x
      ensures g.acks2[y].proposal != t
    {
      assert Ack2OK(s, x, y, g.acks2[y]);
      var v := Vote(y, g.acks2[y].proposal, g.acks2[y].status == PreCommitted);
      assert VoteOK(s, v);
      assert MsgOK(s, Req2a(v.term, v.commit));
    }
  }

  lemma StatusNode(s: State, x: NodeId, from: NodeId, st: GTxState, c: bool)
    requires Inv(s) && Enabled(s, x, HandleStatus(from, st, c))
    ensures NodeOK(Apply(s, x, HandleStatus(from, st, c)), x)
  {
    var s' := Apply(s, x, HandleStatus(from, st, c));
    var g := s.nodes[x].gtx;
    StepGrows(s, x, HandleStatus(from, st, c));
    assert NodeOK(s, x) && MsgOK(s, Resp1b(from, x, st));
    if Final(st) {
      SettledStays(s, s', st.status == Committed);
    } else {
      var g1 := g.(acks1 := Acks1(g, x, from, st));
      forall y | y in g1.acks1 && y != x
        ensures Ack1OK(s, x, y, g1.acks1[y])
      {
        RecordedAnswer(s, x, from, st, y);
      }
      AcksStay(s, s', x, g1);
      if DecidesNow(s.conf, x, g, from, st) { EntersPhase2(s.conf, x, g, g1.acks1, from, c); }
    }
  }

  /** A resolver starts the second phase with its own vote only. */
  lemma EntersPhase2(conf: set<NodeId>, x: NodeId, g: Gtx, acks: map<NodeId, GTxState>, from: NodeId, c: bool)
    requires Phase2OK(conf, x, g) && g.stage.AwaitStatus? && x in conf && from in conf && from != x
    ensures Phase2OK(conf, x, Decided(g, acks, c))
  {
    var t := g.state.proposal;
    var voters := Voters(g.acks2[x := VoteState(t, c)], t);
    assert voters <= Voters(g.acks2 - {x}, t) + {x};
    SubsetSize(voters, {x});
    SubsetSize({x, from}, conf);
  }

  lemma Phase2Node(s: State, x: NodeId, from: NodeId, acc: Term, vote: bool)
    requires Inv(s) && Enabled(s, x, Handle2b(from, acc, vote))
    ensures NodeOK(Apply(s, x, Handle2b(from, acc, vote)), x)
  {
    var s' := Apply(s, x, Handle2b(from, acc, vote));
    var g := s.nodes[x].gtx;
    var acks := Acks2(g, x, from, VoteState(acc, vote));
    StepGrows(s, x, Handle2b(from, acc, vote));
    assert NodeOK(s, x) && MsgOK(s, Resp2b(from, x, acc, vote));
    if QuorumFor(s.conf, x, acks) {
      Phase2Decree(s, x, from, acc, vote);
      SettledStays(s, s', vote);
    } else {
      var g1 := g.(acks2 := acks);
      forall y | y in acks && y != x
        ensures Ack2OK(s, x, y, acks[y])
      {
        if y != from { assert Ack2OK(s, x, y, g.acks2[y]); }
      }
      AcksStay(s, s', x, g1);
      assert acks[x := g.state] == acks;
    }
  }

  // ----- whole runs -----

  lemma StepInv(s: State, x: NodeId, step: Step)
    requires Inv(s) && Enabled(s, x, step)
    ensures Inv(Apply(s, x, step))
  {
    var s' := Apply(s, x, step);
    StepGrows(s, x, step);
    forall y | y in s'.nodes
      ensures NodeOK(s', y)
    {
      if y == x { StepNode(s, x, step); } else { OtherNode(s, x, step, y); }
    }
    forall v | v in s'.votes ensures VoteOK(s', v) { StepVotes(s, x, step, v); }
    forall m | m in s'.msgs
      ensures MsgOK(s', m)
    {
      if m in s.msgs { OldMsg(s, x, step, m); } else { NewMsg(s, x, step, m); }
    }
    StepOneDecree(s, x, step);
    StepAbortOK(s, x, step);
  }
}

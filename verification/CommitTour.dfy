/** What the coordinator concludes from the replies to PRECOMMIT, and from those of the second phase. */
module CommitTour {
  import opened Quorums
  import opened GlobalTx
  import opened CommitSystem
  import opened CommitInvariant
  import opened GlobalTxState

  /** Replies that carry the coordinator's term and decree were sent by voters. */
  ghost predicate Honest(s: State, msgs: seq<PrecommitReply>) {
    forall i :: 0 <= i < |msgs| && msgs[i].accepted == Term(1, 0) && msgs[i].status == PreCommitted ==>
      msgs[i].node in s.conf && Vote(msgs[i].node, Term(1, 0), true) in s.votes
  }

  /** In a state with such replies, a tour that says commit has found a quorum that has chosen it, and the outcome is settled. */
  method TourChooses(ghost s: State, conf: set<NodeId>, me: NodeId, msgs: seq<PrecommitReply>) returns (commit: bool, acked: set<NodeId>)
    requires s.conf == conf && me in conf && Vote(me, Term(1, 0), true) in s.votes && Honest(s, msgs)
    requires forall i, j :: 0 <= i < j < |msgs| ==> msgs[i].node != msgs[j].node
    requires forall i :: 0 <= i < |msgs| ==> msgs[i].node != me
    ensures commit ==> Chosen(s, acked + {me}, INITIAL_TERM, true) && Settled(s, true)
    ensures forall y :: y in acked ==> Vote(y, Term(1, 0), true) in s.votes
  {
    commit, acked := PrecommitTour(conf, me, msgs);
    assert |acked + {me}| == |acked| + 1;
    if commit {
      assert Chosen(s, acked + {me}, INITIAL_TERM, true);
    }
  }

  /** A step of the tour in the system counts a voter: what the node replies is what it voted. */
  lemma AckedVoted(s: State, y: NodeId)
    requires Inv(s) && PrecommitAck(y) in s.msgs
    ensures y in s.conf && Vote(y, Term(1, 0), true) in s.votes
  {
    assert MsgOK(s, PrecommitAck(y));
  }
}

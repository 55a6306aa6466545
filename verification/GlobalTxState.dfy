/**
  struct GlobalTx with its fixed ack arrays, and the functions of src/resolver.c and
  src/state.c that update it in place, proved against GlobalTx.
 */
module GlobalTxState {
  import opened Quorums
  import opened GlobalTx

  const MAX_NODES: nat := 16

  /** The slot of node y in an ack array. */
  function Slot(acks: seq<GTxState>, y: NodeId): GTxState
    requires 1 <= y <= |acks|
  {
    acks[y - 1]
  }

  function AckMap(acks: seq<GTxState>): map<NodeId, GTxState> {
    map y | 1 <= y <= |acks| && Slot(acks, y) != REFUSED :: Slot(acks, y)
  }

  lemma AckMapUpdate(acks: seq<GTxState>, y: NodeId, st: GTxState)
    requires 1 <= y <= |acks|
    ensures AckMap(acks[y - 1 := st]) == SetAck(AckMap(acks), y, st)
  {
  }

  /** Fills in one's own state and an answer. */
  method Record(acks: array<GTxState>, me: NodeId, own: GTxState, from: NodeId, st: GTxState)
    requires 1 <= me <= acks.Length && 1 <= from <= acks.Length && from != me && own.proposal != NO_TERM
    modifies acks
    ensures AckMap(acks[..]) == SetAck(AckMap(old(acks[..])), from, st)[me := own]
    ensures acks[me - 1] == own && acks[from - 1] == st && forall i :: 0 <= i < acks.Length && i != me - 1 && i != from - 1 ==> acks[i] == old(acks[i])
  {
    ghost var before := acks[..];
    AckMapUpdate(before, me, own);
    AckMapUpdate(before[me - 1 := own], from, st);
    acks[me - 1] := own;
    acks[from - 1] := st;
    assert acks[..] == before[me - 1 := own][from - 1 := st];
  }

  /** Slots below k that hold an answer for term t. */
  function CountFor(acks: seq<GTxState>, t: Term, k: nat): set<NodeId>
    requires k <= |acks|
  {
    set y | 1 <= y <= k && Slot(acks, y).proposal != NO_TERM && Slot(acks, y).proposal == t
  }

  lemma CountIsVoters(acks: seq<GTxState>, t: Term)
    ensures CountFor(acks, t, |acks|) == Voters(AckMap(acks), t)
  {
  }

  function SlotsFor(acks: seq<GTxState>, t: Term, k: nat): set<nat>
    requires k <= |acks|
  {
    set i | 0 <= i < k && acks[i].proposal == t
  }

  lemma OneMoreSlot(acks: seq<GTxState>, t: Term, k: nat)
    requires k < |acks| && t != NO_TERM
    ensures acks[k].proposal == t ==> SlotsFor(acks, t, k + 1) == SlotsFor(acks, t, k) + {k} && CountFor(acks, t, k + 1) == CountFor(acks, t, k) + {k + 1}
    ensures acks[k].proposal != t ==> SlotsFor(acks, t, k + 1) == SlotsFor(acks, t, k) && CountFor(acks, t, k + 1) == CountFor(acks, t, k)
  {
  }

  /** Counting slots is counting their nodes. */
  lemma {:induction false} SlotCount(acks: seq<GTxState>, t: Term, k: nat)
    requires k <= |acks| && t != NO_TERM
    ensures |CountFor(acks, t, k)| == |SlotsFor(acks, t, k)|
  {
    if k > 0 {
      SlotCount(acks, t, k - 1);
      OneMoreSlot(acks, t, k - 1);
    }
  }

  /** quorum(): count the slots that answer for my term. */
  method QuorumReached(conf: set<NodeId>, me: NodeId, acks: array<GTxState>) returns (r: bool)
    requires 1 <= me <= acks.Length && acks[me - 1] != REFUSED
    ensures r <==> QuorumFor(conf, me, AckMap(acks[..]))
    // a majority of slots answers for my term, which must be one that I have opened
    ensures acks[me - 1].proposal != NO_TERM ==>
              (r <==> acks[me - 1].proposal.node == me && 2 * |set i | 0 <= i < acks.Length && acks[i].proposal == acks[me - 1].proposal| > |conf|)
  {
    var mine := acks[me - 1].proposal;
    if mine.node != me { return false; }
    var nStates := 0;
    for i := 0 to acks.Length
      invariant nStates == |CountFor(acks[..], mine, i)|
    {
      var grown := CountFor(acks[..], mine, i + 1);
      if TermCmp(acks[i].proposal, NO_TERM) == 0 {
        assert grown == CountFor(acks[..], mine, i);
        continue;
      }
      if TermCmp(mine, acks[i].proposal) == 0 {
        assert grown == CountFor(acks[..], mine, i) + {i + 1};
        nStates := nStates + 1;
      } else {
        assert grown == CountFor(acks[..], mine, i);
      }
    }
    CountIsVoters(acks[..], mine);
    if mine != NO_TERM {
      SlotCount(acks[..], mine, acks.Length);
      assert SlotsFor(acks[..], mine, acks.Length) == set i | 0 <= i < acks.Length && acks[i].proposal == mine;
    }
    return Quorum(|conf|, nStates);
  }

  /** The first loop of the decision: the highest accepted term of the recorded answers. */
  method MaxAccepted(own: Term, me: NodeId, acks: array<GTxState>) returns (max: Term)
    requires 1 <= me <= acks.Length && acks[me - 1].proposal != NO_TERM && acks[me - 1].accepted == own
    ensures IsMaxAccepted(AckMap(acks[..]), max)
  {
    max := own;
    var m := AckMap(acks[..]);
    assert me in m;
    ghost var who := me;
    for i := 0 to acks.Length
      invariant who in m && m[who].proposal != NO_TERM && m[who].accepted == max
      invariant forall j :: 0 <= j < i && acks[j].proposal != NO_TERM ==> AtMost(acks[j].accepted, max)
    {
      if TermCmp(acks[i].proposal, NO_TERM) == 0 { continue; }
      if TermCmp(acks[i].accepted, max) > 0 {
        max, who := acks[i].accepted, i + 1;
      }
    }
  }

  /** The second loop: the decree of that term. The two asserts are the ones of handle_response. */
  method DecreeOf(max: Term, acks: array<GTxState>) returns (commit: bool)
    requires IsMaxAccepted(AckMap(acks[..]), max)
    requires exists c :: Forced(AckMap(acks[..]), max, c)
    ensures Forced(AckMap(acks[..]), max, commit)
  {
    var m := AckMap(acks[..]);
    ghost var forced :| Forced(m, max, forced);
    ghost var who :| who in m && m[who].proposal != NO_TERM && m[who].accepted == max;
    var decision := Invalid;
    for i := 0 to acks.Length
      invariant decision == Invalid || decision == Decree(forced)
      invariant who <= i ==> decision != Invalid
    {
      if TermCmp(acks[i].proposal, NO_TERM) == 0 { continue; }
      if TermCmp(acks[i].accepted, max) == 0 {
        assert i + 1 in m && m[i + 1] == acks[i];
        if acks[i].status == PreCommitted {
          assert decision != PreAborted;
          decision := PreCommitted;
        } else {
          assert decision != PreCommitted;
          decision := PreAborted;
        }
      }
    }
    assert decision != Invalid;
    return decision == PreCommitted;
  }

  datatype Outcome = Pending | OpenPhase2(commit: bool) | Finish(commit: bool)

  class GlobalTransaction {
    const me: NodeId
    const conf: set<NodeId>
    var state: GTxState
    var busy: bool
    var stage: Stage
    const phase1Acks: array<GTxState>
    const phase2Acks: array<GTxState>

    ghost predicate Valid()
      reads this
    {
      && 1 <= me <= MAX_NODES
      && phase1Acks.Length == MAX_NODES && phase2Acks.Length == MAX_NODES && phase1Acks != phase2Acks
      && AtMost(INITIAL_TERM, state.proposal)
    }

    ghost function Snap(): Gtx
      reads this, phase1Acks, phase2Acks
    {
      Gtx(state, busy, stage, AckMap(phase1Acks[..]), AckMap(phase2Acks[..]))
    }

    /** GlobalTxAcquire creating the entry. */
    constructor (me: NodeId, conf: set<NodeId>, busy: bool)
      requires 1 <= me <= MAX_NODES
      ensures Valid() && Snap() == NewGtx(busy)
      ensures state == GTxState(Term(1, 0), Term(0, 0), Invalid) && this.busy == busy && stage == AwaitStatus
      ensures forall i :: 0 <= i < MAX_NODES ==> phase1Acks[i].proposal == Term(0, 0) && phase2Acks[i].proposal == Term(0, 0)
      ensures fresh(phase1Acks) && fresh(phase2Acks)
    {
      this.me, this.conf, this.busy := me, conf, busy;
      state, stage := FRESH, AwaitStatus;
      phase1Acks := new GTxState[MAX_NODES](_ => REFUSED);
      phase2Acks := new GTxState[MAX_NODES](_ => REFUSED);
    }

    /** handle_1a_gtx */
    method Handle1a(t: Term) returns (reply: GTxState)
      requires Valid()
      modifies `state
      ensures Valid() && (Snap(), reply) == Answer1a(old(Snap()), t)
      // a later term is promised, with what was accepted before; any other is refused
      ensures TermCmp(t, old(state.proposal)) > 0 ==> state == GTxState(t, old(state.accepted), old(state.status)) && reply == state
      ensures TermCmp(t, old(state.proposal)) <= 0 ==> state == old(state) && reply.proposal == Term(0, 0)
    {
      reply := REFUSED;
      if TermCmp(t, state.proposal) > 0 {
        state := state.(proposal := t);
        reply := state;
      }
    }

    /** handle_2a, and the vote of PHASE2A apply: ok tells whether the vote is given. */
    method Handle2a(t: Term, commit: bool) returns (ok: bool)
      requires Valid()
      modifies `state
      ensures Valid() && ok == Accepts(old(Snap()), t)
      ensures Snap() == if ok then Vote2a(old(Snap()), t, commit) else old(Snap())
      ensures ok <==> TermCmp(t, old(state.proposal)) >= 0
      ensures state == if ok then GTxState(t, t, if commit then PreCommitted else PreAborted) else old(state)
    {
      ok := TermCmp(t, state.proposal) >= 0;
      if ok { state := GTxState(t, t, if commit then PreCommitted else PreAborted); }
    }

    /** PHASE2A apply, and its reply to the coordinator: a refusal carries no term. */
    method ApplyPrecommit() returns (reply: PrecommitReply)
      requires Valid()
      modifies `state
      ensures Valid() && reply.node == me
      ensures old(state.proposal) == Term(1, 0) ==>
                && Snap() == Vote2a(old(Snap()), INITIAL_TERM, true) && state == GTxState(Term(1, 0), Term(1, 0), PreCommitted)
                && reply.accepted == Term(1, 0) && reply.status == PreCommitted
      ensures old(state.proposal) != Term(1, 0) ==>
                state == old(state) && reply.accepted == Term(0, 0) && reply.status == Invalid
    {
      var ok := Handle2a(INITIAL_TERM, true);
      reply := if ok then PrecommitReply(me, INITIAL_TERM, PreCommitted) else PrecommitReply(me, NO_TERM, Invalid);
    }

    /** scatter_status_requests for this transaction; false if the term came too late. */
    method Stamp(t: Term) returns (ok: bool)
      requires Valid()
      modifies `state, `stage
      ensures Valid() && ok == Below(old(state).proposal, t)
      ensures Snap() == if ok then Stamped(old(Snap()), t) else old(Snap())
      ensures state == if ok then GTxState(t, old(state.accepted), old(state.status)) else old(state)
      ensures stage == if ok then AwaitStatus else old(stage)
    {
      ok := TermCmp(t, state.proposal) > 0;
      if ok {
        state := state.(proposal := t);
        stage := AwaitStatus;
      }
    }

    /** handle_response to MtmTxStatusResponse. In a reachable state the decree is forced
        (Cluster.DecreeWellDefined), which is what the asserts rely on. */
    method HandleStatusResponse(from: NodeId, st: GTxState) returns (r: Outcome)
      requires Valid() && stage.AwaitStatus? && 1 <= from <= MAX_NODES && from != me
      requires st.status != Committed && st.status != Aborted ==>
                 forall t :: IsMaxAccepted(Acks1(Snap(), me, from, st), t) ==>
                   exists c :: Forced(Acks1(Snap(), me, from, st), t, c)
      modifies `state, `stage, phase1Acks
      ensures Valid()
      ensures var final := st.status == Committed || st.status == Aborted;
              var acks := Acks1(old(Snap()), me, from, st);
              && (final ==> r == Finish(st.status == Committed) && state == old(state))
              && (!final && !QuorumFor(conf, me, acks) ==> r == Pending && Snap() == old(Snap()).(acks1 := acks))
              && (!final && QuorumFor(conf, me, acks) ==>
                    && r.OpenPhase2?
                    && (exists t :: IsMaxAccepted(acks, t) && Forced(acks, t, r.commit))
                    && Snap() == Decided(old(Snap()), acks, r.commit))
      ensures phase1Acks[me - 1] == old(state) && phase1Acks[from - 1] == st
      ensures forall i :: 0 <= i < MAX_NODES && i != me - 1 && i != from - 1 ==> phase1Acks[i] == old(phase1Acks[i])
      ensures r.Finish? <==> st.status == Committed || st.status == Aborted
      ensures r.OpenPhase2? <==>
                && !r.Finish? && old(state).proposal.node == me
                && 2 * |set i | 0 <= i < phase1Acks.Length && phase1Acks[i].proposal == old(state).proposal| > |conf|
      ensures r.OpenPhase2? ==>
                stage == AwaitAcks && state == GTxState(old(state).proposal, old(state).proposal, if r.commit then PreCommitted else PreAborted)
      ensures !r.OpenPhase2? ==> stage == old(stage) && state == old(state)
    {
      Record(phase1Acks, me, state, from, st);
      assert AckMap(phase1Acks[..]) == Acks1(old(Snap()), me, from, st);
      if st.status == Committed { return Finish(true); }
      if st.status == Aborted { return Finish(false); }
      var reached := QuorumReached(conf, me, phase1Acks);
      ghost var slots := set i | 0 <= i < phase1Acks.Length && phase1Acks[i].proposal == phase1Acks[me - 1].proposal;
      assert slots == set i | 0 <= i < phase1Acks.Length && phase1Acks[i].proposal == old(state).proposal;
      if !reached { return Pending; }
      var max := MaxAccepted(state.accepted, me, phase1Acks);
      var commit := DecreeOf(max, phase1Acks);
      state := GTxState(state.proposal, state.proposal, if commit then PreCommitted else PreAborted);
      stage := AwaitAcks;
      assert slots == set i | 0 <= i < phase1Acks.Length && phase1Acks[i].proposal == old(state).proposal;
      return OpenPhase2(commit);
    }

    /** handle_response to Mtm2AResponse. In a reachable state the decree of a completed majority is
        the resolver's own (Cluster.Phase2WellDefined). */
    method Handle2AResponse(from: NodeId, acc: Term, commit: bool) returns (r: Outcome)
      requires Valid() && stage.AwaitAcks? && 1 <= from <= MAX_NODES && from != me
      requires QuorumFor(conf, me, Acks2(Snap(), me, from, VoteState(acc, commit))) ==> state.status == Decree(commit)
      modifies phase2Acks
      ensures Valid()
      ensures var acks := Acks2(old(Snap()), me, from, VoteState(acc, commit));
              && r == (if QuorumFor(conf, me, acks) then Finish(commit) else Pending)
              && Snap() == old(Snap()).(acks2 := acks)
      ensures phase2Acks[me - 1] == state && phase2Acks[from - 1].proposal == acc && phase2Acks[from - 1].accepted == acc
      ensures phase2Acks[from - 1].status == if commit then PreCommitted else PreAborted
      ensures forall i :: 0 <= i < MAX_NODES && i != me - 1 && i != from - 1 ==> phase2Acks[i] == old(phase2Acks[i])
      ensures r == Finish(commit) <==>
                state.proposal.node == me && 2 * |set i | 0 <= i < phase2Acks.Length && phase2Acks[i].proposal == state.proposal| > |conf|
    {
      var st := GTxState(acc, acc, if commit then PreCommitted else PreAborted);
      Record(phase2Acks, me, state, from, st);
      assert AckMap(phase2Acks[..]) == Acks2(old(Snap()), me, from, st);
      var reached := QuorumReached(conf, me, phase2Acks);
      if reached {
        assert state.status == st.status;
        return Finish(commit);
      }
      return Pending;
    }
  }

  // ----- the coordinator's tours -----

  /** A reply to PREPARE, and a reply to PRECOMMIT. */
  datatype PrepareReply = PrepareReply(node: NodeId, prepared: bool)
  datatype PrecommitReply = PrecommitReply(node: NodeId, accepted: Term, status: Status)

  function Repliers(msgs: seq<PrepareReply>): set<NodeId> {
    set i | 0 <= i < |msgs| :: msgs[i].node
  }

  lemma {:induction false} RepliersCount(msgs: seq<PrepareReply>)
    requires forall i, j :: 0 <= i < j < |msgs| ==> msgs[i].node != msgs[j].node
    ensures |Repliers(msgs)| == |msgs|
  {
    if msgs != [] {
      var init, last := msgs[..|msgs| - 1], msgs[|msgs| - 1];
      RepliersCount(init);
      assert Repliers(msgs) == Repliers(init) + {last.node};
    }
  }

  /** Before PRECOMMIT: whether every member of the generation has prepared; gather brings one reply per node at most. */
  method AllPrepared(cohort: set<NodeId>, msgs: seq<PrepareReply>) returns (ok: bool)
    requires forall i, j :: 0 <= i < j < |msgs| ==> msgs[i].node != msgs[j].node
    requires forall i :: 0 <= i < |msgs| ==> msgs[i].node in cohort
    ensures ok <==> forall y :: y in cohort ==> PrepareReply(y, true) in msgs
  {
    RepliersCount(msgs);
    if |msgs| != |cohort| {
      AllReplied(cohort, msgs);
      return false;
    }
    SameSets(Repliers(msgs), cohort);
    for i := 0 to |msgs|
      invariant forall j :: 0 <= j < i ==> msgs[j].prepared
    {
      if !msgs[i].prepared {
        assert forall k :: 0 <= k < |msgs| && msgs[k].node == msgs[i].node ==> k == i;
        assert PrepareReply(msgs[i].node, true) !in msgs;
        return false;
      }
    }
    return true;
  }

  lemma AllReplied(cohort: set<NodeId>, msgs: seq<PrepareReply>)
    requires forall i :: 0 <= i < |msgs| ==> msgs[i].node in cohort
    ensures (forall y :: y in cohort ==> PrepareReply(y, true) in msgs) ==> cohort == Repliers(msgs)
  {
  }

  lemma SameSets(a: set<NodeId>, b: set<NodeId>)
    requires a <= b && |a| == |b|
    ensures a == b
  {
    assert b == a + (b - a);
  }

  /** After PRECOMMIT: who voted for it, and whether that is a majority with the coordinator. */
  method PrecommitTour(conf: set<NodeId>, me: NodeId, msgs: seq<PrecommitReply>) returns (commit: bool, acked: set<NodeId>)
    requires forall i, j :: 0 <= i < j < |msgs| ==> msgs[i].node != msgs[j].node
    requires forall i :: 0 <= i < |msgs| ==> msgs[i].node != me
    // exactly those count whose reply carries the coordinator's term and decree: no refusal, no other term, no PREABORT
    ensures forall i :: 0 <= i < |msgs| ==> (msgs[i].node in acked <==> msgs[i].accepted == Term(1, 0) && msgs[i].status == PreCommitted)
    ensures forall y :: y in acked ==> y != me && exists i :: 0 <= i < |msgs| && msgs[i].node == y
    ensures commit <==> 2 * (1 + |acked|) > |conf|
  {
    var nvotes := 1;
    acked := {};
    for i := 0 to |msgs|
      invariant forall j :: 0 <= j < i ==> (msgs[j].node in acked <==> msgs[j].accepted == Term(1, 0) && msgs[j].status == PreCommitted)
      invariant forall y :: y in acked ==> exists j :: 0 <= j < i && msgs[j].node == y
      invariant nvotes == 1 + |acked|
    {
      if TermCmp(msgs[i].accepted, Term(1, 0)) == 0 && msgs[i].status == PreCommitted {
        nvotes := nvotes + 1;
        acked := acked + {msgs[i].node};
      }
    }
    commit := Quorum(|conf|, nvotes);
  }
}

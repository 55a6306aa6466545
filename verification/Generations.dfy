/**
  One node's generation state (src/state.c): the persistent record written by
  MtmStateSave, the flushed WAL, and the operations on them, as functions on values.
  Each function is one atomic step under gen_lock or vote_lock; GenerationState.dfy
  holds the in-place operations that are proved against them.
 */
module Generations {
  import opened Quorums

  datatype Option<+T> = None | Some(value: T)

  /** MtmGeneration. The node masks are sets of node ids. */
  datatype Gen = Gen(num: nat, members: set<NodeId>, configured: set<NodeId>)

  /** A transaction, stamped with the node that coordinates it and its generation. */
  datatype Tx = Tx(coord: NodeId, xid: nat, gen: nat)

  datatype Rec =
    | Prepare(tx: Tx)
    | ParallelSafe(num: nat)

  /** What the node is doing to get online: a crash may happen in any of these. */
  datatype Proc =
    | Down
    | Idle
    | MustLog   // online is on disk, ParallelSafe is not logged yet; gen_lock held
    | MustMark  // ParallelSafe is flushed, ps_logged is not on disk yet; gen_lock held

  /** A running campaign: what CampaignMyself hands to CampaignTour. */
  datatype Tour = Tour(gen: Gen, myLoi: nat)

  datatype Node = Node(
    cur: Gen,
    donors: set<NodeId>,
    loi: nat,                 // last_online_in
    vote: Gen,                // last_vote
    psLogged: bool,
    wal: seq<Rec>,
    proc: Proc,
    tour: Option<Tour>)

  datatype Status = Dead | Recovery | Online

  predicate IsRefereeGen(gen: Gen) {
    |gen.configured| == 2 && |gen.members| == 1
  }

  predicate HasQuorum(gen: Gen) {
    Quorum(|gen.configured|, |gen.members|)
  }

  /** MtmGetCurrentStatusInGen */
  function StatusInGen(me: NodeId, n: Node): Status {
    if n.loi == n.cur.num then Online
    else if me in n.cur.members && HasQuorum(n.cur) && n.cur.num == n.vote.num then Recovery
    else Dead
  }

  /** mtm_state_create: everybody is a member and a donor of generation 1. */
  function InitialNode(conf: set<NodeId>): Node {
    Node(Gen(1, conf, conf), conf, 1, Gen(1, conf, {}), false, [], Down, None)
  }

  /** The "can never create xacts in this gen" test of MtmConsiderGenSwitch. */
  predicate DeadAfterSwitch(me: NodeId, gen: Gen, voteNum: nat) {
    || me !in gen.members
    || (!HasQuorum(gen) && !IsRefereeGen(gen))
    || voteNum > gen.num
  }

  /** The switch up to and including the first MtmStateSave. */
  function SwitchGen(me: NodeId, n: Node, gen: Gen, donors: set<NodeId>): Node {
    if n.cur.num >= gen.num then n
    else
      var vote' := if n.vote.num < gen.num then gen else n.vote;
      var n1 := n.(cur := gen, donors := donors, vote := vote');
      if DeadAfterSwitch(me, gen, vote'.num) || me !in donors then n1
      else n1.(psLogged := false, loi := gen.num, proc := MustLog)
  }

  /** LogParallelSafe */
  function LogPS(n: Node): Node {
    n.(wal := n.wal + [ParallelSafe(n.cur.num)], proc := MustMark)
  }

  /** ps_logged := true; MtmStateSave */
  function MarkPS(n: Node): Node {
    n.(psLogged := true, proc := Idle)
  }

  /** The tail of a switch to online, when nothing crashes. */
  function FinishSwitch(n: Node): Node {
    if n.proc.MustLog? then MarkPS(LogPS(n)) else n
  }

  /** MtmHandleParallelSafe once the node is in the record's generation. */
  function OnlineByPS(n: Node): Node {
    n.(psLogged := false, loi := n.cur.num, proc := MustLog)
  }

  /** MtmStateStartup after MtmStateLoad. */
  function Restart(n: Node): Node {
    n.(proc := if n.cur.num == n.loi && !n.psLogged then MustLog else Idle)
  }

  /** Members CampaignMyself proposes for the given connectivity clique. */
  function Candidates(me: NodeId, n: Node, clique: set<NodeId>): set<NodeId> {
    (n.cur.members * clique) + {me}
  }

  /** "not re-balloting": the same members, and re-voting would not help. */
  predicate SameCandidates(me: NodeId, n: Node, clique: set<NodeId>) {
    && Candidates(me, n, clique) == n.cur.members
    && (StatusInGen(me, n) != Dead || n.vote.num == n.cur.num)
  }

  /** The generation CampaignMyself ballots for: an equal last_vote is reused. */
  function CandidateGen(me: NodeId, n: Node, clique: set<NodeId>, conf: set<NodeId>): Gen {
    var members := Candidates(me, n, clique);
    if members == n.vote.members && conf == n.vote.configured then n.vote
    else Gen(n.vote.num + 1, members, conf)
  }

  /** CampaignMyself: vote for myself and remember last_online_in for the tour. */
  function Campaign(me: NodeId, n: Node, clique: set<NodeId>, conf: set<NodeId>): Node {
    var gen := CandidateGen(me, n, clique, conf);
    n.(vote := gen, tour := Some(Tour(gen, n.loi)))
  }

  /** HandleGenVoteRequest answers "ok" to a request of `sender`. */
  predicate GrantsVote(me: NodeId, n: Node, req: Gen, sender: NodeId, clique: set<NodeId>,
                       conf: set<NodeId>, curGenConnected: bool)
  {
    && n.cur.num < req.num
    && (n.vote == req ||
        (&& n.vote.num < req.num
         && req.members <= n.cur.members + {sender}
         && req.members <= clique
         && req.configured == conf
         && !(&& StatusInGen(me, n) == Online
              && curGenConnected
              && sender !in n.cur.members
              && !(n.cur.members <= req.members))))
  }

  /** The last_vote bump at the end of a failed CampaignTour. */
  function BumpVote(n: Node, maxRefused: nat): Node {
    if maxRefused != 0 && maxRefused >= n.vote.num
    then n.(vote := Gen(maxRefused, {}, {}), tour := None)
    else n.(tour := None)
  }

  /** Donors of a won election: the voters with the greatest last_online_in. */
  function MostAdvanced(lois: map<NodeId, nat>): set<NodeId> {
    set y | y in lois && forall z :: z in lois ==> lois[z] <= lois[y]
  }
}

/**
  The cluster of src/state.c as a transition system: any number of campaigns, votes,
  victories, generation switches, prepares, recoveries, crashes and restarts, in any
  order. Messages are kept in sets and may be delivered late, twice or never.
 */
module GenSystem {
  import opened Quorums
  import opened Generations

  datatype Request = Request(gen: Gen, sender: NodeId)
  /** A positive MtmGenVoteResponse; like the message, it carries only the number. */
  datatype Response = Response(voter: NodeId, to: NodeId, num: nat, loi: nat)
  /** History: who voted for what, and last_online_in at that moment. */
  datatype Ballot = Ballot(voter: NodeId, gen: Gen, loi: nat)
  /** History: an election won, with last_online_in of everyone who voted. */
  datatype Victory = Victory(gen: Gen, donors: set<NodeId>, lois: map<NodeId, nat>)
  /** A positive prepare reply, or the coordinator's own PREPARE. */
  datatype Ack = Ack(node: NodeId, tx: Tx)

  datatype State = State(
    conf: set<NodeId>,
    nodes: map<NodeId, Node>,
    requests: set<Request>,
    responses: set<Response>,
    ballots: set<Ballot>,
    elected: set<Victory>,
    acks: set<Ack>)
  {
    /** Everything but one node stays as it was. */
    function Put(x: NodeId, n: Node): State {
      this.(nodes := nodes[x := n])
    }
  }

  predicate Init(s: State) {
    && s.conf != {}
    && s.nodes == (map x | x in s.conf :: InitialNode(s.conf))
    && s.requests == {} && s.responses == {} && s.ballots == {} && s.acks == {}
    && s.elected == {Victory(Gen(1, s.conf, s.conf), s.conf, map[])}
  }

  datatype Step =
    | CrashStep
    | RestartStep
    | LogStep
    | MarkStep
    | CampaignStep(clique: set<NodeId>)
    | VoteStep(req: Request, voteClique: set<NodeId>, connected: bool)
    | BumpStep(refused: nat)
    | WinStep(got: map<NodeId, nat>)
    | SwitchStep(victory: Victory)
    | PSStep(psFrom: NodeId, psPos: nat)
    | PrepareStep(xid: nat)
    | ApplyStep(applied: Tx)
    | RecoverStep(from: NodeId, pos: nat)

  /** x has applied, in recovery from d, everything before position k of d's WAL;
      its own transactions come back to it and are skipped. */
  predicate Recovered(x: NodeId, n: Node, d: Node, k: nat)
    requires k <= |d.wal|
  {
    forall r :: r in d.wal[..k] && r.Prepare? ==> r.tx.coord == x || r in n.wal
  }

  /** The answers a campaigner may have gathered: at most one per node, for its number. */
  predicate Gathered(s: State, x: NodeId, num: nat, got: map<NodeId, nat>) {
    && x !in got
    && forall y :: y in got ==> Response(y, x, num, got[y]) in s.responses
  }

  predicate Enabled(s: State, x: NodeId, step: Step) {
    && x in s.nodes
    && var n := s.nodes[x];
       match step
       case CrashStep => true
       case RestartStep => n.proc.Down?
       case LogStep => n.proc.MustLog?
       case MarkStep => n.proc.MustMark?
       case CampaignStep(clique) =>
         && n.proc.Idle?
         && Quorum(|s.conf|, |clique|) && x in clique
         && !SameCandidates(x, n, clique)
         && !IsRefereeGen(CandidateGen(x, n, clique, s.conf))
       case VoteStep(req, clique, connected) =>
         && n.proc.Idle?
         && req in s.requests && req.sender != x
         && GrantsVote(x, n, req.gen, req.sender, clique, s.conf, connected)
       case BumpStep(refused) =>
         n.proc.Idle? && n.tour.Some?
       case WinStep(got) =>
         && n.proc.Idle? && n.tour.Some?
         && Gathered(s, x, n.tour.value.gen.num, got)
         && Quorum(|s.conf|, 1 + |got|)
       case SwitchStep(v) =>
         n.proc.Idle? && v in s.elected
       case PSStep(d, k) =>
         && n.proc.Idle?
         && d in s.nodes && k < |s.nodes[d].wal|
         && s.nodes[d].wal[k] == ParallelSafe(n.cur.num)
         && StatusInGen(x, n) == Recovery
         && Recovered(x, n, s.nodes[d], k)
       case PrepareStep(xid) =>
         && n.proc.Idle?
         && StatusInGen(x, n) == Online
         && Prepare(Tx(x, xid, n.cur.num)) !in n.wal
       case ApplyStep(tx) =>
         && n.proc.Idle?
         && tx.coord in s.nodes && tx.coord != x
         && Prepare(tx) in s.nodes[tx.coord].wal
         && Prepare(tx) !in n.wal
         && n.cur.num == tx.gen
         && StatusInGen(x, n) == Online
       case RecoverStep(d, k) =>
         && n.proc.Idle?
         && d in s.nodes && k < |s.nodes[d].wal|
         && s.nodes[d].wal[k].Prepare?
         && s.nodes[d].wal[k].tx.coord != x
         && s.nodes[d].wal[k] !in n.wal
         && n.cur.num >= s.nodes[d].wal[k].tx.gen
         && Recovered(x, n, s.nodes[d], k)
  }

  function Apply(s: State, x: NodeId, step: Step): State
    requires Enabled(s, x, step)
  {
    var n := s.nodes[x];
    match step
    case CrashStep => s.Put(x, n.(proc := Down, tour := None))
    case RestartStep => s.Put(x, Restart(n))
    case LogStep => s.Put(x, LogPS(n))
    case MarkStep => s.Put(x, MarkPS(n))
    case CampaignStep(clique) =>
      var gen := CandidateGen(x, n, clique, s.conf);
      s.Put(x, Campaign(x, n, clique, s.conf)).(
        requests := s.requests + {Request(gen, x)},
        // a reused vote was cast earlier
        ballots := if gen == n.vote then s.ballots else s.ballots + {Ballot(x, gen, n.loi)})
    case VoteStep(req, _, _) =>
      s.Put(x, n.(vote := req.gen)).(
        responses := s.responses + {Response(x, req.sender, req.gen.num, n.loi)},
        ballots := if n.vote == req.gen then s.ballots else s.ballots + {Ballot(x, req.gen, n.loi)})
    case BumpStep(refused) => s.Put(x, BumpVote(n, refused))
    case WinStep(got) =>
      var t := n.tour.value;
      var lois := got[x := t.myLoi];
      s.(elected := s.elected + {Victory(t.gen, MostAdvanced(lois), lois)})
    case SwitchStep(v) => s.Put(x, SwitchGen(x, n, v.gen, v.donors))
    case PSStep(_, _) => s.Put(x, OnlineByPS(n))
    case PrepareStep(xid) =>
      var tx := Tx(x, xid, n.cur.num);
      s.Put(x, n.(wal := n.wal + [Prepare(tx)])).(acks := s.acks + {Ack(x, tx)})
    case ApplyStep(tx) =>
      s.Put(x, n.(wal := n.wal + [Prepare(tx)])).(acks := s.acks + {Ack(x, tx)})
    case RecoverStep(d, k) =>
      s.Put(x, n.(wal := n.wal + [s.nodes[d].wal[k]]))
  }

  ghost predicate Next(s: State, s': State) {
    exists x, step :: Enabled(s, x, step) && s' == Apply(s, x, step)
  }

  /** A finite run from an initial state. */
  ghost predicate Run(run: seq<State>) {
    && |run| > 0
    && Init(run[0])
    && forall i {:trigger StepAt(run, i)} :: 0 < i < |run| ==> StepAt(run, i)
  }

  ghost predicate StepAt(run: seq<State>, i: nat)
    requires 0 < i < |run|
  {
    Next(run[i - 1], run[i])
  }
}

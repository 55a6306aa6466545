/**
  The inductive invariant of GenSystem. The part that carries the safety claims of
  src/include/state.h is `Order`; the rest is what its proof needs.
 */
module GenInvariant {
  import opened Quorums
  import opened Generations
  import opened GenSystem

  predicate HasPS(wal: seq<Rec>, m: nat) {
    ParallelSafe(m) in wal
  }

  predicate GenOK(s: State, g: Gen) {
    g.configured == s.conf && g.members <= s.conf && g.members != {} && !IsRefereeGen(g)
  }

  /** Online is on disk but the ParallelSafe record is still to be written. */
  predicate Pending(n: Node) {
    n.loi == n.cur.num && !n.psLogged && (n.proc.Down? || n.proc.MustLog?)
  }

  ghost predicate HasVictory(s: State, gen: Gen) {
    exists v :: v in s.elected && v.gen == gen
  }

  ghost predicate HasBallot(s: State, y: NodeId, gen: Gen) {
    exists b :: b in s.ballots && b.voter == y && b.gen == gen
  }

  ghost predicate WasOnline(s: State, x: NodeId, m: nat) {
    exists v :: v in s.elected && v.gen.num == m && x in v.gen.members && HasQuorum(v.gen)
  }

  /** What the code comments promise of one node's record. */
  ghost predicate NodeOK(s: State, x: NodeId)
    requires x in s.nodes
  {
    var n := s.nodes[x];
    && 1 <= n.loi <= n.cur.num <= n.vote.num
    && HasVictory(s, n.cur)
    && (HasPS(n.wal, n.loi) || Pending(n))
    && (n.proc.MustLog? ==> Pending(n))
    && (n.proc.MustMark? ==> n.loi == n.cur.num)
    && (n.loi == n.cur.num ==> x in n.cur.members && HasQuorum(n.cur))
    && (forall m: nat :: HasPS(n.wal, m) ==> m <= n.loi)
    && (forall m: nat {:trigger WasOnline(s, x, m)} :: HasPS(n.wal, m) ==> WasOnline(s, x, m))
    && VoteOK(s, x)
    && (n.tour.Some? ==> TourOK(s, x, n.tour.value))
  }

  /** Where last_vote came from. */
  ghost predicate VoteOK(s: State, x: NodeId)
    requires x in s.nodes
  {
    var n := s.nodes[x];
    n.vote.members == {} || n.vote.configured == {} || n.vote == n.cur || HasBallot(s, x, n.vote)
  }

  ghost predicate TourOK(s: State, x: NodeId, t: Tour) {
    && Request(t.gen, x) in s.requests
    && (Ballot(x, t.gen, t.myLoi) in s.ballots ||
        (exists v :: v in s.elected && v.gen.num == t.gen.num && v.gen != t.gen))
  }

  /** The voting promise: last_online_in is frozen below the number voted for. */
  ghost predicate BallotOK(s: State, b: Ballot) {
    && b.voter in s.nodes
    && GenOK(s, b.gen)
    && 1 <= b.loi < b.gen.num
    && var n := s.nodes[b.voter];
       && b.gen.num <= n.vote.num
       && (n.vote.num == b.gen.num ==> n.vote == b.gen || n.vote.members == {})
       && b.loi <= n.loi
       && (n.loi == b.loi || b.gen.num <= n.loi)
       && HasPS(n.wal, b.loi)
       && (forall m: nat :: HasPS(n.wal, m) ==> m <= b.loi || b.gen.num <= m)
       && (forall a :: a in s.acks && a.node == b.voter ==> a.tx.gen <= b.loi || b.gen.num <= a.tx.gen)
  }

  ghost predicate RequestOK(s: State, r: Request) {
    r.sender in s.nodes && GenOK(s, r.gen) && HasBallot(s, r.sender, r.gen)
  }

  ghost predicate ResponseOK(s: State, r: Response) {
    exists g :: Request(g, r.to) in s.requests && g.num == r.num && Ballot(r.voter, g, r.loi) in s.ballots
  }

  ghost predicate VictoryOK(s: State, v: Victory) {
    if v.gen.num == 1 then v == Victory(Gen(1, s.conf, s.conf), s.conf, map[])
    else
      && GenOK(s, v.gen)
      && 1 < v.gen.num
      && IsQuorum(s.conf, v.lois.Keys)
      && (forall y :: y in v.lois ==> Ballot(y, v.gen, v.lois[y]) in s.ballots)
      && v.donors == MostAdvanced(v.lois)
  }

  function Rank(r: Rec): nat {
    match r
    case Prepare(tx) => tx.gen
    case ParallelSafe(num) => num
  }

  ghost predicate RankElected(s: State, m: nat) {
    exists v :: v in s.elected && v.gen.num == m
  }

  ghost predicate WalOK(s: State, x: NodeId)
    requires x in s.nodes
  {
    forall r :: r in s.nodes[x].wal ==>
      && RankElected(s, Rank(r))
      && (r.Prepare? ==> r.tx.coord in s.nodes && r in s.nodes[r.tx.coord].wal)
  }

  ghost predicate AckOK(s: State, a: Ack) {
    && a.node in s.nodes
    && Prepare(a.tx) in s.nodes[a.node].wal
    && HasPS(s.nodes[a.node].wal, a.tx.gen)
  }

  /** m has acknowledged tx, or may still do so in some continuation. */
  predicate CanAck(s: State, m: NodeId, tx: Tx) {
    || Ack(m, tx) in s.acks
    || (&& m in s.nodes
        && s.nodes[m].cur.num <= tx.gen
        && (s.nodes[m].loi == tx.gen || s.nodes[m].vote.num <= tx.gen))
  }

  ghost predicate CommittableIn(s: State, v: Victory, tx: Tx) {
    && v in s.elected && v.gen.num == tx.gen && HasQuorum(v.gen)
    && forall m :: m in v.gen.members ==> CanAck(s, m, tx)
  }

  /** No member of its generation is barred from acknowledging tx. */
  ghost predicate Committable(s: State, tx: Tx) {
    exists v :: CommittableIn(s, v, tx)
  }

  /** Before a record of generation n lie all committable prepares of generations < n. */
  ghost predicate OrderAt(s: State, x: NodeId, k: nat)
    requires x in s.nodes && k < |s.nodes[x].wal|
  {
    var wal := s.nodes[x].wal;
    forall tx: Tx :: tx.gen < Rank(wal[k]) && Committable(s, tx) ==> Prepare(tx) in wal[..k]
  }

  ghost predicate Order(s: State) {
    forall x, k {:trigger OrderAt(s, x, k)} :: x in s.nodes && 0 <= k < |s.nodes[x].wal| ==> OrderAt(s, x, k)
  }

  /** A node online in its current generation already holds what that demands. */
  ghost predicate OnlineHas(s: State, x: NodeId)
    requires x in s.nodes
  {
    var n := s.nodes[x];
    n.loi == n.cur.num ==>
      forall tx: Tx :: tx.gen < n.loi && Committable(s, tx) ==> Prepare(tx) in n.wal
  }

  predicate SameBallot(b: Ballot, c: Ballot) {
    b.voter == c.voter && b.gen.num == c.gen.num ==> b == c
  }

  ghost predicate BallotsUnique(s: State) {
    forall b, c {:trigger SameBallot(b, c)} :: b in s.ballots && c in s.ballots ==> SameBallot(b, c)
  }

  /** The triggers keep the parts apart: a fact is used where a proof names it. */
  ghost predicate Inv(s: State) {
    && s.conf != {} && s.nodes.Keys == s.conf
    && (forall x {:trigger NodeOK(s, x)} :: x in s.nodes ==> NodeOK(s, x))
    && (forall x {:trigger WalOK(s, x)} :: x in s.nodes ==> WalOK(s, x))
    && (forall b {:trigger BallotOK(s, b)} :: b in s.ballots ==> BallotOK(s, b))
    && BallotsUnique(s)
    && (forall r {:trigger RequestOK(s, r)} :: r in s.requests ==> RequestOK(s, r))
    && (forall r {:trigger ResponseOK(s, r)} :: r in s.responses ==> ResponseOK(s, r))
    && (forall v {:trigger VictoryOK(s, v)} :: v in s.elected ==> VictoryOK(s, v))
    && (forall a {:trigger AckOK(s, a)} :: a in s.acks ==> AckOK(s, a))
    && Order(s)
    && (forall x {:trigger OnlineHas(s, x)} :: x in s.nodes ==> OnlineHas(s, x))
  }

  lemma InitInv(s: State)
    requires Init(s)
    ensures Inv(s)
  {
    var v := Victory(Gen(1, s.conf, s.conf), s.conf, map[]);
    assert v in s.elected;
    forall x | x in s.nodes
      ensures NodeOK(s, x)
    {
      assert s.nodes[x] == InitialNode(s.conf);
      assert v.gen == s.nodes[x].cur;
      AllIsQuorum(s.conf);
    }
  }

  lemma AllIsQuorum(conf: set<NodeId>)
    requires conf != {}
    ensures Quorum(|conf|, |conf|)
  {
  }
}

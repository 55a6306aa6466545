/**
  Marked streams are exactly what at-most-once apply needs: if some sender's WAL shows a change beyond a
  syncpoint of its origin without showing the syncpoint, there is a run that registers a row against
  its contract, does not skip an applied change, and applies it twice.  A node that has recovered
  produces such a WAL, because forwarded syncpoints are not logged again; one that has not, does not.
 */
module ApplyExact {
  import opened RecoveryFilter
  import opened ApplyRun
  import opened ApplyMarked

  // ----- reachable states -----

  ghost predicate Reach(st: Streams, w: Senders, me: nat, s: State) {
    exists run :: Run(st, w, me, run) && run[|run| - 1] == s
  }

  lemma ReachInit(st: Streams, w: Senders, me: nat, s: State)
    requires ValidStreams(st, me) && ValidSenders(st, w, me) && Init(st, s)
    ensures Reach(st, w, me, s)
  {
    assert Run(st, w, me, [s]);
  }

  lemma ReachStep(st: Streams, w: Senders, me: nat, s: State, step: Step)
    requires Reach(st, w, me, s) && s.receivers.Keys == st.Keys && Enabled(st, me, s, step) && Begins(st, w, me, s, step)
    ensures Reach(st, w, me, Apply(st, me, s, step))
  {
    var run :| Run(st, w, me, run) && run[|run| - 1] == s;
    var s' := Apply(st, me, s, step);
    var run' := run + [s'];
    forall i | 0 <= i < |run'| - 1
      ensures StepAt(st, w, me, run', i)
    {
      if i < |run| - 1 {
        assert StepAt(st, w, me, run, i);
      } else {
        assert Begins(st, w, me, s, step) && Next(st, w, me, s, s');
      }
    }
    assert Run(st, w, me, run') && run'[|run'| - 1] == s';
  }

  lemma ReachInv(st: Streams, w: Senders, me: nat, s: State)
    requires Reach(st, w, me, s)
    ensures Inv(st, me, s)
  {
    var run :| Run(st, w, me, run) && run[|run| - 1] == s;
    RunInv(st, w, me, run, |run| - 1);
  }

  lemma ReachValid(st: Streams, w: Senders, me: nat, s: State)
    requires Reach(st, w, me, s)
    ensures ValidStreams(st, me) && ValidSenders(st, w, me)
  {
  }

  // ----- receivers that go on -----

  /** What passing items from..n of d's stream has logged. */
  ghost predicate Passed(st: Streams, me: nat, d: nat, rc: Receiver, from: nat, n: nat, wal: seq<WalRecord>, wal': seq<WalRecord>)
    requires d in st && from <= n <= |st[d]| && rc.Up?
  {
    && wal <= wal' && |wal'| <= |wal| + 2 * (n - from)
    && (forall i {:trigger Wanted(st, me, d, rc.mode, i)} ::
          from <= i < n && Wanted(st, me, d, rc.mode, i) && !Skipped(st, me, d, rc, i) && st[d][i].Tx? ==> NewRecord(wal, wal', st[d][i]))
    && (forall r :: |wal| <= r < |wal'| && wal'[r].kind.Registration? ==> RowOf(st, me, d, rc.mode, from, n, wal'[r].kind))
    && (forall r :: |wal| <= r < |wal'| && IsTransaction(wal'[r]) ==> TxOf(st, me, d, rc.mode, from, n, wal'[r]))
  }

  /** The record is of a change among these items. */
  ghost predicate TxOf(st: Streams, me: nat, d: nat, mode: Mode, from: nat, n: nat, r: WalRecord)
    requires d in st
  {
    exists i :: from <= i < n <= |st[d]| && Wanted(st, me, d, mode, i) && st[d][i].Tx? && IsRecordOf(r, st[d][i].origin, st[d][i].lsn)
  }

  ghost predicate NewRecord(wal: seq<WalRecord>, wal': seq<WalRecord>, item: Item) {
    exists r :: |wal| <= r < |wal'| && IsRecordOf(wal'[r], item.origin, item.lsn)
  }

  /** The row is of a syncpoint among these items. */
  ghost predicate RowOf(st: Streams, me: nat, d: nat, mode: Mode, from: nat, n: nat, row: Kind)
    requires d in st && row.Registration?
  {
    exists i :: from <= i < n <= |st[d]| && Wanted(st, me, d, mode, i) && st[d][i] == Sync(row.about, row.upTo)
  }

  lemma SyncPassed(st: Streams, me: nat, d: nat, rc: Receiver, wal: seq<WalRecord>)
    requires d in st && rc.Up? && rc.next < |st[d]| && Registers(st, me, d, rc)
    ensures Passed(st, me, d, rc, rc.next, rc.next + 1, wal, Registered(wal, st[d][rc.next].origin, st[d][rc.next].lsn, st[d][rc.next].origin == d))
  {
    var item := st[d][rc.next];
    var wal' := Registered(wal, item.origin, item.lsn, item.origin == d);
    RegisteredHas(wal, item.origin, item.lsn, item.origin == d);
    forall r | |wal| <= r < |wal'| && wal'[r].kind.Registration?
      ensures RowOf(st, me, d, rc.mode, rc.next, rc.next + 1, wal'[r].kind)
    {
      assert st[d][rc.next] == Sync(item.origin, item.lsn);
    }
  }

  /** One more syncpoint registered. */
  lemma WalkSync(st: Streams, w: Senders, me: nat, s: State, d: nat) returns (s': State)
    requires Reach(st, w, me, s) && d in st && s.receivers.Keys == st.Keys && s.receivers[d].Up? && s.receivers[d].inflight == {}
    requires s.receivers[d].next < |st[d]| && |s.wal| + 6 < MAX_LSN && Registers(st, me, d, s.receivers[d])
    ensures Reach(st, w, me, s') && s'.receivers == s.receivers[d := s.receivers[d].(next := s.receivers[d].next + 1)]
    ensures Passed(st, me, d, s.receivers[d], s.receivers[d].next, s.receivers[d].next + 1, s.wal, s'.wal)
  {
    s' := Apply(st, me, s, Take(d));
    ReachStep(st, w, me, s, Take(d));
    SyncPassed(st, me, d, s.receivers[d], s.wal);
  }

  /** One more change handed to a worker and finished. */
  lemma WalkTx(st: Streams, w: Senders, me: nat, s: State, d: nat) returns (s': State)
    requires Reach(st, w, me, s) && d in st && s.receivers.Keys == st.Keys && s.receivers[d].Up? && s.receivers[d].inflight == {}
    requires s.receivers[d].next < |st[d]| && |s.wal| + 6 < MAX_LSN && !Registers(st, me, d, s.receivers[d])
    requires Wanted(st, me, d, s.receivers[d].mode, s.receivers[d].next) && !Skipped(st, me, d, s.receivers[d], s.receivers[d].next)
    ensures Reach(st, w, me, s') && s'.receivers == s.receivers[d := s.receivers[d].(next := s.receivers[d].next + 1)]
    ensures Passed(st, me, d, s.receivers[d], s.receivers[d].next, s.receivers[d].next + 1, s.wal, s'.wal)
  {
    var rc := s.receivers[d];
    var item := st[d][rc.next];
    var s1 := Apply(st, me, s, Take(d));
    ReachStep(st, w, me, s, Take(d));
    s' := Apply(st, me, s1, Finish(d, rc.next));
    ReachStep(st, w, me, s1, Finish(d, rc.next));
    ReachValid(st, w, me, s);
    assert StreamOK(st, me, d) && ItemOK(st, me, d, rc.next);
    assert IsRecordOf(s'.wal[|s.wal|], item.origin, item.lsn);
    assert s'.receivers[d].inflight == {};
    assert TxOf(st, me, d, rc.mode, rc.next, rc.next + 1, s'.wal[|s.wal|]);
  }

  /** One more item: taken, and finished if it was handed to a worker. */
  lemma WalkOne(st: Streams, w: Senders, me: nat, s: State, d: nat) returns (s': State)
    requires Reach(st, w, me, s) && d in st && d in s.receivers && s.receivers[d].Up? && s.receivers[d].inflight == {}
    requires s.receivers[d].next < |st[d]| && |s.wal| + 6 < MAX_LSN
    ensures Reach(st, w, me, s') && s'.receivers == s.receivers[d := s.receivers[d].(next := s.receivers[d].next + 1)]
    ensures Passed(st, me, d, s.receivers[d], s.receivers[d].next, s.receivers[d].next + 1, s.wal, s'.wal)
  {
    ReachInv(st, w, me, s);
    var rc := s.receivers[d];
    if Registers(st, me, d, rc) {
      s' := WalkSync(st, w, me, s, d);
    } else if Wanted(st, me, d, rc.mode, rc.next) && !Skipped(st, me, d, rc, rc.next) {
      s' := WalkTx(st, w, me, s, d);
    } else {
      s' := Apply(st, me, s, Take(d));
      ReachStep(st, w, me, s, Take(d));
    }
  }

  lemma PassedMore(st: Streams, me: nat, d: nat, rc: Receiver, from: nat, n: nat, wal: seq<WalRecord>, wal1: seq<WalRecord>, wal2: seq<WalRecord>)
    requires d in st && from <= n < |st[d]| && rc.Up?
    requires Passed(st, me, d, rc, from, n, wal, wal1) && Passed(st, me, d, rc.(next := n), n, n + 1, wal1, wal2)
    ensures Passed(st, me, d, rc, from, n + 1, wal, wal2)
  {
    forall i | from <= i < n + 1 && Wanted(st, me, d, rc.mode, i) && !Skipped(st, me, d, rc, i) && st[d][i].Tx?
      ensures NewRecord(wal, wal2, st[d][i])
    {
      if i < n {
        var r :| |wal| <= r < |wal1| && IsRecordOf(wal1[r], st[d][i].origin, st[d][i].lsn);
        assert wal2[r] == wal1[r];
      } else {
        assert Wanted(st, me, d, rc.(next := n).mode, i);
      }
    }
    forall r | |wal| <= r < |wal2| && wal2[r].kind.Registration?
      ensures RowOf(st, me, d, rc.mode, from, n + 1, wal2[r].kind)
    {
      if r < |wal1| {
        assert wal2[r] == wal1[r] && RowOf(st, me, d, rc.mode, from, n, wal1[r].kind);
      } else {
        assert RowOf(st, me, d, rc.mode, n, n + 1, wal2[r].kind);
      }
    }
    forall r | |wal| <= r < |wal2| && IsTransaction(wal2[r])
      ensures TxOf(st, me, d, rc.mode, from, n + 1, wal2[r])
    {
      if r < |wal1| {
        assert wal2[r] == wal1[r] && TxOf(st, me, d, rc.mode, from, n, wal1[r]);
      } else {
        assert TxOf(st, me, d, rc.mode, n, n + 1, wal2[r]);
      }
    }
  }

  /** A receiver with nothing in flight can go on to any place of its stream. */
  lemma {:induction false} Walk(st: Streams, w: Senders, me: nat, s: State, d: nat, n: nat) returns (s': State)
    requires Reach(st, w, me, s) && d in st && d in s.receivers && s.receivers[d].Up? && s.receivers[d].inflight == {}
    requires s.receivers[d].next <= n <= |st[d]| && |s.wal| + 2 * (n - s.receivers[d].next) + 6 < MAX_LSN
    ensures Reach(st, w, me, s') && s'.receivers == s.receivers[d := s.receivers[d].(next := n)]
    ensures Passed(st, me, d, s.receivers[d], s.receivers[d].next, n, s.wal, s'.wal)
    decreases n
  {
    var rc := s.receivers[d];
    if n == rc.next {
      s' := s;
      assert s.receivers[d := rc.(next := n)] == s.receivers;
    } else {
      var s1 := Walk(st, w, me, s, d, n - 1);
      s' := WalkOne(st, w, me, s1, d);
      PassedMore(st, me, d, rc, rc.next, n - 1, s.wal, s1.wal, s'.wal);
    }
  }

  // ----- starting a receiver -----

  function FilterOf(wal: seq<WalRecord>, from: Lsn, filterNode: nat, v: seq<Syncpoint>): set<(nat, Lsn)>
    requires |v| == MTM_MAX_NODES
  {
    set k | 0 <= k < |wal| && wal[k].start >= from && Enters(wal[k], filterNode, v) :: (wal[k].origin.id, wal[k].originLsn)
  }

  lemma FilterOfIs(wal: seq<WalRecord>, from: Lsn, filterNode: nat, v: seq<Syncpoint>)
    requires |v| == MTM_MAX_NODES
    ensures IsFilter(FilterOf(wal, from, filterNode, v), wal, from, filterNode, v)
  {
  }

  ghost predicate AllDown(st: Streams, s: State) {
    s.receivers.Keys == st.Keys && forall x :: x in st ==> s.receivers[x].Down?
  }

  /** A normal receiver of o scans from its own syncpoint. */
  lemma NormalScan(st: Streams, me: nat, wal: seq<WalRecord>, o: nat)
    requires ValidStreams(st, me) && o in st && WalOK(st, wal)
    ensures IsScanStart(SpVector(st, wal, o, Normal), LatestSp(wal, o).localLsn)
  {
    assert StreamOK(st, me, o);
    LatestLocal(st, wal, o);
    var v := SpVector(st, wal, o, Normal);
    assert v[o - 1].localLsn == LatestSp(wal, o).localLsn;
  }

  /** There is a place in the stream for every position. */
  lemma {:induction false} BoundaryAt(at: seq<Lsn>, h: Lsn) returns (next: nat)
    requires forall i, j :: 0 <= i < j < |at| ==> at[i] < at[j]
    ensures Boundary(at, next, h)
  {
    if at == [] || at[|at| - 1] < h {
      next := |at|;
    } else {
      next := BoundaryAt(at[..|at| - 1], h);
    }
  }

  /** With everything down, a normal receiver of o may start where o's latest syncpoint ends. */
  lemma StartNormal(st: Streams, w: Senders, me: nat, s: State, o: nat) returns (s': State, next: nat)
    requires Reach(st, w, me, s) && AllDown(st, s) && o in st
    ensures Reach(st, w, me, s') && s'.wal == s.wal && s'.receivers.Keys == st.Keys
    ensures o in w && Boundary(w[o].at, next, LatestSp(s.wal, o).originLsn)
    ensures var v := SpVector(st, s.wal, o, Normal);
            s'.receivers == s.receivers[o := Up(Normal, next, {}, FilterOf(s.wal, LatestSp(s.wal, o).localLsn, o, v), v)]
  {
    ReachInv(st, w, me, s);
    ReachValid(st, w, me, s);
    assert SenderOK(st, w, me, o);
    next := BoundaryAt(w[o].at, LatestSp(s.wal, o).originLsn);
    var v, from := SpVector(st, s.wal, o, Normal), LatestSp(s.wal, o).localLsn;
    NormalScan(st, me, s.wal, o);
    FilterOfIs(s.wal, from, o, v);
    var step := Start(o, Normal, next, FilterOf(s.wal, from, o, v), from);
    assert StartsFrom(st, w, me, s.wal, o, Normal, LatestSp(s.wal, o).originLsn);
    ReachStep(st, w, me, s, step);
    s' := Apply(st, me, s, step);
  }

  lemma StopIt(st: Streams, w: Senders, me: nat, s: State, d: nat) returns (s': State)
    requires Reach(st, w, me, s) && d in st && s.receivers.Keys == st.Keys && forall x :: x in st && x != d ==> s.receivers[x].Down?
    ensures Reach(st, w, me, s') && AllDown(st, s') && s'.wal == s.wal
  {
    ReachStep(st, w, me, s, Stop(d));
    s' := Apply(st, me, s, Stop(d));
  }

  // ----- a stream that is not marked -----

  /** Streams short enough for the positions that the runs below log. */
  ghost predicate Short(st: Streams) {
    forall d :: d in st ==> |st[d]| < 0x03FF_FFFF_FFFF_FFFF
  }

  /** Item k of d's stream is a change beyond o's syncpoint upTo, which is not shown before it. */
  ghost predicate IsGap(st: Streams, me: nat, d: nat, k: nat, upTo: Lsn) {
    && d in st && k < |st[d]| && st[d][k].Tx? && st[d][k].origin != me
    && SyncOf(st, st[d][k].origin, upTo) && upTo < st[d][k].lsn && !MarkBefore(st[d], k, st[d][k].origin, upTo)
  }

  lemma GapExists(st: Streams, me: nat)
    requires !Marked(st, me)
    ensures exists d, k, upTo :: IsGap(st, me, d, k, upTo)
  {
    var d, k :| d in st && 0 <= k < |st[d]| && !MarkedAt(st, me, d, k);
    var upTo: Lsn :| SyncOf(st, st[d][k].origin, upTo) && upTo < st[d][k].lsn && !MarkBefore(st[d], k, st[d][k].origin, upTo);
    assert IsGap(st, me, d, k, upTo);
  }

  /** A sender's own items are ordered by position. */
  lemma OwnOrder(st: Streams, me: nat, o: nat, i: nat, j: nat)
    requires ValidStreams(st, me) && o in st && i < |st[o]| && j < |st[o]| && st[o][i].origin == o == st[o][j].origin
    ensures st[o][i].lsn < st[o][j].lsn ==> i < j
  {
    assert StreamOK(st, me, o);
    assert j < i ==> PairOK(o, st[o][j], st[o][i]);
  }

  /** A sender shows its own syncpoints. */
  lemma OwnMarked(st: Streams, me: nat, d: nat, k: nat, upTo: Lsn)
    requires ValidStreams(st, me) && d in st && k < |st[d]| && st[d][k].origin == d && SyncOf(st, d, upTo) && upTo < st[d][k].lsn
    ensures MarkBefore(st[d], k, d, upTo)
  {
    var p :| 0 <= p < |st[d]| && st[d][p] == Sync(d, upTo);
    OwnOrder(st, me, d, p, k);
  }

  lemma GapForeign(st: Streams, me: nat, d: nat, k: nat, upTo: Lsn)
    requires ValidStreams(st, me) && IsGap(st, me, d, k, upTo)
    ensures st[d][k].origin != d
  {
    if st[d][k].origin == d {
      OwnMarked(st, me, d, k, upTo);
      assert false;
    }
  }

  ghost predicate RowsBelow(wal: seq<WalRecord>, o: nat, upTo: Lsn) {
    forall r :: 0 <= r < |wal| && IsRow(wal[r], o) ==> wal[r].kind.upTo < upTo
  }

  /** The horizon of a fresh node is the beginning. */
  lemma FreshHorizon(st: Streams, w: Senders, me: nat, d: nat)
    requires ValidStreams(st, me) && ValidSenders(st, w, me) && d in st
    ensures d in w && StartsFrom(st, w, me, [], d, Recovery, 0) && Boundary(w[d].at, 0, 0)
  {
    assert StreamOK(st, me, d) && SenderOK(st, w, me, d);
    HorizonAtMost(st, me, [], d, map[], d);
    assert CopyOf(map[], w[d].rows);
  }

  /** A fresh node may start to recover from any donor, with an empty filter. */
  lemma StartRecovery(st: Streams, w: Senders, me: nat, d: nat) returns (s: State)
    requires ValidStreams(st, me) && ValidSenders(st, w, me) && d in st
    ensures Reach(st, w, me, s) && s.wal == [] && s.flushed == 0 && s.receivers.Keys == st.Keys && (forall x :: x in st && x != d ==> s.receivers[x].Down?)
    ensures s.receivers[d] == Up(Recovery, 0, {}, {}, SpVector(st, [], d, Recovery))
  {
    var s0 := State([], 0, map x | x in st :: Down);
    ReachInit(st, w, me, s0);
    assert StreamOK(st, me, d);
    var v := SpVector(st, [], d, Recovery);
    assert v[d - 1] == Syncpoint(0, 1);
    var step := Start(d, Recovery, 0, {}, 1);
    FreshHorizon(st, w, me, d);
    ReachStep(st, w, me, s0, step);
    s := Apply(st, me, s0, step);
  }

  /** A fresh node that recovers skips nothing but its own. */
  lemma FreshSkipsNothing(st: Streams, me: nat, d: nat, next: nat, k: nat)
    requires ValidStreams(st, me) && d in st && k < |st[d]| && Wanted(st, me, d, Recovery, k)
    ensures !Skipped(st, me, d, Up(Recovery, next, {}, {}, SpVector(st, [], d, Recovery)), k)
  {
    WantedItem(st, me, d, Recovery, k);
  }

  /** What a fresh node has logged when it has passed the change. */
  lemma GapPassed(st: Streams, me: nat, d: nat, k: nat, upTo: Lsn, wal: seq<WalRecord>)
    requires ValidStreams(st, me) && IsGap(st, me, d, k, upTo)
    requires Passed(st, me, d, Up(Recovery, 0, {}, {}, SpVector(st, [], d, Recovery)), 0, k + 1, [], wal)
    ensures Applied(wal, st[d][k].origin, st[d][k].lsn) && RowsBelow(wal, st[d][k].origin, upTo)
  {
    assert Wanted(st, me, d, Recovery, k);
    FreshSkipsNothing(st, me, d, 0, k);
    assert NewRecord([], wal, st[d][k]);
    GapRows(st, me, d, k, upTo, wal);
  }

  /** The node recovers from d, up to the change: it has the change, and no row at or beyond upTo. */
  lemma RecoverFromGap(st: Streams, w: Senders, me: nat, d: nat, k: nat, upTo: Lsn) returns (s: State)
    requires ValidStreams(st, me) && ValidSenders(st, w, me) && Short(st) && IsGap(st, me, d, k, upTo)
    ensures Reach(st, w, me, s) && AllDown(st, s) && |s.wal| <= 2 * |st[d]|
    ensures Applied(s.wal, st[d][k].origin, st[d][k].lsn) && RowsBelow(s.wal, st[d][k].origin, upTo)
  {
    var s1 := StartRecovery(st, w, me, d);
    assert |st[d]| < 0x03FF_FFFF_FFFF_FFFF;
    var s2 := Walk(st, w, me, s1, d, k + 1);
    GapPassed(st, me, d, k, upTo, s2.wal);
    s := StopIt(st, w, me, s2, d);
  }

  lemma GapRows(st: Streams, me: nat, d: nat, k: nat, upTo: Lsn, wal: seq<WalRecord>)
    requires IsGap(st, me, d, k, upTo)
    requires forall r :: 0 <= r < |wal| && wal[r].kind.Registration? ==> RowOf(st, me, d, Recovery, 0, k + 1, wal[r].kind)
    ensures RowsBelow(wal, st[d][k].origin, upTo)
  {
    var o := st[d][k].origin;
    forall q | 0 <= q < |wal| && IsRow(wal[q], o)
      ensures wal[q].kind.upTo < upTo
    {
      var i :| 0 <= i < k + 1 && st[d][i] == Sync(o, wal[q].kind.upTo);
      assert i < k && !MarkBefore(st[d], k, o, upTo);
    }
  }

  lemma LatestBelow(wal: seq<WalRecord>, o: nat, upTo: Lsn)
    requires RowsBelow(wal, o, upTo) && upTo > 0
    ensures LatestSp(wal, o).originLsn < upTo && !HasExactly(wal, o, upTo)
  {
    LatestSpIs(wal, o);
  }

  /** Then o's own receiver walks up to its syncpoint upTo. */
  lemma WalkToSync(st: Streams, w: Senders, me: nat, s: State, o: nat, p: nat, upTo: Lsn) returns (s': State)
    requires ValidStreams(st, me) && ValidSenders(st, w, me) && Short(st) && Reach(st, w, me, s) && AllDown(st, s) && RowsBelow(s.wal, o, upTo)
    requires o in st && p < |st[o]| && st[o][p] == Sync(o, upTo) && |s.wal| + 2 * |st[o]| + 6 < MAX_LSN
    ensures Reach(st, w, me, s') && s.wal <= s'.wal && |s'.wal| <= |s.wal| + 2 * p && RowsBelow(s'.wal, o, upTo)
    ensures s'.receivers.Keys == st.Keys && (forall x :: x in st && x != o ==> s'.receivers[x].Down?)
    ensures var rc := s'.receivers[o]; rc.Up? && rc.mode.Normal? && rc.inflight == {} && rc.next == p && Registers(st, me, o, rc)
  {
    ReachInv(st, w, me, s);
    assert StreamOK(st, me, o) && ItemOK(st, me, o, p);
    LatestBelow(s.wal, o, upTo);
    var s1, next := StartNormal(st, w, me, s, o);
    if p < next {
      OwnBefore(st, w, me, s.wal, o, p);
      assert false;
    }
    var rc := s1.receivers[o];
    s' := Walk(st, w, me, s1, o, p);
    var v, from := SpVector(st, s.wal, o, Normal), LatestSp(s.wal, o).localLsn;
    LatestLocal(st, s.wal, o);
    FilterOfIs(s.wal, from, o, v);
    FilterMade(st, s.wal, rc.filter, from, o, v, o, upTo);
    assert SyncOf(st, o, upTo);
    SyncNotMade(st, me, o, upTo);
    forall q | 0 <= q < |s'.wal| && IsRow(s'.wal[q], o)
      ensures s'.wal[q].kind.upTo < upTo
    {
      if q < |s.wal| {
        assert s'.wal[q] == s.wal[q];
      } else {
        assert RowOf(st, me, o, Normal, next, p, s'.wal[q].kind);
        var i :| next <= i < p && st[o][i] == Sync(o, s'.wal[q].kind.upTo);
        assert PairOK(o, st[o][i], st[o][p]);
      }
    }
  }

  /** And registers it, with everything logged before it, the change included. */
  lemma RegisterLate(st: Streams, w: Senders, me: nat, s: State, o: nat, p: nat, upTo: Lsn) returns (s': State)
    requires ValidStreams(st, me) && ValidSenders(st, w, me) && Short(st) && Reach(st, w, me, s) && AllDown(st, s) && RowsBelow(s.wal, o, upTo)
    requires o in st && p < |st[o]| && st[o][p] == Sync(o, upTo) && |s.wal| + 2 * |st[o]| + 8 < MAX_LSN
    ensures Reach(st, w, me, s') && AllDown(st, s') && s.wal <= s'.wal && |s.wal| + 2 <= |s'.wal| <= |s.wal| + 2 * p + 2
    ensures s'.wal[|s'.wal| - 2] == WalRecord(|s'.wal| - 1, Own, Mark(o, upTo), 0)
    ensures s'.wal[|s'.wal| - 1] == WalRecord(|s'.wal|, Own, Registration(o, upTo, |s'.wal|), 0)
    ensures LatestSp(s'.wal, o) == Syncpoint(upTo, |s'.wal|)
  {
    var s1 := WalkToSync(st, w, me, s, o, p, upTo);
    assert StreamOK(st, me, o) && ItemOK(st, me, o, p);
    LatestBelow(s1.wal, o, upTo);
    ReachStep(st, w, me, s1, Take(o));
    var s2 := Apply(st, me, s1, Take(o));
    var marked := Logged(s1.wal, Own, Mark(o, upTo), 0);
    assert s2.wal == Logged(marked, Own, Registration(o, upTo, |marked| + 1), 0);
    assert RowsBelow(marked, o, upTo);
    LatestBelow(marked, o, upTo);
    assert s2.wal[..|s2.wal| - 1] == marked;
    s' := StopIt(st, w, me, s2, o);
  }

  /** At the next start the change is not in the filter although it is applied, and is applied again. */
  lemma ApplyAgain(st: Streams, w: Senders, me: nat, s: State, o: nat, p: nat, upTo: Lsn, l: Lsn) returns (s1: State, s2: State, t: nat)
    requires ValidStreams(st, me) && ValidSenders(st, w, me) && Short(st) && Reach(st, w, me, s) && AllDown(st, s)
    requires o in st && p < |st[o]| && st[o][p] == Sync(o, upTo) && Made(st, o, l) && upTo < l && |s.wal| + 2 * |st[o]| + 8 < MAX_LSN
    requires |s.wal| > 0 && s.wal[|s.wal| - 1] == WalRecord(|s.wal|, Own, Registration(o, upTo, |s.wal|), 0)
    requires LatestSp(s.wal, o) == Syncpoint(upTo, |s.wal|)
    ensures Reach(st, w, me, s1) && s1.wal == s.wal && o in s1.receivers && s1.receivers[o].Up? && s1.receivers[o].mode.Normal?
    ensures s1.receivers[o].next <= t < |st[o]| && IsTx(st[o][t], o, l) && !Skipped(st, me, o, s1.receivers[o], t)
    ensures Reach(st, w, me, s2) && s.wal <= s2.wal && NewRecord(s.wal, s2.wal, st[o][t])
  {
    ReachInv(st, w, me, s);
    assert StreamOK(st, me, o);
    var next;
    s1, next := StartNormal(st, w, me, s, o);
    t :| 0 <= t < |st[o]| && IsTx(st[o][t], o, l);
    OwnOrder(st, me, o, p, t);
    assert SenderOK(st, w, me, o) && w[o].at[t] >= upTo;
    var rc, v := s1.receivers[o], SpVector(st, s.wal, o, Normal);
    assert rc.filter == {} by {
      forall k | 0 <= k < |s.wal| && s.wal[k].start >= |s.wal|
        ensures !Enters(s.wal[k], o, v)
      {
        assert RecordOK(st, s.wal, k);
      }
    }
    assert ItemOK(st, me, o, t) && Wanted(st, me, o, rc.mode, t);
    s2 := Walk(st, w, me, s1, o, t + 1);
  }

  // ----- the condition is exact -----

  ghost predicate NoRepeat(s: State) {
    forall j, k, o: nat, l: Lsn {:trigger IsRecordOf(s.wal[j], o, l), IsRecordOf(s.wal[k], o, l)} ::
      0 <= j < k < |s.wal| && IsRecordOf(s.wal[j], o, l) ==> !IsRecordOf(s.wal[k], o, l)
  }

  ghost predicate RowsHold(s: State) {
    forall r {:trigger s.wal[r]} :: 0 <= r < |s.wal| && s.wal[r].kind.Registration? ==>
      SecondHalf(s.wal, s.wal[r].kind.about, s.wal[r].kind.upTo, s.wal[r].kind.since)
  }

  ghost predicate SkipsAllApplied(st: Streams, me: nat, s: State) {
    forall d, k {:trigger Wanted(st, me, d, s.receivers[d].mode, k)} ::
      d in st && d in s.receivers && s.receivers[d].Up? && s.receivers[d].next <= k < |st[d]|
      && Wanted(st, me, d, s.receivers[d].mode, k) && st[d][k].Tx? && Applied(s.wal, st[d][k].origin, st[d][k].lsn) ==>
        Skipped(st, me, d, s.receivers[d], k)
  }

  /** After a gap the syncpoint is registered late, at the end of the WAL, with the change before it. */
  lemma GapRegistered(st: Streams, w: Senders, me: nat, d: nat, k: nat, upTo: Lsn, p: nat) returns (late: State)
    requires ValidStreams(st, me) && ValidSenders(st, w, me) && Short(st) && IsGap(st, me, d, k, upTo)
    requires st[d][k].origin in st && p < |st[st[d][k].origin]| && st[st[d][k].origin][p] == Sync(st[d][k].origin, upTo)
    ensures Reach(st, w, me, late) && AllDown(st, late) && 0 < |late.wal| <= 0x1000_0000_0000_0000 && Applied(late.wal, st[d][k].origin, st[d][k].lsn)
    ensures late.wal[|late.wal| - 1] == WalRecord(|late.wal|, Own, Registration(st[d][k].origin, upTo, |late.wal|), 0)
    ensures LatestSp(late.wal, st[d][k].origin) == Syncpoint(upTo, |late.wal|)
  {
    var o, l := st[d][k].origin, st[d][k].lsn;
    var s := RecoverFromGap(st, w, me, d, k, upTo);
    assert |st[d]| < 0x03FF_FFFF_FFFF_FFFF && |st[o]| < 0x03FF_FFFF_FFFF_FFFF;
    late := RegisterLate(st, w, me, s, o, p, upTo);
    var a :| 0 <= a < |s.wal| && IsRecordOf(s.wal[a], o, l);
    assert IsRecordOf(late.wal[a], o, l);
  }

  /** A row at the end of the WAL does not lie before a change that is in the WAL. */
  lemma LateRow(st: Streams, me: nat, s: State, o: nat, upTo: Lsn, l: Lsn)
    requires Inv(st, me, s) && |s.wal| > 0 && s.wal[|s.wal| - 1] == WalRecord(|s.wal|, Own, Registration(o, upTo, |s.wal|), 0)
    requires Applied(s.wal, o, l) && upTo < l
    ensures !RowsHold(s)
  {
    var a :| 0 <= a < |s.wal| && IsRecordOf(s.wal[a], o, l);
    assert RecordOK(st, s.wal, a);
    assert !SecondHalf(s.wal, o, upTo, |s.wal|);
  }

  /** A change logged again is there twice. */
  lemma Twice(s: State, s': State, o: nat, l: Lsn)
    requires s.wal <= s'.wal && Applied(s.wal, o, l) && exists b :: |s.wal| <= b < |s'.wal| && IsRecordOf(s'.wal[b], o, l)
    ensures !NoRepeat(s')
  {
    var a :| 0 <= a < |s.wal| && IsRecordOf(s.wal[a], o, l);
    var b :| |s.wal| <= b < |s'.wal| && IsRecordOf(s'.wal[b], o, l);
    assert IsRecordOf(s'.wal[a], o, l);
  }

  /** The three failures, from one gap. */
  lemma GapFails(st: Streams, w: Senders, me: nat, d: nat, k: nat, upTo: Lsn) returns (late: State, start: State, twice: State)
    requires ValidStreams(st, me) && ValidSenders(st, w, me) && Short(st) && IsGap(st, me, d, k, upTo)
    ensures Reach(st, w, me, late) && !RowsHold(late)
    ensures Reach(st, w, me, start) && !SkipsAllApplied(st, me, start)
    ensures Reach(st, w, me, twice) && !NoRepeat(twice)
  {
    GapForeign(st, me, d, k, upTo);
    WantedItem(st, me, d, Recovery, k);
    var o, l := st[d][k].origin, st[d][k].lsn;
    var p :| 0 <= p < |st[o]| && st[o][p] == Sync(o, upTo);
    assert |st[o]| < 0x03FF_FFFF_FFFF_FFFF;
    late := GapRegistered(st, w, me, d, k, upTo, p);
    ReachInv(st, w, me, late);
    LateRow(st, me, late, o, upTo, l);
    var t;
    start, twice, t := ApplyAgain(st, w, me, late, o, p, upTo, l);
    assert Wanted(st, me, o, start.receivers[o].mode, t) by {
      assert StreamOK(st, me, o);
    }
    Twice(late, twice, o, l);
  }

  lemma ReachSafe(st: Streams, w: Senders, me: nat, s: State)
    requires Reach(st, w, me, s) && Marked(st, me)
    ensures Safe(st, me, s)
  {
    var run :| Run(st, w, me, run) && run[|run| - 1] == s;
    RunSafe(st, w, me, run, |run| - 1);
  }

  /** In all runs nothing is applied twice if and only if the streams are marked. */
  lemma NoRepeatIffMarked(st: Streams, w: Senders, me: nat)
    requires ValidStreams(st, me) && ValidSenders(st, w, me) && Short(st)
    ensures Marked(st, me) <==> forall s :: Reach(st, w, me, s) ==> NoRepeat(s)
  {
    if Marked(st, me) {
      forall s | Reach(st, w, me, s)
        ensures NoRepeat(s)
      {
        ReachSafe(st, w, me, s);
        forall j, k, o: nat, l: Lsn | 0 <= j < k < |s.wal| && IsRecordOf(s.wal[j], o, l)
          ensures !IsRecordOf(s.wal[k], o, l)
        {
          AppliedOnce(st, s.wal, j, k, o, l);
        }
      }
    } else {
      GapExists(st, me);
      var d, k, upTo :| IsGap(st, me, d, k, upTo);
      var late, start, twice := GapFails(st, w, me, d, k, upTo);
    }
  }

  /** In all runs every registered row keeps the second half of its contract if and only if the streams are marked. */
  lemma RowsHoldIffMarked(st: Streams, w: Senders, me: nat)
    requires ValidStreams(st, me) && ValidSenders(st, w, me) && Short(st)
    ensures Marked(st, me) <==> forall s :: Reach(st, w, me, s) ==> RowsHold(s)
  {
    if Marked(st, me) {
      forall s | Reach(st, w, me, s)
        ensures RowsHold(s)
      {
        ReachSafe(st, w, me, s);
        forall r | 0 <= r < |s.wal| && s.wal[r].kind.Registration?
          ensures SecondHalf(s.wal, s.wal[r].kind.about, s.wal[r].kind.upTo, s.wal[r].kind.since)
        {
          SecondHolds(st, s.wal, r);
        }
      }
    } else {
      GapExists(st, me);
      var d, k, upTo :| IsGap(st, me, d, k, upTo);
      var late, start, twice := GapFails(st, w, me, d, k, upTo);
    }
  }

  /** In all runs what is applied already is skipped if and only if the streams are marked. */
  lemma SkipsIffMarked(st: Streams, w: Senders, me: nat)
    requires ValidStreams(st, me) && ValidSenders(st, w, me) && Short(st)
    ensures Marked(st, me) <==> forall s :: Reach(st, w, me, s) ==> SkipsAllApplied(st, me, s)
  {
    if Marked(st, me) {
      forall s | Reach(st, w, me, s)
        ensures SkipsAllApplied(st, me, s)
      {
        ReachSafe(st, w, me, s);
        forall d, k | d in st && d in s.receivers && s.receivers[d].Up? && s.receivers[d].next <= k < |st[d]|
                      && Wanted(st, me, d, s.receivers[d].mode, k) && st[d][k].Tx? && Applied(s.wal, st[d][k].origin, st[d][k].lsn)
          ensures Skipped(st, me, d, s.receivers[d], k)
        {
          assert ReceiverSafe(st, me, s.wal, d, s.receivers[d]) && ItemSafe(st, me, s.wal, d, s.receivers[d], k);
        }
      }
    } else {
      GapExists(st, me);
      var d, k, upTo :| IsGap(st, me, d, k, upTo);
      var late, start, twice := GapFails(st, w, me, d, k, upTo);
    }
  }

  // ----- which nodes log marked streams -----

  /** What others read in a node's WAL of the changes and syncpoints it applied. */
  function Emitted(wal: seq<WalRecord>): seq<Item> {
    if wal == [] then []
    else
      var rest, r := Emitted(wal[..|wal| - 1]), wal[|wal| - 1];
      if IsTransaction(r) && r.origin.Node? then rest + [Tx(r.origin.id, r.kind, r.originLsn)]
      else if r.kind.Mark? then rest + [Sync(r.kind.about, r.kind.upTo)]
      else rest
  }

  /** Every item comes from a record, after what the records before it emit. */
  lemma {:induction false} EmittedAt(wal: seq<WalRecord>, k: nat) returns (n: nat)
    requires k < |Emitted(wal)|
    ensures n < |wal| && |Emitted(wal[..n])| == k && Emitted(wal)[..k] == Emitted(wal[..n]) && Emitted(wal[..n + 1]) == Emitted(wal[..n]) + [Emitted(wal)[k]]
  {
    var init := wal[..|wal| - 1];
    if k < |Emitted(init)| {
      n := EmittedAt(init, k);
      assert init[..n] == wal[..n] && init[..n + 1] == wal[..n + 1];
    } else {
      n := |wal| - 1;
      assert wal[..n + 1] == wal;
    }
  }

  lemma EmittedRecord(wal: seq<WalRecord>, n: nat, item: Item)
    requires n < |wal| && Emitted(wal[..n + 1]) == Emitted(wal[..n]) + [item] && item.Tx?
    ensures IsRecordOf(wal[n], item.origin, item.lsn)
  {
    var upTo, e := wal[..n + 1], Emitted(wal[..n]);
    assert upTo[..n] == wal[..n] && upTo[n] == wal[n];
    assert (e + [item])[|e|] == item;
  }

  lemma {:induction false} EmittedPrefix(wal: seq<WalRecord>, n: nat)
    requires n <= |wal|
    ensures Emitted(wal[..n]) <= Emitted(wal)
  {
    if n < |wal| {
      EmittedPrefix(wal[..|wal| - 1], n);
      assert wal[..|wal| - 1][..n] == wal[..n];
    } else {
      assert wal[..n] == wal;
    }
  }

  /** A mark among the first n records is emitted by them. */
  lemma MarkEmitted(wal: seq<WalRecord>, m: nat, n: nat)
    requires m < n <= |wal| && wal[m].kind.Mark?
    ensures MarkBefore(Emitted(wal[..n]), |Emitted(wal[..n])|, wal[m].kind.about, wal[m].kind.upTo)
  {
    assert wal[..n][..m + 1] == wal[..m + 1] && wal[..m + 1][..m] == wal[..m];
    EmittedPrefix(wal[..n], m + 1);
    var e := Emitted(wal[..m + 1]);
    assert e[|e| - 1] == Sync(wal[m].kind.about, wal[m].kind.upTo);
    assert Emitted(wal[..n])[|e| - 1] == e[|e| - 1];
  }

  /** Every registered syncpoint was logged. */
  ghost predicate RowsLogged(wal: seq<WalRecord>) {
    forall r {:trigger wal[r]} :: 0 <= r < |wal| && wal[r].kind.Registration? ==> LoggedBefore(wal, r, wal[r].kind)
  }

  ghost predicate LoggedBefore(wal: seq<WalRecord>, r: nat, row: Kind)
    requires r <= |wal| && row.Registration?
  {
    exists m :: 0 <= m < r && wal[m].kind == Mark(row.about, row.upTo)
  }

  /** A node whose registered syncpoints are all logged shows them before what is beyond them. */
  lemma LoggedEmitsMarked(st: Streams, wal: seq<WalRecord>, k: nat, l: Lsn)
    requires WalSafe(st, wal) && RowsLogged(wal) && k < |Emitted(wal)| && Emitted(wal)[k].Tx?
    requires SyncOf(st, Emitted(wal)[k].origin, l) && l < Emitted(wal)[k].lsn
    ensures MarkBefore(Emitted(wal), k, Emitted(wal)[k].origin, l)
  {
    var item := Emitted(wal)[k];
    var n := EmittedAt(wal, k);
    EmittedRecord(wal, n, item);
    assert RecordSafe(st, wal, n) && HasRow(wal[..n], item.origin, l);
    var r :| 0 <= r < n && IsRow(wal[..n][r], item.origin) && wal[..n][r].kind.upTo >= l;
    assert wal[r] == wal[..n][r] && LoggedBefore(wal, r, wal[r].kind);
    var m :| 0 <= m < r && wal[m].kind == Mark(item.origin, wal[r].kind.upTo);
    MarkEmitted(wal, m, n);
    var j :| 0 <= j < k && Emitted(wal[..n])[j].Sync? && Emitted(wal[..n])[j].origin == item.origin && Emitted(wal[..n])[j].lsn >= wal[r].kind.upTo;
    assert Emitted(wal)[j] == Emitted(wal)[..k][j];
  }

  /** No receiver is in recovery. */
  ghost predicate NotRecovering(s: State) {
    forall d :: d in s.receivers && s.receivers[d].Up? ==> s.receivers[d].mode.Normal?
  }

  lemma StepLogged(st: Streams, w: Senders, me: nat, s: State, s': State)
    requires ValidStreams(st, me) && Next(st, w, me, s, s') && RowsLogged(s.wal) && NotRecovering(s)
    ensures RowsLogged(s'.wal)
  {
    var step :| Enabled(st, me, s, step) && Begins(st, w, me, s, step) && s' == Apply(st, me, s, step);
    if step.Finish? {
      assert StreamOK(st, me, step.d) && ItemOK(st, me, step.d, step.i);
    }
    forall r | 0 <= r < |s'.wal| && s'.wal[r].kind.Registration?
      ensures LoggedBefore(s'.wal, r, s'.wal[r].kind)
    {
      if r < |s.wal| {
        assert s'.wal[r] == s.wal[r] && LoggedBefore(s.wal, r, s.wal[r].kind);
        var m :| 0 <= m < r && s.wal[m].kind == Mark(s.wal[r].kind.about, s.wal[r].kind.upTo);
        assert s'.wal[m] == s.wal[m];
      } else {
        assert step.Take?;
        var item := st[step.d][s.receivers[step.d].next];
        assert s'.wal == Registered(s.wal, item.origin, item.lsn, true);
        assert s'.wal[|s.wal|].kind == Mark(item.origin, item.lsn);
      }
    }
  }

  /** In every run without recovery, all registered syncpoints are logged. */
  lemma {:induction false} DirectRunLogged(st: Streams, w: Senders, me: nat, run: seq<State>, i: nat)
    requires Run(st, w, me, run) && i < |run| && forall j :: 0 <= j < |run| ==> NotRecovering(run[j])
    ensures RowsLogged(run[i].wal)
  {
    if i > 0 {
      DirectRunLogged(st, w, me, run, i - 1);
      assert StepAt(st, w, me, run, i - 1);
      StepLogged(st, w, me, run[i - 1], run[i]);
    }
  }

  /** So a node that never recovered, reading marked streams, is a donor with a marked stream. */
  lemma DirectNodeEmitsMarked(st: Streams, w: Senders, me: nat, run: seq<State>, i: nat, k: nat, l: Lsn)
    requires Run(st, w, me, run) && Marked(st, me) && i < |run| && forall j :: 0 <= j < |run| ==> NotRecovering(run[j])
    requires k < |Emitted(run[i].wal)| && Emitted(run[i].wal)[k].Tx?
    requires SyncOf(st, Emitted(run[i].wal)[k].origin, l) && l < Emitted(run[i].wal)[k].lsn
    ensures MarkBefore(Emitted(run[i].wal), k, Emitted(run[i].wal)[k].origin, l)
  {
    RunSafe(st, w, me, run, i);
    DirectRunLogged(st, w, me, run, i);
    LoggedEmitsMarked(st, run[i].wal, k, l);
  }
}

/**
  When streams are marked, that is, when every sender's WAL shows a syncpoint of an origin before
  the origin's changes beyond it, every run of ApplyRun applies nothing twice, keeps the second half
  of every row's contract, and skips what is applied.
 */
module ApplyMarked {
  import opened RecoveryFilter
  import opened ApplyRun
  import opened ApplyKept

  /** A syncpoint of o, at l or beyond, is among the first n items. */
  ghost predicate MarkBefore(s: seq<Item>, n: nat, o: nat, l: Lsn) {
    exists j :: 0 <= j < n <= |s| && s[j].Sync? && s[j].origin == o && s[j].lsn >= l
  }

  /** The syncpoints of its origin before a change are shown before it. */
  ghost predicate MarkedAt(st: Streams, me: nat, d: nat, k: nat)
    requires d in st && k < |st[d]|
  {
    st[d][k].Tx? && st[d][k].origin != me ==>
      forall l: Lsn {:trigger SyncOf(st, st[d][k].origin, l)} ::
        SyncOf(st, st[d][k].origin, l) && l < st[d][k].lsn ==> MarkBefore(st[d], k, st[d][k].origin, l)
  }

  ghost predicate Marked(st: Streams, me: nat) {
    forall d, k {:trigger MarkedAt(st, me, d, k)} :: d in st && 0 <= k < |st[d]| ==> MarkedAt(st, me, d, k)
  }

  /** The second half of a row's contract: what is beyond upTo lies at or after since. */
  ghost predicate SecondHalf(wal: seq<WalRecord>, o: nat, upTo: Lsn, since: Lsn) {
    forall k, l: Lsn {:trigger IsRecordOf(wal[k], o, l)} :: 0 <= k < |wal| && IsRecordOf(wal[k], o, l) && l > upTo ==> wal[k].start >= since
  }

  ghost predicate RecordSafe(st: Streams, wal: seq<WalRecord>, k: nat)
    requires k < |wal|
  {
    var r := wal[k];
    && (IsTransaction(r) && r.origin.Node? ==>
          && !Applied(wal[..k], r.origin.id, r.originLsn)
          && forall l: Lsn {:trigger SyncOf(st, r.origin.id, l)} :: SyncOf(st, r.origin.id, l) && l < r.originLsn ==> HasRow(wal[..k], r.origin.id, l))
    && (r.kind.Registration? ==> SecondHalf(wal[..k], r.kind.about, r.kind.upTo, r.kind.since))
  }

  ghost predicate WalSafe(st: Streams, wal: seq<WalRecord>) {
    forall k {:trigger RecordSafe(st, wal, k)} :: 0 <= k < |wal| ==> RecordSafe(st, wal, k)
  }

  /** A change being applied is not in the WAL; one to come is skipped if it is. */
  ghost predicate ItemSafe(st: Streams, me: nat, wal: seq<WalRecord>, d: nat, rc: Receiver, i: nat)
    requires d in st && i < |st[d]| && rc.Up?
  {
    Wanted(st, me, d, rc.mode, i) && st[d][i].Tx? && Applied(wal, st[d][i].origin, st[d][i].lsn) ==>
      i !in rc.inflight && (i >= rc.next ==> Skipped(st, me, d, rc, i))
  }

  ghost predicate ReceiverSafe(st: Streams, me: nat, wal: seq<WalRecord>, d: nat, rc: Receiver)
    requires d in st
  {
    rc.Up? ==> forall i {:trigger ItemSafe(st, me, wal, d, rc, i)} :: 0 <= i < |st[d]| ==> ItemSafe(st, me, wal, d, rc, i)
  }

  ghost predicate Safe(st: Streams, me: nat, s: State) {
    && Inv(st, me, s) && WalSafe(st, s.wal)
    && (forall d {:trigger ReceiverSafe(st, me, s.wal, d, s.receivers[d])} :: d in st ==> ReceiverSafe(st, me, s.wal, d, s.receivers[d]))
  }

  // ----- the WAL -----

  lemma SafePrefix(st: Streams, wal: seq<WalRecord>, n: nat)
    requires WalSafe(st, wal) && n <= |wal|
    ensures WalSafe(st, wal[..n])
  {
    forall k | 0 <= k < n
      ensures RecordSafe(st, wal[..n], k)
    {
      assert RecordSafe(st, wal, k);
      assert wal[..n][..k] == wal[..k];
    }
  }

  lemma SafeAppend(st: Streams, wal: seq<WalRecord>, r: WalRecord)
    requires WalSafe(st, wal) && RecordSafe(st, wal + [r], |wal|)
    ensures WalSafe(st, wal + [r])
  {
    forall k | 0 <= k < |wal + [r]|
      ensures RecordSafe(st, wal + [r], k)
    {
      if k < |wal| {
        assert RecordSafe(st, wal, k);
        assert (wal + [r])[..k] == wal[..k];
      }
    }
  }

  /** No change is in the WAL twice. */
  lemma AppliedOnce(st: Streams, wal: seq<WalRecord>, i: nat, j: nat, o: nat, l: Lsn)
    requires WalSafe(st, wal) && i < j < |wal| && IsRecordOf(wal[i], o, l)
    ensures !IsRecordOf(wal[j], o, l)
  {
    assert RecordSafe(st, wal, j);
    assert wal[..j][i] == wal[i];
  }

  /** A row keeps the second half of its contract from then on. */
  lemma SecondHolds(st: Streams, wal: seq<WalRecord>, r: nat)
    requires WalOK(st, wal) && WalSafe(st, wal) && r < |wal| && wal[r].kind.Registration?
    ensures SecondHalf(wal, wal[r].kind.about, wal[r].kind.upTo, wal[r].kind.since)
  {
    assert RecordOK(st, wal, r) && RecordSafe(st, wal, r);
    var row := wal[r].kind;
    forall k, l: Lsn | 0 <= k < |wal| && IsRecordOf(wal[k], row.about, l) && l > row.upTo
      ensures wal[k].start >= row.since
    {
      if k < r {
        assert wal[..r][k] == wal[k];
      } else {
        assert RecordOK(st, wal, k);
      }
    }
  }

  /** The syncpoint a receiver starts from meets the half of the contract that the filter relies on. */
  lemma LatestHolds(st: Streams, wal: seq<WalRecord>, o: nat)
    requires WalOK(st, wal) && WalSafe(st, wal)
    ensures SyncpointHolds(wal, o, LatestSp(wal, o), {})
  {
    LatestSpIs(wal, o);
    var sp := LatestSp(wal, o);
    if sp == Syncpoint(0, 1) {
      forall k, l: Lsn | 0 <= k < |wal| && IsRecordOf(wal[k], o, l)
        ensures wal[k].start >= 1
      {
        assert RecordOK(st, wal, k);
      }
    } else {
      var r :| 0 <= r < |wal| && IsRow(wal[r], o) && sp == Syncpoint(wal[r].kind.upTo, wal[r].kind.since);
      SecondHolds(st, wal, r);
    }
  }

  // ----- steps -----

  lemma StartSafe(st: Streams, me: nat, s: State, d: nat, mode: Mode, next: nat, filter: set<(nat, Lsn)>, from: Lsn)
    requires Safe(st, me, s) && Enabled(st, me, s, Start(d, mode, next, filter, from))
    ensures ReceiverSafe(st, me, s.wal, d, Up(mode, next, {}, filter, SpVector(st, s.wal, d, mode)))
  {
    var v := SpVector(st, s.wal, d, mode);
    var rc := Up(mode, next, {}, filter, v);
    forall i | 0 <= i < |st[d]|
      ensures ItemSafe(st, me, s.wal, d, rc, i)
    {
      var item := st[d][i];
      if Wanted(st, me, d, mode, i) && item.Tx? {
        WantedItem(st, me, d, mode, i);
        var o := item.origin;
        LatestHolds(st, s.wal, o);
        LatestLocal(st, s.wal, o);
        if Applied(s.wal, o, item.lsn) {
          AppliedIsSkipped(s.wal, filter, from, if mode.Recovery? then 0 else d, v, me, o, item.lsn);
        }
      }
    }
  }

  lemma TakeSafe(st: Streams, me: nat, s: State, d: nat)
    requires Safe(st, me, s) && Enabled(st, me, s, Take(d)) && !Registers(st, me, d, s.receivers[d])
    ensures ReceiverSafe(st, me, s.wal, d, Apply(st, me, s, Take(d)).receivers[d])
  {
    var rc, rc' := s.receivers[d], Apply(st, me, s, Take(d)).receivers[d];
    assert ReceiverSafe(st, me, s.wal, d, rc);
    forall i | 0 <= i < |st[d]|
      ensures ItemSafe(st, me, s.wal, d, rc', i)
    {
      assert ItemSafe(st, me, s.wal, d, rc, i);
    }
  }

  /** Logging what is no change leaves receivers safe. */
  lemma QuietSafe(st: Streams, me: nat, wal: seq<WalRecord>, wal': seq<WalRecord>, d: nat, rc: Receiver, rc': Receiver)
    requires d in st && ReceiverSafe(st, me, wal, d, rc) && wal <= wal'
    requires forall r :: |wal| <= r < |wal'| ==> !IsTransaction(wal'[r])
    requires rc.Up? && rc'.Up? ==> rc' == rc.(next := rc'.next) && rc.next <= rc'.next
    requires rc'.Up? ==> rc.Up?
    ensures ReceiverSafe(st, me, wal', d, rc')
  {
    if rc'.Up? {
      forall i | 0 <= i < |st[d]|
        ensures ItemSafe(st, me, wal', d, rc', i)
      {
        assert ItemSafe(st, me, wal, d, rc, i);
        if Applied(wal', st[d][i].origin, st[d][i].lsn) {
          var k :| 0 <= k < |wal'| && IsRecordOf(wal'[k], st[d][i].origin, st[d][i].lsn);
          assert wal[k] == wal'[k];
        }
      }
    }
  }

  /** A syncpoint about to be registered for the first time finds no change beyond it in the WAL. */
  lemma NothingBeyond(st: Streams, me: nat, s: State, d: nat, k: nat, l: Lsn)
    requires Safe(st, me, s) && Enabled(st, me, s, Take(d)) && Registers(st, me, d, s.receivers[d])
    requires !HasExactly(s.wal, st[d][s.receivers[d].next].origin, st[d][s.receivers[d].next].lsn)
    requires k < |s.wal| && IsRecordOf(s.wal[k], st[d][s.receivers[d].next].origin, l)
    ensures l <= st[d][s.receivers[d].next].lsn
  {
    var rc := s.receivers[d];
    var o, upTo := st[d][rc.next].origin, st[d][rc.next].lsn;
    WantedItem(st, me, d, rc.mode, rc.next);
    SyncNewest(st, me, s, d, |s.wal| + 1);
    assert !HasRow(s.wal, o, upTo);
    assert RecordSafe(st, s.wal, k);
    PrefixFacts(s.wal, k, o, upTo);
    assert HasRow(s.wal[..k], o, upTo) || l <= upTo;
  }

  lemma SyncSafeWal(st: Streams, me: nat, s: State, d: nat)
    requires Safe(st, me, s) && Enabled(st, me, s, Take(d)) && Registers(st, me, d, s.receivers[d])
    ensures WalSafe(st, Apply(st, me, s, Take(d)).wal)
  {
    var wal, rc := s.wal, s.receivers[d];
    var o, l := st[d][rc.next].origin, st[d][rc.next].lsn;
    var wal1 := if o == d then Logged(wal, Own, Mark(o, l), 0) else wal;
    if o == d {
      SafeAppend(st, wal, wal1[|wal|]);
    }
    if !HasExactly(wal, o, l) {
      var row := WalRecord(|wal1| + 1, Own, Registration(o, l, |wal1| + 1), 0);
      assert (wal1 + [row])[..|wal1|] == wal1;
      forall k, m: Lsn | 0 <= k < |wal1| && IsRecordOf(wal1[k], o, m)
        ensures m <= l
      {
        assert k < |wal| && wal[k] == wal1[k];
        NothingBeyond(st, me, s, d, k, m);
      }
      SafeAppend(st, wal1, row);
    }
  }

  lemma SyncSafe(st: Streams, me: nat, s: State, d: nat)
    requires Safe(st, me, s) && Enabled(st, me, s, Take(d)) && Registers(st, me, d, s.receivers[d])
    ensures Safe(st, me, Apply(st, me, s, Take(d)))
  {
    var s', item := Apply(st, me, s, Take(d)), st[d][s.receivers[d].next];
    SyncOK(st, me, s, d);
    SyncSafeWal(st, me, s, d);
    RegisteredHas(s.wal, item.origin, item.lsn, item.origin == d);
    forall x | x in st
      ensures ReceiverSafe(st, me, s'.wal, x, s'.receivers[x])
    {
      assert ReceiverSafe(st, me, s.wal, x, s.receivers[x]);
      QuietSafe(st, me, s.wal, s'.wal, x, s.receivers[x], s'.receivers[x]);
    }
  }

  /** The rows that must precede a change in the WAL are there. */
  lemma RowsBefore(st: Streams, me: nat, s: State, d: nat, i: nat, l: Lsn)
    requires Safe(st, me, s) && Marked(st, me) && Enabled(st, me, s, Finish(d, i))
    requires st[d][i].Tx? && Wanted(st, me, d, s.receivers[d].mode, i) && SyncOf(st, st[d][i].origin, l) && l < st[d][i].lsn
    ensures HasRow(s.wal, st[d][i].origin, l)
  {
    var rc, o := s.receivers[d], st[d][i].origin;
    assert MarkedAt(st, me, d, i) && MarkBefore(st[d], i, o, l);
    var j :| 0 <= j < i && st[d][j].Sync? && st[d][j].origin == o && st[d][j].lsn >= l;
    assert ReceiverOK(st, me, s.wal, d, rc) && InflightOK(st, me, d, rc, i) && SyncSeen(st, me, s.wal, d, rc, j);
    var r :| 0 <= r < |s.wal| && IsRow(s.wal[r], o) && s.wal[r].kind.upTo >= st[d][j].lsn;
  }

  lemma FinishSafeWal(st: Streams, me: nat, s: State, d: nat, i: nat)
    requires Safe(st, me, s) && Marked(st, me) && Enabled(st, me, s, Finish(d, i))
    ensures WalSafe(st, Apply(st, me, s, Finish(d, i)).wal)
  {
    FinishWal(st, me, s, d, i);
    var item := st[d][i];
    var r := WalRecord(|s.wal| + 1, Node(item.origin), item.kind, item.lsn);
    assert ReceiverSafe(st, me, s.wal, d, s.receivers[d]) && ItemSafe(st, me, s.wal, d, s.receivers[d], i);
    assert StreamOK(st, me, d) && ItemOK(st, me, d, i);
    assert (s.wal + [r])[..|s.wal|] == s.wal;
    forall l: Lsn | SyncOf(st, item.origin, l) && l < item.lsn
      ensures HasRow(s.wal, item.origin, l)
    {
      RowsBefore(st, me, s, d, i, l);
    }
    SafeAppend(st, s.wal, r);
  }

  /** Applying one change leaves other changes as they were. */
  lemma AppliedOther(wal: seq<WalRecord>, r: WalRecord, o: nat, l: Lsn)
    requires !IsRecordOf(r, o, l)
    ensures Applied(wal + [r], o, l) ==> Applied(wal, o, l)
  {
    if Applied(wal + [r], o, l) {
      var k :| 0 <= k < |wal + [r]| && IsRecordOf((wal + [r])[k], o, l);
      assert wal[k] == (wal + [r])[k];
    }
  }

  lemma FinishSafeReceiver(st: Streams, me: nat, s: State, d: nat, i: nat, x: nat)
    requires Safe(st, me, s) && Enabled(st, me, s, Finish(d, i)) && x in st
    requires st[d][i].Tx? && Wanted(st, me, d, s.receivers[d].mode, i)
    ensures var s' := Apply(st, me, s, Finish(d, i)); x in s'.receivers && ReceiverSafe(st, me, s'.wal, x, s'.receivers[x])
  {
    var s' := Apply(st, me, s, Finish(d, i));
    var rc, rc', r := s.receivers[x], s'.receivers[x], s'.wal[|s.wal|];
    assert ReceiverSafe(st, me, s.wal, x, rc) && StreamOK(st, me, d);
    assert ReceiverOK(st, me, s.wal, d, s.receivers[d]) && InflightOK(st, me, d, s.receivers[d], i);
    if rc'.Up? {
      assert x != d ==> rc.mode.Normal? && s.receivers[d].mode.Normal?;
      forall j | 0 <= j < |st[x]|
        ensures ItemSafe(st, me, s'.wal, x, rc', j)
      {
        assert ItemSafe(st, me, s.wal, x, rc, j);
        if Wanted(st, me, x, rc.mode, j) && st[x][j].Tx? && (x != d || j != i) {
          if x == d {
            assert i < j ==> PairOK(d, st[d][i], st[d][j]);
            assert j < i ==> PairOK(d, st[d][j], st[d][i]);
          }
          AppliedOther(s.wal, r, st[x][j].origin, st[x][j].lsn);
        }
      }
    }
  }

  lemma FinishSafe(st: Streams, me: nat, s: State, d: nat, i: nat)
    requires Safe(st, me, s) && Marked(st, me) && Enabled(st, me, s, Finish(d, i))
    ensures Safe(st, me, Apply(st, me, s, Finish(d, i)))
  {
    var s' := Apply(st, me, s, Finish(d, i));
    FinishOK(st, me, s, d, i);
    FinishWal(st, me, s, d, i);
    FinishSafeWal(st, me, s, d, i);
    forall x | x in st
      ensures ReceiverSafe(st, me, s'.wal, x, s'.receivers[x])
    {
      FinishSafeReceiver(st, me, s, d, i, x);
    }
  }

  lemma LogSafe(st: Streams, me: nat, s: State)
    requires Safe(st, me, s) && Enabled(st, me, s, Log)
    ensures Safe(st, me, Apply(st, me, s, Log))
  {
    var s' := Apply(st, me, s, Log);
    LogOK(st, me, s);
    SafeAppend(st, s.wal, s'.wal[|s.wal|]);
    forall x | x in st
      ensures ReceiverSafe(st, me, s'.wal, x, s'.receivers[x])
    {
      assert ReceiverSafe(st, me, s.wal, x, s.receivers[x]);
      QuietSafe(st, me, s.wal, s'.wal, x, s.receivers[x], s'.receivers[x]);
    }
  }

  lemma OthersSafe(st: Streams, me: nat, s: State, s': State, d: nat)
    requires Safe(st, me, s) && Inv(st, me, s') && s'.wal == s.wal && d in st
    requires forall x :: x in st && x != d ==> s'.receivers[x] == s.receivers[x]
    requires ReceiverSafe(st, me, s'.wal, d, s'.receivers[d])
    ensures Safe(st, me, s')
  {
    forall x | x in st
      ensures ReceiverSafe(st, me, s'.wal, x, s'.receivers[x])
    {
      assert x != d ==> ReceiverSafe(st, me, s.wal, x, s.receivers[x]);
    }
  }

  lemma StepSafe(st: Streams, w: Senders, me: nat, s: State, step: Step)
    requires Safe(st, me, s) && ValidSenders(st, w, me) && Marked(st, me) && Enabled(st, me, s, step) && Begins(st, w, me, s, step)
    ensures Safe(st, me, Apply(st, me, s, step))
  {
    var s' := Apply(st, me, s, step);
    StepInv(st, w, me, s, step);
    match step
    case Start(d, mode, next, filter, from) =>
      StartSafe(st, me, s, d, mode, next, filter, from);
      OthersSafe(st, me, s, s', d);
    case Take(d) =>
      if Registers(st, me, d, s.receivers[d]) {
        SyncSafe(st, me, s, d);
      } else {
        TakeSafe(st, me, s, d);
        OthersSafe(st, me, s, s', d);
      }
    case Finish(d, i) => FinishSafe(st, me, s, d, i);
    case Log => LogSafe(st, me, s);
    case Flush(n) =>
      forall x | x in st
        ensures ReceiverSafe(st, me, s'.wal, x, s'.receivers[x])
      {
        assert ReceiverSafe(st, me, s.wal, x, s.receivers[x]);
      }
    case Stop(d) => OthersSafe(st, me, s, s', d);
    case Crash(n) => SafePrefix(st, s.wal, n);
  }

  // ----- whole runs -----

  lemma NextSafe(st: Streams, w: Senders, me: nat, s: State, s': State)
    requires Safe(st, me, s) && ValidSenders(st, w, me) && Marked(st, me) && Next(st, w, me, s, s')
    ensures Safe(st, me, s')
  {
    var step :| Enabled(st, me, s, step) && Begins(st, w, me, s, step) && s' == Apply(st, me, s, step);
    StepSafe(st, w, me, s, step);
  }

  lemma {:induction false} RunSafe(st: Streams, w: Senders, me: nat, run: seq<State>, i: nat)
    requires Run(st, w, me, run) && Marked(st, me) && i < |run|
    ensures Safe(st, me, run[i])
  {
    if i > 0 {
      RunSafe(st, w, me, run, i - 1);
      assert StepAt(st, w, me, run, i - 1);
      NextSafe(st, w, me, run[i - 1], run[i]);
    }
  }

  /** With marked streams, in every run: nothing is applied twice. */
  lemma NothingRepeated(st: Streams, w: Senders, me: nat, run: seq<State>, i: nat, j: nat, k: nat, o: nat, l: Lsn)
    requires Run(st, w, me, run) && Marked(st, me) && i < |run| && j < k < |run[i].wal| && IsRecordOf(run[i].wal[j], o, l)
    ensures !IsRecordOf(run[i].wal[k], o, l)
  {
    RunSafe(st, w, me, run, i);
    AppliedOnce(st, run[i].wal, j, k, o, l);
  }

  /** With marked streams and nothing overtaken, in every run: what comes next is skipped if and only if it is in the WAL already. */
  lemma SkipsApplied(st: Streams, w: Senders, me: nat, run: seq<State>, i: nat, d: nat, k: nat)
    requires Run(st, w, me, run) && Marked(st, me) && NoneOvertaken(st, w, me) && i < |run| && d in st && d in run[i].receivers && run[i].receivers[d].Up?
    requires run[i].receivers[d].next <= k < |st[d]| && Wanted(st, me, d, run[i].receivers[d].mode, k) && st[d][k].Tx?
    ensures Skipped(st, me, d, run[i].receivers[d], k) <==> Applied(run[i].wal, st[d][k].origin, st[d][k].lsn)
  {
    RunSafe(st, w, me, run, i);
    var rc := run[i].receivers[d];
    assert ReceiverSafe(st, me, run[i].wal, d, rc) && ItemSafe(st, me, run[i].wal, d, rc, k);
    if Skipped(st, me, d, rc, k) {
      SkipsOnlyApplied(st, w, me, run, i, d, k);
    }
  }

  /** With marked streams and nothing overtaken, in every run: every registered syncpoint keeps both halves of its row's contract. */
  lemma RowsKeepContract(st: Streams, w: Senders, me: nat, run: seq<State>, i: nat, r: nat)
    requires Run(st, w, me, run) && Marked(st, me) && NoneOvertaken(st, w, me) && i < |run| && r < |run[i].wal| && run[i].wal[r].kind.Registration?
    ensures var row := run[i].wal[r].kind;
            FirstHalf(st, run[i].wal, row.about, row.upTo, row.since) && SecondHalf(run[i].wal, row.about, row.upTo, row.since)
  {
    RunSafe(st, w, me, run, i);
    RowsKeepFirstHalf(st, w, me, run, i, r);
    SecondHolds(st, run[i].wal, r);
  }
}
